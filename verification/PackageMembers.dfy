/** The members of a downloaded package: which ZIPs are accepted, and as what. */
module PackageMembers {
  import opened Wrappers
  import opened Text
  import opened Sorting
  import opened PackageNames
  import opened PackageStores

  /** A ZIP member; `data` is `None` where its bytes cannot be read. */
  datatype ZipEntry = ZipEntry(rawName: string, isDir: bool, data: Option<Bytes>)

  /** What is taken from libraries: the hexadecimal SHA-256, whether a raw header names a member with a
      reverse solidus, and the members of a ZIP, if it is one. */
  datatype Zip = Zip(
    sha: Bytes -> string,
    rawBackslash: Bytes -> bool,
    list: Bytes -> Option<seq<ZipEntry>>)

  datatype Member = Member(name: string, data: Bytes)

  // ----- Members -----

  /** Some member has this name in lower case. */
  predicate SameLower(members: seq<Member>, low: string) {
    exists i :: 0 <= i < |members| && Lower(members[i].name) == low
  }

  function Accept(allowed: set<string>, infos: seq<ZipEntry>): Result<seq<Member>, Rejection> {
    if infos == [] then Ok([])
    else
      var front, info := Accept(allowed, infos[..|infos| - 1]), infos[|infos| - 1];
      if front.Err? then front
      else
        match ValidateName(info.rawName, info.isDir, allowed)
        case Err(e) => Err(e)
        case Ok(name) =>
          if SameLower(front.value, Lower(name)) then Err(DuplicateEntry)
          else if info.data.None? then Err(InvalidZip)
          else Ok(front.value + [Member(name, info.data.value)])
  }

  predicate NameOrder(a: Member, b: Member) {
    LexLe(a.name, b.name)
  }

  function SafeMembers(z: Zip, allowed: set<string>, content: Bytes): Result<seq<Member>, Rejection> {
    if z.rawBackslash(content) then Err(BackslashEntry)
    else if z.list(content).None? then Err(InvalidZip)
    else
      match Accept(allowed, z.list(content).value)
      case Err(e) => Err(e)
      case Ok(members) => Ok(SortBy(NameOrder, members))
  }

  /** `allowed or DEFAULT`. */
  function Extensions(allowed: set<string>): set<string> {
    if allowed == {} then DEFAULT_EXTENSIONS else allowed
  }

  // ----- Which packages are accepted -----

  predicate Valid(allowed: set<string>, info: ZipEntry) {
    ValidateName(info.rawName, info.isDir, allowed).Ok? && info.data.Some?
  }

  function MemberOf(info: ZipEntry): Member {
    Member(PosixName(info.rawName), if info.data.Some? then info.data.value else [])
  }

  /** No two names differ by letter case at most. */
  predicate Apart(infos: seq<ZipEntry>) {
    forall i, j :: 0 <= i < j < |infos| ==> Lower(MemberOf(infos[i]).name) != Lower(MemberOf(infos[j]).name)
  }

  lemma ApartStep(infos: seq<ZipEntry>, members: seq<Member>)
    requires infos != [] && |members| == |infos| - 1
    requires forall i :: 0 <= i < |members| ==> members[i] == MemberOf(infos[i])
    ensures var n := |infos| - 1;
            Apart(infos) <==> Apart(infos[..n]) && !SameLower(members, Lower(MemberOf(infos[n]).name))
  {
    hide Lower, MemberOf;
    var n := |infos| - 1;
    assert forall i :: 0 <= i < n ==> infos[..n][i] == infos[i];
  }

  predicate AllValid(allowed: set<string>, infos: seq<ZipEntry>) {
    forall i :: 0 <= i < |infos| ==> Valid(allowed, infos[i])
  }

  lemma AllValidStep(allowed: set<string>, infos: seq<ZipEntry>)
    requires infos != []
    ensures AllValid(allowed, infos) <==> AllValid(allowed, infos[..|infos| - 1]) && Valid(allowed, infos[|infos| - 1])
  {
    hide Valid;
    var front := infos[..|infos| - 1];
    assert forall i :: 0 <= i < |front| ==> front[i] == infos[i];
  }

  /** The members as they are listed. */
  function ListedAs(infos: seq<ZipEntry>): (r: seq<Member>)
    ensures |r| == |infos|
  {
    seq(|infos|, i requires 0 <= i < |infos| => MemberOf(infos[i]))
  }

  /** A list of members is accepted exactly when each is valid and no two names differ by letter case at
      most; what is accepted is each member under its normalised name. */
  lemma {:induction false} AcceptExactly(allowed: set<string>, infos: seq<ZipEntry>)
    ensures Accept(allowed, infos).Ok? <==> AllValid(allowed, infos) && Apart(infos)
    ensures Accept(allowed, infos).Ok? ==> Accept(allowed, infos).value == ListedAs(infos)
  {
    if infos != [] {
      hide ValidateName, Lower, PosixName, Apart, SameLower, AllValid, ListedAs;
      var n := |infos| - 1;
      AcceptExactly(allowed, infos[..n]);
      AcceptedNameIsPosix(infos[n].rawName, infos[n].isDir, allowed);
      AllValidStep(allowed, infos);
      ListedStep(infos);
      if Accept(allowed, infos[..n]).Err? && Apart(infos) {
        ApartPrefix(infos, n);
      }
    }
  }

  /** An accepted member has the bytes of the entry it comes from, and a name of the same parts. */
  lemma AcceptedAsListed(allowed: set<string>, infos: seq<ZipEntry>, i: nat)
    requires Accept(allowed, infos).Ok? && i < |infos|
    ensures var ms := Accept(allowed, infos).value;
            |ms| == |infos| && Some(ms[i].data) == infos[i].data && Parts(ms[i].name) == Parts(infos[i].rawName)
  {
    AcceptExactly(allowed, infos);
    assert Valid(allowed, infos[i]);
    hide ValidateName, Parts, PosixName, Accept, Apart;
    NameIsNormal(infos[i].rawName);
  }

  /** A list of members is refused for its first unacceptable one: for its name if that is refused, else because
      an earlier member has the same name in lower case, else because its bytes cannot be read. */
  lemma {:induction false} FirstRefused(allowed: set<string>, infos: seq<ZipEntry>) returns (k: nat)
    requires Accept(allowed, infos).Err?
    ensures k < |infos| && Accept(allowed, infos[..k]).Ok?
    ensures var name := ValidateName(infos[k].rawName, infos[k].isDir, allowed);
            var twice := name.Ok? && exists i :: 0 <= i < k && Lower(PosixName(infos[i].rawName)) == Lower(name.value);
            && (name.Err? || twice || infos[k].data.None?)
            && Accept(allowed, infos).error
               == if name.Err? then name.error else if twice then DuplicateEntry else InvalidZip
  {
    hide ValidateName, Lower, PosixName;
    var n := |infos| - 1;
    var front := infos[..n];
    if Accept(allowed, front).Err? {
      k := FirstRefused(allowed, front);
      assert front[..k] == infos[..k] && forall i :: 0 <= i <= k ==> front[i] == infos[i];
    } else {
      k := n;
      AcceptExactly(allowed, front);
      var name, ms := ValidateName(infos[n].rawName, infos[n].isDir, allowed), Accept(allowed, front).value;
      assert forall i :: 0 <= i < n ==> front[i] == infos[i] && ms[i].name == PosixName(infos[i].rawName);
      if name.Ok? {
        assert SameLower(ms, Lower(name.value))
          <==> exists i :: 0 <= i < n && Lower(PosixName(infos[i].rawName)) == Lower(name.value);
      }
    }
  }

  lemma ListedStep(infos: seq<ZipEntry>)
    requires infos != []
    ensures var n := |infos| - 1; ListedAs(infos) == ListedAs(infos[..n]) + [MemberOf(infos[n])]
    ensures var n := |infos| - 1;
            Apart(infos) <==> Apart(infos[..n]) && !SameLower(ListedAs(infos[..n]), Lower(MemberOf(infos[n]).name))
  {
    hide MemberOf, Apart, SameLower, Lower, PosixName, ListedAs;
    ListedAppend(infos);
    ListedAt(infos[..|infos| - 1], infos);
    ApartStep(infos, ListedAs(infos[..|infos| - 1]));
  }

  lemma ListedAt(front: seq<ZipEntry>, infos: seq<ZipEntry>)
    requires front <= infos
    ensures forall i :: 0 <= i < |front| ==> ListedAs(front)[i] == MemberOf(infos[i])
  {
    hide MemberOf;
  }

  lemma ListedAppend(infos: seq<ZipEntry>)
    requires infos != []
    ensures var n := |infos| - 1; ListedAs(infos) == ListedAs(infos[..n]) + [MemberOf(infos[n])]
  {
    hide MemberOf;
    var n := |infos| - 1;
    var front := infos[..n];
    assert forall i :: 0 <= i < n ==> front[i] == infos[i];
    assert forall i :: 0 <= i < n ==> ListedAs(infos)[i] == ListedAs(front)[i];
  }

  lemma ApartPrefix(infos: seq<ZipEntry>, n: nat)
    requires n <= |infos| && Apart(infos)
    ensures Apart(infos[..n])
  {
    hide Lower, MemberOf;
    assert forall i :: 0 <= i < n ==> infos[..n][i] == infos[i];
  }

  lemma AcceptedNameIsPosix(raw: string, isDir: bool, allowed: set<string>)
    ensures var r := ValidateName(raw, isDir, allowed); r.Ok? ==> r.value == PosixName(raw)
  {
  }

  predicate DistinctNames(members: seq<Member>) {
    forall i, j :: 0 <= i < j < |members| ==> members[i].name != members[j].name
  }

  /** All members of a ZIP under their normalised names, whether they are acceptable or not. */
  function Listed(z: Zip, content: Bytes): seq<Member> {
    match z.list(content)
    case None => []
    case Some(infos) => ListedAs(infos)
  }

  /** The listed members in name order. */
  function Ordered(z: Zip, content: Bytes): (r: seq<Member>)
    ensures multiset(r) == multiset(Listed(z, content))
  {
    SortBy(NameOrder, Listed(z, content))
  }

  predicate GoodNames(members: seq<Member>) {
    forall i :: 0 <= i < |members| ==> GoodName(members[i].name)
  }

  /** Members as processing gets them. */
  predicate Proper(members: seq<Member>) {
    DistinctNames(members) && GoodNames(members)
  }

  /** Accepted members are those that are listed, with distinct names, in name order. */
  lemma SafeMembersAre(z: Zip, allowed: set<string>, content: Bytes)
    requires SafeMembers(z, allowed, content).Ok?
    ensures var ms := SafeMembers(z, allowed, content).value;
            && multiset(ms) == multiset(Listed(z, content)) && Sorted(NameOrder, ms)
            && ms == Ordered(z, content) && Proper(ms)
  {
    var infos := z.list(content).value;
    var ms := Accept(allowed, infos).value;
    AcceptExactly(allowed, infos);
    hide Accept, SortBy, LexLe, Apart;
    assert ms == Listed(z, content);
    NameOrderIsTotal();
    SortBySorted(NameOrder, ms);
    ApartIsDistinct(infos);
    DistinctSurvives(ms, SortBy(NameOrder, ms));
    ValidIsGood(allowed, infos);
    GoodSurvives(ms, SortBy(NameOrder, ms));
  }

  lemma ApartIsDistinct(infos: seq<ZipEntry>)
    requires Apart(infos)
    ensures DistinctNames(ListedAs(infos))
  {
    hide Lower, MemberOf;
    assert forall i :: 0 <= i < |infos| ==> ListedAs(infos)[i] == MemberOf(infos[i]);
  }

  lemma ValidIsGood(allowed: set<string>, infos: seq<ZipEntry>)
    requires AllValid(allowed, infos)
    ensures GoodNames(ListedAs(infos))
  {
    hide ValidateName, PosixName;
    forall i | 0 <= i < |infos|
      ensures GoodName(ListedAs(infos)[i].name)
    {
      assert Valid(allowed, infos[i]);
      AcceptedNameIsPosix(infos[i].rawName, infos[i].isDir, allowed);
      AcceptedNameIsSafe(infos[i].rawName, infos[i].isDir, allowed);
      NameIsNormal(infos[i].rawName);
    }
  }

  lemma GoodSurvives(a: seq<Member>, b: seq<Member>)
    requires multiset(a) == multiset(b) && GoodNames(a)
    ensures GoodNames(b)
  {
    hide GoodName;
    forall i | 0 <= i < |b|
      ensures GoodName(b[i].name)
    {
      assert b[i] in multiset(a);
    }
  }

  lemma NameOrderIsTotal()
    ensures TotalPreorder(NameOrder)
  {
    forall x, y ensures NameOrder(x, y) || NameOrder(y, x) {
      LexLeTotal(x.name, y.name);
    }
    forall x, y, z | NameOrder(x, y) && NameOrder(y, z) ensures NameOrder(x, z) {
      LexLeTransitive(x.name, y.name, z.name);
    }
  }

  /** Distinctness of names does not depend on the order of the members. */
  lemma {:induction false} DistinctSurvives(a: seq<Member>, b: seq<Member>)
    requires multiset(a) == multiset(b) && DistinctNames(a)
    ensures DistinctNames(b)
  {
    forall i, j | 0 <= i < j < |b|
      ensures b[i].name != b[j].name
    {
      if b[i].name == b[j].name {
        assert b[i] in multiset(a) && b[j] in multiset(a);
        var k :| 0 <= k < |a| && a[k] == b[i];
        var l :| 0 <= l < |a| && a[l] == b[j];
        assert k == l;
        AtMostOne(a, k);
        TwicePlaced(b, i, j);
      }
    }
  }

  lemma AtMostOne(a: seq<Member>, k: nat)
    requires DistinctNames(a) && k < |a|
    ensures multiset(a)[a[k]] == 1
  {
    assert a == a[..k] + [a[k]] + a[k + 1..];
    assert a[k] !in a[..k];
    assert a[k] !in a[k + 1..];
  }
}
