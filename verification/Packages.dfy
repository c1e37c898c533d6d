/** Processing of one downloaded package: what it stores, when it fails, and what it leaves then. */
module Packages {
  import opened Wrappers
  import opened Text
  import opened Sorting
  import opened PackageNames
  import opened PackageStores
  import opened PackageMembers
  import opened NameSpelling

  datatype Entry = Entry(name: string, kind: string, sha: string, size: nat, storageKey: string, written: bool)

  datatype Processed = Processed(
    packageId: string, sha: string, size: nat, storageKey: string, written: bool, entries: seq<Entry>)

  function Short(sha: string): string {
    if |sha| <= 12 then sha else sha[..12]
  }

  function Stem(z: Zip, segment: string, content: Bytes): string {
    segment + "-" + Short(z.sha(content))
  }

  function StripDots(s: string): string {
    if s != "" && s[0] == '.' then StripDots(s[1..]) else s
  }

  function EntryOf(z: Zip, stem: string, m: Member, written: bool): Entry {
    Entry(m.name, Lower(StripDots(Suffix(m.name))), z.sha(m.data), |m.data|, EntryKey(stem, m.name), written)
  }

  /** How far the loop over the members came. */
  datatype Progress = Progress(store: Storage, entries: seq<Entry>, error: Option<Rejection>)

  function WriteAll(z: Zip, s: Storage, stem: string, members: seq<Member>): Progress {
    if members == [] then Progress(s, [], None)
    else
      var front, m := WriteAll(z, s, stem, members[..|members| - 1]), members[|members| - 1];
      if front.error.Some? then front
      else
        match Put(z.sha, front.store, EntryKey(stem, m.name), m.data)
        case Err(e) => front.(error := Some(e))
        case Ok((after, written)) => Progress(after, front.entries + [EntryOf(z, stem, m, written)], None)
  }

  /** `process_sat_package`, on either store. */
  function Process(z: Zip, s: Storage, id: string, allowed: set<string>, content: Bytes)
    : (Storage, Result<Processed, Rejection>)
  {
    match Segment(id)
    case Err(e) => (s, Err(e))
    case Ok(segment) =>
      var stem := Stem(z, segment, content);
      match SafeMembers(z, Extensions(allowed), content)
      case Err(e) => (s, Err(e))
      case Ok(members) =>
        match Put(z.sha, s, PackageKey(stem), content)
        case Err(e) => (s, Err(e))
        case Ok((stored, written)) =>
          var done := WriteAll(z, stored, stem, members);
          (done.store,
           if done.error.Some? then Err(done.error.value)
           else Ok(Processed(id, z.sha(content), |content|, PackageKey(stem), written, done.entries)))
  }

  // ----- Names in the way of each other -----

  predicate InTheWay(members: seq<Member>, name: string) {
    exists j :: 0 <= j < |members| && Clash(members[j].name, name)
  }

  /** How many members a local store takes: all before the first that clashes with one before it. */
  function Reach(members: seq<Member>): (r: nat)
    ensures r <= |members|
  {
    if members == [] then 0
    else
      var front := members[..|members| - 1];
      if Reach(front) < |front| || InTheWay(front, members[|members| - 1].name) then Reach(front) else |members|
  }

  function ReachIn(s: Storage, members: seq<Member>): (r: nat)
    ensures r <= |members|
  {
    if s.Memory? then |members| else Reach(members)
  }

  /** Some member's name is a folder of another member's. */
  predicate Nested(members: seq<Member>) {
    exists i, j :: 0 <= i < j < |members| && Clash(members[i].name, members[j].name)
  }

  lemma {:induction false} ReachStops(members: seq<Member>)
    ensures var r := Reach(members);
            && (forall i, j :: 0 <= i < j < r ==> !Clash(members[i].name, members[j].name))
            && (r < |members| ==> InTheWay(members[..r], members[r].name))
  {
    hide Clash;
    if members != [] {
      var n := |members| - 1;
      ReachStops(members[..n]);
      assert forall i :: 0 <= i < n ==> members[..n][i] == members[i];
      var r := Reach(members);
      if r < |members| {
        assert r <= n && members[..n][..r] == members[..r];
      }
    }
  }

  /** The local store takes all members exactly when no name is a folder of another. */
  lemma ReachExactly(members: seq<Member>)
    ensures Reach(members) == |members| <==> !Nested(members)
  {
    hide Clash;
    ReachStops(members);
    var r := Reach(members);
    if r < |members| {
      var j :| 0 <= j < |members[..r]| && Clash(members[..r][j].name, members[r].name);
      assert Clash(members[j].name, members[r].name);
    }
  }

  lemma {:induction false} JoinConcat(a: seq<string>, b: seq<string>)
    requires a != [] && b != []
    ensures PackageNames.Join(a + b) == PackageNames.Join(a) + "/" + PackageNames.Join(b)
  {
    JoinFirst(a[0], a[1..] + b);
    assert a + b == [a[0]] + (a[1..] + b);
    if |a| == 1 {
      assert a[1..] + b == b;
    } else {
      hide PackageNames.Join;
      JoinFirst(a[0], a[1..]);
      assert a == [a[0]] + a[1..];
      JoinConcat(a[1..], b);
      Regroup(a[0] + "/", PackageNames.Join(a[1..]), "/", PackageNames.Join(b));
    }
  }

  /** Among accepted names other than `.`, one is a folder of another exactly when it is a prefix of it
      up to a slash. */
  lemma ClashIsPrefix(n: string, m: string)
    requires GoodName(n) && GoodName(m) && n != "." && m != "."
    ensures Below(Parts(n), Parts(m)) <==> n + "/" <= m
  {
    hide Split, PackageNames.Join, Filter;
    PartsArePlain(n);
    if Below(Parts(n), Parts(m)) {
      var rest := Parts(m)[|Parts(n)|..];
      assert Parts(m) == Parts(n) + rest;
      JoinConcat(Parts(n), rest);
    }
    if n + "/" <= m {
      assert m == n + "/" + m[|n| + 1..];
      FolderOf(n, m[|n| + 1..]);
    }
  }

  lemma FolderOf(n: string, rest: string)
    requires GoodName(n) && GoodName(n + "/" + rest) && n != "."
    ensures Below(Parts(n), Parts(n + "/" + rest))
  {
    hide Split, PackageNames.Join, Filter;
    SplitConcat(n, rest);
    FilterConcat(Split(n), Split(rest));
    assert Parts(n + "/" + rest) == Parts(n) + Parts(rest);
    assert Parts(n) + [] == Parts(n);
  }

  /** The name `.` stands for the folder of all members, so it clashes with every other name. */
  lemma DotClashes(m: string)
    requires GoodName(m)
    ensures Clash(".", m) <==> m != "."
  {
    hide Split, PackageNames.Join, Filter;
    DotHasNoParts();
  }

  // ----- What a store holds of a package -----

  /** The data of the member of that name. */
  function Among(members: seq<Member>, name: string): Option<Bytes> {
    if members == [] then None
    else if members[|members| - 1].name == name then Some(members[|members| - 1].data)
    else Among(members[..|members| - 1], name)
  }

  lemma {:induction false} AmongIs(members: seq<Member>, name: string)
    ensures Among(members, name).Some? <==> exists j :: 0 <= j < |members| && members[j].name == name
    ensures DistinctNames(members) ==>
              forall j :: 0 <= j < |members| && members[j].name == name ==>
                Among(members, name) == Some(members[j].data)
  {
    if members != [] {
      var n := |members| - 1;
      AmongIs(members[..n], name);
      assert forall j :: 0 <= j < n ==> members[..n][j] == members[j];
    }
  }

  /** Under this stem the store holds these members and no others. */
  ghost predicate Holds(s: Storage, stem: string, members: seq<Member>) {
    forall n :: GoodName(n) ==> Held(s, EntryKey(stem, n)) == Among(members, n)
  }

  /** Every place outside this package is as before. */
  ghost predicate SameElsewhere(s: Storage, after: Storage, stem: string) {
    forall t :: Good(t) && t.stem != stem ==> Held(after, KeyOf(t)) == Held(s, KeyOf(t))
  }

  /** The state after `k` members, when the package is new or was processed before. */
  ghost predicate Wrote(z: Zip, s: Storage, stem: string, all: seq<Member>, k: nat, isNew: bool)
    requires k <= |all|
  {
    var p, r := WriteAll(z, s, stem, all[..k]), ReachIn(s, all);
    && p.error == (if k <= r then None else Some(Blocked))
    && p.store.Local? == s.Local? && Tidy(p.store)
    && (if isNew then Holds(p.store, stem, all[..Min(k, r)]) else p.store == s)
    && SameElsewhere(s, p.store, stem) && Held(p.store, PackageKey(stem)) == Held(s, PackageKey(stem))
    && |p.entries| == Min(k, r)
    && forall i :: 0 <= i < Min(k, r) ==> p.entries[i] == EntryOf(z, stem, all[i], isNew)
  }

  /** Whether a member is obstructed depends on the members stored so far. */
  lemma ObstructedByMembers(s: Storage, stem: string, stored: seq<Member>, name: string)
    requires s.Local? && Holds(s, stem, stored) && GoodNames(stored)
    ensures Obstructed(s, MemberSlot(stem, name)) <==> InTheWay(stored, name)
  {
    hide Clash, GoodName, Held;
    if InTheWay(stored, name) {
      var j :| 0 <= j < |stored| && Clash(stored[j].name, name);
      AmongIs(stored, stored[j].name);
    }
    if Obstructed(s, MemberSlot(stem, name)) {
      var n :| GoodName(n) && Held(s, EntryKey(stem, n)).Some? && Clash(n, name);
      AmongIs(stored, n);
    }
  }

  /** Writing one more member. */
  lemma WriteNext(z: Zip, s: Storage, stem: string, stored: seq<Member>, m: Member)
    requires Tidy(s) && GoodStem(stem) && Holds(s, stem, stored) && GoodNames(stored) && GoodName(m.name)
    requires forall j :: 0 <= j < |stored| && stored[j].name == m.name ==> Among(stored, m.name) == Some(m.data)
    ensures var stuck := s.Local? && InTheWay(stored, m.name);
            var isNew := Among(stored, m.name).None?;
            match Put(z.sha, s, EntryKey(stem, m.name), m.data)
            case Err(e) => stuck && e == Blocked
            case Ok((after, wrote)) =>
              && !stuck && wrote == isNew && after.Local? == s.Local? && Tidy(after)
              && (if isNew then Holds(after, stem, stored + [m]) else after == s)
              && SameElsewhere(s, after, stem) && Held(after, PackageKey(stem)) == Held(s, PackageKey(stem))
  {
    hide Clash, GoodName, GoodStem, Held, Put, Obstructed, EntryKey, PackageKey, InTheWay, Tidy, SameBytes;
    var slot := MemberSlot(stem, m.name);
    KeyOfMember(stem, m.name);
    PutSlot(z.sha, s, slot, m.data);
    if s.Local? {
      ObstructedByMembers(s, stem, stored, m.name);
    } else {
      NotObstructed(s, slot);
    }
    AmongIs(stored, m.name);
    SameBytesReflexive(z.sha, s, m.data);
    var r := Put(z.sha, s, EntryKey(stem, m.name), m.data);
    if r.Ok? {
      KeyOfPackage(stem);
      assert Good(PackageSlot(stem));
      if r.value.1 {
        HoldsMore(s, r.value.0, stem, stored, m);
      }
    }
  }

  lemma SameBytesReflexive(sha: Bytes -> string, s: Storage, content: Bytes)
    ensures SameBytes(sha, s, content, content)
  {
  }

  lemma HoldsMore(s: Storage, after: Storage, stem: string, stored: seq<Member>, m: Member)
    requires GoodStem(stem) && Holds(s, stem, stored)
    requires forall t :: Good(t) ==>
               Held(after, KeyOf(t)) == if t == MemberSlot(stem, m.name) then Some(m.data) else Held(s, KeyOf(t))
    ensures Holds(after, stem, stored + [m])
  {
    hide GoodName, GoodStem, Held, EntryKey, PackageKey;
    assert (stored + [m])[..|stored|] == stored;
    forall n | GoodName(n)
      ensures Held(after, EntryKey(stem, n)) == Among(stored + [m], n)
    {
      KeyOfMember(stem, n);
      assert Good(MemberSlot(stem, n));
    }
  }

  lemma WriteAllUnfold(z: Zip, s: Storage, stem: string, front: seq<Member>, m: Member)
    ensures var p := WriteAll(z, s, stem, front);
            WriteAll(z, s, stem, front + [m]) ==
            if p.error.Some? then p
            else match Put(z.sha, p.store, EntryKey(stem, m.name), m.data)
              case Err(e) => p.(error := Some(e))
              case Ok((after, written)) => Progress(after, p.entries + [EntryOf(z, stem, m, written)], None)
  {
    assert (front + [m])[..|front|] == front;
  }

  lemma PrefixFacts(all: seq<Member>, r: nat, k: nat)
    requires Proper(all) && k <= r <= |all| && k < |all|
    ensures GoodNames(all[..r]) && GoodName(all[k].name)
    ensures DistinctNames(all[..r]) && (forall j :: 0 <= j < k ==> all[j].name != all[k].name)
    ensures Among(all[..k], all[k].name).None?
    ensures k < r ==> Among(all[..r], all[k].name) == Some(all[k].data)
  {
    hide GoodName;
    AmongIs(all[..k], all[k].name);
    AmongIs(all[..r], all[k].name);
    if k < r {
      assert all[..r][k] == all[k];
    }
  }

  lemma NoneInTheWay(s: Storage, all: seq<Member>, k: nat)
    requires k < |all|
    ensures var r := ReachIn(s, all);
            && (k < r && s.Local? ==> !InTheWay(all[..r], all[k].name) && !InTheWay(all[..k], all[k].name))
            && (k == r ==> s.Local? && InTheWay(all[..r], all[k].name))
  {
    hide Clash;
    ReachStops(all);
    var r := ReachIn(s, all);
    if k < r && s.Local? {
      forall j | 0 <= j < r
        ensures !Clash(all[..r][j].name, all[k].name)
      {
        if j == k {
          NoSelfClash(all[k].name);
        } else {
          ClashIsSymmetric(all[j].name, all[k].name);
        }
      }
      assert forall j :: 0 <= j < k ==> all[..k][j] == all[..r][j];
    }
  }

  lemma NoSelfClash(n: string)
    ensures !Clash(n, n)
  {
  }

  lemma ClashIsSymmetric(n: string, m: string)
    ensures Clash(n, m) <==> Clash(m, n)
  {
  }

  lemma {:induction false} WriteAllOutcome(z: Zip, s: Storage, stem: string, all: seq<Member>, k: nat, isNew: bool)
    requires Tidy(s) && GoodStem(stem) && Proper(all) && k <= |all|
    requires Holds(s, stem, if isNew then [] else all[..ReachIn(s, all)])
    ensures Wrote(z, s, stem, all, k, isNew)
  {
    hide Wrote, Proper, Tidy, GoodStem, Holds, ReachIn;
    if k == 0 {
      NothingWritten(z, s, stem, all, isNew);
    } else {
      WriteAllOutcome(z, s, stem, all, k - 1, isNew);
      if k - 1 <= ReachIn(s, all) {
        WriteAllStep(z, s, stem, all, k - 1, isNew);
      } else {
        WriteAllStuck(z, s, stem, all, k - 1, isNew);
      }
    }
  }

  lemma NothingWritten(z: Zip, s: Storage, stem: string, all: seq<Member>, isNew: bool)
    requires Tidy(s) && (isNew ==> Holds(s, stem, []))
    ensures Wrote(z, s, stem, all, 0, isNew)
  {
    hide Tidy, Held, ReachIn, GoodStem, GoodName, EntryKey, PackageKey;
    assert all[..0] == [];
  }

  lemma WriteAllStuck(z: Zip, s: Storage, stem: string, all: seq<Member>, k: nat, isNew: bool)
    requires ReachIn(s, all) < k < |all| && Wrote(z, s, stem, all, k, isNew)
    ensures Wrote(z, s, stem, all, k + 1, isNew)
  {
    hide Tidy, Held, ReachIn, GoodStem, GoodName, EntryKey, PackageKey, WriteAll, Holds, EntryOf;
    assert all[..k + 1] == all[..k] + [all[k]];
    WriteAllUnfold(z, s, stem, all[..k], all[k]);
  }

  lemma WriteAllStep(z: Zip, s: Storage, stem: string, all: seq<Member>, k: nat, isNew: bool)
    requires Tidy(s) && GoodStem(stem) && Proper(all) && k < |all| && k <= ReachIn(s, all)
    requires Holds(s, stem, if isNew then [] else all[..ReachIn(s, all)])
    requires Wrote(z, s, stem, all, k, isNew)
    ensures Wrote(z, s, stem, all, k + 1, isNew)
  {
    hide GoodName, GoodStem, Held, Put, EntryKey, PackageKey, EntryOf, ReachIn, Reach, WriteAll, InTheWay, Tidy, Among;
    var r, m := ReachIn(s, all), all[k];
    var p := WriteAll(z, s, stem, all[..k]);
    var stored := if isNew then all[..k] else all[..r];
    PrefixFacts(all, r, k);
    PrefixFacts(all, k, k);
    NoneInTheWay(s, all, k);
    NoneInTheWayLocal(s, p.store, all);
    assert all[..k + 1] == all[..k] + [m];
    WriteAllUnfold(z, s, stem, all[..k], m);
    WriteNext(z, p.store, stem, stored, m);
  }

  lemma NoneInTheWayLocal(s: Storage, t: Storage, all: seq<Member>)
    requires s.Local? == t.Local?
    ensures ReachIn(s, all) == ReachIn(t, all)
  {
  }

  // ----- One package -----

  /** Digests are hexadecimal and at least twelve digits long. */
  ghost predicate HexDigests(z: Zip) {
    forall c :: |z.sha(c)| >= 12 && forall i :: 0 <= i < |z.sha(c)| ==> IsHex(z.sha(c)[i])
  }

  /** What a store holds of one package: nothing, or the package and as many members as can be stored. */
  ghost predicate WholeAt(z: Zip, s: Storage, stem: string) {
    match Held(s, PackageKey(stem))
    case None => Holds(s, stem, [])
    case Some(c) => Proper(Ordered(z, c)) && Holds(s, stem, Ordered(z, c)[..ReachIn(s, Ordered(z, c))])
  }

  ghost predicate Whole(z: Zip, s: Storage) {
    Tidy(s) && forall stem :: GoodStem(stem) ==> WholeAt(z, s, stem)
  }

  ghost predicate Extends(s: Storage, after: Storage) {
    forall t :: Good(t) && Held(s, KeyOf(t)).Some? ==> Held(after, KeyOf(t)) == Held(s, KeyOf(t))
  }

  predicate Acceptable(z: Zip, id: string, allowed: set<string>, content: Bytes) {
    Segment(id).Ok? && SafeMembers(z, Extensions(allowed), content).Ok?
  }

  function StemFor(z: Zip, id: string, content: Bytes): string
    requires Segment(id).Ok?
  {
    Stem(z, Segment(id).value, content)
  }

  /** What is stored under the key of this package. */
  function Earlier(z: Zip, s: Storage, id: string, content: Bytes): Option<Bytes>
    requires Segment(id).Ok?
  {
    Held(s, PackageKey(StemFor(z, id, content)))
  }

  /** The result of processing, from the kind of the store and the bytes under the package's key alone. */
  function Fate(z: Zip, local: bool, earlier: Option<Bytes>, id: string, allowed: set<string>, content: Bytes)
    : Result<Processed, Rejection>
  {
    match Segment(id)
    case Err(e) => Err(e)
    case Ok(segment) =>
      match SafeMembers(z, Extensions(allowed), content)
      case Err(e) => Err(e)
      case Ok(members) =>
        var stem, isNew := Stem(z, segment, content), earlier.None?;
        if earlier.Some? && earlier.value != content then Err(Collision)
        else if local && Nested(members) then Err(Blocked)
        else
          var entries := seq(|members|, i requires 0 <= i < |members| => EntryOf(z, stem, members[i], isNew));
          Ok(Processed(id, z.sha(content), |content|, PackageKey(stem), isNew, entries))
  }

  lemma StemIsGood(z: Zip, id: string, content: Bytes)
    requires HexDigests(z) && Segment(id).Ok?
    ensures GoodStem(StemFor(z, id, content))
  {
    SegmentIsSafe(id);
    hide Segment;
    var stem, safe, digest := StemFor(z, id, content), Segment(id).value, z.sha(content);
    assert |Short(digest)| == 12;
    forall i | 0 <= i < |stem|
      ensures IsSafeChar(stem[i])
    {
      if i < |safe| {
        assert safe[i] in safe;
      } else if i > |safe| {
        assert IsHex(digest[i - |safe| - 1]);
      }
    }
    assert IsHex(digest[11]);
  }

  /** A local store compares digests, so it can take other bytes for the stored ones only if the two share
      a digest. */
  predicate ToldFrom(z: Zip, s: Storage, earlier: Option<Bytes>, content: Bytes) {
    s.Local? && earlier.Some? && z.sha(earlier.value) == z.sha(content) ==> earlier.value == content
  }

  lemma WholeKeeps(z: Zip, s: Storage, after: Storage, stem: string)
    requires Whole(z, s) && Tidy(after) && s.Local? == after.Local? && SameElsewhere(s, after, stem)
    requires WholeAt(z, after, stem)
    ensures Whole(z, after)
  {
    hide GoodName, GoodStem, Held, EntryKey, PackageKey, Tidy, Proper, Ordered;
    forall t | GoodStem(t)
      ensures WholeAt(z, after, t)
    {
      if t != stem {
        KeyOfPackage(t);
        assert Good(PackageSlot(t));
        assert WholeAt(z, s, t);
        forall n | GoodName(n)
          ensures Held(after, EntryKey(t, n)) == Held(s, EntryKey(t, n))
        {
          KeyOfMember(t, n);
          assert Good(MemberSlot(t, n));
        }
      }
    }
  }

  lemma ExtendsFrom(s: Storage, after: Storage, stem: string)
    requires SameElsewhere(s, after, stem) && Holds(s, stem, []) && Held(s, PackageKey(stem)).None?
    ensures Extends(s, after)
  {
    hide GoodName, GoodStem, Held, EntryKey, PackageKey;
    forall t | Good(t) && Held(s, KeyOf(t)).Some?
      ensures t.stem != stem
    {
      KeyOfPackage(stem);
      if t.MemberSlot? {
        KeyOfMember(t.stem, t.name);
      }
    }
  }

  /** The store after the package itself was put. */
  lemma PutPackage(z: Zip, s: Storage, stem: string, content: Bytes)
    requires Tidy(s) && GoodStem(stem)
    ensures var held := Held(s, PackageKey(stem));
            match Put(z.sha, s, PackageKey(stem), content)
            case Err(e) => e == Collision && held.Some? && !SameBytes(z.sha, s, held.value, content)
            case Ok((after, wrote)) =>
              && wrote == held.None? && Tidy(after) && after.Local? == s.Local?
              && (held.Some? ==> SameBytes(z.sha, s, held.value, content) && after == s)
              && (held.None? ==> Held(after, PackageKey(stem)) == Some(content) && SameElsewhere(s, after, stem)
                                 && forall n :: GoodName(n) ==>
                                      Held(after, EntryKey(stem, n)) == Held(s, EntryKey(stem, n)))
  {
    hide GoodName, GoodStem, Held, Put, Obstructed, EntryKey, PackageKey, Tidy, SameBytes;
    var slot := PackageSlot(stem);
    KeyOfPackage(stem);
    assert Good(slot);
    PutSlot(z.sha, s, slot, content);
    NoPackageObstructed(s, stem);
    forall n | GoodName(n)
      ensures Good(MemberSlot(stem, n)) && KeyOf(MemberSlot(stem, n)) == EntryKey(stem, n)
    {
      KeyOfMember(stem, n);
    }
  }

  lemma NoPackageObstructed(s: Storage, stem: string)
    ensures !Obstructed(s, PackageSlot(stem))
  {
  }

  /** Writing the members of a package that was just stored, or that was stored before. */
  lemma MembersOutcome(z: Zip, s: Storage, stem: string, content: Bytes, members: seq<Member>, isNew: bool)
    requires Tidy(s) && GoodStem(stem) && members == Ordered(z, content) && Proper(members)
    requires Held(s, PackageKey(stem)) == Some(content)
    requires Holds(s, stem, if isNew then [] else members[..ReachIn(s, members)])
    ensures var p := WriteAll(z, s, stem, members);
            && Tidy(p.store) && p.store.Local? == s.Local?
            && SameElsewhere(s, p.store, stem) && WholeAt(z, p.store, stem)
            && Held(p.store, PackageKey(stem)) == Some(content) && (!isNew ==> p.store == s)
            && p.error == (if s.Local? && Nested(members) then Some(Blocked) else None)
            && (p.error.None? ==>
                  p.entries == seq(|members|, i requires 0 <= i < |members| => EntryOf(z, stem, members[i], isNew)))
  {
    hide GoodName, GoodStem, Held, EntryKey, PackageKey, Tidy, Proper, WriteAll, Ordered, Nested, EntryOf;
    WriteAllOutcome(z, s, stem, members, |members|, isNew);
    assert members[..|members|] == members;
    ReachExactly(members);
    var p, r := WriteAll(z, s, stem, members), ReachIn(s, members);
    NoneInTheWayLocal(s, p.store, members);
    assert Min(|members|, r) == r;
    assert Wrote(z, s, stem, members, |members|, isNew);
    assert Holds(p.store, stem, members[..r]);
  }

  /** Processing an acceptable package whose key is free or holds the same bytes. */
  lemma ProcessTaken(z: Zip, s: Storage, id: string, allowed: set<string>, content: Bytes)
    requires HexDigests(z) && Whole(z, s) && Acceptable(z, id, allowed, content)
    requires var earlier := Earlier(z, s, id, content); earlier.None? || earlier.value == content
    ensures var (after, r) := Process(z, s, id, allowed, content);
            var earlier := Earlier(z, s, id, content);
            && r == Fate(z, s.Local?, earlier, id, allowed, content)
            && Whole(z, after) && after.Local? == s.Local? && Extends(s, after)
            && (earlier.Some? ==> after == s) && (earlier.None? ==> after != s)
            && Held(after, PackageKey(StemFor(z, id, content))) == Some(content)
            && SameElsewhere(s, after, StemFor(z, id, content))
  {
    hide GoodName, GoodStem, Held, EntryKey, PackageKey, Tidy, Proper, WriteAll, Ordered, Nested, EntryOf, Segment,
         Stem, SafeMembers, Put, ReachIn, Holds, SameElsewhere, Extends, WholeAt;
    var stem := StemFor(z, id, content);
    var members := SafeMembers(z, Extensions(allowed), content).value;
    StemIsGood(z, id, content);
    SafeMembersAre(z, Extensions(allowed), content);
    PutPackage(z, s, stem, content);
    SameBytesReflexive(z.sha, s, content);
    var earlier, stored := Held(s, PackageKey(stem)), Put(z.sha, s, PackageKey(stem), content).value.0;
    assert WholeAt(z, s, stem);
    WholeHolds(z, s, stem, content);
    if earlier.None? {
      StillNothing(s, stored, stem);
    }
    MembersOutcome(z, stored, stem, content, members, earlier.None?);
    var after := WriteAll(z, stored, stem, members).store;
    SameTwice(s, stored, after, stem);
    WholeKeeps(z, s, after, stem);
    if earlier.None? {
      ExtendsFrom(s, after, stem);
    } else {
      ExtendsItself(s);
    }
  }

  lemma WholeHolds(z: Zip, s: Storage, stem: string, content: Bytes)
    requires WholeAt(z, s, stem)
    ensures Held(s, PackageKey(stem)).None? ==> Holds(s, stem, [])
    ensures Held(s, PackageKey(stem)) == Some(content) ==>
              Holds(s, stem, Ordered(z, content)[..ReachIn(s, Ordered(z, content))])
  {
  }

  lemma StillNothing(s: Storage, stored: Storage, stem: string)
    requires Holds(s, stem, [])
    requires forall n :: GoodName(n) ==> Held(stored, EntryKey(stem, n)) == Held(s, EntryKey(stem, n))
    ensures Holds(stored, stem, [])
  {
  }

  lemma SameTwice(s: Storage, stored: Storage, after: Storage, stem: string)
    requires (stored == s || SameElsewhere(s, stored, stem)) && SameElsewhere(stored, after, stem)
    ensures SameElsewhere(s, after, stem)
  {
  }

  lemma ExtendsItself(s: Storage)
    ensures Extends(s, s)
  {
  }

  /** Processing a package that is not acceptable, or whose key holds other bytes. */
  lemma ProcessRefused(z: Zip, s: Storage, id: string, allowed: set<string>, content: Bytes)
    requires HexDigests(z) && Whole(z, s)
    requires Segment(id).Ok? ==> ToldFrom(z, s, Earlier(z, s, id, content), content)
    requires Acceptable(z, id, allowed, content) ==>
               var earlier := Earlier(z, s, id, content); earlier.Some? && earlier.value != content
    ensures var (after, r) := Process(z, s, id, allowed, content);
            && after == s && r.Err?
            && var earlier := if Segment(id).Ok? then Earlier(z, s, id, content) else None;
            r == Fate(z, s.Local?, earlier, id, allowed, content)
  {
    hide GoodStem, Held, EntryKey, PackageKey, Tidy, WriteAll, Nested, EntryOf, Segment, Stem, SafeMembers, Put,
         WholeAt;
    if Acceptable(z, id, allowed, content) {
      StemIsGood(z, id, content);
      PutPackage(z, s, StemFor(z, id, content), content);
    }
  }

  /** Processing one package on any reachable store, in memory or on disk: its result is the one the
      package's key foretells, and it leaves the store unchanged exactly when the package is not
      acceptable or its key is taken already. */
  lemma ProcessIs(z: Zip, s: Storage, id: string, allowed: set<string>, content: Bytes)
    requires HexDigests(z) && Whole(z, s)
    requires Segment(id).Ok? ==> ToldFrom(z, s, Earlier(z, s, id, content), content)
    ensures var (after, r) := Process(z, s, id, allowed, content);
            var earlier := if Segment(id).Ok? then Earlier(z, s, id, content) else None;
            && r == Fate(z, s.Local?, earlier, id, allowed, content)
            && Whole(z, after) && after.Local? == s.Local? && Extends(s, after)
            && (after == s <==> !Acceptable(z, id, allowed, content) || earlier.Some?)
            && (Acceptable(z, id, allowed, content) ==>
                  && Held(after, PackageKey(StemFor(z, id, content)))
                     == (if earlier.Some? then earlier else Some(content))
                  && SameElsewhere(s, after, StemFor(z, id, content)))
  {
    hide GoodStem, Held, EntryKey, PackageKey, Segment, Stem, SafeMembers, Whole, Process, Fate, SameElsewhere, Extends;
    var taken := Acceptable(z, id, allowed, content)
                 && (var earlier := Earlier(z, s, id, content); earlier.None? || earlier.value == content);
    if taken {
      ProcessTaken(z, s, id, allowed, content);
    } else {
      ProcessRefused(z, s, id, allowed, content);
      ExtendsItself(s);
      SameElsewhereItself(s);
    }
  }

  lemma SameElsewhereItself(s: Storage)
    ensures forall stem :: SameElsewhere(s, s, stem)
  {
  }

  /** A failed package leaves the store as it was, except exactly when the store is local, the package is
      acceptable and new, and one member's name is a folder of another's. */
  lemma AtomicExactly(z: Zip, s: Storage, id: string, allowed: set<string>, content: Bytes)
    requires HexDigests(z) && Whole(z, s)
    requires Segment(id).Ok? ==> ToldFrom(z, s, Earlier(z, s, id, content), content)
    ensures var (after, r) := Process(z, s, id, allowed, content);
            (r.Err? ==> after == s) <==>
            !(s.Local? && Acceptable(z, id, allowed, content) && Earlier(z, s, id, content).None?
              && Nested(SafeMembers(z, Extensions(allowed), content).value))
  {
    ProcessIs(z, s, id, allowed, content);
    hide Held, PackageKey, Segment, Stem, SafeMembers, Whole, Process, Nested, EntryOf, WholeAt, Tidy;
  }

  /** An accepted package is stored with all its members, each under a key of its own. */
  lemma AcceptedIsStored(z: Zip, s: Storage, id: string, allowed: set<string>, content: Bytes)
    requires HexDigests(z) && Whole(z, s)
    requires Segment(id).Ok? ==> ToldFrom(z, s, Earlier(z, s, id, content), content)
    requires Process(z, s, id, allowed, content).1.Ok?
    ensures var (after, r) := Process(z, s, id, allowed, content);
            var members, entries := SafeMembers(z, Extensions(allowed), content).value, r.value.entries;
            && Held(after, r.value.storageKey) == Some(content)
            && multiset(members) == multiset(Listed(z, content)) && |entries| == |members|
            && (forall i :: 0 <= i < |members| ==> Held(after, entries[i].storageKey) == Some(members[i].data))
            && (forall i, j :: 0 <= i < j < |members| ==> entries[i].storageKey != entries[j].storageKey)
  {
    hide *;
    ProcessIs(z, s, id, allowed, content);
    FateOk(z, s, id, allowed, content);
    SafeMembersAre(z, Extensions(allowed), content);
    StemIsGood(z, id, content);
    var members := SafeMembers(z, Extensions(allowed), content).value;
    ReachAll(s, members);
    var after := Process(z, s, id, allowed, content).0;
    ReachAll(after, members);
    MembersAreHeld(z, after, StemFor(z, id, content), content, members);
  }

  lemma ReachAll(s: Storage, members: seq<Member>)
    requires !(s.Local? && Nested(members))
    ensures ReachIn(s, members) == |members|
  {
    ReachExactly(members);
  }

  /** What a good result says. */
  lemma FateOk(z: Zip, s: Storage, id: string, allowed: set<string>, content: Bytes)
    requires var earlier := if Segment(id).Ok? then Earlier(z, s, id, content) else None;
             Fate(z, s.Local?, earlier, id, allowed, content).Ok?
    ensures Segment(id).Ok? && SafeMembers(z, Extensions(allowed), content).Ok? && Acceptable(z, id, allowed, content)
    ensures var earlier := Earlier(z, s, id, content);
            var members := SafeMembers(z, Extensions(allowed), content).value;
            var p := Fate(z, s.Local?, earlier, id, allowed, content).value;
            && (earlier.None? || earlier == Some(content)) && !(s.Local? && Nested(members))
            && p.storageKey == PackageKey(StemFor(z, id, content)) && |p.entries| == |members|
            && forall i :: 0 <= i < |members| ==>
               p.entries[i].storageKey == EntryKey(StemFor(z, id, content), members[i].name)
  {
    hide Segment, SafeMembers, Nested, Held, PackageKey, EntryKey, Stem, Suffix, StripDots, Lower;
  }

  lemma MembersAreHeld(z: Zip, s: Storage, stem: string, content: Bytes, members: seq<Member>)
    requires Whole(z, s) && GoodStem(stem) && Held(s, PackageKey(stem)) == Some(content)
    requires members == Ordered(z, content) && Proper(members) && ReachIn(s, members) == |members|
    ensures forall i :: 0 <= i < |members| ==> Held(s, EntryKey(stem, members[i].name)) == Some(members[i].data)
    ensures forall i, j :: 0 <= i < j < |members| ==> EntryKey(stem, members[i].name) != EntryKey(stem, members[j].name)
  {
    hide GoodName, GoodStem, Held, EntryKey, PackageKey, Tidy, Ordered;
    assert WholeAt(z, s, stem);
    assert members[..|members|] == members;
    forall i | 0 <= i < |members|
      ensures Held(s, EntryKey(stem, members[i].name)) == Some(members[i].data)
    {
      AmongIs(members, members[i].name);
    }
    forall i, j | 0 <= i < j < |members|
      ensures EntryKey(stem, members[i].name) != EntryKey(stem, members[j].name)
    {
      KeyOfMember(stem, members[i].name);
      KeyOfMember(stem, members[j].name);
      if EntryKey(stem, members[i].name) == EntryKey(stem, members[j].name) {
        MemoryKeysAreDistinct(MemberSlot(stem, members[i].name), MemberSlot(stem, members[j].name));
      }
    }
  }

  // ----- What the result reports -----

  /** Behind its dots, the suffix of a normalised name has no other. */
  lemma DotsOff(name: string)
    requires GoodName(name)
    ensures var dotless := StripDots(Suffix(name)); Suffix(name) == if dotless == "" then "" else "." + dotless
  {
    hide Suffix, GoodName;
    SuffixTells(name);
    if Suffix(name) != "" {
      var front, extension :| Ends(name, front, extension) && Suffix(name) == "." + extension;
      assert extension[0] in extension;
      assert ("." + extension)[1..] == extension;
    }
  }

  /** What a good result reports of one member: its name, the digest and the length of the very bytes stored
      under its key, its kind, and whether its key was free before. */
  ghost predicate Reports(z: Zip, s: Storage, after: Storage, allowed: set<string>, m: Member, e: Entry) {
    && e.name == m.name
    && (exists b :: Held(after, e.storageKey) == Some(b) && e.sha == z.sha(b) && e.size == |b| && b == m.data)
    && KindIs(e.name, e.kind) && (if e.kind == "" then "" else "." + e.kind) in allowed
    && (e.written <==> Held(s, e.storageKey).None?)
  }

  /** A good result tells the truth about the package and about each member, in name order. */
  lemma ResultTells(z: Zip, s: Storage, id: string, allowed: set<string>, content: Bytes)
    requires HexDigests(z) && Whole(z, s)
    requires Segment(id).Ok? ==> ToldFrom(z, s, Earlier(z, s, id, content), content)
    requires Process(z, s, id, allowed, content).1.Ok?
    ensures var (after, r) := Process(z, s, id, allowed, content);
            var p, members := r.value, SafeMembers(z, Extensions(allowed), content).value;
            && p.packageId == id && p.sha == z.sha(content) && p.size == |content|
            && Held(after, p.storageKey) == Some(content) && (p.written <==> Held(s, p.storageKey).None?)
            && multiset(members) == multiset(Listed(z, content)) && Sorting.Sorted(NameOrder, members)
            && |p.entries| == |members|
            && forall i :: 0 <= i < |members| ==> Reports(z, s, after, Extensions(allowed), members[i], p.entries[i])
  {
    hide *;
    ProcessIs(z, s, id, allowed, content);
    AcceptedIsStored(z, s, id, allowed, content);
    FateOk(z, s, id, allowed, content);
    FateFields(z, s, id, allowed, content);
    SafeMembersAre(z, Extensions(allowed), content);
    StemIsGood(z, id, content);
    var (after, r) := Process(z, s, id, allowed, content);
    var p, members := r.value, SafeMembers(z, Extensions(allowed), content).value;
    EarlierHeld(z, s, id, content);
    FreeBefore(z, s, StemFor(z, id, content), content, members);
    forall i | 0 <= i < |members|
      ensures Reports(z, s, after, Extensions(allowed), members[i], p.entries[i])
    {
      SuffixAllowed(z, Extensions(allowed), content, i);
      EntryTells(z, s, after, StemFor(z, id, content), Extensions(allowed), members[i], p.entries[i], p.written);
    }
  }

  /** Why processing fails, in this order: an id without a segment, a raw header with a reverse solidus, no ZIP, a
      member that is refused, other bytes under the package's key, and, on disk, a member whose name is a folder of
      another's. */
  lemma RefusedPackageExactly(z: Zip, s: Storage, id: string, allowed: set<string>, content: Bytes)
    requires HexDigests(z) && Whole(z, s)
    requires Segment(id).Ok? ==> ToldFrom(z, s, Earlier(z, s, id, content), content)
    ensures var r, members := Process(z, s, id, allowed, content).1, Listed(z, content);
            var extensions := if allowed == {} then {".csv", ".txt", ".xml"} else allowed;
            var accepted := if z.list(content).Some? then Accept(extensions, z.list(content).value) else Ok([]);
            if Segment(id).Err? then r == Err(EmptyPackageId)
            else if z.rawBackslash(content) then r == Err(BackslashEntry)
            else if z.list(content).None? then r == Err(InvalidZip)
            else if accepted.Err? then r == Err(accepted.error)
            else
              var key := PackageKey(StemFor(z, id, content));
              if Held(s, key).Some? && Held(s, key) != Some(content) then r == Err(Collision)
              else if s.Local? && (exists a, b :: a in members && b in members && Below(Parts(a.name), Parts(b.name)))
              then r == Err(Blocked)
              else r.Ok?
  {
    hide Process, Accept, PackageKey, Stem, Held, EntryOf, Parts, Whole, HexDigests;
    ProcessIs(z, s, id, allowed, content);
    SegmentError(id);
    if Segment(id).Ok? && SafeMembers(z, Extensions(allowed), content).Ok? {
      SafeMembersAre(z, Extensions(allowed), content);
      NestedAmong(SafeMembers(z, Extensions(allowed), content).value, Listed(z, content));
    }
  }

  lemma SegmentError(id: string)
    ensures Segment(id).Err? ==> Segment(id) == Err(EmptyPackageId)
  {
  }

  /** Whether names are nested does not depend on the order of the members. */
  lemma NestedAmong(ordered: seq<Member>, listed: seq<Member>)
    requires multiset(ordered) == multiset(listed)
    ensures Nested(ordered) <==> exists a, b :: a in listed && b in listed && Below(Parts(a.name), Parts(b.name))
  {
    hide Parts;
    assert forall m :: m in ordered <==> m in multiset(listed);
    assert forall m :: m in listed <==> m in multiset(ordered);
    if i, j :| 0 <= i < j < |ordered| && Clash(ordered[i].name, ordered[j].name) {
      assert ordered[i] in listed && ordered[j] in listed;
    }
    if a, b :| a in listed && b in listed && Below(Parts(a.name), Parts(b.name)) {
      assert a in ordered && b in ordered;
      var i :| 0 <= i < |ordered| && ordered[i] == a;
      var j :| 0 <= j < |ordered| && ordered[j] == b;
      assert i != j;
      assert Clash(ordered[if i < j then i else j].name, ordered[if i < j then j else i].name);
    }
  }

  lemma EarlierHeld(z: Zip, s: Storage, id: string, content: Bytes)
    requires Segment(id).Ok?
    ensures Earlier(z, s, id, content) == Held(s, PackageKey(StemFor(z, id, content)))
  {
  }

  /** The fields of a good result, entry by entry. */
  lemma FateFields(z: Zip, s: Storage, id: string, allowed: set<string>, content: Bytes)
    requires Segment(id).Ok? && Fate(z, s.Local?, Earlier(z, s, id, content), id, allowed, content).Ok?
    ensures var p := Fate(z, s.Local?, Earlier(z, s, id, content), id, allowed, content).value;
            var members := SafeMembers(z, Extensions(allowed), content).value;
            && p.packageId == id && p.sha == z.sha(content) && p.size == |content|
            && (p.written <==> Earlier(z, s, id, content).None?) && |p.entries| == |members|
            && forall i :: 0 <= i < |members| ==>
                 p.entries[i] == EntryOf(z, StemFor(z, id, content), members[i], p.written)
  {
    hide Segment, SafeMembers, Nested, Held, PackageKey, EntryOf, Stem;
  }

  /** On a whole store the members' keys are free exactly when the package's is. */
  lemma FreeBefore(z: Zip, s: Storage, stem: string, content: Bytes, members: seq<Member>)
    requires Whole(z, s) && GoodStem(stem) && members == Ordered(z, content) && Proper(members)
    requires Held(s, PackageKey(stem)).None? || Held(s, PackageKey(stem)) == Some(content)
    requires !(s.Local? && Nested(members))
    ensures forall i :: 0 <= i < |members| ==>
              (Held(s, EntryKey(stem, members[i].name)).None? <==> Held(s, PackageKey(stem)).None?)
  {
    hide GoodName, GoodStem, Held, EntryKey, PackageKey, Tidy, Ordered, Nested;
    assert WholeAt(z, s, stem);
    ReachAll(s, members);
    assert members[..|members|] == members;
    forall i | 0 <= i < |members|
      ensures Held(s, EntryKey(stem, members[i].name)).None? <==> Held(s, PackageKey(stem)).None?
    {
      AmongIs(members, members[i].name);
      assert GoodName(members[i].name);
    }
  }

  /** The suffix of an accepted member is allowed. */
  lemma SuffixAllowed(z: Zip, allowed: set<string>, content: Bytes, i: int)
    requires SafeMembers(z, allowed, content).Ok? && 0 <= i < |SafeMembers(z, allowed, content).value|
    ensures var name := SafeMembers(z, allowed, content).value[i].name; GoodName(name) && Lower(Suffix(name)) in allowed
  {
    SafeMembersAre(z, allowed, content);
    var infos, ms := z.list(content).value, SafeMembers(z, allowed, content).value;
    AcceptExactly(allowed, infos);
    hide Accept, ValidateName, Lower, Suffix, PosixName, GoodName, Sorting.SortBy, Apart;
    assert ms[i] in multiset(ms);
    assert ms[i] in ListedAs(infos);
    var j :| 0 <= j < |infos| && ListedAs(infos)[j] == ms[i];
    assert Valid(allowed, infos[j]);
    AcceptedNameIsPosix(infos[j].rawName, infos[j].isDir, allowed);
    AcceptedNameIsSafe(infos[j].rawName, infos[j].isDir, allowed);
  }

  lemma EntryTells(
    z: Zip, s: Storage, after: Storage, stem: string, allowed: set<string>, m: Member, e: Entry, written: bool)
    requires e == EntryOf(z, stem, m, written) && e.storageKey == EntryKey(stem, m.name)
    requires Held(after, e.storageKey) == Some(m.data) && GoodName(m.name) && Lower(Suffix(m.name)) in allowed
    requires written <==> Held(s, EntryKey(stem, m.name)).None?
    ensures Reports(z, s, after, allowed, m, e)
  {
    DotsOff(m.name);
    KindOfName(m.name, StripDots(Suffix(m.name)));
    hide Lower, Suffix, StripDots, Held, EntryKey, GoodName, KindIs;
  }
}
