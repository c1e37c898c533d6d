/** Names and key segments told by their texts: components, suffixes, refusals, and runs of unsafe characters. */
module NameSpelling {
  import opened Wrappers
  import opened Text
  import opened PackageNames
  import opened PackageStores

  // ----- Components -----

  lemma JoinFirst(part: string, rest: seq<string>)
    requires rest != []
    ensures Join([part] + rest) == part + "/" + Join(rest)
  {
    assert ([part] + rest)[1..] == rest;
  }

  lemma {:induction false} SplitConcat(a: string, b: string)
    ensures Split(a + "/" + b) == Split(a) + Split(b)
    decreases |a|
  {
    hide Split;
    var n := SlashAt(a);
    var first := a[..n];
    if n == |a| {
      assert first == a;
      SplitFirst(a, b);
    } else {
      var rest := a[n + 1..];
      assert a == first + "/" + rest;
      SplitFirst(first, rest);
      SplitConcat(rest, b);
      Regroup(first + "/", rest, "/", b);
      assert a + "/" + b == first + "/" + (rest + "/" + b);
      SplitFirst(first, rest + "/" + b);
      assert [first] + (Split(rest) + Split(b)) == [first] + Split(rest) + Split(b);
    }
  }

  /** `raw` has `part` between its ends or slashes. */
  ghost predicate HasComponent(raw: string, part: string) {
    || raw == part
    || (exists back: string :: raw == part + "/" + back)
    || (exists front: string :: raw == front + "/" + part)
    || (exists front, back: string :: raw == front + "/" + part + "/" + back)
  }

  lemma {:induction false} ComponentOfSplit(raw: string, i: nat)
    requires i < |Split(raw)|
    ensures HasComponent(raw, Split(raw)[i])
    decreases |raw|
  {
    hide Split, HasComponent;
    var n := SlashAt(raw);
    var first := raw[..n];
    if n == |raw| {
      assert first == raw;
      SplitFirst(raw, "");
      WholeComponent(raw);
    } else {
      var rest := raw[n + 1..];
      assert raw == first + "/" + rest;
      SplitFirst(first, rest);
      if i == 0 {
        FirstComponent(first, rest);
      } else {
        ComponentOfSplit(rest, i - 1);
        LaterComponent(first, rest, Split(rest)[i - 1]);
      }
    }
  }

  lemma WholeComponent(raw: string)
    ensures HasComponent(raw, raw)
  {
  }

  lemma FirstComponent(first: string, rest: string)
    ensures HasComponent(first + "/" + rest, first)
  {
  }

  lemma LaterComponent(first: string, rest: string, part: string)
    requires HasComponent(rest, part)
    ensures HasComponent(first + "/" + rest, part)
  {
    if rest == part {
    } else if back: string :| rest == part + "/" + back {
      Regroup(first + "/", part, "/", back);
      Regroup(part, "/", back, "");
      MiddleComponent(first, part, back);
    } else if front: string :| rest == front + "/" + part {
      Regroup(first + "/", front, "/", part);
      Regroup(front, "/", part, "");
      LastComponent(first + "/" + front, part);
    } else {
      var front: string, back: string :| rest == front + "/" + part + "/" + back;
      LaterMiddle(first + "/", front, part, back);
      MiddleComponent(first + "/" + front, part, back);
    }
  }

  lemma LaterMiddle(before: string, front: string, part: string, back: string)
    ensures before + (front + "/" + part + "/" + back) == before + front + "/" + part + "/" + back
  {
    var x := front + "/" + part;
    Regroup(before, x, "/", back);
    Regroup(x, "/", back, "");
    Regroup(before, front, "/", part);
    Regroup(front, "/", part, "");
  }

  lemma MiddleComponent(front: string, part: string, back: string)
    ensures HasComponent(front + "/" + part + "/" + back, part)
  {
  }

  lemma LastComponent(front: string, part: string)
    ensures HasComponent(front + "/" + part, part)
  {
  }

  /** Splitting finds exactly the components. */
  lemma SplitsExactly(raw: string, part: string)
    requires Plain(part)
    ensures part in Split(raw) <==> HasComponent(raw, part)
  {
    hide Split, HasComponent;
    if part in Split(raw) {
      var i :| 0 <= i < |Split(raw)| && Split(raw)[i] == part;
      ComponentOfSplit(raw, i);
    }
    if HasComponent(raw, part) {
      ComponentSplits(raw, part);
    }
  }

  lemma ComponentSplits(raw: string, part: string)
    requires Plain(part) && HasComponent(raw, part)
    ensures part in Split(raw)
  {
    hide Split;
    SplitFirst(part, "");
    if raw == part {
    } else if back: string :| raw == part + "/" + back {
      SplitConcat(part, back);
    } else if front: string :| raw == front + "/" + part {
      SplitConcat(front, part);
    } else {
      var front: string, back: string :| raw == front + "/" + part + "/" + back;
      SplitConcat(front + "/" + part, back);
      SplitConcat(front, part);
    }
  }

  // ----- Suffixes -----

  /** The name ends in a dot and `extension`, behind at least one character of its last component. */
  predicate Ends(name: string, front: string, extension: string) {
    && name == front + "." + extension && extension != "" && '.' !in extension && '/' !in extension
    && front != "" && front[|front| - 1] != '/'
  }

  /** The kind of a name: its extension in lower case, or nothing if it has none. */
  ghost predicate KindIs(name: string, kind: string) {
    if exists front, extension :: Ends(name, front, extension) then
      exists front, extension :: Ends(name, front, extension) && kind == Lower(extension)
    else kind == ""
  }

  lemma LastDotSplits(s: string)
    requires LastDot(s) >= 0
    ensures var i := LastDot(s); s == s[..i] + "." + s[i + 1..] && '.' !in s[i + 1..]
  {
    NoDotBehind(s);
    var i := LastDot(s);
    assert s == s[..i] + [s[i]] + s[i + 1..];
  }

  lemma {:induction false} NoDotBehind(s: string)
    ensures '.' !in s[LastDot(s) + 1..]
  {
    if s != "" && s[|s| - 1] != '.' {
      NoDotBehind(s[..|s| - 1]);
      var i := LastDot(s);
      assert s[i + 1..] == s[..|s| - 1][i + 1..] + [s[|s| - 1]];
    }
  }

  /** The last part stands at the end of a joined name, behind a slash if anything stands before it. */
  lemma {:induction false} JoinEndsWithLast(parts: seq<string>) returns (front: string)
    requires parts != []
    ensures Join(parts) == front + parts[|parts| - 1] && (front == "" || front[|front| - 1] == '/')
  {
    if |parts| == 1 {
      front := "";
      assert "" + parts[0] == parts[0];
    } else {
      var rest := JoinEndsWithLast(parts[1..]);
      hide Join;
      assert parts == [parts[0]] + parts[1..];
      JoinFirst(parts[0], parts[1..]);
      front := parts[0] + "/" + rest;
      Regroup(parts[0] + "/", rest, parts[|parts| - 1], "");
    }
  }

  /** A part with a suffix, around its last dot. */
  lemma PartShape(part: string) returns (front: string, extension: string)
    requires SuffixOf(part) != "" && Plain(part)
    ensures Ends(part, front, extension) && SuffixOf(part) == "." + extension
  {
    var i := LastDot(part);
    front, extension := part[..i], part[i + 1..];
    LastDotSplits(part);
    assert part[i..] == "." + extension;
    assert front[|front| - 1] in part;
  }

  /** Whatever a name ends in lies in its last part. */
  lemma EndsLater(before: string, part: string, front: string, extension: string)
    requires (before == "" || before[|before| - 1] == '/') && Ends(before + part, front, extension)
    ensures |before| < |front|
  {
    var s, p := before + part, |front|;
    assert s[p] == '.' && s[..p] == front && s[..|before|] == before;
    forall k | p < k < |s|
      ensures s[k] != '/'
    {
      assert s[k] == extension[k - p - 1];
    }
    assert before != "" ==> s[|before| - 1] == '/';
  }

  /** And so it is the suffix of that part. */
  lemma EndsInPart(before: string, part: string, front: string, extension: string)
    requires (before == "" || before[|before| - 1] == '/') && Ends(before + part, front, extension)
    ensures SuffixOf(part) == "." + extension
  {
    EndsLater(before, part, front, extension);
    var f := front[|before|..];
    Regroup(front, ".", extension, "");
    Unprefixed(before, part, front, "." + extension);
    Regroup(f, ".", extension, "");
    LastDotOf(f, extension);
    SuffixBehind(f, "." + extension);
  }

  lemma Unprefixed(before: string, part: string, front: string, tail: string)
    requires before + part == front + tail && |before| <= |front|
    ensures part == front[|before|..] + tail
  {
    var s := before + part;
    assert part == s[|before|..];
    assert (front + tail)[|before|..] == front[|before|..] + tail;
  }

  lemma SuffixBehind(front: string, tail: string)
    requires front != "" && |tail| >= 2 && LastDot(front + tail) == |front|
    ensures SuffixOf(front + tail) == tail
  {
    hide LastDot;
    assert (front + tail)[|front|..] == tail;
  }

  /** The suffix of a normalised name is what the name ends in. */
  lemma SuffixTells(name: string)
    requires GoodName(name)
    ensures Suffix(name) == "" ==> forall front, extension :: !Ends(name, front, extension)
    ensures Suffix(name) != "" ==>
              exists front, extension :: Ends(name, front, extension) && Suffix(name) == "." + extension
    ensures forall front, extension :: Ends(name, front, extension) ==> Suffix(name) == "." + extension
  {
    hide SuffixOf, Join, Parts;
    var parts := Parts(name);
    if parts == [] {
      assert name == ".";
    } else {
      var last := parts[|parts| - 1];
      PartsArePlain(name);
      assert last in parts;
      var before := JoinEndsWithLast(parts);
      forall front, extension | Ends(name, front, extension)
        ensures Suffix(name) == "." + extension
      {
        EndsInPart(before, last, front, extension);
      }
      if SuffixOf(last) != "" {
        var f, extension := PartShape(last);
        Regroup(before, f, ".", extension);
        Regroup(before + f, ".", extension, "");
        Regroup(f, ".", extension, "");
        assert Ends(name, before + f, extension);
      }
    }
  }

  /** The kind that processing reports is the extension of the name's text. */
  lemma KindOfName(name: string, dotless: string)
    requires GoodName(name) && Suffix(name) == (if dotless == "" then "" else "." + dotless)
    ensures KindIs(name, Lower(dotless))
    ensures Lower(Suffix(name)) == if Lower(dotless) == "" then "" else "." + Lower(dotless)
  {
    hide Suffix, GoodName;
    SuffixTells(name);
    if dotless != "" {
      assert ("." + dotless)[1..] == dotless;
      var front, extension :| Ends(name, front, extension) && Suffix(name) == "." + extension;
      assert ("." + extension)[1..] == extension;
      LowerDot(dotless);
    } else {
      LowerOfNothing();
    }
  }

  lemma LowerDot(extension: string)
    ensures Lower("." + extension) == "." + Lower(extension)
  {
  }

  // ----- Refusals -----

  /** Why a member is refused, in the order of the checks: a folder, a reverse solidus, an absolute path or a
      drive letter, a component that climbs, and a name without an allowed suffix. Every other member is
      accepted. */
  lemma RefusedNameExactly(raw: string, isDir: bool, allowed: set<string>)
    ensures var r := ValidateName(raw, isDir, allowed);
            var folder, solidus := isDir || (raw != "" && raw[|raw| - 1] == '/'), '\\' in raw;
            var drive := |raw| >= 2 && ('A' <= raw[0] <= 'Z' || 'a' <= raw[0] <= 'z') && raw[1] == ':';
            var absolute, climbs := (raw != "" && raw[0] == '/') || drive, HasComponent(raw, "..");
            && (r == Err(DirectoryEntry) <==> folder)
            && (r == Err(BackslashEntry) <==> !folder && solidus)
            && (r == Err(AbsoluteEntry) <==> !folder && !solidus && absolute)
            && (r == Err(UnsafeEntry) <==> !folder && !solidus && !absolute && climbs)
            && (r == Err(UnsupportedExtension)
                <==> !folder && !solidus && !absolute && !climbs && !HasAllowedSuffix(PosixName(raw), allowed))
            && (r == Ok(PosixName(raw))
                <==> !folder && !solidus && !absolute && !climbs && HasAllowedSuffix(PosixName(raw), allowed))
  {
    hide Lower, Suffix, PosixName, HasComponent, Split, HasAllowedSuffix;
    SplitsExactly(raw, "..");
    ClimbsInParts(raw);
    if '\\' !in raw && ".." !in Parts(raw) {
      AllowedSuffixOf(raw, allowed);
    }
  }

  lemma ClimbsInParts(raw: string)
    ensures ".." in Parts(raw) <==> ".." in Split(raw)
  {
  }

  /** The name's suffix, or the empty one if it has none, is allowed in lower case. */
  ghost predicate HasAllowedSuffix(name: string, allowed: set<string>) {
    || (exists front, extension :: Ends(name, front, extension) && "." + Lower(extension) in allowed)
    || (!(exists front, extension :: Ends(name, front, extension)) && "" in allowed)
  }

  lemma AllowedSuffixOf(raw: string, allowed: set<string>)
    requires '\\' !in raw && ".." !in Parts(raw)
    ensures Lower(Suffix(raw)) in allowed <==> HasAllowedSuffix(PosixName(raw), allowed)
  {
    var name := PosixName(raw);
    NoSolidus(raw);
    SameSuffix(raw);
    hide Lower, Suffix, PosixName, Parts;
    SuffixTells(name);
    LowerOfNothing();
    forall extension: string ensures Lower("." + extension) == "." + Lower(extension) {
      LowerDot(extension);
    }
  }

  lemma SameSuffix(raw: string)
    ensures Suffix(PosixName(raw)) == Suffix(raw)
    ensures Parts(PosixName(raw)) == Parts(raw) && PosixName(PosixName(raw)) == PosixName(raw)
  {
    hide PosixName, SuffixOf, Parts;
    NameIsNormal(raw);
  }

  lemma NoSolidus(raw: string)
    requires '\\' !in raw
    ensures '\\' !in PosixName(raw)
  {
    if Parts(raw) != [] && '\\' in PosixName(raw) {
      NameChars(raw, '\\');
    }
  }

  // ----- Key segments -----

  /** ASCII letters and digits, and four marks. */
  predicate Portable(c: char) {
    'a' <= c <= 'z' || 'A' <= c <= 'Z' || '0' <= c <= '9' || c in {'.', '-', '_', '='}
  }

  predicate PortableText(s: string) {
    forall i :: 0 <= i < |s| ==> Portable(s[i])
  }

  /** Some characters, none of them portable. */
  predicate ForeignRun(s: string) {
    s != "" && forall i :: 0 <= i < |s| ==> !Portable(s[i])
  }

  lemma {:induction false} CollapseRun(run: string, rest: string, inRun: bool)
    requires (inRun || run != "") && (run == "" || ForeignRun(run)) && (rest == "" || Portable(rest[0]))
    ensures Collapse(run + rest, inRun) == (if inRun then "" else "-") + Collapse(rest, false)
  {
    if run == "" {
      assert run + rest == rest;
    } else {
      assert (run + rest)[1..] == run[1..] + rest;
      CollapseRun(run[1..], rest, true);
    }
  }

  /** Collapsing keeps every portable character and puts one dash for each run of others, however long. */
  lemma {:induction false} CollapseTells(front: string, run: string, rest: string)
    requires PortableText(front) && ForeignRun(run) && (rest == "" || Portable(rest[0]))
    ensures Collapse(front, false) == front
    ensures Collapse(front + run + rest, false) == front + "-" + Collapse(rest, false)
  {
    CollapseFixes(front, false);
    if front == "" {
      assert front + run + rest == run + rest;
      CollapseRun(run, rest, false);
    } else {
      CollapseTells(front[1..], run, rest);
      CollapsePortable(front[0], front[1..] + run + rest);
      hide Collapse, Portable;
      assert front == [front[0]] + front[1..];
      Regroup([front[0]], front[1..], run, rest);
      Regroup(front[1..], run, rest, "");
      Regroup([front[0]], front[1..], "-", Collapse(rest, false));
      Regroup(front[1..], "-", Collapse(rest, false), "");
    }
  }

  lemma CollapsePortable(c: char, rest: string)
    requires Portable(c)
    ensures Collapse([c] + rest, false) == [c] + Collapse(rest, false)
  {
    assert ([c] + rest)[1..] == rest;
  }

  /** Dots, dashes and underscores. */
  predicate Edges(s: string) {
    forall i :: 0 <= i < |s| ==> s[i] in {'.', '-', '_'}
  }

  lemma OneMoreEdge(c: char, s: string)
    requires c in {'.', '-', '_'} && Edges(s)
    ensures Edges([c] + s) && Edges(s + [c])
  {
  }

  /** Trimming takes dots, dashes and underscores from both ends. */
  lemma {:induction false} TrimTells(s: string) returns (i: nat, j: nat)
    ensures i <= j <= |s| && Trim(s) == s[i..j] && Edges(s[..i]) && Edges(s[j..])
    decreases |s|
  {
    hide Edges;
    NoEdges();
    if s != "" && IsEdge(s[0]) {
      i, j := TrimTells(s[1..]);
      OneMoreEdge(s[0], s[1..][..i]);
      LaterParts(s, i, j);
      i, j := i + 1, j + 1;
    } else if s != "" && IsEdge(s[|s| - 1]) {
      i, j := TrimTells(s[..|s| - 1]);
      OneMoreEdge(s[|s| - 1], s[..|s| - 1][j..]);
      EarlierParts(s, i, j);
    } else {
      i, j := 0, |s|;
      assert s[..0] == "" && s[|s|..] == "" && s[0..|s|] == s;
    }
  }

  lemma LaterParts(s: string, i: nat, j: nat)
    requires i <= j < |s|
    ensures s[..i + 1] == [s[0]] + s[1..][..i] && s[i + 1..j + 1] == s[1..][i..j] && s[j + 1..] == s[1..][j..]
  {
  }

  lemma EarlierParts(s: string, i: nat, j: nat)
    requires i <= j < |s|
    ensures var t := s[..|s| - 1]; s[..i] == t[..i] && s[i..j] == t[i..j] && s[j..] == t[j..] + [s[|s| - 1]]
  {
  }

  lemma NoEdges()
    ensures Edges("")
  {
  }

  /** A package id has no segment exactly when nothing but dots, dashes and underscores is left of it; otherwise
      its segment is the collapsed text without those at its ends. */
  lemma SegmentTells(value: string) returns (i: nat, j: nat)
    ensures var text := Collapse(Strip(value), false);
            && i <= j <= |text| && Edges(text[..i]) && Edges(text[j..])
            && match Segment(value)
               case Ok(safe) => safe != "" && safe == text[i..j]
                                && safe[0] !in {'.', '-', '_'} && safe[|safe| - 1] !in {'.', '-', '_'}
               case Err(e) => e == EmptyPackageId && Edges(text)
  {
    hide Strip, Collapse;
    var text := Collapse(Strip(value), false);
    i, j := TrimTells(text);
    if i == j {
      AllEdges(text, i);
    }
  }

  lemma AllEdges(s: string, i: nat)
    requires i <= |s| && Edges(s[..i]) && Edges(s[i..])
    ensures Edges(s)
  {
    forall k | 0 <= k < |s|
      ensures s[k] in {'.', '-', '_'}
    {
      assert k < i ==> s[k] == s[..i][k];
      assert k >= i ==> s[k] == s[i..][k - i];
    }
  }
}
