/** Names inside a package: POSIX path normalisation, member validation and key segments. */
module PackageNames {
  import opened Wrappers
  import opened Text
  import opened Sorting

  datatype Rejection =
    | EmptyPackageId | InvalidZip | DirectoryEntry | BackslashEntry | AbsoluteEntry | UnsafeEntry | UnsupportedExtension
    | DuplicateEntry | Collision | Blocked

  const DEFAULT_EXTENSIONS := {".csv", ".txt", ".xml"}

  // ----- Paths -----

  /** Position of the first slash, or the length. */
  function SlashAt(s: string): (n: nat)
    ensures n <= |s|
    ensures n < |s| ==> s[n] == '/'
    ensures '/' !in s[..n]
  {
    if s == "" || s[0] == '/' then 0
    else
      var n := SlashAt(s[1..]);
      assert s[..n + 1] == [s[0]] + s[1..][..n];
      1 + n
  }

  /** `s.split("/")`. */
  function Split(s: string): seq<string>
    decreases |s|
  {
    var n := SlashAt(s);
    if n == |s| then [s] else [s[..n]] + Split(s[n + 1..])
  }

  /** `"/".join(parts)`. */
  function Join(parts: seq<string>): string {
    if parts == [] then ""
    else if |parts| == 1 then parts[0]
    else parts[0] + "/" + Join(parts[1..])
  }

  predicate Kept(part: string) {
    part != "" && part != "."
  }

  /** The parts of a relative `PurePosixPath`. */
  function Parts(raw: string): seq<string> {
    Filter(Kept, Split(raw))
  }

  /** `as_posix()` of a relative path. */
  function PosixName(raw: string): string {
    if Parts(raw) == [] then "." else Join(Parts(raw))
  }

  /** Position of the last dot, or -1. */
  function LastDot(s: string): (i: int)
    ensures -1 <= i < |s|
    ensures i >= 0 ==> s[i] == '.'
  {
    if s == "" then -1 else if s[|s| - 1] == '.' then |s| - 1 else LastDot(s[..|s| - 1])
  }

  function SuffixOf(part: string): string {
    var i := LastDot(part);
    if 0 < i < |part| - 1 then part[i..] else ""
  }

  function Suffix(raw: string): string {
    var parts := Parts(raw);
    if parts == [] then "" else SuffixOf(parts[|parts| - 1])
  }

  predicate IsLetter(c: char) {
    'A' <= c <= 'Z' || 'a' <= c <= 'z'
  }

  predicate HasDrive(s: string) {
    |s| >= 2 && IsLetter(s[0]) && s[1] == ':'
  }

  function ValidateName(raw: string, isDir: bool, allowed: set<string>): Result<string, Rejection> {
    if isDir || (raw != "" && raw[|raw| - 1] == '/') then Err(DirectoryEntry)
    else if '\\' in raw then Err(BackslashEntry)
    else if (raw != "" && raw[0] == '/') || HasDrive(raw) then Err(AbsoluteEntry)
    else if ".." in Parts(raw) then Err(UnsafeEntry)
    else if Lower(Suffix(raw)) !in allowed then Err(UnsupportedExtension)
    else Ok(PosixName(raw))
  }

  // ----- What an accepted name is -----

  predicate Plain(part: string) {
    '/' !in part
  }

  lemma {:induction false} SlashFound(part: string, rest: string)
    requires Plain(part) && (rest == "" || rest[0] == '/')
    ensures SlashAt(part + rest) == |part|
  {
    if part == "" {
      assert part + rest == rest;
    } else {
      assert part[0] in part;
      assert (part + rest)[1..] == part[1..] + rest;
      SlashFound(part[1..], rest);
    }
  }

  lemma SplitFirst(part: string, rest: string)
    requires Plain(part)
    ensures Split(part) == [part]
    ensures Split(part + "/" + rest) == [part] + Split(rest)
  {
    assert part + "" == part;
    SlashFound(part, "");
    var s := part + "/" + rest;
    assert s == part + ("/" + rest);
    SlashFound(part, "/" + rest);
    assert s[..|part|] == part && s[|part| + 1..] == rest;
  }

  lemma {:induction false} SplitIsPlain(s: string)
    ensures forall i :: 0 <= i < |Split(s)| ==> Plain(Split(s)[i])
    decreases |s|
  {
    var n := SlashAt(s);
    if n < |s| {
      SplitIsPlain(s[n + 1..]);
    } else {
      assert s[..n] == s;
    }
  }

  lemma {:induction false} SplitKeepsChars(s: string, c: char, i: nat)
    requires i < |Split(s)| && c in Split(s)[i]
    ensures c in s
    decreases |s|
  {
    var n := SlashAt(s);
    if n < |s| && i > 0 {
      SplitKeepsChars(s[n + 1..], c, i - 1);
    }
  }

  /** Joining plain parts and splitting again gives the parts. */
  lemma {:induction false} SplitOfJoin(parts: seq<string>)
    requires parts != [] && forall i :: 0 <= i < |parts| ==> Plain(parts[i])
    ensures Split(Join(parts)) == parts
  {
    SplitFirst(parts[0], Join(parts[1..]));
    assert parts == [parts[0]] + parts[1..];
    if |parts| > 1 {
      SplitOfJoin(parts[1..]);
    }
  }

  lemma {:induction false} JoinChars(parts: seq<string>, c: char)
    requires c in Join(parts) && c != '/'
    ensures exists i :: 0 <= i < |parts| && c in parts[i]
  {
    if |parts| > 1 {
      if c !in parts[0] {
        JoinChars(parts[1..], c);
        var i :| 0 <= i < |parts[1..]| && c in parts[1..][i];
        assert c in parts[i + 1];
      }
    } else {
      assert c in parts[0];
    }
  }

  lemma PartsArePlain(raw: string)
    ensures forall p :: p in Parts(raw) ==> Plain(p) && Kept(p) && p in Split(raw)
  {
    SplitIsPlain(raw);
  }

  lemma NameParts(raw: string)
    requires Parts(raw) != []
    ensures Split(PosixName(raw)) == Parts(raw) && Parts(PosixName(raw)) == Parts(raw)
    ensures PosixName(raw) != "" && PosixName(raw)[0] != '/' && PosixName(raw)[|PosixName(raw)| - 1] != '/'
  {
    var parts := Parts(raw);
    PartsArePlain(raw);
    assert forall i :: 0 <= i < |parts| ==> parts[i] in parts;
    SplitOfJoin(parts);
    FilterAll(Kept, parts);
    JoinEnds(parts);
  }

  lemma {:induction false} JoinEnds(parts: seq<string>)
    requires parts != [] && forall i :: 0 <= i < |parts| ==> parts[i] != "" && Plain(parts[i])
    ensures var s := Join(parts); s != "" && s[0] != '/' && s[|s| - 1] != '/'
  {
    assert parts[0][0] in parts[0];
    if |parts| == 1 {
      assert parts[0][|parts[0]| - 1] in parts[0];
    } else {
      JoinEnds(parts[1..]);
    }
  }

  lemma NameChars(raw: string, c: char)
    requires c in PosixName(raw) && c != '/' && Parts(raw) != []
    ensures c in raw
  {
    JoinChars(Parts(raw), c);
    var i :| 0 <= i < |Parts(raw)| && c in Parts(raw)[i];
    assert Parts(raw)[i] in Parts(raw);
    PartsArePlain(raw);
    var j :| 0 <= j < |Split(raw)| && Split(raw)[j] == Parts(raw)[i];
    SplitKeepsChars(raw, c, j);
  }

  lemma DotHasNoParts()
    ensures Split(".") == ["."] && Parts(".") == []
  {
    SplitFirst(".", "");
    assert ["."][..0] == [];
  }

  /** Normalising a name twice is normalising it once. */
  lemma NameIsNormal(raw: string)
    ensures Parts(PosixName(raw)) == Parts(raw) && PosixName(PosixName(raw)) == PosixName(raw)
  {
    hide Split, Join, Filter;
    if Parts(raw) == [] {
      DotHasNoParts();
    } else {
      NameParts(raw);
    }
  }

  /** An accepted name is relative, climbs nowhere, holds no reverse solidus and has an allowed suffix.
      It names a file below its folder exactly when the raw name has any parts; the one other accepted
      name is `.`, and only where the empty suffix is allowed. */
  lemma AcceptedNameIsSafe(raw: string, isDir: bool, allowed: set<string>)
    requires ValidateName(raw, isDir, allowed).Ok?
    ensures var name := ValidateName(raw, isDir, allowed).value;
            && name != "" && name[0] != '/' && '\\' !in name && ".." !in Split(name) && ".." !in Parts(name)
            && Lower(Suffix(name)) in allowed
            && ((forall p :: p in Split(name) ==> p != "" && p != "." && p != "..") <==> Parts(raw) != [])
            && (Parts(raw) == [] ==> name == "." && "" in allowed)
  {
    hide Join, Lower, SuffixOf;
    LowerOfNothing();
    if Parts(raw) == [] {
      DotHasNoParts();
      assert "." in Split(".");
    } else {
      NameParts(raw);
      PartsArePlain(raw);
      if '\\' in PosixName(raw) {
        NameChars(raw, '\\');
      }
    }
  }

  lemma LowerOfNothing()
    ensures Lower("") == ""
  {
  }

  /** Where the empty suffix is allowed, `.` is an accepted name. */
  lemma DotIsAccepted()
    ensures ValidateName(".", false, {""}) == Ok(".")
  {
    hide Lower;
    LowerOfNothing();
    DotHasNoParts();
  }

  /** An accepted name passes validation again, unchanged, exactly when it has no drive letter in front:
      the drive is looked for in the raw name only, before a leading `./` is dropped. */
  lemma AcceptedAgainExactly(raw: string, isDir: bool, allowed: set<string>)
    requires ValidateName(raw, isDir, allowed).Ok?
    ensures var name := ValidateName(raw, isDir, allowed).value;
            ValidateName(name, false, allowed) == Ok(name) <==> !HasDrive(name)
  {
    hide Lower, SuffixOf, Split, Join, Parts, HasDrive, PosixName;
    AcceptedNameIsSafe(raw, isDir, allowed);
    NameIsNormal(raw);
    NameEnd(raw);
  }

  lemma NameEnd(raw: string)
    ensures PosixName(raw) != "" && PosixName(raw)[|PosixName(raw)| - 1] != '/'
  {
    if Parts(raw) != [] {
      NameParts(raw);
    }
  }

  lemma {:induction false} LastDotOf(front: string, back: string)
    requires '.' !in back
    ensures LastDot(front + "." + back) == |front|
  {
    var s := front + "." + back;
    if back != "" {
      assert back[|back| - 1] in back;
      assert s[..|s| - 1] == front + "." + back[..|back| - 1];
      LastDotOf(front, back[..|back| - 1]);
    }
  }

  lemma SinglePart(name: string)
    requires Plain(name) && Kept(name)
    ensures Parts(name) == [name] && Parts("./" + name) == [name]
  {
    SplitFirst(name, "");
    SplitFirst(".", name);
    assert "." + "/" + name == "./" + name;
    FilterDot(name);
  }

  /** A drive letter behind `./`. */
  lemma DriveBehindDot()
    ensures ValidateName("./C:.xml", false, {".xml"}) == Ok("C:.xml")
    ensures ValidateName("C:.xml", false, {".xml"}) == Err(AbsoluteEntry)
  {
    hide Parts, LastDot, Lower, Split;
    SinglePart("C:.xml");
    assert "./" + "C:.xml" == "./C:.xml";
    assert "C:" + "." + "xml" == "C:.xml";
    LastDotOf("C:", "xml");
    LowerXml();
  }

  lemma LowerXml()
    ensures Lower(".xml") == ".xml"
  {
  }

  lemma FilterDot(name: string)
    requires Kept(name)
    ensures Filter(Kept, [name]) == [name] && Filter(Kept, ["."] + [name]) == [name]
  {
    var two := ["."] + [name];
    assert two[..1] == ["."] && ["."][..0] == [] && [name][..0] == [];
    assert Filter(Kept, ["."]) == [];
  }

  // ----- Key segments -----

  predicate IsSafeChar(c: char) {
    IsLetter(c) || '0' <= c <= '9' || c == '_' || c == '.' || c == '=' || c == '-'
  }

  /** Every run of unsafe characters becomes one `-`; `inRun` says whether the text continues a run. */
  function Collapse(s: string, inRun: bool): (r: string)
    ensures forall i :: 0 <= i < |r| ==> IsSafeChar(r[i])
  {
    if s == "" then ""
    else if IsSafeChar(s[0]) then [s[0]] + Collapse(s[1..], false)
    else if inRun then Collapse(s[1..], true)
    else "-" + Collapse(s[1..], true)
  }

  predicate IsEdge(c: char) {
    c == '.' || c == '-' || c == '_'
  }

  /** `strip(".-_")`. */
  function Trim(s: string): (r: string)
    ensures r == "" || (!IsEdge(r[0]) && !IsEdge(r[|r| - 1]))
    ensures forall c :: c in r ==> c in s
    decreases |s|
  {
    if s == "" then ""
    else if IsEdge(s[0]) then Trim(s[1..])
    else if IsEdge(s[|s| - 1]) then Trim(s[..|s| - 1])
    else s
  }

  function Segment(value: string): Result<string, Rejection> {
    var safe := Trim(Collapse(Strip(value), false));
    if safe == "" then Err(EmptyPackageId) else Ok(safe)
  }

  lemma {:induction false} CollapseFixes(s: string, inRun: bool)
    requires forall i :: 0 <= i < |s| ==> IsSafeChar(s[i])
    ensures Collapse(s, inRun) == s
  {
    if s != "" {
      CollapseFixes(s[1..], false);
    }
  }

  lemma SegmentIsSafe(value: string)
    requires Segment(value).Ok?
    ensures var safe := Segment(value).value;
            safe != "" && !IsEdge(safe[0]) && !IsEdge(safe[|safe| - 1]) && forall c :: c in safe ==> IsSafeChar(c)
  {
    hide Strip, IsSafeChar;
    var whole := Collapse(Strip(value), false);
    forall c | c in Trim(whole)
      ensures IsSafeChar(c)
    {
      assert c in whole;
    }
  }

  lemma SafeIsPlain(safe: string)
    requires safe != "" && forall c :: c in safe ==> IsSafeChar(c)
    ensures Plain(safe) && Stripped(safe) && forall i :: 0 <= i < |safe| ==> IsSafeChar(safe[i])
  {
    assert forall i :: 0 <= i < |safe| ==> safe[i] in safe;
  }

  /** A segment is made of safe characters only, and is its own segment. */
  lemma SegmentIsStable(value: string)
    requires Segment(value).Ok?
    ensures var safe := Segment(value).value;
            && safe != "" && Plain(safe) && (forall c :: c in safe ==> IsSafeChar(c))
            && Segment(safe) == Ok(safe)
  {
    SegmentIsSafe(value);
    var safe := Segment(value).value;
    SafeIsPlain(safe);
    hide IsSafeChar, Strip, Stripped;
    StripFixes(safe);
    CollapseFixes(safe, false);
    TrimFixes(safe);
  }

  lemma TrimFixes(s: string)
    requires s != "" && !IsEdge(s[0]) && !IsEdge(s[|s| - 1])
    ensures Trim(s) == s
  {
  }
}
