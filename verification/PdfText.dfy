/** Text of a minimal PDF page: escaping, line splitting and the literal-string reader of section
    7.3.4.2 of ISO 32000-1:2008. One `char` below 256 stands for one byte. */
module PdfText {
  import opened Wrappers

  // ----- Printing -----

  /** `s.replace(c, r)` for a single character. */
  function ReplaceAll(s: string, c: char, r: string): string {
    if s == "" then "" else (if s[0] == c then r else [s[0]]) + ReplaceAll(s[1..], c, r)
  }

  /** The three successive passes of the printer. */
  function EscapePasses(s: string): string {
    ReplaceAll(ReplaceAll(ReplaceAll(s, '\\', "\\\\"), '(', "\\("), ')', "\\)")
  }

  function EscapeChar(c: char): string {
    if c == '\\' || c == '(' || c == ')' then ['\\', c] else [c]
  }

  function Escape(s: string): string {
    if s == "" then "" else EscapeChar(s[0]) + Escape(s[1..])
  }

  lemma {:induction false} ReplaceConcat(a: string, b: string, c: char, r: string)
    ensures ReplaceAll(a + b, c, r) == ReplaceAll(a, c, r) + ReplaceAll(b, c, r)
  {
    if a == "" {
      assert a + b == b;
    } else {
      assert (a + b)[1..] == a[1..] + b;
      ReplaceConcat(a[1..], b, c, r);
    }
  }

  lemma ReplaceShort(c: char, r: string, x: char, y: char)
    ensures ReplaceAll([x], c, r) == if x == c then r else [x]
    ensures ReplaceAll([x, y], c, r) == (if x == c then r else [x]) + (if y == c then r else [y])
  {
    assert [x][1..] == "" && [x, y][1..] == [y] && [y][1..] == "";
  }

  lemma PassesOnChar(x: char)
    ensures EscapePasses([x]) == EscapeChar(x)
  {
    ReplaceShort('\\', "\\\\", x, x);
    ReplaceShort('(', "\\(", x, x);
    ReplaceShort('(', "\\(", '\\', '\\');
    ReplaceShort(')', "\\)", x, x);
    ReplaceShort(')', "\\)", '\\', '\\');
    ReplaceShort(')', "\\)", '\\', '(');
  }

  /** The three passes are one escape per character: no pass touches what an earlier one put in. */
  lemma {:induction false} PassesAreEscape(s: string)
    ensures EscapePasses(s) == Escape(s)
  {
    if s != "" {
      assert s == [s[0]] + s[1..];
      ReplaceConcat([s[0]], s[1..], '\\', "\\\\");
      var a, b := ReplaceAll([s[0]], '\\', "\\\\"), ReplaceAll(s[1..], '\\', "\\\\");
      ReplaceConcat(a, b, '(', "\\(");
      ReplaceConcat(ReplaceAll(a, '(', "\\("), ReplaceAll(b, '(', "\\("), ')', "\\)");
      PassesOnChar(s[0]);
      PassesAreEscape(s[1..]);
    }
  }

  predicate IsBreak(c: char) {
    10 <= c as int <= 13 || 28 <= c as int <= 30 || c as int == 0x85 || c as int == 0x2028 || c as int == 0x2029
  }

  /** Position of the first line break, or the length. */
  function LineEnd(s: string): (n: nat)
    ensures n <= |s|
    ensures n < |s| ==> IsBreak(s[n])
    ensures forall i :: 0 <= i < n ==> !IsBreak(s[i])
  {
    if s == "" || IsBreak(s[0]) then 0 else 1 + LineEnd(s[1..])
  }

  function BreakLength(s: string): nat
    requires s != ""
  {
    if |s| >= 2 && s[0] == '\r' && s[1] == '\n' then 2 else 1
  }

  /** `str.splitlines()`. */
  function SplitLines(s: string): seq<string>
    decreases |s|
  {
    if s == "" then []
    else
      var n := LineEnd(s);
      if n == |s| then [s] else [s[..n]] + SplitLines(s[n + BreakLength(s[n..])..])
  }

  function EscapeEach(lines: seq<string>): (r: seq<string>)
    ensures |r| == |lines|
  {
    seq(|lines|, i requires 0 <= i < |lines| => Escape(lines[i]))
  }

  lemma {:induction false} EscapeConcat(a: string, b: string)
    ensures Escape(a + b) == Escape(a) + Escape(b)
  {
    if a == "" {
      assert a + b == b;
    } else {
      assert (a + b)[1..] == a[1..] + b;
      EscapeConcat(a[1..], b);
    }
  }

  lemma {:induction false} EscapeNoBreak(s: string)
    requires forall i :: 0 <= i < |s| ==> !IsBreak(s[i])
    ensures forall i :: 0 <= i < |Escape(s)| ==> !IsBreak(Escape(s)[i])
    ensures |Escape(s)| >= |s|
  {
    if s != "" {
      EscapeNoBreak(s[1..]);
    }
  }

  lemma {:induction false} LineEndOf(a: string, b: string)
    requires forall i :: 0 <= i < |a| ==> !IsBreak(a[i])
    requires b == "" || IsBreak(b[0])
    ensures LineEnd(a + b) == |a|
  {
    if a == "" {
      assert a + b == b;
    } else {
      assert (a + b)[1..] == a[1..] + b;
      LineEndOf(a[1..], b);
    }
  }

  lemma EscapeOfBreak(s: string)
    requires s != "" && IsBreak(s[0])
    ensures var k := BreakLength(s);
            && Escape(s) == s[..k] + Escape(s[k..]) && BreakLength(Escape(s)) == k && Escape(s)[0] == s[0]
  {
    assert Escape(s) == [s[0]] + Escape(s[1..]);
    if |s| >= 2 {
      assert s[1..][0] == s[1] && s[1..][1..] == s[2..];
      assert Escape(s[1..]) == EscapeChar(s[1]) + Escape(s[2..]);
    }
    if BreakLength(s) == 2 {
      assert s[..2] == [s[0]] + [s[1]];
    }
  }

  /** The first line of a text and what follows its line break. */
  lemma SplitOne(a: string, b: string)
    requires forall i :: 0 <= i < |a| ==> !IsBreak(a[i])
    requires b != "" && IsBreak(b[0])
    ensures SplitLines(a + b) == [a] + SplitLines(b[BreakLength(b)..])
  {
    LineEndOf(a, b);
    var s := a + b;
    assert s[..|a|] == a && s[|a|..] == b;
    assert s[|a| + BreakLength(b)..] == b[BreakLength(b)..];
  }

  lemma EscapeEachOf(line: string, rest: seq<string>)
    ensures EscapeEach([line] + rest) == [Escape(line)] + EscapeEach(rest)
  {
  }

  /** Escaping keeps the line structure. */
  lemma {:induction false} SplitEscaped(s: string)
    ensures SplitLines(Escape(s)) == EscapeEach(SplitLines(s))
    decreases |s|, 1
  {
    if s != "" {
      var n := LineEnd(s);
      var a, b := s[..n], s[n..];
      assert s == a + b;
      EscapeNoBreak(a);
      if n == |s| {
        assert a == s;
        LineEndOf(Escape(a), "");
        assert Escape(a) + "" == Escape(a);
      } else {
        SplitEscapedStep(a, b);
      }
    }
  }

  lemma {:induction false} SplitEscapedStep(a: string, b: string)
    requires forall i :: 0 <= i < |a| ==> !IsBreak(a[i])
    requires b != "" && IsBreak(b[0])
    ensures SplitLines(Escape(a + b)) == EscapeEach(SplitLines(a + b))
    decreases |a + b|, 0
  {
    hide SplitLines, Escape, EscapeEach, LineEnd;
    var k := BreakLength(b);
    EscapeConcat(a, b);
    EscapeNoBreak(a);
    EscapeOfBreak(b);
    SplitOne(a, b);
    SplitOne(Escape(a), Escape(b));
    assert Escape(b)[k..] == Escape(b[k..]);
    SplitEscaped(b[k..]);
    EscapeEachOf(a, SplitLines(b[k..]));
  }

  // ----- Lines -----

  /** A line break: a carriage return with a line feed, or one of ten single characters. */
  predicate Break(s: string) {
    || s == "\r\n"
    || (|s| == 1 && s[0] as int in {10, 11, 12, 13, 28, 29, 30, 0x85, 0x2028, 0x2029})
  }

  /** Lines and breaks in turn. */
  function Glued(lines: seq<string>, breaks: seq<string>): string
    requires |breaks| <= |lines| <= |breaks| + 1
  {
    if lines == [] then ""
    else if breaks == [] then lines[0]
    else lines[0] + breaks[0] + Glued(lines[1..], breaks[1..])
  }

  /** The lines hold no break and are glued by breaks to the text; a carriage return and a line feed are one
      break, and behind a break that ends the text there is no line. */
  ghost predicate SplitAs(s: string, lines: seq<string>, breaks: seq<string>) {
    && |breaks| <= |lines| <= |breaks| + 1 && s == Glued(lines, breaks)
    && (|lines| > |breaks| ==> lines[|breaks|] != "")
    && (forall i :: 0 <= i < |breaks| ==> Break(breaks[i]))
    && (forall i, c :: 0 <= i < |lines| && c in lines[i] ==> !Break([c]))
    && (forall i :: 0 <= i < |breaks| - 1 && breaks[i] == "\r" && lines[i + 1] == "" ==> breaks[i + 1] != "\n")
  }

  /** Splitting gives the lines of a text, which leaves no choice. */
  lemma {:induction false} SplitTells(s: string) returns (breaks: seq<string>)
    ensures SplitAs(s, SplitLines(s), breaks)
    decreases |s|
  {
    hide SplitAs, IsBreak, Break, BreakLength, SplitLines, LineEnd;
    var n := LineEnd(s);
    NoBreakIn(s);
    var a, at := s[..n], s[n..];
    assert s == a + at;
    if at == "" {
      breaks := [];
      assert a == s;
      SplitLast(s);
    } else {
      SplitOne(a, at);
      BreakStops(at);
      var k := BreakLength(at);
      breaks := SplitTells(at[k..]);
      SplitMore(a, at[..k], at[k..], SplitLines(at[k..]), breaks);
      assert a + at[..k] + at[k..] == a + at;
      breaks := [at[..k]] + breaks;
    }
  }

  /** A text without a break is one line, or none. */
  lemma SplitLast(s: string)
    requires LineEnd(s) == |s| && forall c :: c in s ==> !Break([c])
    ensures SplitAs(s, SplitLines(s), [])
  {
    hide Break, LineEnd;
  }

  lemma NoBreakIn(s: string)
    ensures forall c :: c in s[..LineEnd(s)] ==> !Break([c])
  {
    hide LineEnd;
    forall c | c in s[..LineEnd(s)]
      ensures !Break([c])
    {
      assert !IsBreak(c);
    }
  }

  /** One more line and break in front. */
  lemma SplitMore(a: string, b: string, rest: string, lines: seq<string>, breaks: seq<string>)
    requires SplitAs(rest, lines, breaks) && Break(b) && forall c :: c in a ==> !Break([c])
    requires b == "\r" && rest != "" ==> rest[0] != '\n'
    ensures SplitAs(a + b + rest, [a] + lines, [b] + breaks)
  {
    hide Break;
    GluedMore(a, b, lines, breaks);
    if breaks != [] && lines[0] == "" {
      GluedStarts(lines, breaks);
    }
  }

  lemma GluedMore(a: string, b: string, lines: seq<string>, breaks: seq<string>)
    requires |breaks| <= |lines| <= |breaks| + 1
    ensures Glued([a] + lines, [b] + breaks) == a + b + Glued(lines, breaks)
  {
    assert ([a] + lines)[1..] == lines && ([b] + breaks)[1..] == breaks;
  }

  lemma GluedStarts(lines: seq<string>, breaks: seq<string>)
    requires |breaks| <= |lines| <= |breaks| + 1 && breaks != [] && lines[0] == "" && Break(breaks[0])
    ensures var s := Glued(lines, breaks); s != "" && s[0] == breaks[0][0]
  {
  }

  /** A break in front of a text, and that no lone carriage return stands in front of a line feed. */
  lemma BreakStops(s: string)
    requires s != "" && IsBreak(s[0])
    ensures var k := BreakLength(s);
            k <= |s| && Break(s[..k]) && (s[..k] == "\r" && k < |s| ==> s[k] != '\n')
  {
    if |s| >= 2 && s[0] == '\r' && s[1] == '\n' {
      assert s[..2] == "\r\n";
    } else {
      assert s[..1] == [s[0]];
    }
  }

  // ----- Latin-1 -----

  /** `encode("latin-1", errors="replace")`. */
  function Encode(s: string): (r: string)
    ensures |r| == |s|
  {
    seq(|s|, i requires 0 <= i < |s| => if s[i] as int < 256 then s[i] else '?')
  }

  function EncodeEach(lines: seq<string>): (r: seq<string>)
    ensures |r| == |lines|
  {
    seq(|lines|, i requires 0 <= i < |lines| => Encode(lines[i]))
  }

  predicate Latin1(s: string) {
    forall i :: 0 <= i < |s| ==> s[i] as int < 256
  }

  lemma EncodeConcat(a: string, b: string)
    ensures Encode(a + b) == Encode(a) + Encode(b)
  {
  }

  lemma EncodeLatin1(s: string)
    requires Latin1(s)
    ensures Encode(s) == s
  {
  }

  lemma {:induction false} EncodeEscaped(s: string)
    ensures Encode(Escape(s)) == Escape(Encode(s))
  {
    if s != "" {
      EncodeConcat(EscapeChar(s[0]), Escape(s[1..]));
      EncodeEscaped(s[1..]);
      assert Encode(s)[1..] == Encode(s[1..]);
      var c := if s[0] as int < 256 then s[0] else '?';
      assert Encode(EscapeChar(s[0])) == EscapeChar(c);
    }
  }

  // ----- Reading literal strings -----

  predicate IsOctal(c: char) {
    '0' <= c <= '7'
  }

  /** Up to three octal digits. */
  function OctalLength(s: string): nat
    requires s != "" && IsOctal(s[0])
  {
    if |s| >= 2 && IsOctal(s[1]) then if |s| >= 3 && IsOctal(s[2]) then 3 else 2 else 1
  }

  function OctalValue(s: string): int
    requires forall i :: 0 <= i < |s| ==> IsOctal(s[i])
  {
    if s == "" then 0 else 8 * OctalValue(s[..|s| - 1]) + (s[|s| - 1] as int - '0' as int)
  }

  /** What follows a reverse solidus: the characters it stands for, and how many it takes. */
  function AfterSolidus(s: string): (r: (string, nat))
    requires s != ""
    ensures 1 <= r.1 <= |s|
  {
    if s[0] == 'n' then ("\n", 1) else if s[0] == 'r' then ("\r", 1) else if s[0] == 't' then ("\t", 1)
    else if s[0] == 'b' then ([8 as char], 1) else if s[0] == 'f' then ([12 as char], 1)
    else if s[0] == '\r' then ("", if |s| >= 2 && s[1] == '\n' then 2 else 1)
    else if s[0] == '\n' then ("", 1)
    else if IsOctal(s[0]) then
      var k := OctalLength(s);
      ([(OctalValue(s[..k]) % 256) as char], k)
    else ([s[0]], 1)
  }

  /** A literal string, from behind its opening parenthesis: its value and what follows it. */
  function ReadLiteral(s: string, depth: nat): Option<(string, string)>
    decreases |s|
  {
    if s == "" then None
    else if s[0] == '\\' then
      if |s| == 1 then None
      else
        var (value, used) := AfterSolidus(s[1..]);
        Prepend(value, ReadLiteral(s[1 + used..], depth))
    else if s[0] == ')' && depth == 0 then Some(("", s[1..]))
    else if s[0] == ')' then Prepend(")", ReadLiteral(s[1..], depth - 1))
    else if s[0] == '(' then Prepend("(", ReadLiteral(s[1..], depth + 1))
    else if s[0] == '\r' then Prepend("\n", ReadLiteral(s[if |s| >= 2 && s[1] == '\n' then 2 else 1..], depth))
    else Prepend([s[0]], ReadLiteral(s[1..], depth))
  }

  function Prepend(value: string, r: Option<(string, string)>): Option<(string, string)> {
    match r
    case Some((v, rest)) => Some((value + v, rest))
    case None => None
  }

  /** The reader undoes the escape of any line. */
  lemma {:induction false} LiteralRoundTrip(line: string, rest: string)
    requires forall i :: 0 <= i < |line| ==> line[i] != '\r'
    ensures ReadLiteral(Escape(line) + ")" + rest, 0) == Some((line, rest))
  {
    var s := Escape(line) + ")" + rest;
    if line == "" {
      assert s == ")" + rest && s[1..] == rest;
    } else {
      var tail := Escape(line[1..]) + ")" + rest;
      assert s == EscapeChar(line[0]) + tail;
      LiteralRoundTrip(line[1..], rest);
      assert line == [line[0]] + line[1..];
      if |EscapeChar(line[0])| == 2 {
        assert s[1..][0] == line[0] && s[2..] == tail;
        assert AfterSolidus(s[1..]) == ([line[0]], 1);
      } else {
        assert s[1..] == tail;
      }
    }
  }

  /** All literal strings of a content stream, in order. */
  function ShownStrings(s: string): seq<string>
    decreases |s|
  {
    if s == "" then []
    else if s[0] != '(' then ShownStrings(s[1..])
    else match ReadLiteral(s[1..], 0)
      case None => []
      case Some((v, rest)) => if |rest| < |s| then [v] + ShownStrings(rest) else []
  }

  lemma {:induction false} SkipPlain(plain: string, s: string)
    requires forall i :: 0 <= i < |plain| ==> plain[i] != '('
    ensures ShownStrings(plain + s) == ShownStrings(s)
  {
    if plain == "" {
      assert plain + s == s;
    } else {
      assert (plain + s)[1..] == plain[1..] + s;
      SkipPlain(plain[1..], s);
    }
  }

  lemma ShowOne(line: string, rest: string)
    requires forall i :: 0 <= i < |line| ==> line[i] != '\r'
    ensures ShownStrings("(" + Escape(line) + ")" + rest) == [line] + ShownStrings(rest)
  {
    var s := "(" + Escape(line) + ")" + rest;
    assert s[1..] == Escape(line) + ")" + rest;
    LiteralRoundTrip(line, rest);
  }
}
