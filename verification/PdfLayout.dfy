/** Where the printed page shows its lines: an interpreter of the content stream's operators for fonts,
    positions and text, and the page's own size and font. */
module PdfLayout {
  import opened Wrappers
  import opened Decimal
  import opened PdfText
  import opened Pdf

  // ----- Operators -----

  /** A line of text where a page shows it. */
  datatype Shown = Shown(x: int, y: int, font: string, size: nat, text: string)

  /** The state of a text object. */
  datatype Place = Place(x: int, y: int, font: string, size: nat)

  const BLANK := Place(0, 0, "", 0)

  function Integer(s: string): Option<(int, string)> {
    if s != "" && s[0] == '-' then
      var (n, rest) :- Number(s[1..]);
      Some((0 - n, rest))
    else
      var (n, rest) :- Number(s);
      Some((n, rest))
  }

  /** `x y Td`: the next line starts that far from the start of this one. */
  function MoveOperator(s: string): Option<(int, int, string)> {
    var (x, s) :- Integer(s);
    var s :- Expect(s, " ");
    var (y, s) :- Integer(s);
    var s :- Expect(s, " Td\n");
    Some((x, y, s))
  }

  function WordLength(s: string): (n: nat)
    ensures n <= |s|
  {
    if s == "" || s[0] == ' ' then 0 else 1 + WordLength(s[1..])
  }

  /** `/font size Tf`. */
  function FontOperator(s: string): Option<(string, nat, string)> {
    var s :- Expect(s, "/");
    var n := WordLength(s);
    var rest :- Expect(s[n..], " ");
    var (size, rest) :- Number(rest);
    var rest :- Expect(rest, " Tf\n");
    Some((s[..n], size, rest))
  }

  /** What stands behind the next line feed. */
  function NextLine(s: string): string {
    if s == "" then "" else if s[0] == '\n' then s[1..] else NextLine(s[1..])
  }

  /** The lines a content stream shows, and where; every other operator is skipped. */
  function Interpret(s: string, p: Place): seq<Shown>
    decreases |s|
  {
    if s == "" then []
    else if s[0] == '(' then
      match ReadLiteral(s[1..], 0)
      case None => []
      case Some((text, rest)) =>
        match Expect(rest, " Tj\n")
        case None => []
        case Some(rest) => if |rest| < |s| then [Shown(p.x, p.y, p.font, p.size, text)] + Interpret(rest, p) else []
    else
      match MoveOperator(s)
      case Some((x, y, rest)) => if |rest| < |s| then Interpret(rest, p.(x := p.x + x, y := p.y + y)) else []
      case None =>
        match FontOperator(s)
        case Some((font, size, rest)) => if |rest| < |s| then Interpret(rest, p.(font := font, size := size)) else []
        case None => var rest := NextLine(s); if |rest| < |s| then Interpret(rest, p) else []
  }

  // ----- The printer's operators -----

  lemma MoveIs(x: nat, y: nat, down: bool, rest: string)
    ensures MoveOperator(Digits(x) + (" " + ((if down then "-" else "") + (Digits(y) + (" Td\n" + rest)))))
            == Some((x, if down then 0 - y else y, rest))
  {
    hide Digits, Number, Expect;
    var c := Digits(y) + (" Td\n" + rest);
    var b := (if down then "-" else "") + c;
    NumberOf(x, " " + b);
    ExpectOf(" ", b);
    NumberOf(y, " Td\n" + rest);
    ExpectOf(" Td\n", rest);
    assert "" + c == c && ("-" + c)[1..] == c;
    DigitsFirst(x, " " + b);
    DigitsFirst(y, " Td\n" + rest);
  }

  lemma DigitsFirst(n: nat, rest: string)
    ensures var s := Digits(n) + rest; s != "" && s[0] != '-' && s[0] != '('
  {
    assert IsDigit(Digits(n)[0]);
  }

  lemma DownText(rest: string)
    ensures "0 -16 Td\n" + rest == Digits(0) + (" " + ("-" + (Digits(16) + (" Td\n" + rest))))
  {
    assert Digits(0) == "0" && Digits(1) == "1" && Digits(16) == "16";
    hide Digits;
    assert "0 -16 Td\n" == "0" + " " + "-" + "16" + " Td\n";
    Regroup("0", " ", "-", "16", " Td\n", rest);
  }

  lemma StartText(rest: string)
    ensures "50 780 Td\n" + rest == Digits(50) + (" " + ("" + (Digits(780) + (" Td\n" + rest))))
  {
    assert Digits(5) == "5" && Digits(50) == "50" && Digits(7) == "7" && Digits(78) == "78" && Digits(780) == "780";
    hide Digits;
    assert "50 780 Td\n" == "50" + " " + "" + "780" + " Td\n";
    Regroup("50", " ", "", "780", " Td\n", rest);
  }

  lemma InterpretMove(s: string, p: Place, x: int, y: int, rest: string)
    requires s != "" && s[0] != '(' && |rest| < |s| && MoveOperator(s) == Some((x, y, rest))
    ensures Interpret(s, p) == Interpret(rest, p.(x := p.x + x, y := p.y + y))
  {
    hide MoveOperator, FontOperator, NextLine, ReadLiteral, Expect;
  }

  lemma InterpretOther(s: string, p: Place)
    requires s != "" && s[0] != '-' && s[0] != '(' && !IsDigit(s[0])
    ensures FontOperator(s).Some? ==>
              var (font, size, rest) := FontOperator(s).value;
              |rest| < |s| ==> Interpret(s, p) == Interpret(rest, p.(font := font, size := size))
    ensures FontOperator(s).None? && |NextLine(s)| < |s| ==> Interpret(s, p) == Interpret(NextLine(s), p)
  {
    NoMove(s);
    hide MoveOperator, FontOperator, NextLine, ReadLiteral, Expect;
  }

  lemma StepDown(rest: string, p: Place)
    ensures Interpret("0 -16 Td\n" + rest, p) == Interpret(rest, p.(y := p.y - 16))
  {
    hide Digits, MoveOperator, Interpret;
    var s := "0 -16 Td\n" + rest;
    DownText(rest);
    MoveIs(0, 16, true, rest);
    assert s[0] == '0';
    InterpretMove(s, p, 0, -16, rest);
  }

  lemma GoToStart(rest: string, p: Place)
    ensures Interpret("50 780 Td\n" + rest, p) == Interpret(rest, p.(x := p.x + 50, y := p.y + 780))
  {
    hide Digits, MoveOperator, Interpret;
    var s := "50 780 Td\n" + rest;
    StartText(rest);
    MoveIs(50, 780, false, rest);
    assert s[0] == '5';
    InterpretMove(s, p, 50, 780, rest);
  }

  lemma ChooseFont(rest: string, p: Place)
    ensures Interpret("/F1 11 Tf\n" + rest, p) == Interpret(rest, p.(font := "F1", size := 11))
  {
    hide FontOperator, Interpret;
    FontIs(rest);
    InterpretOther("/F1 11 Tf\n" + rest, p);
  }

  lemma NoMove(s: string)
    requires s != "" && s[0] != '-' && !IsDigit(s[0])
    ensures MoveOperator(s).None?
  {
    hide Expect;
  }

  lemma FontIs(rest: string)
    ensures FontOperator("/F1 11 Tf\n" + rest) == Some(("F1", 11, rest))
  {
    assert Digits(1) == "1" && Digits(11) == "11";
    var c := Digits(11) + (" Tf\n" + rest);
    var b := "F1" + (" " + c);
    FontText(rest);
    hide Digits, Number, Expect;
    ExpectOf("/", b);
    var one := "1" + (" " + c);
    assert b[0] == 'F' && b[1..] == one && one[0] == '1' && one[1..] == " " + c;
    assert WordLength(" " + c) == 0;
    assert WordLength(one) == 1;
    assert WordLength(b) == 2;
    assert b[..2] == "F1" && b[2..] == " " + c;
    ExpectOf(" ", c);
    NumberOf(11, " Tf\n" + rest);
    ExpectOf(" Tf\n", rest);
  }

  lemma FontText(rest: string)
    ensures "/F1 11 Tf\n" + rest == "/" + ("F1" + (" " + ("11" + (" Tf\n" + rest))))
  {
    assert "/F1 11 Tf\n" == "/" + "F1" + " " + "11" + " Tf\n";
    Regroup("/", "F1", " ", "11", " Tf\n", rest);
  }

  lemma BehindBegin(rest: string)
    ensures NextLine("BT\n" + rest) == rest && FontOperator("BT\n" + rest).None?
  {
    var s := "BT\n" + rest;
    var t := s[1..];
    assert t == "T\n" + rest && t[1..] == "\n" + rest && t[1..][1..] == rest;
    assert NextLine(t[1..]) == rest;
    assert NextLine(t) == rest;
    assert s[..1][0] == 'B' && "/"[0] == '/';
  }

  lemma SkipBegin(rest: string, p: Place)
    ensures Interpret("BT\n" + rest, p) == Interpret(rest, p)
  {
    hide Interpret;
    var s := "BT\n" + rest;
    BehindBegin(rest);
    InterpretOther(s, p);
  }

  lemma SkipEnd(p: Place)
    ensures Interpret("ET", p) == []
  {
    assert "ET"[1..] == "T" && "T"[1..] == "";
    assert NextLine("ET") == "";
    assert "ET"[..1][0] == 'E' && "/"[0] == '/' && FontOperator("ET").None?;
    InterpretOther("ET", p);
    hide MoveOperator, FontOperator, NextLine;
  }

  /** One drawn line: a step down unless it is the first, and the line where that leads. */
  lemma InterpretDrawn(line: string, first: bool, rest: string, p: Place)
    requires NoReturn(line)
    ensures var q := if first then p else p.(y := p.y - 16);
            Interpret(Drawn(Escape(line), first) + rest, p)
            == [Shown(q.x, q.y, q.font, q.size, line)] + Interpret(rest, q)
  {
    hide Escape, Interpret;
    var e, q := Escape(line), if first then p else p.(y := p.y - 16);
    var show := "(" + e + ")" + (" Tj\n" + rest);
    assert ") Tj\n" == ")" + " Tj\n";
    Regroup("(", e, ")", " Tj\n", rest, "");
    Regroup("(", e, ") Tj\n", rest, "", "");
    Regroup("0 -16 Td\n", "(", e, ") Tj\n", rest, "");
    Regroup("", "(", e, ") Tj\n", rest, "");
    Regroup(")", " Tj\n", rest, "", "", "");
    assert "" + show == show;
    assert Drawn(e, first) + rest == (if first then "" else "0 -16 Td\n") + show;
    if !first {
      StepDown(show, p);
    }
    InterpretShow(line, rest, q);
  }

  lemma InterpretShow(line: string, rest: string, p: Place)
    requires NoReturn(line)
    ensures Interpret("(" + Escape(line) + ")" + (" Tj\n" + rest), p)
            == [Shown(p.x, p.y, p.font, p.size, line)] + Interpret(rest, p)
  {
    hide Escape, ReadLiteral, Interpret;
    LiteralRoundTrip(line, " Tj\n" + rest);
    var s, t := "(" + Escape(line) + ")" + (" Tj\n" + rest), Escape(line) + ")" + (" Tj\n" + rest);
    assert s[0] == '(' && s[1..] == t;
    InterpretLiteral(s, p, line, rest);
  }

  lemma InterpretLiteral(s: string, p: Place, text: string, rest: string)
    requires s != "" && s[0] == '(' && |rest| < |s| && ReadLiteral(s[1..], 0) == Some((text, " Tj\n" + rest))
    ensures Interpret(s, p) == [Shown(p.x, p.y, p.font, p.size, text)] + Interpret(rest, p)
  {
    ExpectOf(" Tj\n", rest);
    hide ReadLiteral, Expect, MoveOperator, FontOperator, NextLine;
  }

  /** The lines of a page from a place on, one below the other. */
  function Column(lines: seq<string>, p: Place): (r: seq<Shown>)
    ensures |r| == |lines|
  {
    seq(|lines|, k requires 0 <= k < |lines| => Shown(p.x, p.y - 16 * k, p.font, p.size, Encode(lines[k])))
  }

  lemma {:induction false} InterpretOperators(lines: seq<string>, rest: string, p: Place)
    requires lines != [] && forall i :: 0 <= i < |lines| ==> NoReturn(lines[i])
    ensures Interpret(Encode(Terminated(Operators(EscapeEach(lines)))) + rest, p)
            == Column(lines, p) + Interpret(rest, p.(y := p.y - 16 * (|lines| - 1)))
  {
    hide Interpret, Escape, Encode, Drawn, Terminated, Operators;
    var k := |lines| - 1;
    var front, last := lines[..k], lines[k];
    assert EscapeEach(lines)[..k] == EscapeEach(front);
    OperatorsLast(EscapeEach(lines));
    var a, b := Terminated(Operators(EscapeEach(front))), Drawn(Escape(last), k == 0);
    EncodeConcat(a, b);
    EncodeDrawn(last, k == 0);
    EncodeKeepsReturns(last);
    var d := Drawn(Escape(Encode(last)), k == 0);
    Regroup(Encode(a), d, rest, "", "", "");
    if k == 0 {
      NothingDrawn();
      assert EscapeEach(front) == [];
      assert "" + (d + rest) == d + rest;
      InterpretDrawn(Encode(last), true, rest, p);
      assert Column(lines, p) == [Shown(p.x, p.y, p.font, p.size, Encode(last))];
    } else {
      InterpretOperators(front, d + rest, p);
      InterpretDrawn(Encode(last), false, rest, p.(y := p.y - 16 * (k - 1)));
      assert Column(lines, p) == Column(front, p) + [Shown(p.x, p.y - 16 * k, p.font, p.size, Encode(last))];
    }
  }

  lemma PageIsNotEmpty(text: string)
    ensures PageText(text) != [] && |PageText(text)| <= 45
  {
    hide SplitLines;
  }

  /** The content stream of some lines shows line k at (50, 780 - 16 k), in font F1 of eleven points. */
  lemma StreamPlaces(lines: seq<string>)
    requires lines != [] && forall i :: 0 <= i < |lines| ==> NoReturn(lines[i])
    ensures Interpret(Stream(EscapeEach(lines)), BLANK) == Column(lines, Place(50, 780, "F1", 11))
  {
    StreamShape(EscapeEach(lines));
    hide Interpret, Encode, Operators, Terminated, EscapeEach, Stream, Column;
    var o := Encode(Terminated(Operators(EscapeEach(lines)))) + "ET";
    PrologueParts(Encode(Terminated(Operators(EscapeEach(lines)))));
    SkipBegin("/F1 11 Tf\n" + ("50 780 Td\n" + o), BLANK);
    ChooseFont("50 780 Td\n" + o, BLANK);
    GoToStart(o, BLANK.(font := "F1", size := 11));
    var p := Place(50, 780, "F1", 11);
    InterpretOperators(lines, "ET", p);
    SkipEnd(p.(y := p.y - 16 * (|lines| - 1)));
    assert Column(lines, p) + [] == Column(lines, p);
  }

  lemma PrologueParts(o: string)
    ensures PROLOGUE_TEXT + o + "ET" == "BT\n" + ("/F1 11 Tf\n" + ("50 780 Td\n" + (o + "ET")))
  {
    assert PROLOGUE_TEXT == "BT\n" + "/F1 11 Tf\n" + "50 780 Td\n";
    Regroup("BT\n", "/F1 11 Tf\n", "50 780 Td\n", o, "ET", "");
  }

  // ----- The page -----

  /** The size of a page object and the object of its font. */
  function PageSetup(s: string): Option<(nat, nat, nat)> {
    var s :- Expect(s, PARENT_HEAD);
    var (_, s) :- Number(s);
    var s :- Expect(s, " 0 R");
    var s :- Expect(s, BOX_HEAD);
    var (width, s) :- Number(s);
    var s :- Expect(s, " ");
    var (height, s) :- Number(s);
    var s :- Expect(s, FONT_HEAD);
    var (font, s) :- Number(s);
    var _ :- Expect(s, " 0 R");
    Some((width, height, font))
  }

  lemma PageSetupOf(rest: string)
    ensures PageSetup(PAGE_HEAD + rest) == Some((612, 792, 4))
  {
    hide Digits, Number, Expect;
    var g := " 0 R" + (CONTENTS_HEAD + rest);
    var f := FONT_HEAD + (Digits(4) + g);
    var e := " " + (Digits(792) + f);
    var d := BOX_HEAD + (Digits(612) + e);
    var c := " 0 R" + d;
    PageHeadParts(rest);
    ExpectOf(PARENT_HEAD, Digits(2) + c);
    NumberOf(2, c);
    ExpectOf(" 0 R", d);
    ExpectOf(BOX_HEAD, Digits(612) + e);
    NumberOf(612, e);
    ExpectOf(" ", Digits(792) + f);
    NumberOf(792, f);
    ExpectOf(FONT_HEAD, Digits(4) + g);
    NumberOf(4, g);
    ExpectOf(" 0 R", CONTENTS_HEAD + rest);
  }

  lemma PageHeadParts(rest: string)
    ensures PAGE_HEAD + rest ==
            PARENT_HEAD + (Digits(2) + (" 0 R" + (BOX_HEAD + (Digits(612) + (" " + (Digits(792) +
              (FONT_HEAD + (Digits(4) + (" 0 R" + (CONTENTS_HEAD + rest))))))))))
  {
    hide Digits;
    var box, font := BOX_HEAD + Digits(612) + " " + Digits(792), FONT_HEAD + Ref(4);
    Regroup(PARENT_HEAD, Ref(2), box, font, CONTENTS_HEAD, rest);
    var t := font + (CONTENTS_HEAD + rest);
    Regroup(BOX_HEAD, Digits(612), " ", Digits(792), t, "");
    Regroup(Digits(2), " 0 R", box + t, "", "", "");
    Regroup(FONT_HEAD, Digits(4) + " 0 R", CONTENTS_HEAD + rest, "", "", "");
    Regroup(Digits(4), " 0 R", CONTENTS_HEAD + rest, "", "", "");
  }

  /** The printed file's page is 612 by 792, and its font reference leads to the font object. */
  lemma PageHasFont(stream: string)
    ensures var file := File(Objects(stream));
            && ObjectAt(file, 3).Some? && PageSetup(ObjectAt(file, 3).value) == Some((612, 792, 4))
            && ObjectAt(file, 4).Some? && Expect(ObjectAt(file, 4).value, FONT).Some?
  {
    var o := Objects(stream);
    ObjectsAreNarrow(stream);
    TheObjects(stream);
    FontObject(stream);
    hide Objects, File, Narrow, ObjectAt, Obj, Ref, PageSetup, Expect;
    var page := ObjectOf(o, 2, PAGE_HEAD + Ref(5) + " >>");
    var font := ObjectOf(o, 3, FONT);
    Regroup(PAGE_HEAD, Ref(5), " >>", " endobj\n", page, "");
    PageSetupOf(Ref(5) + (" >>" + (" endobj\n" + page)));
    Regroup(FONT, " endobj\n", font, "", "", "");
    ExpectOf(FONT, " endobj\n" + font);
  }

  lemma FontObject(stream: string)
    ensures Objects(stream)[3] == Obj(4, FONT)
  {
    hide Obj, Ref, Digits;
  }

  /** Every line of a printed page starts inside the page, whatever the text. */
  lemma LinesAreOnPage(text: string, k: nat)
    requires k < |PageText(text)|
    ensures var stream := Stream(EscapeEach(PageText(text)));
            var shown := Interpret(stream, BLANK);
            && |shown| == |PageText(text)|
            && shown[k] == Shown(50, 780 - 16 * k, "F1", 11, Encode(PageText(text)[k]))
            && 0 <= shown[k].x <= 612 && 0 <= shown[k].y <= 792
  {
    PageHasNoReturns(text);
    PageIsNotEmpty(text);
    hide Interpret, Stream, EscapeEach, PageText, Encode;
    StreamPlaces(PageText(text));
  }
}
