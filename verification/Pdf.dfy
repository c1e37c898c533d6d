/** The minimal PDF printer, and a reader that follows sections 7.5.4, 7.5.5 and 7.3.8 of
    ISO 32000-1:2008: end of file, cross-reference table, trailer, page tree, content stream. */
module Pdf {
  import opened Wrappers
  import opened Decimal
  import opened PdfText

  // ----- What the printer writes -----

  const HEADER := "%PDF-1.4\n"
  const PAGE_LINES: nat := 45

  /** The lines of the page: the text's own, or one empty line. */
  function PageText(text: string): seq<string> {
    var lines := SplitLines(text);
    FirstLines(if lines == [] then [""] else lines)
  }

  function FirstLines(lines: seq<string>): seq<string> {
    if |lines| <= PAGE_LINES then lines else lines[..PAGE_LINES]
  }

  /** The drawing operators of some lines. */
  function Operators(lines: seq<string>): seq<string> {
    if lines == [] then []
    else
      var k := |lines| - 1;
      Operators(lines[..k]) + Move(k == 0) + [Show(lines[k])]
  }

  function Move(first: bool): seq<string> {
    if first then [] else ["0 -16 Td"]
  }

  function Show(line: string): string {
    "(" + line + ") Tj"
  }

  /** Every line followed by a line feed. */
  function Terminated(lines: seq<string>): string {
    if lines == [] then "" else Terminated(lines[..|lines| - 1]) + lines[|lines| - 1] + "\n"
  }

  /** `"\n".join(lines)`. */
  function Join(lines: seq<string>): string {
    if lines == [] then "" else Terminated(lines[..|lines| - 1]) + lines[|lines| - 1]
  }

  const PROLOGUE := ["BT", "/F1 11 Tf", "50 780 Td"]

  /** The content stream for already escaped lines. */
  function Stream(lines: seq<string>): string {
    Encode(Join(PROLOGUE + Operators(lines) + ["ET"]))
  }

  function Ref(n: nat): string {
    Digits(n) + " 0 R"
  }

  function Obj(n: nat, body: string): string {
    Digits(n) + " 0 obj " + body + " endobj\n"
  }

  const CATALOG_HEAD := "<< /Type /Catalog /Pages "
  const PAGES_HEAD := "<< /Type /Pages /Kids ["
  const PARENT_HEAD := "<< /Type /Page /Parent "
  const BOX_HEAD := " /MediaBox [0 0 "
  const FONT_HEAD := "] /Resources << /Font << /F1 "
  const CONTENTS_HEAD := " >> >> /Contents "

  /** What a page says of itself in front of its contents: its parent, its size and its font. */
  const PAGE_HEAD :=
    PARENT_HEAD + Ref(2) + (BOX_HEAD + Digits(612) + " " + Digits(792)) + (FONT_HEAD + Ref(4)) + CONTENTS_HEAD
  const FONT := "<< /Type /Font /Subtype /Type1 /BaseFont /Helvetica >>"
  const LENGTH_HEAD := "<< /Length "
  const STREAM_HEAD := " >> stream\n"
  const STREAM_TAIL := "\nendstream endobj\n"

  function Objects(stream: string): (r: seq<string>)
    ensures |r| == 5
  {
    [ Obj(1, CATALOG_HEAD + Ref(2) + " >>"),
      Obj(2, PAGES_HEAD + Ref(3) + "] /Count 1 >>"),
      Obj(3, PAGE_HEAD + Ref(5) + " >>"),
      Obj(4, FONT),
      Obj(5, LENGTH_HEAD + Digits(|stream|) + STREAM_HEAD + stream + "\nendstream") ]
  }

  function Concat(parts: seq<string>): string {
    if parts == [] then "" else Concat(parts[..|parts| - 1]) + parts[|parts| - 1]
  }

  /** Where object `k`, counted from zero, begins in the file. */
  function Offset(objects: seq<string>, k: nat): nat
    requires k <= |objects|
  {
    |HEADER + Concat(objects[..k])|
  }

  function Entry(offset: nat): string {
    Pad10(offset) + " 00000 n \n"
  }

  /** The cross-reference entries of the first `k` objects. */
  function Table(objects: seq<string>, k: nat): string
    requires k <= |objects|
  {
    if k == 0 then "" else Table(objects, k - 1) + Entry(Offset(objects, k - 1))
  }

  const FREE_ENTRY := "0000000000 65535 f \n"
  const TRAILER_HEAD := "trailer << /Size "
  const ROOT_HEAD := " /Root "

  function Trailer(count: nat): string {
    TRAILER_HEAD + Digits(count) + ROOT_HEAD + Ref(1) + " >>\n"
  }

  /** Everything from the cross-reference table on. */
  function Tail(objects: seq<string>): string {
    "xref\n0 " + Digits(|objects| + 1) + "\n" + (FREE_ENTRY + Table(objects, |objects|))
    + (Trailer(|objects| + 1) + "startxref\n" + Digits(Offset(objects, |objects|)) + "\n%%EOF\n")
  }

  function File(objects: seq<string>): string {
    HEADER + Concat(objects) + Tail(objects)
  }

  /** The file the printer writes for a text. */
  function Printed(text: string): string {
    File(Objects(Stream(EscapeEach(PageText(text)))))
  }

  // ----- A reader -----

  function Expect(s: string, prefix: string): Option<string> {
    if |prefix| <= |s| && s[..|prefix|] == prefix then Some(s[|prefix|..]) else None
  }

  function ExpectEnd(s: string, suffix: string): Option<string> {
    if |suffix| <= |s| && s[|s| - |suffix|..] == suffix then Some(s[..|s| - |suffix|]) else None
  }

  /** The byte offset that the end of the file announces. */
  function StartXref(file: string): Option<nat> {
    var s :- ExpectEnd(file, "\n%%EOF\n");
    var k := TrailingDigits(s);
    var _ :- ExpectEnd(s[..|s| - k], "startxref\n");
    Some(Value(s[|s| - k..]))
  }

  /** The number of entries, and the bytes from the first entry on. */
  function XrefTable(file: string): Option<(nat, string)> {
    var at :- StartXref(file);
    if at > |file| then None
    else
      var s :- Expect(file[at..], "xref\n0 ");
      var (count, s) :- Number(s);
      var s :- Expect(s, "\n");
      Some((count, s))
  }

  /** The offset in the 20-byte entry `n`. */
  function EntryOffset(entries: string, n: nat): Option<nat> {
    if 20 * n + 20 > |entries| then None
    else
      var entry := entries[20 * n..20 * n + 20];
      if AllDigits(entry[..10]) && entry[10..] == " 00000 n \n" then Some(Value(entry[..10])) else None
  }

  /** Where object `n` begins, through the cross-reference table. */
  function Locate(file: string, n: nat): (r: Option<nat>)
    ensures r.Some? ==> r.value <= |file|
  {
    var (count, entries) :- XrefTable(file);
    if n >= count then None
    else
      var at :- EntryOffset(entries, n);
      if at <= |file| then Some(at) else None
  }

  /** The bytes of object `n` behind its own header. */
  function ObjectAt(file: string, n: nat): Option<string> {
    var at :- Locate(file, n);
    var (number, s) :- Number(file[at..]);
    if number != n then None else Expect(s, " 0 obj ")
  }

  /** A reference that follows `mark`. */
  function Reference(s: string, mark: string): Option<nat> {
    var s :- Expect(s, mark);
    var (n, s) :- Number(s);
    var _ :- Expect(s, " 0 R");
    Some(n)
  }

  function RootObject(file: string): Option<nat> {
    var (count, entries) :- XrefTable(file);
    if 20 * count > |entries| then None
    else
      var s :- Expect(entries[20 * count..], TRAILER_HEAD);
      var (size, s) :- Number(s);
      if size != count then None else Reference(s, ROOT_HEAD)
  }

  /** The stream of an object: as many bytes as `/Length` says, and then the end of the stream. */
  function StreamOf(s: string): Option<string> {
    var s :- Expect(s, LENGTH_HEAD);
    var (length, s) :- Number(s);
    var s :- Expect(s, STREAM_HEAD);
    if length > |s| then None
    else
      var _ :- Expect(s[length..], STREAM_TAIL);
      Some(s[..length])
  }

  /** From the end of the file through trailer, catalog, page tree and page to the shown text. */
  function ReadPage(file: string): Option<seq<string>> {
    var root :- RootObject(file);
    var catalog :- ObjectAt(file, root);
    var tree :- Reference(catalog, CATALOG_HEAD);
    var pages :- ObjectAt(file, tree);
    var kid :- Reference(pages, PAGES_HEAD);
    var page :- ObjectAt(file, kid);
    var contents :- Reference(page, PAGE_HEAD);
    var last :- ObjectAt(file, contents);
    var stream :- StreamOf(last);
    Some(ShownStrings(stream))
  }

  // ----- Cross references -----

  lemma ExpectOf(prefix: string, rest: string)
    ensures Expect(prefix + rest, prefix) == Some(rest)
  {
    assert (prefix + rest)[..|prefix|] == prefix && (prefix + rest)[|prefix|..] == rest;
  }

  lemma ExpectEndOf(rest: string, suffix: string)
    ensures ExpectEnd(rest + suffix, suffix) == Some(rest)
  {
    var s := rest + suffix;
    assert s[..|s| - |suffix|] == rest && s[|s| - |suffix|..] == suffix;
  }

  lemma Regroup(a: string, b: string, c: string, d: string, e: string, f: string)
    ensures a + b + c == a + (b + c)
    ensures a + b + c + d == a + (b + (c + d))
    ensures a + b + c + d + e == a + (b + (c + (d + e)))
    ensures a + b + c + d + e + f == a + (b + (c + (d + (e + f))))
  {
    assert forall x: string, y: string, z: string :: x + y + z == x + (y + z);
  }

  lemma Behind(front: string, back: string)
    ensures (front + back)[..|front|] == front && (front + back)[|front|..] == back
  {
  }

  lemma StartXrefOf(body: string, at: nat)
    ensures StartXref(body + "startxref\n" + Digits(at) + "\n%%EOF\n") == Some(at)
  {
    var before, d := body + "startxref\n", Digits(at);
    ExpectEndOf(before + d, "\n%%EOF\n");
    TrailingDigitsOf(before, d);
    var s := before + d;
    assert s[..|s| - |d|] == before && s[|s| - |d|..] == d;
    ExpectEndOf(body, "startxref\n");
    ValueOfDigits(at);
  }

  /** Every offset fits its ten digits. */
  predicate Narrow(objects: seq<string>) {
    forall k :: 0 <= k < |objects| ==> Offset(objects, k) < 10000000000
  }

  function Entries(objects: seq<string>): string {
    FREE_ENTRY + Table(objects, |objects|)
    + (Trailer(|objects| + 1) + "startxref\n" + Digits(Offset(objects, |objects|)) + "\n%%EOF\n")
  }

  /** The file ends as its reader expects, and its tail begins where the file says. */
  lemma FileShape(objects: seq<string>)
    ensures var n := Offset(objects, |objects|);
            && StartXref(File(objects)) == Some(n)
            && n <= |File(objects)| && File(objects)[n..] == Tail(objects)
  {
    hide Table, Trailer, Digits, Concat, StartXref;
    var n, body := Offset(objects, |objects|), HEADER + Concat(objects);
    assert objects[..|objects|] == objects;
    Behind(body, Tail(objects));
    var front := "xref\n0 " + Digits(|objects| + 1) + "\n" + (FREE_ENTRY + Table(objects, |objects|));
    var t, d := Trailer(|objects| + 1), Digits(n);
    Regroup(t, "startxref\n", d, "\n%%EOF\n", "", "");
    Regroup(body, front, t, "startxref\n", d, "\n%%EOF\n");
    Regroup(front, t, "startxref\n", d, "\n%%EOF\n", "");
    assert File(objects) == body + (front + (t + "startxref\n" + d + "\n%%EOF\n"));
    StartXrefOf(body + front + t, n);
  }

  lemma XrefTableOf(objects: seq<string>)
    ensures XrefTable(File(objects)) == Some((|objects| + 1, Entries(objects)))
  {
    FileShape(objects);
    hide Table, Trailer, Digits, Number, Concat, Expect, StartXref, File, Offset;
    var d, e := Digits(|objects| + 1), FREE_ENTRY + Table(objects, |objects|);
    var last := Trailer(|objects| + 1) + "startxref\n" + Digits(Offset(objects, |objects|)) + "\n%%EOF\n";
    Regroup("xref\n0 ", d, "\n", e, last, "");
    Regroup("\n", e, last, "", "", "");
    ExpectOf("xref\n0 ", d + ("\n" + (e + last)));
    NumberOf(|objects| + 1, "\n" + (e + last));
    ExpectOf("\n", e + last);
  }

  lemma {:induction false} TableIsRegular(objects: seq<string>, k: nat)
    requires Narrow(objects) && k <= |objects|
    ensures |Table(objects, k)| == 20 * k
  {
    if k > 0 {
      TableIsRegular(objects, k - 1);
      PadIsTenWide(Offset(objects, k - 1));
    }
  }

  lemma {:induction false} EntryInTable(objects: seq<string>, k: nat, n: nat)
    requires Narrow(objects) && n < k <= |objects|
    ensures |Table(objects, k)| == 20 * k
    ensures Table(objects, k)[20 * n..20 * n + 20] == Entry(Offset(objects, n))
  {
    hide Offset, Narrow, Entry;
    TableIsRegular(objects, k);
    TableIsRegular(objects, k - 1);
    if n < k - 1 {
      EntryInTable(objects, k - 1, n);
      assert Table(objects, k)[20 * n..20 * n + 20] == Table(objects, k - 1)[20 * n..20 * n + 20];
    }
  }

  lemma ReadEntry(offset: nat)
    requires offset < 10000000000
    ensures |Entry(offset)| == 20 && AllDigits(Entry(offset)[..10])
    ensures Entry(offset)[10..] == " 00000 n \n" && Value(Entry(offset)[..10]) == offset
  {
    PadIsTenWide(offset);
    assert Entry(offset)[..10] == Pad10(offset);
  }

  lemma SliceInside(front: string, middle: string, back: string, i: nat, j: nat)
    requires i <= j <= |middle|
    ensures |front| + j <= |front + middle + back|
    ensures (front + middle + back)[|front| + i..|front| + j] == middle[i..j]
  {
  }

  lemma EntriesInside(objects: seq<string>, i: nat, j: nat)
    requires i <= j <= |Table(objects, |objects|)|
    ensures 20 + j <= |Entries(objects)|
    ensures Entries(objects)[20 + i..20 + j] == Table(objects, |objects|)[i..j]
  {
    hide Offset, Table, Trailer, Digits;
    var back := Trailer(|objects| + 1) + "startxref\n" + Digits(Offset(objects, |objects|)) + "\n%%EOF\n";
    SliceInside(FREE_ENTRY, Table(objects, |objects|), back, i, j);
  }

  lemma EntryFrom(entries: string, n: nat, offset: nat)
    requires offset < 10000000000
    requires 20 * n + 20 <= |entries| && entries[20 * n..20 * n + 20] == Entry(offset)
    ensures EntryOffset(entries, n) == Some(offset)
  {
    ReadEntry(offset);
    hide Entry, Value;
  }

  lemma EntryOf(objects: seq<string>, n: nat)
    requires Narrow(objects) && n < |objects|
    ensures EntryOffset(Entries(objects), n + 1) == Some(Offset(objects, n))
  {
    hide Entries, Offset, Table, Entry, EntryOffset;
    EntryInTable(objects, |objects|, n);
    EntriesInside(objects, 20 * n, 20 * n + 20);
    assert 20 * (n + 1) == 20 + 20 * n;
    EntryFrom(Entries(objects), n + 1, Offset(objects, n));
  }

  lemma {:induction false} ConcatSplit(parts: seq<string>, k: nat)
    requires k < |parts|
    ensures exists rest :: Concat(parts) == Concat(parts[..k]) + parts[k] + rest
  {
    var last := |parts| - 1;
    if k < last {
      ConcatSplit(parts[..last], k);
      assert parts[..last][..k] == parts[..k];
      var rest :| Concat(parts[..last]) == Concat(parts[..k]) + parts[k] + rest;
      assert Concat(parts) == Concat(parts[..k]) + parts[k] + (rest + parts[last]);
    } else {
      assert Concat(parts) == Concat(parts[..k]) + parts[k] + "";
    }
  }

  /** The bytes at object `k`'s offset are that object. */
  lemma OffsetLands(objects: seq<string>, k: nat)
    requires k < |objects|
    ensures Offset(objects, k) + |objects[k]| <= |File(objects)|
    ensures Expect(File(objects)[Offset(objects, k)..], objects[k]).Some?
  {
    hide Concat, Tail;
    ConcatSplit(objects, k);
    var rest :| Concat(objects) == Concat(objects[..k]) + objects[k] + rest;
    var front := HEADER + Concat(objects[..k]);
    assert File(objects) == front + (objects[k] + (rest + Tail(objects)));
    assert File(objects)[|front|..] == objects[k] + (rest + Tail(objects));
    ExpectOf(objects[k], rest + Tail(objects));
  }

  /** Whatever the objects are, a reader that follows `startxref` to the table and the entry of any
      object lands on the first byte of that object, if all offsets fit ten digits. */
  lemma LocateLands(objects: seq<string>, k: nat)
    requires Narrow(objects) && k < |objects|
    ensures var file := File(objects);
            && Locate(file, k + 1) == Some(Offset(objects, k))
            && Expect(file[Offset(objects, k)..], objects[k]).Some?
  {
    hide Offset, Narrow, File, Entries, Expect, EntryOffset, XrefTable;
    XrefTableOf(objects);
    EntryOf(objects, k);
    OffsetLands(objects, k);
  }

  lemma ObjectOf(objects: seq<string>, k: nat, body: string) returns (rest: string)
    requires Narrow(objects) && k < |objects| && objects[k] == Obj(k + 1, body)
    ensures ObjectAt(File(objects), k + 1) == Some(body + " endobj\n" + rest)
  {
    LocateLands(objects, k);
    hide Offset, Narrow, File, Digits, Number, Locate;
    var file, at := File(objects), Offset(objects, k);
    rest := Expect(file[at..], objects[k]).value;
    var inner := " 0 obj " + (body + " endobj\n" + rest);
    assert file[at..] == objects[k] + rest;
    Regroup(Digits(k + 1), " 0 obj ", body, " endobj\n", rest, "");
    Regroup(body, " endobj\n", rest, "", "", "");
    NumberOf(k + 1, inner);
    ExpectOf(" 0 obj ", body + " endobj\n" + rest);
  }

  lemma ReferenceOf(mark: string, n: nat, rest: string)
    ensures Reference(mark + Ref(n) + rest, mark) == Some(n)
  {
    hide Number, Digits, Expect;
    assert mark + Ref(n) + rest == mark + (Digits(n) + (" 0 R" + rest));
    ExpectOf(mark, Digits(n) + (" 0 R" + rest));
    NumberOf(n, " 0 R" + rest);
    ExpectOf(" 0 R", rest);
  }

  /** What stands behind the last entry. */
  lemma BehindTable(objects: seq<string>)
    requires Narrow(objects)
    ensures var n := |objects|;
            20 * (n + 1) <= |Entries(objects)| && Entries(objects)[20 * (n + 1)..]
            == Trailer(n + 1) + "startxref\n" + Digits(Offset(objects, n)) + "\n%%EOF\n"
  {
    TableIsRegular(objects, |objects|);
    hide Table, Trailer, Digits, Offset, Narrow;
    var n := |objects|;
    var front, back := FREE_ENTRY + Table(objects, n),
                       Trailer(n + 1) + "startxref\n" + Digits(Offset(objects, n)) + "\n%%EOF\n";
    Behind(front, back);
    assert Entries(objects) == front + back;
  }

  lemma RootOf(objects: seq<string>)
    requires Narrow(objects)
    ensures RootObject(File(objects)) == Some(1)
  {
    XrefTableOf(objects);
    BehindTable(objects);
    hide Number, Digits, Table, File, Offset, Narrow, XrefTable, Expect, Ref, Reference, Entries;
    var count, start := |objects| + 1, Digits(Offset(objects, |objects|));
    var end := " >>\n" + ("startxref\n" + (start + "\n%%EOF\n"));
    var s := ROOT_HEAD + Ref(1) + end;
    var d, r := Digits(count), Ref(1);
    Regroup(TRAILER_HEAD, d, ROOT_HEAD, r, " >>\n", "startxref\n" + (start + "\n%%EOF\n"));
    Regroup(ROOT_HEAD, r, end, "", "", "");
    Regroup(Trailer(count), "startxref\n", start, "\n%%EOF\n", "", "");
    ExpectOf(TRAILER_HEAD, d + s);
    NumberOf(count, s);
    ReferenceOf(ROOT_HEAD, 1, end);
  }

  /** `/Length` is the exact length of the stream, whatever bytes the stream holds. */
  lemma StreamOfObject(stream: string, rest: string)
    ensures StreamOf(LENGTH_HEAD + Digits(|stream|) + STREAM_HEAD + stream + STREAM_TAIL + rest) == Some(stream)
  {
    hide Number, Digits, Expect;
    var c := stream + (STREAM_TAIL + rest);
    var b := Digits(|stream|) + (STREAM_HEAD + c);
    Regroup(LENGTH_HEAD, Digits(|stream|), STREAM_HEAD, stream, STREAM_TAIL, rest);
    ExpectOf(LENGTH_HEAD, b);
    NumberOf(|stream|, STREAM_HEAD + c);
    ExpectOf(STREAM_HEAD, c);
    Behind(stream, STREAM_TAIL + rest);
    ExpectOf(STREAM_TAIL, rest);
  }

  /** The offsets of the printer's five objects do not depend on the text. */
  lemma ObjectsAreNarrow(stream: string)
    ensures Narrow(Objects(stream))
  {
    var o := Objects(stream);
    forall k | 0 <= k < 5
      ensures Offset(o, k) < 10000000000
    {
      ConcatLength(o, k);
    }
  }

  lemma {:induction false} ConcatLength(objects: seq<string>, k: nat)
    requires k <= |objects|
    requires forall i :: 0 <= i < k ==> |objects[i]| < 1000
    ensures |Concat(objects[..k])| <= 1000 * k
  {
    if k > 0 {
      assert objects[..k][..k - 1] == objects[..k - 1];
      ConcatLength(objects, k - 1);
    }
  }

  // ----- The shown text -----

  lemma {:induction false} TerminatedConcat(a: seq<string>, b: seq<string>)
    ensures Terminated(a + b) == Terminated(a) + Terminated(b)
  {
    if b == [] {
      assert a + b == a;
    } else {
      var k := |b| - 1;
      assert (a + b)[..|a + b| - 1] == a + b[..k];
      TerminatedConcat(a, b[..k]);
    }
  }

  lemma TerminatedOne(line: string)
    ensures Terminated([line]) == line + "\n"
  {
    assert [line][..0] == [];
    assert Terminated([]) == "";
    assert "" + line == line;
  }

  predicate NoReturn(line: string) {
    forall i :: 0 <= i < |line| ==> line[i] != '\r'
  }

  /** The operators that draw one line, line feed included. */
  function Drawn(line: string, first: bool): string {
    (if first then "" else "0 -16 Td\n") + "(" + line + ") Tj\n"
  }

  lemma OperatorsLast(lines: seq<string>)
    requires lines != []
    ensures var k := |lines| - 1;
            Terminated(Operators(lines)) == Terminated(Operators(lines[..k])) + Drawn(lines[k], k == 0)
  {
    var k := |lines| - 1;
    hide Terminated, Drawn, Move, Show;
    TerminatedDrawn(Operators(lines[..k]), Move(k == 0), Show(lines[k]));
    DrawnText(lines[k], k == 0);
  }

  lemma TerminatedDrawn(init: seq<string>, move: seq<string>, show: string)
    ensures Terminated(init + move + [show]) == Terminated(init) + (Terminated(move) + (show + "\n"))
  {
    hide Terminated;
    TerminatedConcat(init + move, [show]);
    TerminatedConcat(init, move);
    TerminatedOne(show);
    Regroup(Terminated(init), Terminated(move), show + "\n", "", "", "");
  }

  lemma EmptyTerminated()
    ensures Terminated([]) == ""
  {
  }

  lemma DrawnText(line: string, first: bool)
    ensures Drawn(line, first) == Terminated(Move(first)) + (Show(line) + "\n")
  {
    EmptyTerminated();
    TerminatedOne("0 -16 Td");
    hide Terminated;
    var m := if first then "" else "0 -16 Td\n";
    assert Terminated(Move(first)) == m;
    assert ") Tj" + "\n" == ") Tj\n";
    Regroup("(", line, ") Tj", "\n", "", "");
    Regroup(m, "(", line, ") Tj\n", "", "");
  }

  lemma EncodeDrawn(line: string, first: bool)
    ensures Encode(Drawn(Escape(line), first)) == Drawn(Escape(Encode(line)), first)
  {
    EncodeEscaped(line);
    hide Escape;
    var move := if first then "" else "0 -16 Td\n";
    EncodeConcat(move + "(" + Escape(line), ") Tj\n");
    EncodeConcat(move + "(", Escape(line));
    EncodeLatin1(move + "(");
    EncodeLatin1(") Tj\n");
  }

  /** One drawn line shows that line, and reading goes on behind it. */
  lemma ShowDrawn(line: string, first: bool, rest: string)
    requires NoReturn(line)
    ensures ShownStrings(Drawn(Escape(line), first) + rest) == [line] + ShownStrings(rest)
  {
    hide ShownStrings, Escape;
    var move, e := (if first then "" else "0 -16 Td\n"), Escape(line);
    var tail := " Tj\n" + rest;
    Regroup(move, "(", e, ") Tj\n", rest, "");
    assert ") Tj\n" + rest == ")" + tail;
    Regroup("(", e, ")", tail, "", "");
    assert Drawn(e, first) + rest == move + ("(" + e + ")" + tail);
    SkipPlain(move, "(" + e + ")" + tail);
    ShowOne(line, tail);
    SkipPlain(" Tj\n", rest);
  }

  /** Reading the operators of some lines gives the lines, as Latin-1 can show them. */
  lemma {:induction false} ShowOperators(lines: seq<string>, rest: string)
    requires forall i :: 0 <= i < |lines| ==> NoReturn(lines[i])
    ensures ShownStrings(Encode(Terminated(Operators(EscapeEach(lines)))) + rest)
            == EncodeEach(lines) + ShownStrings(rest)
  {
    hide ShownStrings, Escape, Encode, Drawn, Terminated, Operators;
    if lines == [] {
      NothingDrawn();
      assert "" + rest == rest;
      assert EncodeEach(lines) == [] && EscapeEach(lines) == [];
      assert EncodeEach(lines) + ShownStrings(rest) == ShownStrings(rest);
    } else {
      var k := |lines| - 1;
      var init, last := lines[..k], lines[k];
      assert EscapeEach(lines)[..k] == EscapeEach(init);
      OperatorsLast(EscapeEach(lines));
      var a, b := Terminated(Operators(EscapeEach(init))), Drawn(Escape(last), k == 0);
      EncodeConcat(a, b);
      EncodeDrawn(last, k == 0);
      var d := Drawn(Escape(Encode(last)), k == 0);
      Regroup(Encode(a), d, rest, "", "", "");
      ShowOperators(init, d + rest);
      EncodeKeepsReturns(last);
      ShowDrawn(Encode(last), k == 0, rest);
      assert EncodeEach(lines) == EncodeEach(init) + [Encode(last)];
      assert EncodeEach(init) + ([Encode(last)] + ShownStrings(rest))
          == EncodeEach(lines) + ShownStrings(rest);
    }
  }

  lemma NothingDrawn()
    ensures Encode(Terminated(Operators([]))) == ""
  {
  }

  lemma EncodeKeepsReturns(line: string)
    requires NoReturn(line)
    ensures NoReturn(Encode(line))
  {
  }

  const PROLOGUE_TEXT := "BT\n/F1 11 Tf\n50 780 Td\n"

  lemma StreamShape(lines: seq<string>)
    ensures Stream(lines) == PROLOGUE_TEXT + Encode(Terminated(Operators(lines))) + "ET"
  {
    hide Encode, Operators, Terminated;
    var p, o := PROLOGUE, Operators(lines);
    assert (p + o + ["ET"])[..|p + o|] == p + o;
    assert Join(p + o + ["ET"]) == Terminated(p + o) + "ET";
    TerminatedConcat(p, o);
    PrologueLines();
    EncodeConcat(PROLOGUE_TEXT + Terminated(o), "ET");
    EncodeConcat(PROLOGUE_TEXT, Terminated(o));
    EncodeLatin1("ET");
    EncodeLatin1(PROLOGUE_TEXT);
  }

  lemma PrologueLines()
    ensures Terminated(PROLOGUE) == PROLOGUE_TEXT
  {
    assert PROLOGUE == ["BT"] + ["/F1 11 Tf"] + ["50 780 Td"];
    hide Terminated;
    TerminatedConcat(["BT"] + ["/F1 11 Tf"], ["50 780 Td"]);
    TerminatedConcat(["BT"], ["/F1 11 Tf"]);
    TerminatedOne("BT");
    TerminatedOne("/F1 11 Tf");
    TerminatedOne("50 780 Td");
  }

  /** What the content stream of some lines shows. */
  lemma StreamShows(lines: seq<string>)
    requires forall i :: 0 <= i < |lines| ==> NoReturn(lines[i])
    ensures ShownStrings(Stream(EscapeEach(lines))) == EncodeEach(lines)
  {
    StreamShape(EscapeEach(lines));
    hide Encode, Operators, Terminated, EscapeEach, Stream, EncodeEach;
    var o := Encode(Terminated(Operators(EscapeEach(lines))));
    Regroup(PROLOGUE_TEXT, o, "ET", "", "", "");
    SkipPlain(PROLOGUE_TEXT, o + "ET");
    ShowOperators(lines, "ET");
    SkipPlain("ET", "");
    assert "ET" + "" == "ET" && ShownStrings("") == [];
  }

  lemma {:induction false} SplitHasNoReturns(s: string)
    ensures forall i :: 0 <= i < |SplitLines(s)| ==> NoReturn(SplitLines(s)[i])
    decreases |s|
  {
    if s != "" {
      var n := LineEnd(s);
      if n < |s| {
        SplitHasNoReturns(s[n + BreakLength(s[n..])..]);
      }
    }
  }

  /** The page shows the first forty-five lines of the text, or one empty line for no text. */
  lemma PageTells(text: string)
    ensures text == "" ==> PageText(text) == [""]
    ensures text != "" ==> PageText(text) <= SplitLines(text)
    ensures text != "" ==> |PageText(text)| == if |SplitLines(text)| < 45 then |SplitLines(text)| else 45
  {
    hide LineEnd;
  }

  lemma PageHasNoReturns(text: string)
    ensures forall i :: 0 <= i < |PageText(text)| ==> NoReturn(PageText(text)[i])
  {
    SplitHasNoReturns(text);
  }

  /** An object that refers to another one behind `mark` leads the reader there. */
  lemma FollowReference(objects: seq<string>, k: nat, mark: string, n: nat, tail: string)
    requires Narrow(objects) && k < |objects| && objects[k] == Obj(k + 1, mark + Ref(n) + tail)
    ensures Leads(File(objects), k + 1, mark, n)
  {
    hide Narrow, File, Obj, Ref, Reference, ObjectAt;
    var rest := ObjectOf(objects, k, mark + Ref(n) + tail);
    ReferenceBefore(mark, n, tail, " endobj\n", rest);
  }

  function StreamBody(stream: string): string {
    LENGTH_HEAD + Digits(|stream|) + STREAM_HEAD + stream + "\nendstream"
  }

  lemma FollowStream(objects: seq<string>, k: nat, stream: string)
    requires Narrow(objects) && k < |objects| && objects[k] == Obj(k + 1, StreamBody(stream))
    ensures var s := ObjectAt(File(objects), k + 1);
            s.Some? && StreamOf(s.value) == Some(stream)
  {
    hide Narrow, File, Obj, Digits, StreamOf, ObjectAt;
    var rest := ObjectOf(objects, k, StreamBody(stream));
    EndOfStream(LENGTH_HEAD + Digits(|stream|) + STREAM_HEAD + stream, rest);
    StreamOfObject(stream, rest);
  }

  /** The reader gets the content stream from the file built around it. */
  lemma ReadStream(stream: string)
    ensures ReadPage(File(Objects(stream))) == Some(ShownStrings(stream))
  {
    ObjectsAreNarrow(stream);
    hide *;
    var o := Objects(stream);
    TheObjects(stream);
    RootOf(o);
    FollowReference(o, 0, CATALOG_HEAD, 2, " >>");
    FollowReference(o, 1, PAGES_HEAD, 3, "] /Count 1 >>");
    FollowReference(o, 2, PAGE_HEAD, 5, " >>");
    FollowStream(o, 4, stream);
    FollowAll(File(o), stream);
  }

  lemma TheObjects(stream: string)
    ensures var o := Objects(stream);
            && o[0] == Obj(1, CATALOG_HEAD + Ref(2) + " >>")
            && o[1] == Obj(2, PAGES_HEAD + Ref(3) + "] /Count 1 >>")
            && o[2] == Obj(3, PAGE_HEAD + Ref(5) + " >>")
            && o[4] == Obj(5, StreamBody(stream))
  {
    hide Obj, Ref, Digits;
  }

  predicate Leads(file: string, n: nat, mark: string, next: nat) {
    var s := ObjectAt(file, n);
    s.Some? && Reference(s.value, mark) == Some(next)
  }

  lemma FollowAll(file: string, stream: string)
    requires RootObject(file) == Some(1)
    requires Leads(file, 1, CATALOG_HEAD, 2) && Leads(file, 2, PAGES_HEAD, 3) && Leads(file, 3, PAGE_HEAD, 5)
    requires ObjectAt(file, 5).Some? && StreamOf(ObjectAt(file, 5).value) == Some(stream)
    ensures ReadPage(file) == Some(ShownStrings(stream))
  {
    hide RootObject, ObjectAt, Reference, StreamOf, ShownStrings;
  }

  lemma ReferenceBefore(mark: string, n: nat, a: string, b: string, c: string)
    ensures Reference(mark + Ref(n) + a + b + c, mark) == Some(n)
  {
    hide Reference, Ref;
    Regroup(mark + Ref(n), a, b, c, "", "");
    ReferenceOf(mark, n, a + (b + c));
  }

  lemma EndOfStream(front: string, rest: string)
    ensures front + "\nendstream" + " endobj\n" + rest == front + STREAM_TAIL + rest
  {
    assert "\nendstream" + " endobj\n" == STREAM_TAIL;
    Regroup(front, "\nendstream", " endobj\n", "", "", "");
  }

  /** Printer and reader: for every text, following the file's own offsets and lengths from its last
      line leads to the page, and the page shows the text's first lines as Latin-1 can hold them. */
  lemma PageRoundTrip(text: string)
    ensures ReadPage(Printed(text)) == Some(EncodeEach(PageText(text)))
  {
    hide ReadPage, File, Objects, Stream, ShownStrings, EscapeEach, EncodeEach, PageText;
    PageHasNoReturns(text);
    StreamShows(PageText(text));
    ReadStream(Stream(EscapeEach(PageText(text))));
  }

  lemma {:induction false} SplitLatin1(s: string)
    requires Latin1(s)
    ensures forall i :: 0 <= i < |SplitLines(s)| ==> Latin1(SplitLines(s)[i])
    decreases |s|
  {
    if s != "" {
      var n := LineEnd(s);
      if n < |s| {
        SplitLatin1(s[n + BreakLength(s[n..])..]);
      }
    }
  }

  lemma LossyExactly(line: string)
    ensures Encode(line) == line <==> Latin1(line)
  {
    if !Latin1(line) {
      var i :| 0 <= i < |line| && line[i] as int >= 256;
      assert Encode(line)[i] == '?';
    }
  }

  /** A text comes back from its page line by line exactly when it has one to 45 lines and all of
      them are Latin-1. */
  lemma TextSurvivesExactly(text: string)
    ensures ReadPage(Printed(text)) == Some(SplitLines(text))
            <==> (1 <= |SplitLines(text)| <= PAGE_LINES
                  && forall i :: 0 <= i < |SplitLines(text)| ==> Latin1(SplitLines(text)[i]))
  {
    hide ReadPage, Printed, SplitLines, Encode, Latin1;
    PageRoundTrip(text);
    var lines, page := SplitLines(text), PageText(text);
    forall line
      ensures Encode(line) == line <==> Latin1(line)
    {
      LossyExactly(line);
    }
    if 1 <= |lines| <= PAGE_LINES && forall i :: 0 <= i < |lines| ==> Latin1(lines[i]) {
      assert EncodeEach(page) == lines;
    } else if 1 <= |lines| <= PAGE_LINES {
      var i :| 0 <= i < |lines| && !Latin1(lines[i]);
      assert EncodeEach(page)[i] == Encode(lines[i]);
    }
  }

  /** A text of Latin-1 characters shows its first lines unchanged. */
  lemma Latin1RoundTrip(text: string)
    requires Latin1(text)
    ensures ReadPage(Printed(text)) == Some(PageText(text))
  {
    hide ReadPage, Printed, SplitLines;
    PageRoundTrip(text);
    SplitLatin1(text);
    var lines := PageText(text);
    forall i | 0 <= i < |lines|
      ensures Encode(lines[i]) == lines[i]
    {
      EncodeLatin1(lines[i]);
    }
    assert EncodeEach(lines) == lines;
  }

  /** Each of the five objects is where the cross-reference table of the printed file says. */
  lemma CrossReferences(text: string, k: nat)
    requires k < 5
    ensures var objects := Objects(Stream(EscapeEach(PageText(text))));
            var at := Locate(Printed(text), k + 1);
            at.Some? && Expect(Printed(text)[at.value..], objects[k]).Some?
  {
    hide Objects, Stream, EscapeEach, PageText, Locate, Expect, File, Offset;
    var stream := Stream(EscapeEach(PageText(text)));
    ObjectsAreNarrow(stream);
    LocateLands(Objects(stream), k);
  }
}
