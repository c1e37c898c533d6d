/** `write_minimal_pdf`: the bytes it writes, built up as the source builds them. */
module PdfWriter {
  import opened Wrappers
  import opened Decimal
  import opened PdfText
  import opened Pdf

  /** The drawing commands, line by line. */
  method StreamLines(lines: seq<string>) returns (streamLines: seq<string>)
    ensures streamLines == PROLOGUE + Operators(FirstLines(lines)) + ["ET"]
  {
    streamLines := ["BT", "/F1 11 Tf", "50 780 Td"];
    var shown := if |lines| > PAGE_LINES then lines[..PAGE_LINES] else lines;
    for index := 0 to |shown|
      invariant streamLines == PROLOGUE + Operators(shown[..index])
    {
      assert shown[..index + 1][..index] == shown[..index];
      if index > 0 {
        streamLines := streamLines + ["0 -16 Td"];
      }
      streamLines := streamLines + ["(" + shown[index] + ") Tj"];
    }
    assert shown[..|shown|] == shown;
    streamLines := streamLines + ["ET"];
  }

  /** Header and objects, with the offset of each object. */
  method Body(objects: seq<string>) returns (content: string, offsets: seq<nat>)
    ensures content == HEADER + Concat(objects)
    ensures |offsets| == |objects| + 1
    ensures forall k :: 0 <= k < |objects| ==> offsets[k + 1] == Offset(objects, k)
  {
    content := "%PDF-1.4\n";
    offsets := [0];
    for k := 0 to |objects|
      invariant content == HEADER + Concat(objects[..k])
      invariant |offsets| == k + 1
      invariant forall j :: 0 <= j < k ==> offsets[j + 1] == Offset(objects, j)
    {
      assert objects[..k + 1][..k] == objects[..k];
      offsets := offsets + [|content|];
      content := content + objects[k];
    }
    assert objects[..|objects|] == objects;
  }

  /** The cross-reference entries of all offsets but the first. */
  method EntryLines(objects: seq<string>, offsets: seq<nat>) returns (table: string)
    requires |offsets| == |objects| + 1
    requires forall k :: 0 <= k < |objects| ==> offsets[k + 1] == Offset(objects, k)
    ensures table == Table(objects, |objects|)
  {
    hide Offset, Entry;
    table := "";
    for k := 0 to |objects|
      invariant table == Table(objects, k)
    {
      table := table + Entry(offsets[k + 1]);
    }
  }

  method WriteMinimalPdf(text: string) returns (content: string)
    ensures content == Printed(text)
    ensures ReadPage(content) == Some(EncodeEach(PageText(text)))
  {
    var escaped := EscapePasses(text);
    var lines := SplitLines(escaped);
    if lines == [] {
      lines := [""];
    }
    EscapedLines(text);
    hide SplitLines, Encode, Escape, Join, Operators, Concat, Table, Trailer, Digits, ReadPage, Obj, Ref;
    var streamLines := StreamLines(lines);
    var stream := Encode(Join(streamLines));
    var objects := Objects(stream);
    var offsets, table;
    content, offsets := Body(objects);
    var xrefStart := |content|;
    table := EntryLines(objects, offsets);
    assert objects[..|objects|] == objects;
    content := content
             + ("xref\n0 " + Digits(|objects| + 1) + "\n" + (FREE_ENTRY + table)
                + (Trailer(|objects| + 1) + "startxref\n" + Digits(xrefStart) + "\n%%EOF\n"));
    PageRoundTrip(text);
  }

  /** Escaping first and splitting then gives the escaped lines of the page. */
  lemma EscapedLines(text: string)
    ensures var lines := SplitLines(EscapePasses(text));
            FirstLines(if lines == [] then [""] else lines) == EscapeEach(PageText(text))
  {
    PassesAreEscape(text);
    SplitEscaped(text);
    hide SplitLines;
    var own := SplitLines(text);
    if own == [] {
      assert EscapeEach(own) == [];
      assert PageText(text) == [""] && Escape("") == "";
      assert EscapeEach([""]) == [""];
    } else {
      assert |EscapeEach(own)| == |own|;
      assert FirstLines(EscapeEach(own)) == EscapeEach(FirstLines(own));
    }
  }
}
