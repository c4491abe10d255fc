/** PlainTextPDFSections as it runs: loops over lines, pages and objects filling buffers. */
module PdfPrinting {
  import opened PdfNumbers
  import opened PdfText
  import opened PdfWriter
  import opened PdfReader
  import opened PdfRoundTrip
  import opened PdfMeaning

  method SplitPlainTextLine(line: string, max: nat) returns (left: string, right: string)
    requires 0 < max < |line|
    ensures left == Left(line, max) && right == Right(line, max)
  {
    var split := max;
    var i := max;
    while i > max / 2
      invariant max / 2 <= i <= max && split == max
      invariant SplitAt(line, max, max) == SplitAt(line, max, i)
      decreases i
    {
      if line[i - 1] == ' ' {
        split := i;
        break;
      }
      i := i - 1;
    }
    left, right := TrimRight(line[..split]), TrimLeft(line[split..]);
  }

  method WrapLine(line: string) returns (parts: seq<string>)
    ensures parts == Wrapped(line, MAX_CHARS)
  {
    parts := [];
    var rest := line;
    while |rest| > MAX_CHARS
      invariant parts + Wrapped(rest, MAX_CHARS) == Wrapped(line, MAX_CHARS)
      decreases |rest|
    {
      ghost var before := rest;
      ghost var gap := OneCut(rest, MAX_CHARS);
      RightIsShorter(rest, MAX_CHARS);
      var part;
      part, rest := SplitPlainTextLine(rest, MAX_CHARS);
      assert parts + ([part] + Wrapped(rest, MAX_CHARS)) == parts + [part] + Wrapped(rest, MAX_CHARS);
      parts := parts + [part];
    }
    parts := parts + [rest];
  }

  lemma RightIsShorter(line: string, max: nat)
    requires 0 < max < |line|
    ensures |Right(line, max)| < |line|
  {}

  method WrapPlainTextLines(text: string, printable: char -> bool) returns (lines: seq<string>)
    ensures lines == SectionLines(Split(Unix(text)), printable)
    ensures Restores(lines, Cleaned(Split(Unix(text)), printable))
    ensures PlainText(text) ==> Restores(lines, Split(text))
  {
    SectionRestores(Split(Unix(text)), printable);
    if PlainText(text) {
      TextIsKept(text, printable);
    }
    hide Restores;
    hide Wrapped;
    hide Normalized;
    hide Split;
    hide Unix;
    hide SectionLines;
    var source := Split(Unix(text));
    lines := [];
    NoLines(printable);
    for i := 0 to |source|
      invariant lines == SectionLines(source[..i], printable)
    {
      var line := Normalized(source[i], printable);
      LineNext(source, i, printable);
      if line == "" {
        lines := lines + [""];
      } else {
        var parts := WrapLine(line);
        lines := lines + parts;
      }
    }
    assert source[..|source|] == source;
  }

  lemma NoLines(printable: char -> bool)
    ensures SectionLines([], printable) == [] && Wrapped("", MAX_CHARS) == [""]
  {}

  lemma LineNext(source: seq<string>, i: nat, printable: char -> bool)
    requires i < |source|
    ensures SectionLines(source[..i + 1], printable) ==
      SectionLines(source[..i], printable) + Wrapped(Normalized(source[i], printable), MAX_CHARS)
  {
    assert source[..i + 1][..i] == source[..i];
  }

  method LayOut(sections: seq<string>, printable: char -> bool) returns (pages: seq<Page>)
    ensures pages == Pages(sections, printable)
  {
    var all := if |sections| == 0 then [""] else sections;
    pages := [];
    assert all[..0] == [] && pages == PagesOf([], printable);
    hide PagesOf;
    hide Chunks;
    hide SectionLines;
    for i := 0 to |all|
      invariant pages == PagesOf(all[..i], printable)
    {
      var lines := WrapPlainTextLines(all[i], printable);
      SectionNext(all, i, printable);
      pages := AppendPages(pages, lines);
    }
    assert all[..|all|] == all;
  }

  lemma SectionNext(all: seq<string>, i: nat, printable: char -> bool)
    requires i < |all|
    ensures PagesOf(all[..i + 1], printable) == PagesOf(all[..i], printable)
      + Chunks(SectionLines(Split(Unix(all[i])), printable))
  {
    hide Chunks;
    hide SectionLines;
    assert all[..i + 1][..i] == all[..i];
  }

  method AppendPages(before: seq<Page>, lines: seq<string>) returns (pages: seq<Page>)
    ensures pages == before + Chunks(lines)
  {
    pages := before;
    var rest := lines;
    hide Chunks;
    while |rest| > 0
      invariant pages + Chunks(rest) == before + Chunks(lines)
      decreases |rest|
    {
      var n := if |rest| < LINES_PER_PAGE then |rest| else LINES_PER_PAGE;
      OneChunk(pages, rest, n);
      pages := pages + [rest[..n]];
      rest := rest[n..];
    }
    NoChunks(pages);
  }

  lemma NoChunks(pages: seq<Page>)
    ensures pages + Chunks([]) == pages
  {}

  lemma OneChunk(pages: seq<Page>, lines: seq<string>, n: nat)
    requires |lines| > 0 && n == if |lines| < LINES_PER_PAGE then |lines| else LINES_PER_PAGE
    ensures pages + Chunks(lines) == pages + [lines[..n]] + Chunks(lines[n..])
  {
    if |lines| <= LINES_PER_PAGE {
      assert lines[..n] == lines && lines[n..] == [];
    }
    assert Chunks(lines) == [lines[..n]] + Chunks(lines[n..]);
  }

  method ContentStream(lines: Page) returns (s: string)
    ensures s == Stream(lines)
  {
    s := TEXT_HEAD;
    for i := 0 to |lines|
      invariant s == ShownLines(lines[..i])
    {
      assert lines[..i + 1][..i] == lines[..i];
      if i > 0 {
        s := s + "T*\n";
      } else {
        assert s + "" == s;
      }
      s := s + "(" + Escape(lines[i]) + ") Tj\n";
    }
    assert lines[..|lines|] == lines;
    s := s + "ET";
  }

  method PageReferences(n: nat) returns (s: string)
    ensures s == Kids(n)
  {
    s := "";
    for i := 0 to n
      invariant s == Kids(i)
    {
      if i > 0 {
        s := s + " ";
      } else {
        assert s + "" == s;
      }
      s := s + Dec(4 + i * 2) + REF;
    }
  }

  method Objects(pages: seq<Page>) returns (objects: seq<string>)
    ensures |objects| == Count(pages) + 1
    ensures forall i | 1 <= i <= Count(pages) :: objects[i] == Body(pages, i)
  {
    hide Body;
    hide Dec;
    hide Kids;
    FirstBodies(pages);
    var refs := PageReferences(|pages|);
    objects := ["", CATALOG, KIDS_HEAD + refs + "] /Count " + Dec(|pages|) + " >>", FONT];
    for i := 0 to |pages|
      invariant |objects| == 4 + 2 * i
      invariant forall k | 1 <= k < |objects| :: objects[k] == Body(pages, k)
    {
      var stream := ContentStream(pages[i]);
      var page := PAGE_HEAD + Dec(5 + i * 2) + REF + " >>";
      PageBody(pages, i);
      StreamBody(pages, i);
      objects := objects + [page, LENGTH_HEAD + Dec(|stream|) + STREAM_HEAD + stream + STREAM_END];
    }
  }

  /** The objects one after the other, remembering where each begins. */
  method WriteObjects(pages: seq<Page>, objects: seq<string>) returns (out: string, offsets: seq<nat>)
    requires |objects| == Count(pages) + 1 && forall i | 1 <= i <= Count(pages) :: objects[i] == Body(pages, i)
    ensures out == Prefix(pages, Count(pages))
    ensures |offsets| == Count(pages) + 1 && forall i | 1 <= i <= Count(pages) :: offsets[i] == Offset(pages, i)
  {
    hide Body;
    hide Dec;
    hide Prefix;
    hide Offset;
    hide ObjectText;
    Starts(pages);
    out, offsets := HEADER, [0];
    for i := 1 to Count(pages) + 1
      invariant out == Prefix(pages, i - 1)
      invariant |offsets| == i && forall k | 1 <= k < i :: offsets[k] == Offset(pages, k)
    {
      PrefixNext(pages, i);
      offsets := offsets + [|out|];
      out := out + (Dec(i) + OBJ + objects[i] + ENDOBJ);
    }
  }

  lemma Starts(pages: seq<Page>)
    ensures Prefix(pages, 0) == HEADER && Table(pages, 0) == FREE
  {
    hide Offset;
    hide Body;
  }

  lemma PrefixNext(pages: seq<Page>, i: nat)
    requires 1 <= i <= Count(pages)
    ensures Prefix(pages, i) == Prefix(pages, i - 1) + (Dec(i) + OBJ + Body(pages, i) + ENDOBJ)
    ensures Offset(pages, i) == |Prefix(pages, i - 1)|
  {
    hide Dec;
    hide Body;
  }

  method WriteTable(pages: seq<Page>, offsets: seq<nat>) returns (table: string)
    requires |offsets| == Count(pages) + 1 && forall i | 1 <= i <= Count(pages) :: offsets[i] == Offset(pages, i)
    ensures table == Table(pages, Count(pages))
  {
    hide Padded;
    hide Offset;
    hide Table;
    hide Entry;
    Starts(pages);
    table := FREE;
    for i := 1 to Count(pages) + 1
      invariant table == Table(pages, i - 1)
    {
      TableNext(pages, i);
      table := table + (Padded(offsets[i]) + ENTRY_END);
    }
  }

  lemma TableNext(pages: seq<Page>, i: nat)
    requires 1 <= i <= Count(pages)
    ensures Table(pages, i) == Table(pages, i - 1) + (Padded(Offset(pages, i)) + ENTRY_END)
  {
    hide Padded;
    hide Offset;
  }

  method PlainTextPDFSections(sections: seq<string>, printable: char -> bool) returns (file: string)
    ensures file == File(Pages(sections, printable))
    ensures |file| <= Pow10(10) ==> ReadDocument(file) == Some(Pages(sections, printable))
    ensures |file| <= Pow10(10) && sections != [] && (forall s | s in sections :: PlainText(s)) ==>
      Restores(Flat(ReadDocument(file).value), OwnLines(sections))
  {
    hide ReadDocument;
    hide Restores;
    hide Pow10;
    var pages := LayOut(sections, printable);
    var objects := Objects(pages);
    var out, offsets := WriteObjects(pages, objects);
    var table := WriteTable(pages, offsets);
    hide Prefix;
    hide Table;
    hide Dec;
    var xref := |out|;
    file := out + XREF_HEAD + Dec(Count(pages) + 1) + "\n" + table
      + (TRAILER_HEAD + Dec(Count(pages) + 1) + ROOT + Dec(xref) + EOF);
    hide Pages;
    if |file| <= Pow10(10) {
      DocumentReadsBack(sections, printable);
      if forall s | s in sections :: PlainText(s) {
        PrintedIsRead(sections, printable);
      }
    }
  }
}
