/** The file counts bytes and the model counts characters; all of them are ASCII, so the counts are the same. */
module PdfBytes {
  import opened PdfNumbers
  import opened PdfText
  import opened PdfWriter
  import PdfReader

  predicate OneByte(s: string) {
    forall i | 0 <= i < |s| :: s[i] < '\U{80}'
  }

  /** The size of a character in UTF-8. */
  function Size(c: char): nat {
    if c < '\U{80}' then 1 else if c < '\U{800}' then 2 else if c < '\U{10000}' then 3 else 4
  }

  function ByteLength(s: string): nat {
    if s == "" then 0 else ByteLength(s[..|s| - 1]) + Size(s[|s| - 1])
  }

  lemma {:induction false} OneByteEach(s: string)
    requires OneByte(s)
    ensures ByteLength(s) == |s|
  {
    if s != "" {
      OneByteEach(s[..|s| - 1]);
    }
  }

  lemma Both(a: string, b: string)
    ensures OneByte(a + b) <==> OneByte(a) && OneByte(b)
  {
    if OneByte(a + b) {
      forall i | 0 <= i < |a| ensures a[i] < '\U{80}' {
        assert (a + b)[i] == a[i];
      }
      forall i | 0 <= i < |b| ensures b[i] < '\U{80}' {
        assert (a + b)[|a| + i] == b[i];
      }
    }
  }

  lemma Digits(s: string)
    requires forall c | c in s :: IsDigit(c)
    ensures OneByte(s)
  {
    forall i | 0 <= i < |s| ensures s[i] < '\U{80}' {
      assert s[i] in s;
    }
  }

  // ---- the fixed parts ----

  lemma CatalogPart()
    ensures OneByte(CATALOG)
  {}

  lemma KidsPart()
    ensures OneByte(KIDS_HEAD)
  {}

  lemma SmallParts()
    ensures OneByte(HEADER) && OneByte(OBJ) && OneByte(ENDOBJ) && OneByte(REF)
  {}

  lemma FontPart()
    ensures OneByte(FONT)
  {
    assert OneByte(FONT_TYPE) && OneByte(FONT_NAME);
    Both(FONT_TYPE, FONT_NAME);
  }

  lemma PagePart()
    ensures OneByte(PAGE_HEAD)
  {
    PageBeginning();
    PageFont();
    assert OneByte(" /Contents ");
    Both(PAGE_START, PAGE_SIZE);
    Both(PAGE_START + PAGE_SIZE, PAGE_FONT);
    Both(PAGE_START + PAGE_SIZE + PAGE_FONT, " /Contents ");
  }

  lemma PageBeginning()
    ensures OneByte(PAGE_START) && OneByte(PAGE_SIZE)
  {}

  lemma PageFont()
    ensures OneByte(PAGE_FONT)
  {}

  lemma StreamParts()
    ensures OneByte(LENGTH_HEAD) && OneByte(STREAM_HEAD) && OneByte(STREAM_END)
  {}

  lemma TextPart()
    ensures OneByte(TEXT_HEAD)
  {}

  lemma TableParts()
    ensures OneByte(FREE) && OneByte(ENTRY_END) && OneByte(XREF_HEAD) && OneByte(EOF)
  {}

  lemma TrailerPart()
    ensures OneByte(TRAILER_HEAD)
  {}

  lemma RootPart()
    ensures OneByte(ROOT)
  {}

  // ---- the lines ----

  lemma {:induction false} WrappedIsPlain(line: string, max: nat)
    requires max > 0 && Plain(line)
    ensures forall p | p in Wrapped(line, max) :: Plain(p)
    decreases |line|
  {
    if |line| > max {
      var n := SplitAt(line, max, max);
      var gap := OneCut(line, max);
      var rest := Right(line, max);
      assert forall c | c in Left(line, max) :: c in Left(line, max) + Blanks(gap) + rest;
      assert forall c | c in rest :: c in Left(line, max) + Blanks(gap) + rest;
      WrappedIsPlain(rest, max);
    }
  }

  lemma {:induction false} SectionIsPlain(source: seq<string>, printable: char -> bool)
    ensures forall l | l in SectionLines(source, printable) :: Plain(l)
  {
    if source != [] {
      SectionIsPlain(source[..|source| - 1], printable);
      WrappedIsPlain(Normalized(source[|source| - 1], printable), MAX_CHARS);
    }
  }

  ghost predicate PlainPages(pages: seq<Page>) {
    forall k | 0 <= k < |pages| :: PlainLines(pages[k])
  }

  ghost predicate PlainLines(lines: seq<string>) {
    forall i | 0 <= i < |lines| :: Plain(lines[i])
  }

  lemma {:induction false} ChunksArePlain(lines: seq<string>)
    requires PlainLines(lines)
    ensures PlainPages(Chunks(lines))
    decreases |lines|
  {
    if |lines| > LINES_PER_PAGE {
      ChunksArePlain(lines[LINES_PER_PAGE..]);
    }
  }

  lemma {:induction false} PagesArePlain(sections: seq<string>, printable: char -> bool)
    ensures PlainPages(PagesOf(sections, printable))
  {
    if sections != [] {
      var source := Split(Unix(sections[|sections| - 1]));
      PagesArePlain(sections[..|sections| - 1], printable);
      SectionIsPlain(source, printable);
      ChunksArePlain(SectionLines(source, printable));
    }
  }

  // ---- streams and objects ----

  lemma {:induction false} EscapeIsOneByte(s: string)
    requires Plain(s)
    ensures OneByte(Escape(s))
  {
    if s != "" {
      assert forall c | c in s[1..] :: c in s;
      assert s[0] in s;
      EscapeIsOneByte(s[1..]);
      var head := if s[0] == '\\' || s[0] == '(' || s[0] == ')' then ['\\', s[0]] else [s[0]];
      assert OneByte(head);
      Both(head, Escape(s[1..]));
    }
  }

  lemma {:induction false} ShownIsOneByte(lines: Page)
    requires PlainLines(lines)
    ensures OneByte(ShownLines(lines))
  {
    TextPart();
    if lines != [] {
      var n := |lines| - 1;
      ShownIsOneByte(lines[..n]);
      EscapeIsOneByte(lines[n]);
      var newline := if n > 0 then "T*\n" else "";
      assert OneByte(newline) && OneByte("(") && OneByte(") Tj\n");
      hide OneByte;
      FourTexts(ShownLines(lines[..n]), newline, "(", Escape(lines[n]), ") Tj\n");
    }
  }

  lemma FourTexts(a: string, b: string, c: string, d: string, e: string)
    requires OneByte(a) && OneByte(b) && OneByte(c) && OneByte(d) && OneByte(e)
    ensures OneByte(a + b + c + d + e)
  {
    hide OneByte;
    Both(a, b);
    Both(a + b, c);
    Both(a + b + c, d);
    Both(a + b + c + d, e);
  }

  /** `/Length`, counted in characters, is the size of the stream in bytes. */
  lemma StreamIsOneByte(lines: Page)
    requires PlainLines(lines)
    ensures OneByte(Stream(lines)) && ByteLength(Stream(lines)) == |Stream(lines)|
  {
    ShownIsOneByte(lines);
    assert OneByte("ET");
    Both(ShownLines(lines), "ET");
    OneByteEach(Stream(lines));
  }

  lemma {:induction false} KidsAreOneByte(n: nat)
    ensures OneByte(Kids(n))
  {
    if n > 0 {
      KidsAreOneByte(n - 1);
      SmallParts();
      var blank := if n > 1 then " " else "";
      assert OneByte(blank);
      Digits(Dec(4 + 2 * (n - 1)));
      hide OneByte;
      Both(Kids(n - 1), blank);
      Both(Kids(n - 1) + blank, Dec(4 + 2 * (n - 1)));
      Both(Kids(n - 1) + blank + Dec(4 + 2 * (n - 1)), REF);
    }
  }

  lemma BodyIsOneByte(pages: seq<Page>, i: nat)
    requires PlainPages(pages) && 1 <= i <= Count(pages)
    ensures OneByte(Body(pages, i))
  {
    FirstBodies(pages);
    if i == 1 {
      CatalogPart();
    } else if i == 2 {
      KidsPart();
      KidsAreOneByte(|pages|);
      Digits(Dec(|pages|));
      assert OneByte("] /Count ") && OneByte(" >>");
      hide OneByte;
      FourTexts(KIDS_HEAD, Kids(|pages|), "] /Count ", Dec(|pages|), " >>");
    } else if i == 3 {
      FontPart();
    } else if i % 2 == 0 {
      PagePart();
      SmallParts();
      PageBody(pages, (i - 4) / 2);
      Digits(Dec(i + 1));
      assert OneByte(" >>");
      hide OneByte;
      Both(PAGE_HEAD, Dec(i + 1));
      Both(PAGE_HEAD + Dec(i + 1), REF);
      Both(PAGE_HEAD + Dec(i + 1) + REF, " >>");
    } else {
      var stream := Stream(pages[(i - 5) / 2]);
      StreamParts();
      StreamIsOneByte(pages[(i - 5) / 2]);
      StreamBody(pages, (i - 5) / 2);
      Digits(Dec(|stream|));
      hide OneByte;
      FourTexts(LENGTH_HEAD, Dec(|stream|), STREAM_HEAD, stream, STREAM_END);
    }
  }

  lemma {:induction false} PrefixIsOneByte(pages: seq<Page>, n: nat)
    requires PlainPages(pages) && n <= Count(pages)
    ensures OneByte(Prefix(pages, n))
  {
    SmallParts();
    if n > 0 {
      PrefixIsOneByte(pages, n - 1);
      BodyIsOneByte(pages, n);
      Digits(Dec(n));
      hide OneByte;
      hide Body;
      Both(Dec(n), OBJ);
      Both(Dec(n) + OBJ, Body(pages, n));
      Both(Dec(n) + OBJ + Body(pages, n), ENDOBJ);
      Both(Prefix(pages, n - 1), ObjectText(pages, n));
    }
  }

  lemma {:induction false} TableIsOneByte(pages: seq<Page>, n: nat)
    requires n <= Count(pages)
    ensures OneByte(Table(pages, n))
  {
    TableParts();
    if n > 0 {
      TableIsOneByte(pages, n - 1);
      Digits(Padded(Offset(pages, n)));
      hide OneByte;
      hide Offset;
      Both(Padded(Offset(pages, n)), ENTRY_END);
      Both(Table(pages, n - 1), Entry(pages, n));
    }
  }

  lemma TrailerIsOneByte(pages: seq<Page>)
    ensures OneByte(Trailer(pages))
  {
    TrailerPart();
    RootPart();
    TableParts();
    var start := |Prefix(pages, Count(pages))|;
    Digits(Dec(Count(pages) + 1));
    Digits(Dec(start));
    hide OneByte;
    hide Prefix;
    FourTexts(TRAILER_HEAD, Dec(Count(pages) + 1), ROOT, Dec(start), EOF);
  }

  /** Every character of the file is one byte: its size, each offset and each `/Length` count bytes. */
  lemma FileIsOneByte(sections: seq<string>, printable: char -> bool)
    ensures var pages := Pages(sections, printable);
      && OneByte(File(pages)) && ByteLength(File(pages)) == |File(pages)|
      && (forall k | 0 <= k < |pages| :: ByteLength(Stream(pages[k])) == |Stream(pages[k])|)
  {
    hide PlainLines;
    hide File;
    hide Stream;
    var pages := Pages(sections, printable);
    PagesArePlain(if sections == [] then [""] else sections, printable);
    PartsAreOneByte(pages);
    OneByteEach(File(pages));
    forall k | 0 <= k < |pages| ensures ByteLength(Stream(pages[k])) == |Stream(pages[k])| {
      StreamIsOneByte(pages[k]);
    }
  }

  /** The table gives the offset of each object in bytes. */
  lemma OffsetsAreBytes(sections: seq<string>, printable: char -> bool, i: nat)
    requires 1 <= i <= Count(Pages(sections, printable))
    ensures var pages := Pages(sections, printable);
      Offset(pages, i) <= |File(pages)| && ByteLength(File(pages)[..Offset(pages, i)]) == Offset(pages, i)
  {
    hide File;
    hide OneByte;
    hide Pages;
    var pages := Pages(sections, printable);
    FileIsOneByte(sections, printable);
    var rest := PdfReader.ObjectAtOffset(pages, i);
    BeginningIsOneByte(File(pages), Offset(pages, i));
  }

  lemma BeginningIsOneByte(s: string, n: nat)
    requires OneByte(s) && n <= |s|
    ensures ByteLength(s[..n]) == n
  {
    OneByteEach(s[..n]);
  }

  lemma PartsAreOneByte(pages: seq<Page>)
    requires PlainPages(pages)
    ensures OneByte(File(pages))
  {
    PrefixIsOneByte(pages, Count(pages));
    TableParts();
    Digits(Dec(Count(pages) + 1));
    assert OneByte("\n");
    TableIsOneByte(pages, Count(pages));
    TrailerIsOneByte(pages);
    hide OneByte;
    hide Prefix;
    hide Table;
    hide Trailer;
    var head, count := Prefix(pages, Count(pages)), Dec(Count(pages) + 1);
    FourTexts(head, XREF_HEAD, count, "\n", Table(pages, Count(pages)));
    Both(head + XREF_HEAD + count + "\n" + Table(pages, Count(pages)), Trailer(pages));
  }
}
