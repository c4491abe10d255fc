/** The file: pages, numbered objects, the table of their offsets, and the trailer. */
module PdfWriter {
  import opened PdfNumbers
  import opened PdfText

  type Page = seq<string>

  // ---- pages ----

  function SectionLines(source: seq<string>, printable: char -> bool): (lines: seq<string>)
    ensures source != [] ==> lines != []
  {
    if source == [] then []
    else SectionLines(source[..|source| - 1], printable)
         + Wrapped(Normalized(source[|source| - 1], printable), MAX_CHARS)
  }

  function Chunks(lines: seq<string>): (pages: seq<Page>)
    decreases |lines|
  {
    if lines == [] then []
    else if |lines| <= LINES_PER_PAGE then [lines]
    else [lines[..LINES_PER_PAGE]] + Chunks(lines[LINES_PER_PAGE..])
  }

  function PagesOf(sections: seq<string>, printable: char -> bool): seq<Page> {
    if sections == [] then []
    else PagesOf(sections[..|sections| - 1], printable)
         + Chunks(SectionLines(Split(Unix(sections[|sections| - 1])), printable))
  }

  /** No section at all counts as one empty section. */
  function Pages(sections: seq<string>, printable: char -> bool): seq<Page> {
    PagesOf(if sections == [] then [""] else sections, printable)
  }

  function Flat(pages: seq<Page>): seq<string> {
    if pages == [] then [] else pages[0] + Flat(pages[1..])
  }

  lemma {:induction false} FlatJoin(a: seq<Page>, b: seq<Page>)
    ensures Flat(a + b) == Flat(a) + Flat(b)
  {
    if a == [] {
      assert a + b == b && Flat(a) + Flat(b) == Flat(b);
    } else {
      FlatJoin(a[1..], b);
      assert (a + b)[1..] == a[1..] + b && (a + b)[0] == a[0];
      assert a[0] + (Flat(a[1..]) + Flat(b)) == a[0] + Flat(a[1..]) + Flat(b);
    }
  }

  /** The lines of all sections. */
  function AllLines(sections: seq<string>, printable: char -> bool): seq<string> {
    if sections == [] then []
    else AllLines(sections[..|sections| - 1], printable)
         + SectionLines(Split(Unix(sections[|sections| - 1])), printable)
  }

  /** The pages hold all lines of all sections in order. */
  lemma {:induction false} PagesHoldAllLines(sections: seq<string>, printable: char -> bool)
    ensures Flat(PagesOf(sections, printable)) == AllLines(sections, printable)
  {
    if sections != [] {
      var init := sections[..|sections| - 1];
      var lines := SectionLines(Split(Unix(sections[|sections| - 1])), printable);
      PagesHoldAllLines(init, printable);
      FlatJoin(PagesOf(init, printable), Chunks(lines));
      ChunksAreExact(lines);
    }
  }

  lemma {:induction false} ChunksAreExact(lines: seq<string>)
    ensures Flat(Chunks(lines)) == lines
    ensures forall p | p in Chunks(lines) :: 1 <= |p| <= LINES_PER_PAGE
    decreases |lines|
  {
    if |lines| > LINES_PER_PAGE {
      ChunksAreExact(lines[LINES_PER_PAGE..]);
      var rest := Chunks(lines[LINES_PER_PAGE..]);
      assert ([lines[..LINES_PER_PAGE]] + rest)[1..] == rest;
      assert lines == lines[..LINES_PER_PAGE] + lines[LINES_PER_PAGE..];
    } else if lines != [] {
      assert Flat([lines][1..]) == [] && lines + [] == lines;
    }
  }

  lemma {:induction false} LinesFit(source: seq<string>, printable: char -> bool)
    ensures forall l | l in SectionLines(source, printable) :: |l| <= MAX_CHARS
  {
    if source != [] {
      LinesFit(source[..|source| - 1], printable);
      var gaps := WrappingDropsOnlyBlanks(Normalized(source[|source| - 1], printable), MAX_CHARS);
    }
  }

  lemma {:induction false} LinesOnPages(pages: seq<Page>, p: Page, l: string)
    requires p in pages && l in p
    ensures l in Flat(pages)
  {
    if p != pages[0] {
      LinesOnPages(pages[1..], p, l);
    }
  }

  /** Every page has one to 52 lines, and every line fits the width. */
  lemma {:induction false} PagesFit(sections: seq<string>, printable: char -> bool)
    ensures forall p | p in PagesOf(sections, printable) ::
      1 <= |p| <= LINES_PER_PAGE && forall l | l in p :: |l| <= MAX_CHARS
    ensures sections != [] ==> PagesOf(sections, printable) != []
  {
    if sections != [] {
      PagesFit(sections[..|sections| - 1], printable);
      var lines := SectionLines(Split(Unix(sections[|sections| - 1])), printable);
      LinesFit(Split(Unix(sections[|sections| - 1])), printable);
      ChunksAreExact(lines);
      forall p, l | p in Chunks(lines) && l in p ensures |l| <= MAX_CHARS {
        LinesOnPages(Chunks(lines), p, l);
      }
    }
  }

  // ---- objects ----

  const CATALOG := "<< /Type /Catalog /Pages 2 0 R >>"
  const FONT_TYPE := "<< /Type /Font /Subtype /Type1"
  const FONT_NAME := " /BaseFont /Courier >>"
  const FONT := FONT_TYPE + FONT_NAME
  const KIDS_HEAD := "<< /Type /Pages /Kids ["
  const PAGE_START := "<< /Type /Page /Parent 2 0 R"
  const PAGE_SIZE := " /MediaBox [0 0 595 842]"
  const PAGE_FONT := " /Resources << /Font << /F1 3 0 R >> >>"
  const PAGE_HEAD := PAGE_START + PAGE_SIZE + PAGE_FONT + " /Contents "
  const LENGTH_HEAD := "<< /Length "
  const STREAM_HEAD := " >>\nstream\n"
  const STREAM_END := "\nendstream"
  const TEXT_HEAD := "BT\n/F1 10 Tf\n54 788 Td\n14 TL\n"
  const HEADER := "%PDF-1.4\n"
  const OBJ := " 0 obj\n"
  const ENDOBJ := "\nendobj\n"
  const REF := " 0 R"

  /** plainPDFContentStream without its end. */
  function ShownLines(lines: Page): string {
    if lines == [] then TEXT_HEAD
    else
      var n := |lines| - 1;
      ShownLines(lines[..n]) + (if n > 0 then "T*\n" else "") + "(" + Escape(lines[n]) + ") Tj\n"
  }

  function Stream(lines: Page): string {
    ShownLines(lines) + "ET"
  }

  function Count(pages: seq<Page>): nat {
    3 + 2 * |pages|
  }

  /** The references to the page objects, separated by blanks; the last one comes last. */
  function Kids(n: nat): string {
    if n == 0 then "" else Kids(n - 1) + (if n > 1 then " " else "") + Dec(4 + 2 * (n - 1)) + REF
  }

  function ContentBody(stream: string): string {
    LENGTH_HEAD + Dec(|stream|) + STREAM_HEAD + stream + STREAM_END
  }

  function Body(pages: seq<Page>, i: nat): string
    requires 1 <= i <= Count(pages)
  {
    if i == 1 then CATALOG
    else if i == 2 then KIDS_HEAD + Kids(|pages|) + "] /Count " + Dec(|pages|) + " >>"
    else if i == 3 then FONT
    else if i % 2 == 0 then PAGE_HEAD + Dec(i + 1) + REF + " >>"
    else ContentBody(Stream(pages[(i - 5) / 2]))
  }

  lemma PageBody(pages: seq<Page>, k: nat)
    requires k < |pages|
    ensures Body(pages, 4 + 2 * k) == PAGE_HEAD + Dec(5 + 2 * k) + REF + " >>"
  {
    hide Dec;
    hide Kids;
    hide ContentBody;
    hide Stream;
  }

  lemma StreamBody(pages: seq<Page>, k: nat)
    requires k < |pages|
    ensures Body(pages, 5 + 2 * k) == ContentBody(Stream(pages[k]))
  {
    hide Dec;
    hide Kids;
    hide ContentBody;
    hide Stream;
  }

  lemma FirstBodies(pages: seq<Page>)
    ensures Body(pages, 1) == CATALOG && Body(pages, 3) == FONT
    ensures Body(pages, 2) == KIDS_HEAD + Kids(|pages|) + "] /Count " + Dec(|pages|) + " >>"
  {
    hide Dec;
    hide Kids;
  }

  function ObjectText(pages: seq<Page>, i: nat): string
    requires 1 <= i <= Count(pages)
  {
    Dec(i) + OBJ + Body(pages, i) + ENDOBJ
  }

  /** The file up to and including object n. */
  function Prefix(pages: seq<Page>, n: nat): string
    requires n <= Count(pages)
  {
    if n == 0 then HEADER else Prefix(pages, n - 1) + ObjectText(pages, n)
  }

  function Offset(pages: seq<Page>, i: nat): nat
    requires 1 <= i <= Count(pages)
  {
    |Prefix(pages, i - 1)|
  }

  // ---- table and trailer ----

  const FREE := "0000000000 65535 f \n"
  const ENTRY_END := " 00000 n \n"
  const XREF_HEAD := "xref\n0 "
  const TRAILER_HEAD := "trailer\n<< /Size "
  const ROOT := " /Root 1 0 R >>\nstartxref\n"
  const EOF := "\n%%EOF\n"

  function Entry(pages: seq<Page>, i: nat): string
    requires 1 <= i <= Count(pages)
  {
    Padded(Offset(pages, i)) + ENTRY_END
  }

  /** The entries of the objects up to n, with the free entry in front. */
  function Table(pages: seq<Page>, n: nat): string
    requires n <= Count(pages)
  {
    if n == 0 then FREE else Table(pages, n - 1) + Entry(pages, n)
  }

  function Trailer(pages: seq<Page>): string {
    TRAILER_HEAD + Dec(Count(pages) + 1) + ROOT + Dec(|Prefix(pages, Count(pages))|) + EOF
  }

  function File(pages: seq<Page>): string {
    Prefix(pages, Count(pages)) + XREF_HEAD + Dec(Count(pages) + 1) + "\n" + Table(pages, Count(pages)) + Trailer(pages)
  }
}
