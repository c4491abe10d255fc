/** Reading a written file gives back the pages, line by line. */
module PdfRoundTrip {
  import opened PdfNumbers
  import opened PdfText
  import opened PdfWriter
  import opened PdfReader

  // ---- streams ----

  /** The length entry is the size of the stream: exactly the stream is read, and the end marker
      follows it. */
  lemma StreamIsRead(stream: string, rest: string)
    ensures ReadStream(ContentBody(stream) + rest) == Some(stream)
  {
    var data := stream + (STREAM_END + rest);
    assert ContentBody(stream) + rest == LENGTH_HEAD + (Dec(|stream|) + (STREAM_HEAD + data)) by {
      hide Dec;
      StreamParts(LENGTH_HEAD, Dec(|stream|), STREAM_HEAD, stream, STREAM_END, rest);
    }
    AfterHead(LENGTH_HEAD, Dec(|stream|) + (STREAM_HEAD + data));
    DecReadsBack(|stream|, STREAM_HEAD + data);
    AfterHead(STREAM_HEAD, data);
    hide Dec;
    hide ReadNumber;
    hide ContentBody;
    assert data[|stream|..] == STREAM_END + rest && data[..|stream|] == stream;
  }

  lemma StreamParts(a: string, b: string, c: string, d: string, e: string, f: string)
    ensures a + b + c + d + e + f == a + (b + (c + (d + (e + f))))
  {}

  // ---- literal strings ----

  lemma {:induction false} Skips(s: string, rest: string)
    requires forall c | c in s :: c != '('
    ensures Strings(s + rest) == Strings(rest)
  {
    if s == "" {
      assert s + rest == rest;
    } else {
      assert s[0] in s && forall c | c in s[1..] :: c in s;
      Skips(s[1..], rest);
      assert (s + rest)[1..] == s[1..] + rest;
    }
  }

  lemma OneString(line: string, rest: string)
    requires Strings(rest).Some?
    ensures Strings("(" + Escape(line) + ") Tj\n" + rest) == Some([line] + Strings(rest).value)
  {
    var tail := " Tj\n" + rest;
    Skips(" Tj\n", rest);
    EscapeReadsBack(line, tail);
    hide Escape;
    hide ReadLiteral;
    OpeningParts(Escape(line), rest);
    FirstString(Escape(line) + ")" + tail, line, tail);
  }

  lemma OpeningParts(e: string, rest: string)
    ensures "(" + e + ") Tj\n" + rest == "(" + (e + ")" + (" Tj\n" + rest))
  {
    assert ") Tj\n" == ")" + " Tj\n";
  }

  lemma FirstString(s: string, line: string, rest: string)
    requires ReadLiteral(s, 0) == Literal(line, rest) && Strings(rest).Some? && |rest| <= |s|
    ensures Strings("(" + s) == Some([line] + Strings(rest).value)
  {
    hide ReadLiteral;
    assert ("(" + s)[1..] == s;
  }

  /** The shown strings of a page are its lines, in order. */
  lemma {:induction false} ShownAreRead(lines: Page, rest: string)
    requires Strings(rest).Some?
    ensures Strings(ShownLines(lines) + rest) == Some(lines + Strings(rest).value)
  {
    if lines == [] {
      NoOpening();
      Skips(TEXT_HEAD, rest);
      assert lines + Strings(rest).value == Strings(rest).value;
    } else {
      var n := |lines| - 1;
      var sep := if n > 0 then "T*\n" else "";
      var text := "(" + Escape(lines[n]) + ") Tj\n";
      assert ShownLines(lines) == ShownLines(lines[..n]) + sep + "(" + Escape(lines[n]) + ") Tj\n";
      hide Escape;
      hide ShownLines;
      OneString(lines[n], rest);
      NoOpening();
      Skips(sep, text + rest);
      hide Strings;
      ShownParts(ShownLines(lines[..n]), sep, "(", Escape(lines[n]), ") Tj\n", rest);
      ShownAreRead(lines[..n], sep + (text + rest));
      assert lines[..n] + ([lines[n]] + Strings(rest).value) == lines + Strings(rest).value;
    }
  }

  lemma ShownParts(a: string, b: string, c: string, d: string, e: string, f: string)
    ensures a + b + c + d + e + f == a + (b + (c + d + e + f))
  {}

  lemma NoOpening()
    ensures forall c | c in TEXT_HEAD :: c != '('
    ensures forall c | c in "T*\n" :: c != '('
  {}

  lemma PageIsRead(lines: Page)
    ensures Strings(Stream(lines)) == Some(lines)
  {
    Skips("ET", "");
    assert "ET" + "" == "ET";
    ShownAreRead(lines, "ET");
    assert lines + [] == lines;
  }

  /** From the page object over its content object to its lines. */
  lemma PageLinesFound(pages: seq<Page>, k: nat)
    requires k < |pages| && OffsetsFit(pages)
    ensures PageLines(File(pages), 4 + 2 * k) == Some(pages[k])
  {
    hide File;
    hide ObjectAt;
    hide OffsetsFit;
    hide ReadNumber;
    hide ContentBody;
    hide ReadStream;
    hide Strings;
    var dict := PageText(pages, k);
    var rest := ContentText(pages, k);
    StreamIsRead(Stream(pages[k]), rest);
    PageIsRead(pages[k]);
    hide Stream;
    FollowPage(File(pages), 4 + 2 * k, dict, 5 + 2 * k, ContentBody(Stream(pages[k])) + rest, Stream(pages[k]),
      pages[k]);
  }

  lemma PageText(pages: seq<Page>, k: nat) returns (dict: string)
    requires k < |pages| && OffsetsFit(pages)
    ensures ObjectAt(File(pages), 4 + 2 * k) == Some(PAGE_HEAD + dict) && ReadNumber(dict).0 == 5 + 2 * k
  {
    hide File;
    hide ObjectAt;
    hide OffsetsFit;
    var i := 4 + 2 * k;
    var rest := ObjectIsFound(pages, i);
    PageBody(pages, k);
    hide Body;
    DecReadsBack(i + 1, REF + (" >>" + (ENDOBJ + rest)));
    hide Dec;
    hide ReadNumber;
    PageParts(PAGE_HEAD, Dec(i + 1), REF, " >>", ENDOBJ, rest);
    dict := Dec(i + 1) + (REF + (" >>" + (ENDOBJ + rest)));
  }

  lemma ContentText(pages: seq<Page>, k: nat) returns (rest: string)
    requires k < |pages| && OffsetsFit(pages)
    ensures ObjectAt(File(pages), 5 + 2 * k) == Some(ContentBody(Stream(pages[k])) + rest)
  {
    hide File;
    hide ObjectAt;
    hide OffsetsFit;
    hide ContentBody;
    hide Stream;
    rest := ObjectIsFound(pages, 5 + 2 * k);
    hide Body;
    StreamBody(pages, k);
    ThreeParts(ContentBody(Stream(pages[k])), ENDOBJ, rest);
    rest := ENDOBJ + rest;
  }

  lemma FollowPage(file: string, page: nat, dict: string, number: nat, content: string, stream: string, lines: Page)
    requires ObjectAt(file, page) == Some(PAGE_HEAD + dict) && ReadNumber(dict).0 == number
    requires ObjectAt(file, number) == Some(content) && ReadStream(content) == Some(stream)
      && Strings(stream) == Some(lines)
    ensures PageLines(file, page) == Some(lines)
  {
    hide ObjectAt;
    hide ReadNumber;
    hide ReadStream;
    hide Strings;
    AfterHead(PAGE_HEAD, dict);
  }

  lemma PageParts(a: string, b: string, c: string, d: string, e: string, f: string)
    ensures a + b + c + d + e + f == a + (b + (c + (d + (e + f))))
  {}

  // ---- the list of pages ----

  /** References "n 0 R" separated by blanks, up to the closing bracket. */
  function ReadRefs(s: string): Option<seq<nat>>
    decreases |s|
  {
    var (n, rest) := ReadNumber(s);
    var next := After(rest, REF);
    if next.None? || next.value == "" || |next.value| >= |s| then None
    else if next.value[0] == ']' then Some([n])
    else if next.value[0] != ' ' then None
    else
      var more := ReadRefs(next.value[1..]);
      if more.None? then None else Some([n] + more.value)
  }

  function PageRefs(file: string): Option<seq<nat>> {
    var text := ObjectAt(file, 2);
    var kids := if text.None? then None else After(text.value, KIDS_HEAD);
    if kids.None? then None else ReadRefs(kids.value)
  }

  /** The references from page k on. */
  function KidsFrom(k: nat, n: nat): string
    requires k < n
    decreases n - k
  {
    if k + 1 == n then Dec(4 + 2 * k) + REF else Dec(4 + 2 * k) + REF + " " + KidsFrom(k + 1, n)
  }

  function Refs(k: nat, n: nat): (r: seq<nat>)
    requires k <= n
    ensures |r| == n - k && forall i | 0 <= i < n - k :: r[i] == 4 + 2 * (k + i)
  {
    seq(n - k, i requires 0 <= i => 4 + 2 * (k + i))
  }

  lemma {:induction false} KidsSplit(k: nat, n: nat)
    requires 0 < k < n
    ensures Kids(n) == Kids(k) + " " + KidsFrom(k, n)
    decreases n - k
  {
    assert Kids(k + 1) == Kids(k) + " " + Dec(4 + 2 * k) + REF;
    if k + 1 == n {
      KidsParts(Kids(k), " ", Dec(4 + 2 * k), REF, "", "");
      assert KidsFrom(k, n) == Dec(4 + 2 * k) + REF;
    } else {
      KidsSplit(k + 1, n);
      assert KidsFrom(k, n) == Dec(4 + 2 * k) + REF + " " + KidsFrom(k + 1, n);
      hide Dec;
      hide Kids;
      KidsParts(Kids(k), " ", Dec(4 + 2 * k), REF, " ", KidsFrom(k + 1, n));
    }
  }

  lemma KidsParts(a: string, b: string, c: string, d: string, e: string, f: string)
    ensures a + b + c + d + e + f == a + b + (c + d + e + f)
    ensures a + b + c + d == a + b + (c + d)
  {}

  lemma KidsWhole(n: nat)
    requires n > 0
    ensures Kids(n) == KidsFrom(0, n)
  {
    assert Kids(0) == "" && Kids(1) == Dec(4) + REF;
    if n > 1 {
      KidsSplit(1, n);
    }
  }

  lemma {:induction false} RefsAreRead(k: nat, n: nat, rest: string)
    requires k < n
    ensures ReadRefs(KidsFrom(k, n) + ("]" + rest)) == Some(Refs(k, n))
    decreases n - k
  {
    hide Dec;
    hide ReadNumber;
    var number := Dec(4 + 2 * k);
    if k + 1 < n {
      RefsAreRead(k + 1, n, rest);
      var tail := KidsFrom(k + 1, n) + ("]" + rest);
      assert KidsFrom(k, n) == number + REF + " " + KidsFrom(k + 1, n);
      KidParts(number, REF, " ", KidsFrom(k + 1, n), "]" + rest);
      DecReadsBack(4 + 2 * k, REF + (" " + tail));
      hide KidsFrom;
      NextRef(number, 4 + 2 * k, tail);
      assert [4 + 2 * k] + Refs(k + 1, n) == Refs(k, n);
    } else {
      KidParts(number, REF, "", "", "]" + rest);
      DecReadsBack(4 + 2 * k, REF + ("]" + rest));
      LastRef(number, 4 + 2 * k, rest);
      assert [4 + 2 * k] == Refs(k, n);
    }
  }

  lemma KidParts(a: string, b: string, c: string, d: string, e: string)
    ensures a + b + c + d + e == a + (b + (c + (d + e))) && a + b + e == a + (b + e)
  {}

  lemma NextRef(number: string, n: nat, tail: string)
    requires ReadNumber(number + (REF + (" " + tail))) == (n, REF + (" " + tail)) && ReadRefs(tail).Some?
    ensures ReadRefs(number + (REF + (" " + tail))) == Some([n] + ReadRefs(tail).value)
  {
    hide ReadNumber;
    AfterHead(REF, " " + tail);
    assert (" " + tail)[1..] == tail;
  }

  lemma LastRef(number: string, n: nat, rest: string)
    requires ReadNumber(number + (REF + ("]" + rest))) == (n, REF + ("]" + rest))
    ensures ReadRefs(number + (REF + ("]" + rest))) == Some([n])
  {
    hide ReadNumber;
    AfterHead(REF, "]" + rest);
  }

  lemma PageRefsFound(pages: seq<Page>)
    requires pages != [] && OffsetsFit(pages)
    ensures PageRefs(File(pages)) == Some(Refs(0, |pages|))
  {
    var n := |pages|;
    var rest := ObjectIsFound(pages, 2);
    var count := Dec(n);
    assert Body(pages, 2) == KIDS_HEAD + Kids(n) + "] /Count " + count + " >>";
    KidsWhole(n);
    RefsAreRead(0, n, " /Count " + count + " >>" + ENDOBJ + rest);
    hide Body;
    hide File;
    hide ObjectAt;
    hide OffsetsFit;
    hide Kids;
    hide KidsFrom;
    hide ReadRefs;
    hide Refs;
    RefsParts(KIDS_HEAD, Kids(n), count, ENDOBJ, rest);
    AfterHead(KIDS_HEAD, Kids(n) + ("]" + (" /Count " + count + " >>" + ENDOBJ + rest)));
  }

  lemma RefsParts(a: string, b: string, c: string, d: string, e: string)
    ensures a + b + "] /Count " + c + " >>" + d + e == a + (b + ("]" + (" /Count " + c + " >>" + d + e)))
  {
    assert "] /Count " == "]" + " /Count ";
  }

  // ---- the document ----

  function ReadPages(file: string, refs: seq<nat>): Option<seq<Page>> {
    if refs == [] then Some([])
    else
      var first, more := PageLines(file, refs[0]), ReadPages(file, refs[1..]);
      if first.None? || more.None? then None else Some([first.value] + more.value)
  }

  function ReadDocument(file: string): Option<seq<Page>> {
    var refs := PageRefs(file);
    if refs.None? then None else ReadPages(file, refs.value)
  }

  lemma {:induction false} PagesAreRead(pages: seq<Page>, k: nat)
    requires k <= |pages| && OffsetsFit(pages)
    ensures ReadPages(File(pages), Refs(k, |pages|)) == Some(pages[k..])
    decreases |pages| - k
  {
    hide PageLines;
    hide File;
    hide OffsetsFit;
    if k < |pages| {
      PagesAreRead(pages, k + 1);
      PageLinesFound(pages, k);
      assert Refs(k, |pages|)[1..] == Refs(k + 1, |pages|);
      assert [pages[k]] + pages[k + 1..] == pages[k..];
    } else {
      assert Refs(k, |pages|) == [] && pages[k..] == [];
    }
  }

  /** A reader that follows startxref, the table and the references finds exactly the wrapped
      lines of all sections, page by page. */
  lemma DocumentReadsBack(sections: seq<string>, printable: char -> bool)
    requires |File(Pages(sections, printable))| <= Pow10(10)
    ensures ReadDocument(File(Pages(sections, printable))) == Some(Pages(sections, printable))
  {
    hide OffsetsFit;
    hide PageRefs;
    hide ReadPages;
    var pages := Pages(sections, printable);
    PagesFit(if sections == [] then [""] else sections, printable);
    SmallFilesFit(pages);
    hide Pow10;
    hide File;
    PageRefsFound(pages);
    PagesAreRead(pages, 0);
    assert pages[0..] == pages;
  }
}
