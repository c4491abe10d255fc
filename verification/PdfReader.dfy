/** A reader that follows startxref, the offset table and the references, and gets the pages back. */
module PdfReader {
  import opened PdfNumbers
  import opened PdfText
  import opened PdfWriter

  datatype Option<+T> = None | Some(value: T)

  function After(s: string, head: string): Option<string> {
    if head <= s then Some(s[|head|..]) else None
  }

  lemma AfterHead(head: string, rest: string)
    ensures After(head + rest, head) == Some(rest)
  {}

  // ---- startxref and the table (sections 7.5.5 and 7.5.4 of ISO 32000-1) ----

  function TrailingDigits(s: string): (n: nat)
    ensures n <= |s|
  {
    if s == "" || !IsDigit(s[|s| - 1]) then 0 else TrailingDigits(s[..|s| - 1]) + 1
  }

  /** The number on the line before the last. */
  function StartXref(file: string): Option<nat> {
    if |file| < |EOF| || file[|file| - |EOF|..] != EOF then None
    else
      var s := file[..|file| - |EOF|];
      Some(ReadNumber(s[|s| - TrailingDigits(s)..]).0)
  }

  /** The text from the table entry of an object on; each entry takes 20 bytes. */
  function EntryText(file: string, i: nat): Option<string> {
    var start := StartXref(file);
    if start.None? || start.value > |file| then None
    else
      var table := After(file[start.value..], XREF_HEAD);
      if table.None? then None
      else
        var rest := After(ReadNumber(table.value).1, "\n");
        if rest.None? || |rest.value| < 20 * i then None else Some(rest.value[20 * i..])
  }

  /** The text of an object behind its header, found at its table offset. */
  function ObjectAt(file: string, i: nat): Option<string> {
    var entry := EntryText(file, i);
    if entry.None? then None
    else
      var (offset, rest) := ReadNumber(entry.value);
      if offset > |file| || !(ENTRY_END <= rest) then None
      else
        var (number, text) := ReadNumber(file[offset..]);
        if number != i then None else After(text, OBJ)
  }

  // ---- streams and pages ----

  /** The stream of an object: as many bytes as its length says, then the end marker. */
  function ReadStream(text: string): Option<string> {
    var dict := After(text, LENGTH_HEAD);
    if dict.None? then None
    else
      var (length, rest) := ReadNumber(dict.value);
      var data := After(rest, STREAM_HEAD);
      if data.None? || |data.value| < length || !(STREAM_END <= data.value[length..]) then None
      else Some(data.value[..length])
  }

  /** The literal strings of a content stream. */
  function Strings(s: string): Option<seq<string>>
    decreases |s|
  {
    if s == "" then Some([])
    else if s[0] != '(' then Strings(s[1..])
    else
      var l := ReadLiteral(s[1..], 0);
      if l.Bad? || |l.rest| >= |s| then None
      else
        var more := Strings(l.rest);
        if more.None? then None else Some([l.text] + more.value)
  }

  function PageLines(file: string, page: nat): Option<Page> {
    var text := ObjectAt(file, page);
    var dict := if text.None? then None else After(text.value, PAGE_HEAD);
    var content := if dict.None? then None else ObjectAt(file, ReadNumber(dict.value).0);
    var stream := if content.None? then None else ReadStream(content.value);
    if stream.None? then None else Strings(stream.value)
  }

  // ---- offsets lead to objects ----

  lemma {:induction false} PrefixGrows(pages: seq<Page>, i: nat, n: nat) returns (rest: string)
    requires i <= n <= Count(pages)
    ensures Prefix(pages, n) == Prefix(pages, i) + rest
  {
    if i == n {
      rest := "";
    } else {
      rest := PrefixGrows(pages, i, n - 1);
      assert Prefix(pages, i) + (rest + ObjectText(pages, n)) == Prefix(pages, i) + rest + ObjectText(pages, n);
      rest := rest + ObjectText(pages, n);
    }
  }

  lemma FileStarts(pages: seq<Page>, i: nat) returns (rest: string)
    requires i <= Count(pages)
    ensures File(pages) == Prefix(pages, i) + rest
  {
    hide Prefix;
    hide Table;
    hide Trailer;
    hide Dec;
    hide File;
    var more := PrefixGrows(pages, i, Count(pages));
    var end := XREF_HEAD + Dec(Count(pages) + 1) + "\n" + Table(pages, Count(pages)) + Trailer(pages);
    rest := more + end;
    FileIs(pages, end);
    ThreeParts(Prefix(pages, i), more, end);
  }

  lemma ThreeParts(a: string, b: string, c: string)
    ensures a + b + c == a + (b + c)
  {}

  lemma FileIs(pages: seq<Page>, end: string)
    requires end == XREF_HEAD + Dec(Count(pages) + 1) + "\n" + Table(pages, Count(pages)) + Trailer(pages)
    ensures File(pages) == Prefix(pages, Count(pages)) + end
  {
    hide Prefix;
    hide Table;
    hide Trailer;
    hide Dec;
    SixParts(Prefix(pages, Count(pages)), XREF_HEAD, Dec(Count(pages) + 1), "\n", Table(pages, Count(pages)),
      Trailer(pages));
  }

  lemma SixParts(a: string, b: string, c: string, d: string, e: string, f: string)
    ensures a + b + c + d + e + f == a + (b + c + d + e + f)
  {}

  /** At its offset the file continues with the object. */
  lemma ObjectAtOffset(pages: seq<Page>, i: nat) returns (rest: string)
    requires 1 <= i <= Count(pages)
    ensures Offset(pages, i) <= |File(pages)|
    ensures File(pages)[Offset(pages, i)..] == Dec(i) + OBJ + (Body(pages, i) + ENDOBJ + rest)
  {
    rest := FileStarts(pages, i);
    var p := Prefix(pages, i - 1);
    hide Body;
    hide File;
    assert Prefix(pages, i) == p + (Dec(i) + OBJ + Body(pages, i) + ENDOBJ);
    Regroup(p, Dec(i), OBJ, Body(pages, i), ENDOBJ, rest);
  }

  lemma Regroup(p: string, a: string, b: string, c: string, d: string, rest: string)
    ensures (p + (a + b + c + d) + rest)[|p|..] == a + b + (c + d + rest)
  {}

  // ---- the table ----

  lemma {:induction false} TableSize(pages: seq<Page>, n: nat)
    requires n <= Count(pages) && forall i | 1 <= i <= n :: Offset(pages, i) < Pow10(10)
    ensures |Table(pages, n)| == 20 * (n + 1)
  {
    if n > 0 {
      TableSize(pages, n - 1);
      assert |Padded(Offset(pages, n))| == 10;
    }
  }

  lemma {:induction false} EntryInTable(pages: seq<Page>, i: nat, n: nat) returns (rest: string)
    requires 1 <= i <= n <= Count(pages) && forall k | 1 <= k <= n :: Offset(pages, k) < Pow10(10)
    ensures 20 * i <= |Table(pages, n)| && Table(pages, n)[20 * i..] == Entry(pages, i) + rest
  {
    TableSize(pages, n);
    TableSize(pages, n - 1);
    hide Pow10;
    hide Offset;
    hide Entry;
    if i == n {
      rest := "";
      Behind(Table(pages, n - 1), Entry(pages, n));
    } else {
      var before := Table(pages, n - 1);
      var last := Entry(pages, n);
      var more := EntryInTable(pages, i, n - 1);
      hide Table;
      Inside(before, 20 * i, last);
      ThreeParts(Entry(pages, i), more, last);
      rest := more + last;
    }
  }

  lemma Behind(a: string, b: string)
    ensures (a + b)[|a|..] == b && b + "" == b
  {}

  lemma Inside(a: string, n: nat, b: string)
    requires n <= |a|
    ensures (a + b)[n..] == a[n..] + b
  {}

  lemma {:induction false} DigitsAtEnd(s: string, digits: string)
    requires (forall c | c in digits :: IsDigit(c)) && (s == "" || !IsDigit(s[|s| - 1]))
    ensures TrailingDigits(s + digits) == |digits|
  {
    if digits == "" {
      assert s + digits == s;
    } else {
      var init := digits[..|digits| - 1];
      assert digits[|digits| - 1] in digits && forall c | c in init :: c in digits;
      DigitsAtEnd(s, init);
      assert (s + digits)[..|s + digits| - 1] == s + init;
    }
  }

  /** startxref is the offset of the table. */
  lemma StartIsFound(pages: seq<Page>)
    ensures StartXref(File(pages)) == Some(|Prefix(pages, Count(pages))|)
  {
    var n := |Prefix(pages, Count(pages))|;
    var front := Prefix(pages, Count(pages)) + XREF_HEAD + Dec(Count(pages) + 1) + "\n" + Table(pages, Count(pages))
      + TRAILER_HEAD + Dec(Count(pages) + 1) + ROOT;
    FileEnds(pages, front);
    var s := front + Dec(n);
    assert File(pages) == s + EOF;
    assert front[|front| - 1] == ROOT[|ROOT| - 1];
    DigitsAtEnd(front, Dec(n));
    hide File;
    hide Prefix;
    hide Table;
    assert s[|s| - |Dec(n)|..] == Dec(n) && Dec(n) + "" == Dec(n);
    DecReadsBack(n, "");
  }

  lemma FileEnds(pages: seq<Page>, front: string)
    requires front == Prefix(pages, Count(pages)) + XREF_HEAD + Dec(Count(pages) + 1) + "\n"
      + Table(pages, Count(pages))
      + TRAILER_HEAD + Dec(Count(pages) + 1) + ROOT
    ensures File(pages) == front + Dec(|Prefix(pages, Count(pages))|) + EOF
  {
    hide Prefix;
    hide Table;
    hide Dec;
    TrailerParts(Prefix(pages, Count(pages)) + XREF_HEAD + Dec(Count(pages) + 1) + "\n" + Table(pages, Count(pages)),
      TRAILER_HEAD, Dec(Count(pages) + 1), ROOT, Dec(|Prefix(pages, Count(pages))|), EOF);
  }

  lemma TrailerParts(p: string, a: string, b: string, c: string, d: string, e: string)
    ensures p + (a + b + c + d + e) == p + a + b + c + d + e
  {}

  /** Objects below 10^10 bytes: all offsets fit ten digits. */
  ghost predicate OffsetsFit(pages: seq<Page>) {
    forall i | 1 <= i <= Count(pages) :: Offset(pages, i) < Pow10(10)
  }

  lemma SmallFilesFit(pages: seq<Page>)
    requires |File(pages)| <= Pow10(10)
    ensures OffsetsFit(pages)
  {
    forall i | 1 <= i <= Count(pages) ensures Offset(pages, i) < Pow10(10) {
      var rest := FileStarts(pages, i);
      assert |ObjectText(pages, i)| > 0;
    }
  }

  /** From the start of the table on, the file holds its header, its entries and the trailer. */
  lemma FileFromTable(pages: seq<Page>)
    ensures var n, start := Count(pages), |Prefix(pages, Count(pages))|;
      && start <= |File(pages)|
      && File(pages)[start..] == XREF_HEAD + (Dec(n + 1) + ("\n" + (Table(pages, n) + Trailer(pages))))
  {
    hide Prefix;
    hide Table;
    hide Trailer;
    hide Dec;
    var n := Count(pages);
    var head, table, tail := Prefix(pages, n), Table(pages, n), Trailer(pages);
    SixParts(head, XREF_HEAD, Dec(n + 1), "\n", table, tail);
    Behind(head, XREF_HEAD + Dec(n + 1) + "\n" + table + tail);
    TableParts(XREF_HEAD, Dec(n + 1), "\n", table, tail);
  }

  lemma TableIsRead(file: string, start: nat, size: nat, body: string, i: nat)
    requires StartXref(file) == Some(start) && start <= |file| && 20 * i <= |body|
    requires file[start..] == XREF_HEAD + (Dec(size) + ("\n" + body))
    ensures EntryText(file, i) == Some(body[20 * i..])
  {
    hide StartXref;
    hide ReadNumber;
    hide Dec;
    DecReadsBack(size, "\n" + body);
    AfterHead(XREF_HEAD, Dec(size) + ("\n" + body));
    AfterHead("\n", body);
  }

  lemma EntryIsFound(pages: seq<Page>, i: nat) returns (rest: string)
    requires 1 <= i <= Count(pages) && OffsetsFit(pages)
    ensures EntryText(File(pages), i) == Some(Padded(Offset(pages, i)) + (ENTRY_END + rest))
  {
    var n := Count(pages);
    rest := EntryInTable(pages, i, n);
    assert Entry(pages, i) == Padded(Offset(pages, i)) + ENTRY_END;
    hide Entry;
    hide Offset;
    hide OffsetsFit;
    hide Padded;
    hide Table;
    hide Prefix;
    hide Trailer;
    hide Dec;
    hide File;
    hide EntryText;
    hide StartXref;
    StartIsFound(pages);
    FileFromTable(pages);
    var table, tail := Table(pages, n), Trailer(pages);
    Inside(table, 20 * i, tail);
    TableIsRead(File(pages), |Prefix(pages, n)|, n + 1, table + tail, i);
    FourParts(Padded(Offset(pages, i)), ENTRY_END, rest, tail);
    rest := rest + tail;
  }

  lemma TableParts(a: string, b: string, c: string, d: string, e: string)
    ensures a + b + c + d + e == a + (b + (c + (d + e)))
  {}

  lemma FourParts(a: string, b: string, c: string, d: string)
    ensures a + b + c + d == a + (b + (c + d))
  {}

  /** Following the table, a reader finds every object. */
  lemma ObjectIsFound(pages: seq<Page>, i: nat) returns (rest: string)
    requires 1 <= i <= Count(pages) && OffsetsFit(pages)
    ensures ObjectAt(File(pages), i) == Some(Body(pages, i) + ENDOBJ + rest)
  {
    var more := EntryIsFound(pages, i);
    rest := ObjectAtOffset(pages, i);
    PaddedReadsBack(Offset(pages, i), ENTRY_END + more);
    var text := Body(pages, i) + ENDOBJ + rest;
    hide Body;
    hide File;
    hide EntryText;
    hide Prefix;
    hide Offset;
    hide OffsetsFit;
    hide Padded;
    hide Pow10;
    hide Dec;
    hide ReadNumber;
    ThreeParts(Dec(i), OBJ, text);
    DecReadsBack(i, OBJ + text);
    AfterHead(OBJ, text);
  }
}
