/** What the printed lines have to do with the text that was to be printed. */
module PdfMeaning {
  import opened PdfNumbers
  import opened PdfText
  import opened PdfWriter
  import opened PdfRoundTrip

  // ---- line breaks ----

  /** A text without carriage returns stays as it is. */
  lemma {:induction false} UnixKeeps(text: string)
    requires '\r' !in text
    ensures Unix(text) == text
  {
    if text != "" {
      assert text[0] in text && '\r' !in text[1..];
      UnixKeeps(text[1..]);
      assert [text[0]] + text[1..] == text;
    }
  }

  lemma UnixNext(a: string, b: string) returns (n: nat, head: string)
    requires a != "" && (a[|a| - 1] != '\r' || b == "" || b[0] != '\n')
    ensures 1 <= n <= |a| && Unix(a) == head + Unix(a[n..]) && Unix(a + b) == head + Unix(a[n..] + b)
  {
    n := if a[0] == '\r' && |a| > 1 && a[1] == '\n' then 2 else 1;
    head := if a[0] == '\r' then "\n" else [a[0]];
    assert (a + b)[n..] == a[n..] + b;
  }

  lemma {:induction false} UnixJoins(a: string, b: string)
    requires a == "" || a[|a| - 1] != '\r' || b == "" || b[0] != '\n'
    ensures Unix(a + b) == Unix(a) + Unix(b)
  {
    if a == "" {
      assert a + b == b && Unix(a) == "";
    } else {
      var n, head := UnixNext(a, b);
      hide Unix;
      UnixJoins(a[n..], b);
      Grouped(head, Unix(a[n..]), Unix(b));
    }
  }

  /** Each of "\r\n" and "\r" is one line break, whatever stands around it, and none is left. */
  lemma OneBreakEach(a: string, b: string)
    ensures Unix(a + "\r\n" + b) == Unix(a) + "\n" + Unix(b)
    ensures b == "" || b[0] != '\n' ==> Unix(a + "\r" + b) == Unix(a) + "\n" + Unix(b)
  {
    assert a + "\r\n" + b == a + ("\r\n" + b) && a + "\r" + b == a + ("\r" + b);
    UnixJoins(a, "\r\n" + b);
    UnixJoins(a, "\r" + b);
    assert ("\r\n" + b)[2..] == b && ("\r" + b)[1..] == b;
    assert "\n" + Unix(b) == Unix("\r\n" + b);
  }

  lemma {:induction false} NoReturnLeft(text: string)
    ensures '\r' !in Unix(text)
  {
    if text != "" {
      NoReturnLeft(if text[0] == '\r' && |text| > 1 && text[1] == '\n' then text[2..] else text[1..]);
    }
  }

  // ---- characters ----

  lemma NormalizedNext(s: string, c: char, printable: char -> bool)
    ensures Normalized(s + [c], printable) == Normalized(s, printable) + Ascii(c, printable)
  {
    assert (s + [c])[..|s|] == s;
  }

  /** Plain text is printed as it is. */
  lemma {:induction false} PlainIsKept(s: string, printable: char -> bool)
    requires Plain(s)
    ensures Normalized(s, printable) == s
  {
    if s != "" {
      var init, last := s[..|s| - 1], s[|s| - 1];
      assert s == init + [last] && last in s;
      forall c | c in init ensures ' ' <= c <= '~' {
        assert c in s;
      }
      PlainIsKept(init, printable);
      NormalizedNext(init, last, printable);
    }
  }

  lemma NothingJoins(a: string, printable: char -> bool)
    ensures Normalized(a + "", printable) == Normalized(a, printable) + Normalized("", printable)
  {
    assert a + "" == a && Normalized("", printable) == "";
    assert Normalized(a, printable) + "" == Normalized(a, printable);
  }

  lemma {:induction false} NormalizedJoins(a: string, b: string, printable: char -> bool)
    ensures Normalized(a + b, printable) == Normalized(a, printable) + Normalized(b, printable)
  {
    hide Normalized;
    hide Ascii;
    if b == "" {
      NothingJoins(a, printable);
    } else {
      var init, last := b[..|b| - 1], b[|b| - 1];
      NormalizedJoins(a, init, printable);
      NormalizedNext(a + init, last, printable);
      NormalizedNext(init, last, printable);
      assert b == init + [last] && a + b == a + init + [last];
      Grouped(Normalized(a, printable), Normalized(init, printable), Ascii(last, printable));
    }
  }

  lemma Grouped(a: string, b: string, c: string)
    ensures a + b + c == a + (b + c)
  {}

  /** What is printed for a character in the middle of a text: plain ones as they are, a tab as four blanks, the German
      letters spelled out, everything else as a question mark or a blank. */
  lemma EachCharacter(a: string, c: char, b: string, printable: char -> bool)
    ensures var text, before, after :=
      Normalized(a + [c] + b, printable), Normalized(a, printable), Normalized(b, printable);
      && (' ' <= c <= '~' ==> text == before + [c] + after)
      && (c == '\t' ==> text == before + "    " + after)
      && (c == '\U{E4}' ==> text == before + "ae" + after) && (c == '\U{C4}' ==> text == before + "Ae" + after)
      && (c == '\U{F6}' ==> text == before + "oe" + after) && (c == '\U{D6}' ==> text == before + "Oe" + after)
      && (c == '\U{FC}' ==> text == before + "ue" + after) && (c == '\U{DC}' ==> text == before + "Ue" + after)
      && (c == '\U{DF}' ==> text == before + "ss" + after)
      && (!(' ' <= c <= '~') && c !in "\t\U{E4}\U{C4}\U{F6}\U{D6}\U{FC}\U{DC}\U{DF}" ==>
            text == before + (if printable(c) then "?" else " ") + after)
  {
    NormalizedJoins(a + [c], b, printable);
    NormalizedJoins(a, [c], printable);
    assert [c][..0] == "";
    assert Normalized([c], printable) == "" + Ascii(c, printable) == Ascii(c, printable);
  }

  /** A line fits the width and a page its height, and no longer line or page would. */
  lemma LayoutIsLargest()
    ensures 6 * MAX_CHARS <= 595 - 2 * 54 < 6 * (MAX_CHARS + 1)
    ensures 14 * LINES_PER_PAGE <= 842 - 2 * 54 < 14 * (LINES_PER_PAGE + 1)
  {}

  // ---- lines ----

  /** The strings are the lines, some of them in several pieces between which blanks were dropped. */
  ghost predicate Restores(found: seq<string>, lines: seq<string>)
    decreases |lines|
  {
    if lines == [] then found == []
    else exists n: nat, gaps: seq<nat> :: Begins(found, n, gaps, lines[0]) && Restores(found[n..], lines[1..])
  }

  /** The first `n` strings make up the line. */
  ghost predicate Begins(found: seq<string>, n: nat, gaps: seq<nat>, line: string) {
    1 <= n <= |found| && |gaps| == n - 1 && Glued(found[..n], gaps) == line
  }

  lemma {:induction false} RestoresBoth(a: seq<string>, la: seq<string>, b: seq<string>, lb: seq<string>)
    requires Restores(a, la) && Restores(b, lb)
    ensures Restores(a + b, la + lb)
    decreases |la|
  {
    if la == [] {
      assert a + b == b && la + lb == lb;
    } else {
      var n: nat, gaps: seq<nat> :| Begins(a, n, gaps, la[0]) && Restores(a[n..], la[1..]);
      RestoresBoth(a[n..], la[1..], b, lb);
      assert (a + b)[n..] == a[n..] + b && (la + lb)[1..] == la[1..] + lb;
      assert (a + b)[..n] == a[..n];
      assert Begins(a + b, n, gaps, (la + lb)[0]);
    }
  }

  lemma WrappedRestores(line: string)
    ensures Restores(Wrapped(line, MAX_CHARS), [line])
  {
    var parts := Wrapped(line, MAX_CHARS);
    var gaps := WrappingDropsOnlyBlanks(line, MAX_CHARS);
    assert parts[..|parts|] == parts && parts[|parts|..] == [] && [line][1..] == [];
    assert Begins(parts, |parts|, gaps, [line][0]);
  }

  function Cleaned(source: seq<string>, printable: char -> bool): seq<string> {
    if source == [] then []
      else Cleaned(source[..|source| - 1], printable) + [Normalized(source[|source| - 1], printable)]
  }

  lemma {:induction false} SectionRestores(source: seq<string>, printable: char -> bool)
    ensures Restores(SectionLines(source, printable), Cleaned(source, printable))
  {
    if source != [] {
      var line := Normalized(source[|source| - 1], printable);
      SectionRestores(source[..|source| - 1], printable);
      WrappedRestores(line);
      hide Restores;
      hide Wrapped;
      RestoresBoth(SectionLines(source[..|source| - 1], printable), Cleaned(source[..|source| - 1], printable),
        Wrapped(line, MAX_CHARS), [line]);
    }
  }

  lemma {:induction false} PlainLinesAreKept(source: seq<string>, printable: char -> bool)
    requires forall l | l in source :: Plain(l)
    ensures Cleaned(source, printable) == source
  {
    if source != [] {
      hide Plain;
      hide Normalized;
      var init, last := source[..|source| - 1], source[|source| - 1];
      assert source == init + [last] && last in source;
      forall l | l in init ensures Plain(l) {
        assert l in source;
      }
      PlainLinesAreKept(init, printable);
      PlainIsKept(last, printable);
    }
  }

  // ---- documents ----

  /** Line breaks and characters that are printed as they are. */
  predicate PlainText(text: string) {
    forall c | c in text :: c == '\n' || ' ' <= c <= '~'
  }

  lemma {:induction false} LinesArePlain(text: string)
    requires PlainText(text)
    ensures forall l | l in Split(text) :: Plain(l)
  {
    if text != "" {
      assert text[0] in text && forall c | c in text[1..] :: c in text;
      LinesArePlain(text[1..]);
      var rest := Split(text[1..]);
      assert rest[0] in rest && forall l | l in rest[1..] :: l in rest;
    }
  }

  /** The wrapped lines of a plain text are its own. */
  lemma TextIsKept(text: string, printable: char -> bool)
    requires PlainText(text)
    ensures Restores(SectionLines(Split(Unix(text)), printable), Split(text))
  {
    UnixKeeps(text);
    LinesArePlain(text);
    PlainLinesAreKept(Split(text), printable);
    SectionRestores(Split(text), printable);
  }

  /** The lines of all sections as they were given. */
  function OwnLines(sections: seq<string>): seq<string> {
    if sections == [] then [] else OwnLines(sections[..|sections| - 1]) + Split(sections[|sections| - 1])
  }

  lemma {:induction false} AllLinesAreKept(sections: seq<string>, printable: char -> bool)
    requires forall s | s in sections :: PlainText(s)
    ensures Restores(AllLines(sections, printable), OwnLines(sections))
  {
    if sections != [] {
      var last := sections[|sections| - 1];
      assert last in sections && forall s | s in sections[..|sections| - 1] :: s in sections;
      AllLinesAreKept(sections[..|sections| - 1], printable);
      TextIsKept(last, printable);
      hide Restores;
      hide SectionLines;
      RestoresBoth(AllLines(sections[..|sections| - 1], printable), OwnLines(sections[..|sections| - 1]),
        SectionLines(Split(Unix(last)), printable), Split(last));
    }
  }

  /** Whoever reads the printed file finds the lines of the sections, but for blanks dropped where a line was cut. */
  lemma PrintedIsRead(sections: seq<string>, printable: char -> bool)
    requires |File(Pages(sections, printable))| <= Pow10(10) && forall s | s in sections :: PlainText(s)
    ensures ReadDocument(File(Pages(sections, printable))).Some?
    ensures Restores(Flat(ReadDocument(File(Pages(sections, printable))).value),
                     OwnLines(if sections == [] then [""] else sections))
  {
    hide Restores;
    hide File;
    hide ReadDocument;
    hide Pow10;
    var all := if sections == [] then [""] else sections;
    DocumentReadsBack(sections, printable);
    PagesHoldAllLines(all, printable);
    AllLinesAreKept(all, printable);
  }
}
