/** One printed file, written out. */
module PdfSample {
  import opened PdfNumbers
  import opened PdfText
  import opened PdfWriter

  const SAMPLE: seq<Page> := [["Hi"]]

  const OBJECT1 := "1" + " 0 obj\n" + "<< /Type /Catalog /Pages 2 0 R >>" + "\nendobj\n"
  const OBJECT2 := "2" + " 0 obj\n" + "<< /Type /Pages /Kids [" + "4 0 R" + "] /Count " + "1" + " >>" + "\nendobj\n"
  const OBJECT3 := "3" + " 0 obj\n" + "<< /Type /Font /Subtype /Type1" + " /BaseFont /Courier >>" + "\nendobj\n"
  const PAGE := "<< /Type /Page /Parent 2 0 R" + " /MediaBox [0 0 595 842]"
    + " /Resources << /Font << /F1 3 0 R >> >>" + " /Contents " + "5" + " 0 R" + " >>"
  const OBJECT4 := "4" + " 0 obj\n" + PAGE + "\nendobj\n"
  const TEXT := "BT\n/F1 10 Tf\n54 788 Td\n14 TL\n" + "(" + "Hi" + ") Tj\n" + "ET"
  const OBJECT5 := "5" + " 0 obj\n" + ("<< /Length " + "39" + " >>\nstream\n" + TEXT + "\nendstream") + "\nendobj\n"
  const OBJECTS := "%PDF-1.4\n" + OBJECT1 + OBJECT2 + OBJECT3 + OBJECT4 + OBJECT5
  const ENTRIES := "0000000000 65535 f \n" + ("0000000009" + " 00000 n \n") + ("0000000058" + " 00000 n \n")
    + ("0000000115" + " 00000 n \n") + ("0000000183" + " 00000 n \n") + ("0000000309" + " 00000 n \n")
  const TRAILER := "trailer\n<< /Size " + "6" + " /Root 1 0 R >>\nstartxref\n" + "398" + "\n%%EOF\n"

  lemma OneDigit(d: nat, s: string)
    requires d < 10 && s == [Digit(d)]
    ensures Dec(d) == s
  {}

  lemma DecNext(n: nat, d: nat)
    requires n > 0 && d < 10
    ensures Dec(10 * n + d) == Dec(n) + [Digit(d)]
  {
    assert (10 * n + d) / 10 == n && (10 * n + d) % 10 == d;
  }

  lemma {:induction false} Zeros(k: nat)
    ensures LastDigits(0, k) == seq(k, _ => '0')
  {
    if k > 0 {
      Zeros(k - 1);
    }
  }

  lemma LastNext(n: nat, d: nat, k: nat)
    requires d < 10
    ensures LastDigits(10 * n + d, k + 1) == LastDigits(n, k) + [Digit(d)]
  {
    assert (10 * n + d) / 10 == n && (10 * n + d) % 10 == d;
  }

  lemma TenPowers()
    ensures Pow10(10) > 1000
  {
    assert Pow10(3) == 1000;
    assert Pow10(6) == 1000 * Pow10(3);
    assert Pow10(9) == 1000 * Pow10(6);
  }

  lemma PaddedToTen(n: nat)
    requires n < 1000
    ensures Padded(n) == LastDigits(n, 10)
  {
    TenPowers();
  }

  lemma SevenZeros()
    ensures LastDigits(0, 7) == "0000000"
  {
    Zeros(7);
  }

  lemma TenDigits(a: nat, b: nat, c: nat)
    requires a < 10 && b < 10 && c < 10
    ensures Padded(100 * a + 10 * b + c) == "0000000" + [Digit(a), Digit(b), Digit(c)]
  {
    hide LastDigits;
    hide Padded;
    hide Digit;
    hide Pow10;
    var n := 100 * a + 10 * b + c;
    assert 10 * 0 + a == a && 10 * (10 * a + b) + c == n;
    LastNext(0, a, 7);
    LastNext(a, b, 8);
    LastNext(10 * a + b, c, 9);
    PaddedToTen(n);
    SevenZeros();
    LastThree(LastDigits(0, 7), LastDigits(a, 8), LastDigits(10 * a + b, 9), Padded(n), Digit(a), Digit(b), Digit(c));
  }

  lemma LastThree(s: string, t: string, u: string, v: string, a: char, b: char, c: char)
    requires t == s + [a] && u == t + [b] && v == u + [c]
    ensures v == s + [a, b, c]
  {}

  lemma Objects1To3()
    ensures ObjectText(SAMPLE, 1) == OBJECT1 && ObjectText(SAMPLE, 3) == OBJECT3
  {
    FirstBodies(SAMPLE);
    hide Body;
    OneDigit(1, "1");
    OneDigit(3, "3");
  }

  lemma Object2()
    ensures ObjectText(SAMPLE, 2) == OBJECT2
  {
    FirstBodies(SAMPLE);
    hide Body;
    OneDigit(1, "1");
    OneDigit(2, "2");
    OneDigit(4, "4");
    hide Dec;
    assert Kids(1) == Kids(0) + "" + Dec(4) + REF;
    assert Kids(1) == "4 0 R";
  }

  lemma Object4()
    ensures ObjectText(SAMPLE, 4) == OBJECT4
  {
    PageBody(SAMPLE, 0);
    hide Body;
    OneDigit(4, "4");
    OneDigit(5, "5");
  }

  lemma TextLength()
    ensures |TEXT| == 39
  {}

  lemma Shown()
    ensures Stream(SAMPLE[0]) == TEXT
  {
    var lines := SAMPLE[0];
    assert lines[..0] == [];
    assert Escape("Hi") == "Hi";
    assert ShownLines(lines) == ShownLines(lines[..0]) + "" + "(" + Escape("Hi") + ") Tj\n";
    assert TEXT_HEAD + "" == TEXT_HEAD;
  }

  lemma Object5()
    ensures ObjectText(SAMPLE, 5) == OBJECT5
  {
    StreamBody(SAMPLE, 0);
    Shown();
    TextLength();
    hide Body;
    hide Stream;
    OneDigit(5, "5");
    OneDigit(3, "3");
    DecNext(3, 9);
    hide Dec;
    assert Dec(39) == "39";
  }

  lemma Lengths()
    ensures |OBJECT1| == 49 && |OBJECT2| == 57 && |OBJECT3| == 68
  {}

  lemma MoreLengths()
    ensures |OBJECT4| == 126 && |OBJECT5| == 89
  {
    TextLength();
  }

  lemma Prefixes()
    ensures Prefix(SAMPLE, 0) == "%PDF-1.4\n" && Offset(SAMPLE, 1) == 9
    ensures Prefix(SAMPLE, 1) == "%PDF-1.4\n" + OBJECT1 && Offset(SAMPLE, 2) == 58
    ensures Prefix(SAMPLE, 2) == "%PDF-1.4\n" + OBJECT1 + OBJECT2 && Offset(SAMPLE, 3) == 115
    ensures Prefix(SAMPLE, 3) == "%PDF-1.4\n" + OBJECT1 + OBJECT2 + OBJECT3 && Offset(SAMPLE, 4) == 183
    ensures Prefix(SAMPLE, 4) == "%PDF-1.4\n" + OBJECT1 + OBJECT2 + OBJECT3 + OBJECT4 && Offset(SAMPLE, 5) == 309
    ensures Prefix(SAMPLE, 5) == OBJECTS && |OBJECTS| == 398
  {
    hide ObjectText;
    Objects1To3();
    Object2();
    Object4();
    Object5();
    Lengths();
    MoreLengths();
  }

  lemma Entries()
    ensures Table(SAMPLE, 5) == ENTRIES
  {
    hide Offset;
    hide Padded;
    Prefixes();
    hide Prefix;
    TenDigits(0, 0, 9);
    TenDigits(0, 5, 8);
    TenDigits(1, 1, 5);
    TenDigits(1, 8, 3);
    TenDigits(3, 0, 9);
    assert Table(SAMPLE, 1) == FREE + Entry(SAMPLE, 1);
    assert Table(SAMPLE, 2) == Table(SAMPLE, 1) + Entry(SAMPLE, 2);
    assert Table(SAMPLE, 3) == Table(SAMPLE, 2) + Entry(SAMPLE, 3);
    assert Table(SAMPLE, 4) == Table(SAMPLE, 3) + Entry(SAMPLE, 4);
  }

  lemma End()
    ensures Trailer(SAMPLE) == TRAILER
  {
    Prefixes();
    hide Prefix;
    OneDigit(6, "6");
    OneDigit(3, "3");
    DecNext(3, 9);
    DecNext(39, 8);
    hide Dec;
    assert Dec(398) == "398";
  }

  /** The whole file for the single line "Hi". */
  lemma SampleFile(printable: char -> bool)
    ensures Pages(["Hi"], printable) == SAMPLE
    ensures File(SAMPLE) == OBJECTS + "xref\n0 " + "6" + "\n" + ENTRIES + TRAILER
  {
    Prefixes();
    Entries();
    End();
    OneDigit(6, "6");
    SamplePages(printable);
    hide Prefix;
    hide Table;
    hide Trailer;
    hide Dec;
    hide Pages;
  }

  lemma SamplePages(printable: char -> bool)
    ensures Pages(["Hi"], printable) == SAMPLE
  {
    assert Unix("Hi") == "Hi" by {
      assert "Hi"[1..] == "i" && "i"[1..] == "";
      assert Unix("i") == "i";
    }
    assert Split("Hi") == ["Hi"] by {
      assert "Hi"[1..] == "i" && "i"[1..] == "";
      assert Split("i") == ["i"];
    }
    assert Normalized("Hi", printable) == "Hi" by {
      assert "Hi"[..1] == "H" && "H"[..0] == "";
      assert Normalized("H", printable) == "H";
    }
    assert ["Hi"][..0] == [];
    assert SectionLines(["Hi"], printable) == SectionLines([], printable) + Wrapped("Hi", MAX_CHARS) == ["Hi"];
    assert Chunks(["Hi"]) == [["Hi"]];
    var sections := ["Hi"];
    OneSection(sections, printable, ["Hi"]);
  }

  lemma OneSection(sections: seq<string>, printable: char -> bool, lines: seq<string>)
    requires |sections| == 1 && SectionLines(Split(Unix(sections[0])), printable) == lines
    ensures Pages(sections, printable) == Chunks(lines)
  {
    hide Chunks;
    hide SectionLines;
    assert sections[..0] == [] && PagesOf([], printable) == [];
    assert PagesOf(sections, printable) == PagesOf(sections[..0], printable) + Chunks(lines);
  }
}
