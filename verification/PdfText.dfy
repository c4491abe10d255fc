/** Plain text for a PDF page: lines, wrapping, and literal strings. */
module PdfText {

  const MAX_CHARS := 81      // (595 - 2 * 54) / (10 * 0.6), rounded down
  const LINES_PER_PAGE := 52 // (842 - 2 * 54) / 14, rounded down

  // ---- source lines ----

  /** ReplaceAll of "\r\n", then of "\r". */
  function Unix(text: string): string {
    if text == "" then ""
    else if text[0] == '\r' then "\n" + Unix(if |text| > 1 && text[1] == '\n' then text[2..] else text[1..])
    else [text[0]] + Unix(text[1..])
  }

  function Split(text: string): (lines: seq<string>)
    ensures lines != []
  {
    if text == "" then [""]
    else
      var rest := Split(text[1..]);
      if text[0] == '\n' then [""] + rest else [[text[0]] + rest[0]] + rest[1..]
  }

  function Unsplit(lines: seq<string>): string
    requires lines != []
  {
    if |lines| == 1 then lines[0] else lines[0] + "\n" + Unsplit(lines[1..])
  }

  /** Splitting loses nothing, and no line holds a line break. */
  lemma {:induction false} SplitIsExact(text: string)
    ensures Unsplit(Split(text)) == text && forall l | l in Split(text) :: '\n' !in l
  {
    if text != "" {
      SplitIsExact(text[1..]);
      var rest := Split(text[1..]);
      assert text == [text[0]] + text[1..];
      if text[0] == '\n' {
        assert ([""] + rest)[1..] == rest;
      } else {
        var lines := [[text[0]] + rest[0]] + rest[1..];
        assert lines[1..] == rest[1..];
        assert rest[0] in rest;
        forall l | l in lines ensures '\n' !in l {
          assert l == lines[0] || l in rest;
        }
      }
    }
  }

  predicate Plain(s: string) {
    forall c | c in s :: ' ' <= c <= '~'
  }

  /** One character in plain ASCII; `printable` is the Unicode class of all others. */
  function Ascii(c: char, printable: char -> bool): (s: string)
    ensures Plain(s) && s != ""
  {
    if c == '\t' then "    "
    else if ' ' <= c <= '~' then [c]
    else if c == '\U{E4}' then "ae" else if c == '\U{C4}' then "Ae"
    else if c == '\U{F6}' then "oe" else if c == '\U{D6}' then "Oe"
    else if c == '\U{FC}' then "ue" else if c == '\U{DC}' then "Ue"
    else if c == '\U{DF}' then "ss"
    else if printable(c) then "?" else " "
  }

  function Normalized(s: string, printable: char -> bool): (t: string)
    ensures Plain(t) && (t == "" <==> s == "")
  {
    if s == "" then "" else Normalized(s[..|s| - 1], printable) + Ascii(s[|s| - 1], printable)
  }

  // ---- wrapping ----

  function TrimRight(s: string): (t: string)
    ensures t <= s
  {
    if s != "" && s[|s| - 1] == ' ' then TrimRight(s[..|s| - 1]) else s
  }

  function TrimLeft(s: string): (t: string)
    ensures |t| <= |s|
  {
    if s != "" && s[0] == ' ' then TrimLeft(s[1..]) else s
  }

  /** Where a line that is too long is cut: after the last blank of the second half of the first
      `max` characters, or after all of them. */
  function SplitAt(line: string, max: nat, i: nat): (n: nat)
    requires max < |line| && max / 2 <= i <= max
    ensures n <= max && (max > 0 ==> n > 0)
    decreases i
  {
    if i <= max / 2 then max
    else if line[i - 1] == ' ' then i
    else SplitAt(line, max, i - 1)
  }

  /** A word is only broken when the second half of the width holds no blank; otherwise the cut is
      at the last blank there. */
  lemma {:induction false} CutsAtLastBlank(line: string, max: nat, i: nat)
    requires 0 < max < |line| && max / 2 <= i <= max && forall k | i <= k < max :: line[k] != ' '
    ensures var n := SplitAt(line, max, i);
      if exists k :: max / 2 <= k < max && line[k] == ' '
      then max / 2 < n && line[n - 1] == ' ' && forall k | n <= k < max :: line[k] != ' '
      else n == max
    decreases i
  {
    if i > max / 2 && line[i - 1] != ' ' {
      CutsAtLastBlank(line, max, i - 1);
    }
  }

  function Left(line: string, max: nat): string
    requires max < |line|
  {
    TrimRight(line[..SplitAt(line, max, max)])
  }

  function Right(line: string, max: nat): string
    requires max < |line|
  {
    TrimLeft(line[SplitAt(line, max, max)..])
  }

  /** The wrapping of one line. */
  function Wrapped(line: string, max: nat): (parts: seq<string>)
    requires max > 0
    ensures parts != []
    decreases |line|
  {
    if |line| <= max then [line] else [Left(line, max)] + Wrapped(Right(line, max), max)
  }

  function Blanks(n: nat): (s: string)
    ensures |s| == n && forall c | c in s :: c == ' '
  {
    seq(n, _ => ' ')
  }

  lemma {:induction false} TrimmedRight(s: string) returns (n: nat)
    ensures s == TrimRight(s) + Blanks(n)
  {
    n := 0;
    if s != "" && s[|s| - 1] == ' ' {
      n := TrimmedRight(s[..|s| - 1]);
      assert s == TrimRight(s) + (Blanks(n) + [' ']);
      assert Blanks(n) + [' '] == Blanks(n + 1);
      n := n + 1;
    }
  }

  lemma {:induction false} TrimmedLeft(s: string) returns (n: nat)
    ensures s == Blanks(n) + TrimLeft(s)
  {
    n := 0;
    if s != "" && s[0] == ' ' {
      n := TrimmedLeft(s[1..]);
      assert s == [' '] + (Blanks(n) + TrimLeft(s));
      assert [' '] + Blanks(n) == Blanks(n + 1);
      n := n + 1;
    }
  }

  lemma OneCut(line: string, max: nat) returns (gap: nat)
    requires 0 < max < |line|
    ensures line == Left(line, max) + Blanks(gap) + Right(line, max) && |Left(line, max)| <= max
  {
    var n := SplitAt(line, max, max);
    var a := TrimmedRight(line[..n]);
    var b := TrimmedLeft(line[n..]);
    gap := a + b;
    assert Blanks(a) + Blanks(b) == Blanks(gap);
    assert line == line[..n] + line[n..];
  }

  /** The parts with blanks between them. */
  function Glued(parts: seq<string>, gaps: seq<nat>): string
    requires parts != [] && |gaps| == |parts| - 1
  {
    if |parts| == 1 then parts[0] else parts[0] + Blanks(gaps[0]) + Glued(parts[1..], gaps[1..])
  }

  /** Every part fits the width, and putting the dropped blanks back gives the line. */
  lemma {:induction false} WrappingDropsOnlyBlanks(line: string, max: nat) returns (gaps: seq<nat>)
    requires max > 0
    ensures forall p | p in Wrapped(line, max) :: |p| <= max
    ensures |gaps| == |Wrapped(line, max)| - 1 && Glued(Wrapped(line, max), gaps) == line
    decreases |line|
  {
    gaps := [];
    if |line| > max {
      var gap := OneCut(line, max);
      gaps := WrappingDropsOnlyBlanks(Right(line, max), max);
      var rest := Wrapped(Right(line, max), max);
      assert ([Left(line, max)] + rest)[1..] == rest && ([gap] + gaps)[1..] == gaps;
      gaps := [gap] + gaps;
    }
  }

  // ---- literal strings ----

  function Escape(s: string): string {
    if s == "" then ""
    else (if s[0] == '\\' || s[0] == '(' || s[0] == ')' then ['\\', s[0]] else [s[0]]) + Escape(s[1..])
  }

  datatype Literal = Bad | Literal(text: string, rest: string)

  /** A literal string after its opening parenthesis; `depth` counts the open inner ones.  Escapes
      other than of the three characters do not occur in what the writer writes. */
  function ReadLiteral(s: string, depth: nat): Literal {
    if s == "" then Bad
    else if s[0] == '\\' then
      if |s| < 2 then Bad else Prefixed(s[1], ReadLiteral(s[2..], depth))
    else if s[0] == '(' then Prefixed('(', ReadLiteral(s[1..], depth + 1))
    else if s[0] == ')' then
      if depth == 0 then Literal("", s[1..]) else Prefixed(')', ReadLiteral(s[1..], depth - 1))
    else Prefixed(s[0], ReadLiteral(s[1..], depth))
  }

  function Prefixed(c: char, l: Literal): Literal {
    if l.Bad? then Bad else Literal([c] + l.text, l.rest)
  }

  /** An escaped line is read back, and reading ends exactly at its closing parenthesis. */
  lemma {:induction false} EscapeReadsBack(s: string, rest: string)
    ensures ReadLiteral(Escape(s) + ")" + rest, 0) == Literal(s, rest)
  {
    if s == "" {
      assert Escape(s) + ")" + rest == ")" + rest && (")" + rest)[1..] == rest;
    } else {
      var head := if s[0] == '\\' || s[0] == '(' || s[0] == ')' then ['\\', s[0]] else [s[0]];
      var tail := Escape(s[1..]) + ")" + rest;
      assert Escape(s) + ")" + rest == head + tail;
      assert (head + tail)[|head|..] == tail;
      EscapeReadsBack(s[1..], rest);
      assert [s[0]] + s[1..] == s;
    }
  }
}
