/** Paths as text: the order SQLite compares them in, prefix ranges, parents. */
module PathText {

  /** Binary order of UTF-8 text, which is the order of code points. */
  predicate Less(s: string, t: string) {
    if t == "" then false
    else if s == "" then true
    else if s[0] != t[0] then s[0] < t[0]
    else Less(s[1..], t[1..])
  }

  predicate InRange(s: string, start: string, end: string) {
    !Less(s, start) && Less(s, end)
  }

  const REPLACEMENT := '\U{FFFD}'
  const BEFORE_SURROGATES := '\U{D7FF}'
  const LAST := '\U{10FFFF}'

  /** Incrementing a rune; converting an invalid rune to text gives the replacement character. */
  function NextRune(c: char): char {
    if c == BEFORE_SURROGATES || c == LAST then REPLACEMENT else (c as int + 1) as char
  }

  function PrefixRange(prefix: string): (string, string) {
    if prefix == "" then ("", [LAST])
    else (prefix, prefix[..|prefix| - 1] + [NextRune(prefix[|prefix| - 1])])
  }

  lemma {:induction false} RangeHoldsPrefixes(prefix: string, s: string)
    requires prefix != "" && prefix[|prefix| - 1] != BEFORE_SURROGATES && prefix[|prefix| - 1] != LAST
    ensures InRange(s, PrefixRange(prefix).0, PrefixRange(prefix).1) <==> prefix <= s
  {
    var end := PrefixRange(prefix).1;
    if |prefix| == 1 {
      assert end == [NextRune(prefix[0])] && NextRune(prefix[0]) as int == prefix[0] as int + 1;
      assert s != "" ==> !Less(s[1..], prefix[1..]) && !Less(s[1..], end[1..]);
    } else if s != "" && s[0] == prefix[0] {
      RangeHoldsPrefixes(prefix[1..], s[1..]);
      assert end[1..] == PrefixRange(prefix[1..]).1;
    } else {
      assert end[0] == prefix[0];
    }
  }

  lemma {:induction false} SameHead(init: string, a: string, b: string)
    ensures Less(init + a, init + b) == Less(a, b)
  {
    if init == "" {
      assert init + a == a && init + b == b;
    } else {
      SameHead(init[1..], a, b);
      assert (init + a)[1..] == init[1..] + a && (init + b)[1..] == init[1..] + b;
    }
  }

  /** The rune after U+D7FF that is not a surrogate sorts below the replacement character. */
  lemma SurrogatesLeak(init: string)
    ensures var prefix, s := init + [BEFORE_SURROGATES], init + ['\U{E000}'];
      InRange(s, PrefixRange(prefix).0, PrefixRange(prefix).1) && !(prefix <= s)
  {
    var prefix, s := init + [BEFORE_SURROGATES], init + ['\U{E000}'];
    SameHead(init, ['\U{E000}'], [BEFORE_SURROGATES]);
    SameHead(init, ['\U{E000}'], [REPLACEMENT]);
    EndOfRange(init, BEFORE_SURROGATES);
    assert prefix[|init|] != s[|init|];
  }

  lemma LastRuneExcluded(init: string)
    ensures var prefix := init + [LAST]; !InRange(prefix, PrefixRange(prefix).0, PrefixRange(prefix).1)
  {
    SameHead(init, [LAST], [REPLACEMENT]);
    EndOfRange(init, LAST);
  }

  lemma EndOfRange(init: string, last: char)
    ensures PrefixRange(init + [last]) == (init + [last], init + [NextRune(last)])
  {
    var prefix := init + [last];
    assert prefix[..|prefix| - 1] == init;
  }

  /** The interval holds exactly the strings with the prefix, unless its last rune has no valid
      successor. */
  lemma PrefixRangeIsExact(prefix: string)
    requires prefix != ""
    ensures (forall s :: InRange(s, PrefixRange(prefix).0, PrefixRange(prefix).1) <==> prefix <= s)
            <==> prefix[|prefix| - 1] != BEFORE_SURROGATES && prefix[|prefix| - 1] != LAST
  {
    var init, last := prefix[..|prefix| - 1], prefix[|prefix| - 1];
    assert prefix == init + [last];
    if last == BEFORE_SURROGATES {
      SurrogatesLeak(init);
    } else if last == LAST {
      LastRuneExcluded(init);
    } else {
      forall s ensures InRange(s, PrefixRange(prefix).0, PrefixRange(prefix).1) <==> prefix <= s {
        RangeHoldsPrefixes(prefix, s);
      }
    }
  }

  /** The text before the last slash, "" at the top. */
  function Parent(p: string): (d: string)
    ensures p == "" ==> d == ""
    ensures p != "" ==> |d| < |p|
  {
    if p == "" then ""
    else if p[|p| - 1] == '/' then p[..|p| - 1]
    else Parent(p[..|p| - 1])
  }

  function Base(p: string): string {
    if p == "" then ""
    else if p[|p| - 1] == '/' then ""
    else Base(p[..|p| - 1]) + [p[|p| - 1]]
  }

  /** Prepending a folder prepends it to the parent. */
  lemma {:induction false} ParentBelow(d: string, rest: string)
    requires '/' in rest
    ensures Parent(d + rest) == d + Parent(rest) && Base(d + rest) == Base(rest)
  {
    var p := d + rest;
    assert p[|p| - 1] == rest[|rest| - 1] && p[..|p| - 1] == d + rest[..|rest| - 1];
    if rest[|rest| - 1] != '/' {
      assert rest == rest[..|rest| - 1] + [rest[|rest| - 1]];
      ParentBelow(d, rest[..|rest| - 1]);
    }
  }

  lemma {:induction false} ParentBaseSplit(p: string)
    ensures '/' in p ==> p == Parent(p) + "/" + Base(p)
    ensures '/' !in p ==> Parent(p) == "" && Base(p) == p
  {
    if p != "" {
      assert p == p[..|p| - 1] + [p[|p| - 1]];
      if p[|p| - 1] != '/' {
        ParentBaseSplit(p[..|p| - 1]);
      }
    }
  }
}
