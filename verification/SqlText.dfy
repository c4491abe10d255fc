/** The SQL conditions the search builds, as token sequences with positional arguments, and what
    SQLite makes of them: precedence, three-valued logic, arguments bound from left to right. */
module SqlText {

  datatype Option<+T> = None | Some(value: T)

  /** The elementary conditions on a row of media_index. */
  datatype Cond =
    | PersonLike | TypeIs | LatitudeNull | LongitudeNull | LatitudeSet | LongitudeSet
    | DirectoryLike | NameLike | DateFrom | DateBefore | DateLike | OrientationIs
    | WidthPositive | HeightPositive | PixelsCompare(op: string) | HasTag | LacksTag

  /** How many placeholders a condition has. */
  function Arity(c: Cond): nat {
    match c
    case PersonLike => 2
    case LatitudeNull => 0
    case LongitudeNull => 0
    case LatitudeSet => 0
    case LongitudeSet => 0
    case WidthPositive => 0
    case HeightPositive => 0
    case _ => 1
  }

  datatype Token = Open | Close | And | Or | Not | Case | When | Then | Else | End | Plus | AtLeast | Number(n: int)
    | Leaf(c: Cond)

  type Text = seq<Token>

  type Args = seq<string>

  /** An SQL value; conditions are 1, 0 or NULL. */
  datatype Value = Int(n: int) | Null

  /** A row gives every elementary condition with bound arguments its value. */
  type Row = (Cond, Args) -> Value

  function Truth(b: bool): Value {
    Int(if b then 1 else 0)
  }

  predicate IsTrue(v: Value) {
    v.Int? && v.n != 0
  }

  predicate IsFalse(v: Value) {
    v.Int? && v.n == 0
  }

  function Both(a: Value, b: Value): Value {
    if IsFalse(a) || IsFalse(b) then Int(0) else if a.Null? || b.Null? then Null else Int(1)
  }

  function Either(a: Value, b: Value): Value {
    if IsTrue(a) || IsTrue(b) then Int(1) else if a.Null? || b.Null? then Null else Int(0)
  }

  function Negate(a: Value): Value {
    if a.Null? then Null else Truth(a.n == 0)
  }

  function Sum(a: Value, b: Value): Value {
    if a.Null? || b.Null? then Null else Int(a.n + b.n)
  }

  function Reaches(a: Value, n: int): Value {
    if a.Null? then Null else Truth(a.n >= n)
  }

  /** SQL's logic: AND is true when both are and false when one is, OR the other way round, NOT exchanges the two, and
      everything else is NULL; sums and comparisons with NULL are NULL. */
  lemma ThreeValued(a: Value, b: Value, n: int)
    ensures IsTrue(a) <==> a != Null && a != Int(0)
    ensures IsFalse(a) <==> a == Int(0)
    ensures IsTrue(Both(a, b)) <==> IsTrue(a) && IsTrue(b)
    ensures IsFalse(Both(a, b)) <==> IsFalse(a) || IsFalse(b)
    ensures IsTrue(Either(a, b)) <==> IsTrue(a) || IsTrue(b)
    ensures IsFalse(Either(a, b)) <==> IsFalse(a) && IsFalse(b)
    ensures IsTrue(Negate(a)) <==> IsFalse(a)
    ensures IsFalse(Negate(a)) <==> IsTrue(a)
    ensures a != Null && b != Null ==> Sum(a, b) == Int(a.n + b.n) && (IsTrue(Reaches(a, n)) <==> a.n >= n)
    ensures a == Null || b == Null ==> Sum(a, b) == Null
    ensures Reaches(Null, n) == Null
  {}

  // ---- evaluation of a text: OR, AND, NOT, >=, +, and primary expressions ----

  datatype Out = Out(value: Value, rest: Text, args: Args)

  function EvalOr(t: Text, a: Args, row: Row): (r: Option<Out>)
    ensures r.Some? ==> |r.value.rest| < |t|
    decreases |t|, 5
  {
    var l := EvalAnd(t, a, row);
    if l.None? || l.value.rest == [] || l.value.rest[0] != Or then l
    else
      var r := EvalOr(l.value.rest[1..], l.value.args, row);
      if r.None? then None else Some(r.value.(value := Either(l.value.value, r.value.value)))
  }

  function EvalAnd(t: Text, a: Args, row: Row): (r: Option<Out>)
    ensures r.Some? ==> |r.value.rest| < |t|
    decreases |t|, 4
  {
    var l := EvalNot(t, a, row);
    if l.None? || l.value.rest == [] || l.value.rest[0] != And then l
    else
      var r := EvalAnd(l.value.rest[1..], l.value.args, row);
      if r.None? then None else Some(r.value.(value := Both(l.value.value, r.value.value)))
  }

  function EvalNot(t: Text, a: Args, row: Row): (r: Option<Out>)
    ensures r.Some? ==> |r.value.rest| < |t|
    decreases |t|, 3
  {
    if t != [] && t[0] == Not then
      var r := EvalNot(t[1..], a, row);
      if r.None? then None else Some(r.value.(value := Negate(r.value.value)))
    else EvalCompare(t, a, row)
  }

  function EvalCompare(t: Text, a: Args, row: Row): (r: Option<Out>)
    ensures r.Some? ==> |r.value.rest| < |t|
    decreases |t|, 2
  {
    var l := EvalSum(t, a, row);
    if l.None? || l.value.rest == [] || l.value.rest[0] != AtLeast then l
    else if |l.value.rest| < 2 || !l.value.rest[1].Number? then None
    else Some(Out(Reaches(l.value.value, l.value.rest[1].n), l.value.rest[2..], l.value.args))
  }

  function EvalSum(t: Text, a: Args, row: Row): (r: Option<Out>)
    ensures r.Some? ==> |r.value.rest| < |t|
    decreases |t|, 1
  {
    var l := EvalPrimary(t, a, row);
    if l.None? || l.value.rest == [] || l.value.rest[0] != Plus then l
    else
      var r := EvalSum(l.value.rest[1..], l.value.args, row);
      if r.None? then None else Some(r.value.(value := Sum(l.value.value, r.value.value)))
  }

  function EvalPrimary(t: Text, a: Args, row: Row): (r: Option<Out>)
    ensures r.Some? ==> |r.value.rest| < |t|
    decreases |t|, 0
  {
    if t == [] then None
    else match t[0]
      case Number(n) => Some(Out(Int(n), t[1..], a))
      case Leaf(c) => if |a| < Arity(c) then None else Some(Out(row(c, a[..Arity(c)]), t[1..], a[Arity(c)..]))
      case Open =>
        var r := EvalOr(t[1..], a, row);
        if r.None? || r.value.rest == [] || r.value.rest[0] != Close then None
        else Some(r.value.(rest := r.value.rest[1..]))
      case Case =>
        if |t| < 2 || t[1] != When then None
        else
          var r := EvalOr(t[2..], a, row);
          if r.None? || |r.value.rest| < 5 || r.value.rest[0] != Then || !r.value.rest[1].Number?
            || r.value.rest[2] != Else
            || !r.value.rest[3].Number? || r.value.rest[4] != End then None
          else Some(r.value.(value := Int(if IsTrue(r.value.value) then r.value.rest[1].n else r.value.rest[3].n),
            rest := r.value.rest[5..]))
      case _ => None
  }

  // ---- what a fragment means wherever it stands ----

  /** The text after a fragment does not continue it at the given level. */
  predicate Ends(level: nat, rest: Text) {
    rest == [] || (
      && (level >= 1 ==> rest[0] != Plus)
      && (level >= 2 ==> rest[0] != AtLeast)
      && (level >= 4 ==> rest[0] != And)
      && (level >= 5 ==> rest[0] != Or))
  }

  function Eval(level: nat, t: Text, a: Args, row: Row): Option<Out> {
    if level == 0 then EvalPrimary(t, a, row)
    else if level == 1 then EvalSum(t, a, row)
    else if level == 2 then EvalCompare(t, a, row)
    else if level == 3 then EvalNot(t, a, row)
    else if level == 4 then EvalAnd(t, a, row)
    else EvalOr(t, a, row)
  }

  /** In every context that does not continue it, the fragment takes exactly its own arguments and
      yields `v`. */
  ghost predicate Means(level: nat, t: Text, a: Args, row: Row, v: Value) {
    forall rest, more | Ends(level, rest) :: Eval(level, t + rest, a + more, row) == Some(Out(v, rest, more))
  }

  lemma Levels(level: nat, t: Text, a: Args, row: Row, v: Value)
    requires Means(level, t, a, row, v) && level < 5
    requires level == 2 ==> t != [] && t[0] != Not
    ensures Means(level + 1, t, a, row, v)
  {
    forall rest, more | Ends(level + 1, rest)
      ensures Eval(level + 1, t + rest, a + more, row) == Some(Out(v, rest, more))
    {
      assert Ends(level, rest);
      assert Eval(level, t + rest, a + more, row) == Some(Out(v, rest, more));
    }
  }

  lemma LeafMeans(c: Cond, a: Args, row: Row)
    requires |a| == Arity(c)
    ensures Means(0, [Leaf(c)], a, row, row(c, a))
  {
    forall rest, more | Ends(0, rest)
      ensures Eval(0, [Leaf(c)] + rest, a + more, row) == Some(Out(row(c, a), rest, more))
    {
      assert (a + more)[..Arity(c)] == a && (a + more)[Arity(c)..] == more;
    }
  }

  lemma NumberMeans(n: int, row: Row)
    ensures Means(0, [Number(n)], [], row, Int(n))
  {
    forall rest, more | Ends(0, rest)
      ensures Eval(0, [Number(n)] + rest, [] + more, row) == Some(Out(Int(n), rest, more))
    {
      assert [] + more == more;
    }
  }

  lemma ParenMeans(t: Text, a: Args, row: Row, v: Value)
    requires Means(5, t, a, row, v)
    ensures Means(0, [Open] + t + [Close], a, row, v)
  {
    forall rest, more | Ends(0, rest)
      ensures Eval(0, [Open] + t + [Close] + rest, a + more, row) == Some(Out(v, rest, more))
    {
      assert ([Open] + t + [Close] + rest)[1..] == t + ([Close] + rest);
      assert Ends(5, [Close] + rest);
      assert Eval(5, t + ([Close] + rest), a + more, row) == Some(Out(v, [Close] + rest, more));
    }
  }

  lemma CaseEval(t: Text, tail: Text, a: Args, row: Row, v: Value, rest: Text)
    requires tail == [Then, Number(1), Else, Number(0), End]
    requires Eval(5, t + (tail + rest), a, row).Some?
    requires var r := Eval(5, t + (tail + rest), a, row).value; r.value == v && r.rest == tail + rest
    ensures var r := Eval(5, t + (tail + rest), a, row).value;
      Eval(0, [Case, When] + t + tail + rest, a, row) == Some(Out(Truth(IsTrue(v)), rest, r.args))
  {
    assert ([Case, When] + t + tail + rest)[2..] == t + (tail + rest);
    assert (tail + rest)[5..] == rest;
  }

  lemma CaseMeans(t: Text, a: Args, row: Row, v: Value)
    requires Means(5, t, a, row, v)
    ensures Means(0, [Case, When] + t + [Then, Number(1), Else, Number(0), End], a, row, Truth(IsTrue(v)))
  {
    var tail := [Then, Number(1), Else, Number(0), End];
    forall rest, more | Ends(0, rest)
      ensures Eval(0, [Case, When] + t + tail + rest, a + more, row) == Some(Out(Truth(IsTrue(v)), rest, more))
    {
      assert Ends(5, tail + rest);
      assert Eval(5, t + (tail + rest), a + more, row) == Some(Out(v, tail + rest, more));
      hide Eval;
      CaseEval(t, tail, a + more, row, v, rest);
    }
  }

  lemma NotMeans(t: Text, a: Args, row: Row, v: Value)
    requires Means(3, t, a, row, v)
    ensures Means(3, [Not] + t, a, row, Negate(v))
  {
    forall rest, more | Ends(3, rest)
      ensures Eval(3, [Not] + t + rest, a + more, row) == Some(Out(Negate(v), rest, more))
    {
      assert ([Not] + t + rest)[1..] == t + rest;
      assert Eval(3, t + rest, a + more, row) == Some(Out(v, rest, more));
    }
  }

  lemma ReachesMeans(t: Text, a: Args, row: Row, v: Value, n: int)
    requires Means(1, t, a, row, v)
    ensures Means(2, t + [AtLeast, Number(n)], a, row, Reaches(v, n))
  {
    forall rest, more | Ends(2, rest)
      ensures Eval(2, t + [AtLeast, Number(n)] + rest, a + more, row) == Some(Out(Reaches(v, n), rest, more))
    {
      assert t + [AtLeast, Number(n)] + rest == t + ([AtLeast, Number(n)] + rest);
      assert Ends(1, [AtLeast, Number(n)] + rest);
      assert Eval(1, t + ([AtLeast, Number(n)] + rest), a + more, row)
        == Some(Out(v, [AtLeast, Number(n)] + rest, more));
      assert ([AtLeast, Number(n)] + rest)[2..] == rest;
    }
  }

  /** The operator of a joining level. */
  function Joiner(level: nat): Token {
    if level == 1 then Plus else if level == 4 then And else Or
  }

  function Combine(level: nat, a: Value, b: Value): Value {
    if level == 1 then Sum(a, b) else if level == 4 then Both(a, b) else Either(a, b)
  }

  /** One operator of a joining level, between two fragments that are already evaluated. */
  lemma JoinEval(level: nat, t: Text, a: Args, v: Value, u: Text, b: Args, w: Value, rest: Text, more: Args, row: Row)
    requires level == 1 || level == 4 || level == 5
    requires Eval(level - 1, t, a, row) == Some(Out(v, [Joiner(level)] + u, b))
    requires Eval(level, u, b, row) == Some(Out(w, rest, more))
    ensures Eval(level, t, a, row) == Some(Out(Combine(level, v, w), rest, more))
  {
    hide Means;
    hide Ends;
    hide EvalPrimary;
    hide EvalCompare;
    assert ([Joiner(level)] + u)[1..] == u;
  }

  lemma JoinMeans(level: nat, t: Text, a: Args, v: Value, u: Text, b: Args, w: Value, row: Row)
    requires level == 1 || level == 4 || level == 5
    requires Means(level - 1, t, a, row, v) && Means(level, u, b, row, w)
    ensures Means(level, t + [Joiner(level)] + u, a + b, row, Combine(level, v, w))
  {
    hide Eval;
    hide Combine;
    forall rest, more | Ends(level, rest)
      ensures Eval(level, t + [Joiner(level)] + u + rest, a + b + more, row)
        == Some(Out(Combine(level, v, w), rest, more))
    {
      var tail := [Joiner(level)] + (u + rest);
      assert t + [Joiner(level)] + u + rest == t + tail && a + b + more == a + (b + more);
      assert Ends(level - 1, tail);
      assert Eval(level - 1, t + tail, a + (b + more), row) == Some(Out(v, tail, b + more));
      assert Eval(level, u + rest, b + more, row) == Some(Out(w, rest, more));
      JoinEval(level, t + tail, a + (b + more), v, u + rest, b + more, w, rest, more, row);
    }
  }
}
