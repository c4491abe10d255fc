/** Compiling a search expression over people to one SQL condition with positional arguments. */
module PersonFilters {
  import opened SqlText

  datatype Bound = Bound(op: string, threshold: string)

  /** A search term after its value has been cleaned and resolved. */
  datatype Field =
    | Person(pattern: string)
    | MediaType(kind: Option<string>)
    | Gps(falsey: bool)
    | Directory(folder: Option<string>)
    | FileName(pattern: string)
    | Year(first: string, next: string)
    | DatePrefix(pattern: string)
    | Orientation(value: string)
    | Resolution(bound: Option<Bound>)
    | Tag(tags: seq<string>)
    | OtherField

  datatype Term = Term(field: Field, negated: bool, sql: bool)

  /** `nOf` > 0 asks for that many of `terms`. */
  datatype Node = Node(skip: bool, nOf: nat, terms: seq<Term>, term: Term)

  type Expression = seq<seq<Node>>

  datatype Part = Part(text: Text, args: Args)

  // ---- terms ----

  /** The condition of a term without its sign; none for values that mean nothing. */
  function Plain(f: Field): Option<Part> {
    match f
    case Person(p) => Some(Part([Leaf(PersonLike)], [p, p]))
    case MediaType(k) => if k.None? then None else Some(Part([Leaf(TypeIs)], [k.value]))
    case Gps(falsey) =>
      if falsey then Some(Part([Open, Leaf(LatitudeNull), Or, Leaf(LongitudeNull), Close], []))
      else Some(Part([Leaf(LatitudeSet), And, Leaf(LongitudeSet)], []))
    case Directory(d) => if d.None? then None else Some(Part([Leaf(DirectoryLike)], [d.value]))
    case FileName(p) => Some(Part([Leaf(NameLike)], [p]))
    case Year(first, next) => Some(Part([Leaf(DateFrom), And, Leaf(DateBefore)], [first, next]))
    case DatePrefix(p) => Some(Part([Leaf(DateLike)], [p]))
    case Orientation(v) => Some(Part([Leaf(OrientationIs)], [v]))
    case Resolution(b) =>
      if b.None? then None
      else Some(Part([Leaf(WidthPositive), And, Leaf(HeightPositive), And, Leaf(PixelsCompare(b.value.op))],
        [b.value.threshold]))
    case Tag(_) => None
    case OtherField => None
  }

  function Signed(p: Part, negated: bool): Part {
    if negated then Part([Not, Open] + p.text + [Close], p.args) else p
  }

  function TagPart(tag: string, negated: bool): Part {
    Part([Leaf(if negated then LacksTag else HasTag)], [tag])
  }

  /** What appendIndexTermWhere appends. */
  function Conditions(t: Term): seq<Part> {
    if t.field.Tag? then
      if t.negated && t.field.tags == [] then [Part([Number(0)], [])]
      else seq(|t.field.tags|, i requires 0 <= i < |t.field.tags| => TagPart(t.field.tags[i], t.negated))
    else match Plain(t.field)
      case None => []
      case Some(p) => [Signed(p, t.negated)]
  }

  // ---- joining ----

  function Joined(parts: seq<Part>, level: nat): Part
    requires parts != []
  {
    if |parts| == 1 then parts[0]
    else
      var rest := Joined(parts[1..], level);
      Part(parts[0].text + [Joiner(level)] + rest.text, parts[0].args + rest.args)
  }

  function Folded(values: seq<Value>, level: nat): Value
    requires values != []
  {
    if |values| == 1 then values[0] else Combine(level, values[0], Folded(values[1..], level))
  }

  function Parenthesised(p: Part): Part {
    Part([Open] + p.text + [Close], p.args)
  }

  lemma {:induction false} JoinedMeans(parts: seq<Part>, values: seq<Value>, level: nat, row: Row)
    requires |parts| == |values| > 0 && (level == 1 || level == 4 || level == 5)
    requires forall i | 0 <= i < |parts| :: Means(level - 1, parts[i].text, parts[i].args, row, values[i])
    ensures Means(level, Joined(parts, level).text, Joined(parts, level).args, row, Folded(values, level))
    decreases |parts|
  {
    if |parts| == 1 {
      Levels(level - 1, parts[0].text, parts[0].args, row, values[0]);
    } else {
      JoinedMeans(parts[1..], values[1..], level, row);
      var rest := Joined(parts[1..], level);
      JoinMeans(level, parts[0].text, parts[0].args, values[0], rest.text, rest.args, Folded(values[1..], level), row);
    }
  }

  /** Appending one more part, as a loop does. */
  lemma {:induction false} JoinedSnoc(parts: seq<Part>, p: Part, level: nat)
    requires parts != []
    ensures Joined(parts + [p], level)
      == Part(Joined(parts, level).text + [Joiner(level)] + p.text, Joined(parts, level).args + p.args)
    decreases |parts|
  {
    if |parts| == 1 {
      assert (parts + [p])[1..] == [p];
    } else {
      JoinedSnoc(parts[1..], p, level);
      assert (parts + [p])[1..] == parts[1..] + [p];
      var rest := Joined(parts[1..], level);
      assert parts[0].text + [Joiner(level)] + (rest.text + [Joiner(level)] + p.text)
        == parts[0].text + [Joiner(level)] + rest.text + [Joiner(level)] + p.text;
      assert parts[0].args + (rest.args + p.args) == parts[0].args + rest.args + p.args;
    }
  }

  // ---- compilation ----

  function TermSql(t: Term): Option<Part> {
    if !t.sql || Conditions(t) == [] then None else Some(Parenthesised(Joined(Conditions(t), 4)))
  }

  function Counted(p: Part): Part {
    Part([Case, When] + p.text + [Then, Number(1), Else, Number(0), End], p.args)
  }

  /** The counted terms; none if one of them cannot be translated. */
  function Counts(terms: seq<Term>): (r: Option<seq<Part>>)
    ensures r.Some? ==> |r.value| == |terms|
  {
    if terms == [] then Some([])
    else
      var init, last := Counts(terms[..|terms| - 1]), TermSql(terms[|terms| - 1]);
      if init.None? || last.None? then None else Some(init.value + [Counted(last.value)])
  }

  function NodeSql(n: Node): Option<Part> {
    if n.nOf == 0 then TermSql(n.term)
    else
      var counts := Counts(n.terms);
      if counts.None? || counts.value == [] then None
      else
        var sum := Joined(counts.value, 1);
        Some(Part([Open] + sum.text + [AtLeast, Number(n.nOf)] + [Close], sum.args))
  }

  function Nodes(group: seq<Node>): Option<seq<Part>> {
    if group == [] then Some([])
    else
      var init, last := Nodes(group[..|group| - 1]), group[|group| - 1];
      if init.None? then None
      else if last.skip then init
      else if NodeSql(last).None? then None
      else Some(init.value + [NodeSql(last).value])
  }

  function GroupSql(group: seq<Node>): Option<Part> {
    var parts := Nodes(group);
    if parts.None? || parts.value == [] then None else Some(Parenthesised(Joined(parts.value, 4)))
  }

  function Groups(e: Expression): (r: Option<seq<Part>>)
    ensures r.Some? ==> |r.value| == |e|
  {
    if e == [] then Some([])
    else
      var init, last := Groups(e[..|e| - 1]), GroupSql(e[|e| - 1]);
      if init.None? || last.None? then None else Some(init.value + [last.value])
  }

  function ExpressionSql(e: Expression): Option<Part> {
    var parts := Groups(e);
    if parts.None? || parts.value == [] then None else Some(Parenthesised(Joined(parts.value, 5)))
  }

  // ---- meaning ----

  function PlainValue(f: Field, row: Row): Value
    requires Plain(f).Some?
  {
    match f
    case Person(p) => row(PersonLike, [p, p])
    case MediaType(k) => row(TypeIs, [k.value])
    case Gps(falsey) =>
      if falsey then Either(row(LatitudeNull, []), row(LongitudeNull, []))
        else Both(row(LatitudeSet, []), row(LongitudeSet, []))
    case Directory(d) => row(DirectoryLike, [d.value])
    case FileName(p) => row(NameLike, [p])
    case Year(first, next) => Both(row(DateFrom, [first]), row(DateBefore, [next]))
    case DatePrefix(p) => row(DateLike, [p])
    case Orientation(v) => row(OrientationIs, [v])
    case Resolution(b) =>
      Both(row(WidthPositive, []), Both(row(HeightPositive, []), row(PixelsCompare(b.value.op), [b.value.threshold])))
  }

  function TagValues(tags: seq<string>, negated: bool, row: Row): (v: seq<Value>)
    ensures |v| == |tags|
  {
    seq(|tags|, i requires 0 <= i < |tags| => row(if negated then LacksTag else HasTag, [tags[i]]))
  }

  /** The value of a term on a row: every tag of a list counts, a negated empty list never holds. */
  function TermValue(t: Term, row: Row): Value
    requires Conditions(t) != []
  {
    if t.field.Tag? then
      if t.field.tags == [] then Int(0) else Folded(TagValues(t.field.tags, t.negated, row), 4)
    else if t.negated then Negate(PlainValue(t.field, row)) else PlainValue(t.field, row)
  }

  predicate Translatable(t: Term) {
    t.sql && Conditions(t) != []
  }

  /** A term holds when its value is true, not when it is unknown. */
  predicate Holds(t: Term, row: Row) {
    Translatable(t) && IsTrue(TermValue(t, row))
  }

  function HowMany(terms: seq<Term>, row: Row): nat {
    if terms == [] then 0 else (if Holds(terms[0], row) then 1 else 0) + HowMany(terms[1..], row)
  }

  predicate NodeHolds(n: Node, row: Row) {
    if n.nOf == 0 then Holds(n.term, row) else HowMany(n.terms, row) >= n.nOf
  }

  /** The meaning of an expression: some group all of whose nodes hold, skipped ones aside. */
  ghost predicate Selects(e: Expression, row: Row) {
    exists g :: g in e && forall n | n in g && !n.skip :: NodeHolds(n, row)
  }
}
