/** personExpressionSQL as it runs: texts and arguments are appended in loops and joined at the
    end. */
module PersonFilterCompiler {
  import opened SqlText
  import opened PersonFilters

  function Texts(parts: seq<Part>): (t: seq<Text>)
    ensures |t| == |parts|
  {
    seq(|parts|, i requires 0 <= i < |parts| => parts[i].text)
  }

  function AllArgs(parts: seq<Part>): Args {
    if parts == [] then [] else AllArgs(parts[..|parts| - 1]) + parts[|parts| - 1].args
  }

  lemma Appended(parts: seq<Part>, p: Part)
    ensures Texts(parts + [p]) == Texts(parts) + [p.text] && AllArgs(parts + [p]) == AllArgs(parts) + p.args
  {
    assert (parts + [p])[..|parts|] == parts;
  }

  lemma {:induction false} JoinedArgs(parts: seq<Part>, level: nat)
    requires parts != []
    ensures Joined(parts, level).args == AllArgs(parts)
    decreases |parts|
  {
    if |parts| == 1 {
      assert AllArgs(parts[..0]) == [];
    } else {
      var init, last := parts[..|parts| - 1], parts[|parts| - 1];
      assert parts == init + [last];
      JoinedArgs(init, level);
      JoinedSnoc(init, last, level);
    }
  }

  /** strings.Join. */
  method Join(texts: seq<Text>, level: nat, ghost parts: seq<Part>) returns (t: Text)
    requires texts != [] && texts == Texts(parts)
    ensures t == Joined(parts, level).text
  {
    t := texts[0];
    assert parts[..1] == [parts[0]];
    for i := 1 to |texts|
      invariant t == Joined(parts[..i], level).text
    {
      t := t + [Joiner(level)] + texts[i];
      assert parts[..i + 1] == parts[..i] + [parts[i]];
      JoinedSnoc(parts[..i], parts[i], level);
    }
    assert parts[..|texts|] == parts;
  }

  /** appendIndexTermWhere. */
  method AppendIndexTermWhere(t: Term) returns (conditions: seq<Text>, args: Args)
    ensures conditions == Texts(Conditions(t)) && args == AllArgs(Conditions(t))
  {
    conditions, args := [], [];
    if t.field.Tag? {
      if t.negated && |t.field.tags| == 0 {
        assert AllArgs([Part([Number(0)], [])][..0]) == [];
        return [[Number(0)]], [];
      }
      for i := 0 to |t.field.tags|
        invariant conditions == Texts(Conditions(t)[..i]) && args == AllArgs(Conditions(t)[..i])
      {
        assert Conditions(t)[..i + 1] == Conditions(t)[..i] + [TagPart(t.field.tags[i], t.negated)];
        Appended(Conditions(t)[..i], TagPart(t.field.tags[i], t.negated));
        conditions := conditions + [[Leaf(if t.negated then LacksTag else HasTag)]];
        args := args + [t.field.tags[i]];
      }
      assert Conditions(t)[..|t.field.tags|] == Conditions(t);
    } else if Plain(t.field).Some? {
      var p := Signed(Plain(t.field).value, t.negated);
      assert Conditions(t) == [p] && [p][..0] == [];
      conditions, args := [p.text], p.args;
    }
  }

  method TermSQL(t: Term) returns (ok: bool, text: Text, args: Args)
    ensures TermSql(t) == if ok then Some(Part(text, args)) else None
  {
    ok, text, args := t.sql, [], [];
    if !ok {
      return;
    }
    var conditions;
    conditions, args := AppendIndexTermWhere(t);
    ok := |conditions| > 0;
    if ok {
      JoinedArgs(Conditions(t), 4);
      var joined := Join(conditions, 4, Conditions(t));
      text := [Open] + joined + [Close];
    }
  }

  method NodeSQL(n: Node) returns (ok: bool, text: Text, args: Args)
    ensures NodeSql(n) == if ok then Some(Part(text, args)) else None
  {
    if n.nOf == 0 {
      ok, text, args := TermSQL(n.term);
      return;
    }
    var counts: seq<Text> := [];
    ok, text, args := true, [], [];
    ghost var parts: seq<Part> := [];
    for i := 0 to |n.terms|
      invariant ok && Counts(n.terms[..i]) == Some(parts)
      invariant counts == Texts(parts) && args == AllArgs(parts)
    {
      assert n.terms[..i + 1][..i] == n.terms[..i];
      var sql, a;
      ok, sql, a := TermSQL(n.terms[i]);
      if !ok {
        CountsFail(n.terms, i + 1);
        return;
      }
      Appended(parts, Counted(Part(sql, a)));
      parts := parts + [Counted(Part(sql, a))];
      counts := counts + [[Case, When] + sql + [Then, Number(1), Else, Number(0), End]];
      args := args + a;
    }
    assert n.terms[..|n.terms|] == n.terms;
    ok := |counts| > 0;
    if ok {
      JoinedArgs(parts, 1);
      var sum := Join(counts, 1, parts);
      text := [Open] + sum + [AtLeast, Number(n.nOf)] + [Close];
    }
  }

  /** One failing term fails the whole. */
  lemma {:induction false} CountsFail(terms: seq<Term>, i: nat)
    requires i <= |terms| && Counts(terms[..i]).None?
    ensures Counts(terms).None?
    decreases |terms|
  {
    if i < |terms| {
      assert terms[..|terms| - 1][..i] == terms[..i];
      CountsFail(terms[..|terms| - 1], i);
    } else {
      assert terms[..i] == terms;
    }
  }

  method GroupSQL(group: seq<Node>) returns (ok: bool, text: Text, args: Args)
    ensures GroupSql(group) == if ok then Some(Part(text, args)) else None
  {
    var conditions: seq<Text> := [];
    ok, text, args := true, [], [];
    ghost var parts: seq<Part> := [];
    for i := 0 to |group|
      invariant ok && Nodes(group[..i]) == Some(parts)
      invariant conditions == Texts(parts) && args == AllArgs(parts)
    {
      assert group[..i + 1][..i] == group[..i];
      if !group[i].skip {
        var sql, a;
        ok, sql, a := NodeSQL(group[i]);
        if !ok {
          NodesFail(group, i + 1);
          return;
        }
        Appended(parts, Part(sql, a));
        parts := parts + [Part(sql, a)];
        conditions := conditions + [sql];
        args := args + a;
      }
    }
    assert group[..|group|] == group;
    ok := |conditions| > 0;
    if ok {
      JoinedArgs(parts, 4);
      var joined := Join(conditions, 4, parts);
      text := [Open] + joined + [Close];
    }
  }

  lemma {:induction false} NodesFail(group: seq<Node>, i: nat)
    requires i <= |group| && Nodes(group[..i]).None?
    ensures Nodes(group).None?
    decreases |group|
  {
    if i < |group| {
      assert group[..|group| - 1][..i] == group[..i];
      NodesFail(group[..|group| - 1], i);
    } else {
      assert group[..i] == group;
    }
  }

  /** Text and arguments of the whole expression, or failure when any part cannot be translated. */
  method PersonExpressionSQL(e: Expression) returns (ok: bool, text: Text, args: Args)
    ensures ExpressionSql(e) == if ok then Some(Part(text, args)) else None
  {
    var groups: seq<Text> := [];
    ok, text, args := true, [], [];
    ghost var parts: seq<Part> := [];
    for i := 0 to |e|
      invariant ok && Groups(e[..i]) == Some(parts)
      invariant groups == Texts(parts) && args == AllArgs(parts)
    {
      assert e[..i + 1][..i] == e[..i];
      var sql, a;
      ok, sql, a := GroupSQL(e[i]);
      if !ok {
        GroupsFail(e, i + 1);
        return;
      }
      Appended(parts, Part(sql, a));
      parts := parts + [Part(sql, a)];
      groups := groups + [sql];
      args := args + a;
    }
    assert e[..|e|] == e;
    ok := |groups| > 0;
    if ok {
      JoinedArgs(parts, 5);
      var joined := Join(groups, 5, parts);
      text := [Open] + joined + [Close];
    }
  }

  lemma {:induction false} GroupsFail(e: Expression, i: nat)
    requires i <= |e| && Groups(e[..i]).None?
    ensures Groups(e).None?
    decreases |e|
  {
    if i < |e| {
      assert e[..|e| - 1][..i] == e[..i];
      GroupsFail(e[..|e| - 1], i);
    } else {
      assert e[..i] == e;
    }
  }

  // ---- when an expression can be translated ----

  predicate NodeTranslatable(n: Node) {
    if n.nOf == 0 then Translatable(n.term) else n.terms != [] && forall t | t in n.terms :: Translatable(t)
  }

  lemma {:induction false} CountsExist(terms: seq<Term>)
    ensures Counts(terms).Some? <==> forall t | t in terms :: Translatable(t)
    decreases |terms|
  {
    if terms != [] {
      var init, last := terms[..|terms| - 1], terms[|terms| - 1];
      assert terms == init + [last] && last in terms;
      CountsExist(init);
      assert TermSql(last).Some? <==> Translatable(last);
    }
  }

  lemma {:induction false} NodesExist(group: seq<Node>)
    ensures Nodes(group).Some? <==> forall n | n in group && !n.skip :: NodeTranslatable(n)
    ensures Nodes(group).Some? ==> (Nodes(group).value == [] <==> forall n | n in group :: n.skip)
    decreases |group|
  {
    if group != [] {
      var init, last := group[..|group| - 1], group[|group| - 1];
      assert group == init + [last];
      NodesExist(init);
      CountsExist(last.terms);
      assert NodeSql(last).Some? <==> NodeTranslatable(last);
    }
  }

  predicate GroupTranslatable(group: seq<Node>) {
    (exists n | n in group :: !n.skip) && forall n | n in group && !n.skip :: NodeTranslatable(n)
  }

  /** The compiler succeeds exactly when there is a group and every group has something to say that
      can be said in SQL. */
  lemma {:induction false} TranslatesExactly(e: Expression)
    ensures Groups(e).Some? <==> forall g | g in e :: GroupTranslatable(g)
    ensures ExpressionSql(e).Some? <==> e != [] && forall g | g in e :: GroupTranslatable(g)
    decreases |e|
  {
    if e != [] {
      var init, last := e[..|e| - 1], e[|e| - 1];
      assert e == init + [last];
      TranslatesExactly(init);
      NodesExist(last);
      assert GroupSql(last).Some? <==> GroupTranslatable(last);
    }
  }
}
