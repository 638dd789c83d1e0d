/**
 How little the choice among the derivations of a text matters: every accepted derivation gives the
 parser's filter up to whitespace and two kinds of tests, and the same outcome where these agree.
 */
module FilterChoice {
  import opened Options
  import opened Text
  import opened Escaping
  import opened FilterTree
  import opened FilterGrammar
  import opened FilterParser
  import opened FilterNormal
  import opened FilterMeaning
  import opened FilterLanguage

  /** Whichever derivation of a text is taken, the filter is the parser's, up to whitespace and two kinds of tests. */
  lemma AnyChoice(d: StartD)
    requires WfStart(d) && TransformStart(d).Some?
    ensures var p := ParseStart(TextStart(d));
            && p.Some? && TransformStart(p.value).Some?
            && Settled(TransformStart(p.value).value) == Settled(TransformStart(d).value)
  {
    hide WfStart, TextStart, ParseStart, NormalStart, TransformStart, Settled;
    AcceptedIsEnclosed(d);
    var n := StartForm(d);
    ParseComplete(n);
  }

  /** Two comparisons that settle alike are equal to Python, and differ at most in one of the two choices. */
  lemma SettledAlike(c: Cmp, d: Cmp)
    requires c.escaped && d.escaped && SettledCmp(c) == SettledCmp(d)
    ensures c.SameAs(d) && c.raw == d.raw && Extra(c.kind) == Extra(d.kind)
    ensures c.kind == d.kind
            || ('*' !in c.raw && ((c.kind.Equality? && d.kind.Substring?) || (c.kind.Substring? && d.kind.Equality?)))
            || (c.kind.Extensible? && d.kind.Extensible? && c.attr != "" && IsDnWord(c.kind.dn + c.kind.rule))
  {
    SettledExtra(c);
    SettledExtra(d);
  }

  lemma SettledExtra(c: Cmp)
    ensures Extra(SettledKind(c)) == Extra(c.kind) && Symbol(SettledKind(c)) == Symbol(c.kind)
  {
    if c.kind.Extensible? {
      assert Colon("") + Colon(c.kind.rule) == Colon(c.kind.rule) + Colon("");
      assert c.kind.dn + "" == c.kind.dn && "" + c.kind.rule == c.kind.rule;
    }
  }

  /** An entry to which a starless substring test is an equality test, and a rule named dn the dn flag. */
  ghost predicate Indifferent(entry: Entry) {
    && (forall attr, raw :: '*' !in raw ==>
          entry(Test(Substring, attr, raw)) == entry(Test(Equality, attr, Unescape(raw))))
    && (forall attr, dn, v :: attr != "" && IsDnWord(dn) ==>
          entry(Test(Extensible("", dn), attr, v)) == entry(Test(Extensible(dn, ""), attr, v)))
  }

  /** On such an entry the outcome of a filter text does not depend on the derivation. */
  lemma ChoiceMeaning(d: StartD, d': StartD, entry: Entry)
    requires WfStart(d) && WfStart(d') && TextStart(d) == TextStart(d')
    requires TransformStart(d).Some? && TransformStart(d').Some? && Indifferent(entry)
    ensures Eval(TransformStart(d).value, entry) == Eval(TransformStart(d').value, entry)
  {
    hide WfStart, TextStart, ParseStart, TransformStart, Settled, Eval, Indifferent;
    AnyChoice(d);
    AnyChoice(d');
    StartEscaped(d);
    StartEscaped(d');
    SettledMeaning(TransformStart(d).value, entry);
    SettledMeaning(TransformStart(d').value, entry);
  }

  /** Every value of a parsed filter is in escaped form. */
  predicate Escaped(e: Expr) {
    match e
    case Leaf(c) => c.escaped
    case Tok(_) => true
    case Node(_, _, items) => AllEscaped(items)
  }

  predicate AllEscaped(items: seq<Expr>) {
    items == [] || (Escaped(items[0]) && AllEscaped(items[1..]))
  }

  lemma {:induction false} EscapedConcat(a: seq<Expr>, b: seq<Expr>)
    requires AllEscaped(a) && AllEscaped(b)
    ensures AllEscaped(a + b)
  {
    hide Escaped;
    if a == [] {
      assert a + b == b;
    } else {
      assert (a + b)[0] == a[0] && (a + b)[1..] == a[1..] + b;
      EscapedConcat(a[1..], b);
    }
  }

  lemma EscapedSurrounded(a: string, items: seq<Expr>, b: string)
    requires AllEscaped(items)
    ensures AllEscaped(Toks(a) + items + Toks(b))
  {
    assert a != "" ==> Toks(a)[1..] == [];
    assert b != "" ==> Toks(b)[1..] == [];
    EscapedConcat(Toks(a), items);
    EscapedConcat(Toks(a) + items, Toks(b));
  }

  lemma CmpEscaped(d: CmpD)
    requires TransformCmp(d).Some?
    ensures TransformCmp(d).value.escaped
  {
    hide TransformValue, HasDoubleStar;
  }

  lemma {:induction false} ItemEscaped(d: ItemD)
    requires TransformItem(d).Some?
    ensures Escaped(TransformItem(d).value)
    decreases d, 0
  {
    hide TransformCmp;
    match d
    case ExprD(_, cmp, _) => CmpEscaped(cmp);
    case OpD(_, _, ld, groups, tr) =>
      GroupsEscaped(groups);
      EscapedSurrounded(ld, TransformGroups(groups).value, tr);
  }

  lemma {:induction false} GroupsEscaped(gs: seq<GroupD>)
    requires TransformGroups(gs).Some?
    ensures AllEscaped(TransformGroups(gs).value)
    decreases gs, 0
  {
    hide TransformItem, Escaped;
    if gs != [] {
      ItemEscaped(gs[0].item);
      GroupsEscaped(gs[1..]);
      var e := TransformItem(gs[0].item).value;
      assert [e][1..] == [];
      EscapedSurrounded(gs[0].ws1, [e], gs[0].ws2);
      EscapedConcat(Toks(gs[0].ws1) + [e] + Toks(gs[0].ws2), TransformGroups(gs[1..]).value);
    }
  }

  lemma StartEscaped(d: StartD)
    requires TransformStart(d).Some?
    ensures Escaped(TransformStart(d).value)
  {
    hide TransformCmp, TransformItem, Escaped;
    match d
    case TopD(g) =>
      ItemEscaped(g.item);
      var e := TransformItem(g.item).value;
      OneEscaped(Bracketed, e);
      OneEscaped(Plain, if e.Leaf? then Node(Bracketed, "", [e]) else e);
    case BareD(cmp) =>
      CmpEscaped(cmp);
      var e := Leaf(TransformCmp(cmp).value);
      LeafEscaped(e);
      OneEscaped(Plain, e);
      OneEscaped(Plain, Node(Plain, "", [e]));
  }

  lemma LeafEscaped(e: Expr)
    requires e.Leaf? && e.cmp.escaped
    ensures Escaped(e)
  {
  }

  lemma OneEscaped(cls: Cls, e: Expr)
    requires Escaped(e)
    ensures Escaped(Node(cls, "", [e]))
  {
    hide Escaped;
    assert [e][1..] == [];
    assert AllEscaped([e]);
    NodeEscaped(cls, [e]);
  }

  lemma NodeEscaped(cls: Cls, items: seq<Expr>)
    requires AllEscaped(items)
    ensures Escaped(Node(cls, "", items))
  {
  }

  lemma {:induction false} SettledMeaning(e: Expr, entry: Entry)
    requires Escaped(e) && Indifferent(entry)
    ensures Eval(Settled(e), entry) == Eval(e, entry)
    decreases e, 0
  {
    hide Combine, Unescape, SettledCmp, Indifferent;
    match e
    case Leaf(c) => SettledTest(c, entry);
    case Tok(_) =>
    case Node(_, _, items) => SettledMeanings(items, entry);
  }

  lemma {:induction false} SettledMeanings(items: seq<Expr>, entry: Entry)
    requires AllEscaped(items) && Indifferent(entry)
    ensures Evals(SettledItems(items), entry) == Evals(items, entry)
    decreases items, 0
  {
    hide Eval, Escaped, Indifferent;
    if items != [] {
      SettledMeaning(items[0], entry);
      SettledMeanings(items[1..], entry);
      SettledIsToken(items[0]);
      var rest := SettledItems(items[1..]);
      assert SettledItems(items) == (if items[0].Tok? then [] else [Settled(items[0])]) + rest;
      if items[0].Tok? {
        assert SettledItems(items) == rest;
      } else {
        assert SettledItems(items)[1..] == rest;
      }
    }
  }

  lemma SettledIsToken(e: Expr)
    ensures Settled(e).Tok? <==> e.Tok?
  {
  }

  lemma SettledTest(c: Cmp, entry: Entry)
    requires c.escaped && Indifferent(entry)
    ensures entry(TestOf(SettledCmp(c))) == entry(TestOf(c))
  {
    hide Unescape, IsDnWord;
  }

  /** The choices are real: one text, two accepted derivations, two different tests. */
  lemma ChoicesDiffer()
    ensures exists d, d' :: WfStart(d) && WfStart(d') && TextStart(d) == TextStart(d') == "a:dn:=b"
              && TransformStart(d).Some? && TransformStart(d').Some? && TransformStart(d) != TransformStart(d')
  {
    var v := ValueD("", "b", "");
    var d, d' := BareD(ExtD("a", "dn", "", v)), BareD(ExtD("a", "", "dn", v));
    assert IsValueText("b") by { assert AtomLength("b") == 1; }
    assert Stripped("b");
    assert TextStart(d) == "a" + ":dn" + "" + ":=" + "b" == "a:dn:=b";
    assert TextStart(d') == "a" + "" + ":dn" + ":=" + "b";
    assert TransformStart(d).Some? && TransformStart(d').Some?;
  }
}
