/**
 The meaning of a filter on an entry: the three-valued logic of section 4.5.1.7 of RFC 4511, with the
 empty conjunction true and the empty disjunction false as in section 2 of RFC 4526.
 */
module FilterMeaning {
  import opened Options
  import opened Text
  import opened Escaping
  import opened FilterTree
  import opened FilterGrammar
  import opened FilterRoundTrip

  datatype Truth = Yes | No | Unknown

  /** What a comparison asks of an entry. A substring test asks for its pattern, stars included. */
  datatype Test = Test(kind: Kind, attr: string, operand: string)

  function TestOf(c: Cmp): Test {
    Test(c.kind, c.attr, if c.kind == Substring then c.EscapedText() else c.Value())
  }

  /** An entry, seen through the outcome of every test. */
  type Entry = Test -> Truth

  function Negate(t: Truth): Truth {
    match t
    case Yes => No
    case No => Yes
    case Unknown => Unknown
  }

  function Conjoin(ts: seq<Truth>): Truth {
    if No in ts then No else if Unknown in ts then Unknown else Yes
  }

  function Disjoin(ts: seq<Truth>): Truth {
    if Yes in ts then Yes else if Unknown in ts then Unknown else No
  }

  function Combine(cls: Cls, ts: seq<Truth>): Truth {
    match cls
    case Or => Disjoin(ts)
    case Not => Negate(Conjoin(ts))
    case _ => Conjoin(ts)
  }

  function Eval(e: Expr, entry: Entry): Truth
    decreases e, 0
  {
    match e
    case Leaf(c) => entry(TestOf(c))
    case Tok(_) => Yes // not a child of anything that is evaluated
    case Node(cls, _, items) => Combine(cls, Evals(items, entry))
  }

  /** The outcomes of the children; whitespace tokens have none. */
  function Evals(items: seq<Expr>, entry: Entry): seq<Truth>
    decreases items, 0
  {
    if items == [] then []
    else (if items[0].Tok? then [] else [Eval(items[0], entry)]) + Evals(items[1..], entry)
  }

  // ----- printing and parsing keep the meaning -----

  lemma CanonTest(c: Cmp)
    requires c.escaped || Stripped(c.raw) || IsAscii(c.raw)
    ensures TestOf(CanonCmp(c)) == TestOf(c)
  {
    hide Stripped, IsAscii, Escape, Unescape, EscapeValue;
    CanonCmpValue(c);
  }

  lemma {:induction false} CanonMeaning(e: Expr, entry: Entry)
    requires Recovers(e)
    ensures Eval(Canon(e), entry) == Eval(e, entry)
    decreases e, 0
  {
    hide Stripped, IsAscii, TestOf, CanonCmp, Combine;
    match e
    case Leaf(c) => CanonTest(c);
    case Tok(_) =>
    case Node(_, _, items) => CanonMeanings(items, entry);
  }

  lemma {:induction false} CanonMeanings(items: seq<Expr>, entry: Entry)
    requires AllRecover(items)
    ensures Evals(CanonItems(items), entry) == Evals(items, entry)
    decreases items, 0
  {
    hide Recovers, Eval, Canon;
    if items != [] {
      CanonMeanings(items[1..], entry);
      if !items[0].Tok? {
        CanonMeaning(items[0], entry);
        CanonIsNoTok(items[0]);
        assert CanonItems(items)[1..] == CanonItems(items[1..]);
      } else {
        assert CanonItems(items) == CanonItems(items[1..]);
        assert Evals(items, entry) == Evals(items[1..], entry);
      }
    }
  }

  lemma CanonIsNoTok(e: Expr)
    requires !e.Tok?
    ensures !Canon(e).Tok?
  {
  }

  /** Whatever is sent as text means what the tree means. */
  lemma ParsePrintMeaning(root: Expr, entry: Entry)
    requires WfRoot(root) && NoSpace(root) && Recovers(root)
    ensures var f := ParseFilter(Print(Node(Plain, "", [root])));
            f.Some? && Eval(f.value, entry) == Eval(root, entry)
  {
    hide WfRoot, NoSpace, Recovers, ParseFilter, Print, Canon;
    ParsePrint(root);
    CanonMeaning(root, entry);
    SoleChild(Canon(root), entry);
    RootNoTok(root);
  }

  lemma RootNoTok(root: Expr)
    requires WfRoot(root)
    ensures !Canon(root).Tok?
  {
  }

  lemma SoleChild(e: Expr, entry: Entry)
    ensures !e.Tok? ==> Eval(Node(Plain, "", [e]), entry) == Eval(e, entry)
  {
    assert [e][1..] == [];
    assert !e.Tok? ==> Evals([e], entry) == [Eval(e, entry)];
  }

  // ----- keeping the last of equal comparisons -----

  /** A comparison with an equal one behind it. */
  predicate Dropped(cs: seq<Option<Cmp>>, i: int)
    requires 0 <= i < |cs|
  {
    cs[i].Some? && exists j :: i < j < |cs| && cs[j].Some? && cs[i].value.SameAs(cs[j].value)
  }

  /** Of the first n things, those that are not dropped; cs holds the comparisons among them. */
  function Keep<T>(xs: seq<T>, cs: seq<Option<Cmp>>, n: nat): (r: seq<T>)
    requires n <= |xs| == |cs|
    ensures |r| <= n
  {
    if n == 0 then []
    else Keep(xs, cs, n - 1) + if Dropped(cs, n - 1) then [] else [xs[n - 1]]
  }

  function KeepLast<T>(xs: seq<T>, cs: seq<Option<Cmp>>): seq<T>
    requires |xs| == |cs|
  {
    Keep(xs, cs, |xs|)
  }

  /** Every equality class keeps its last member. */
  lemma {:induction false} LastIsKept(cs: seq<Option<Cmp>>, i: nat) returns (k: nat)
    requires i < |cs|
    ensures i <= k < |cs| && !Dropped(cs, k)
    ensures k != i ==> cs[i].Some? && cs[k].Some? && cs[i].value.SameAs(cs[k].value)
    decreases |cs| - i
  {
    if Dropped(cs, i) {
      var j :| i < j < |cs| && cs[j].Some? && cs[i].value.SameAs(cs[j].value);
      k := LastIsKept(cs, j);
    } else {
      k := i;
    }
  }

  lemma {:induction false} KeepMember<T>(xs: seq<T>, cs: seq<Option<Cmp>>, n: nat, x: T)
    requires n <= |xs| == |cs|
    ensures x in Keep(xs, cs, n) <==> exists i :: 0 <= i < n && xs[i] == x && !Dropped(cs, i)
  {
    if n > 0 {
      KeepMember(xs, cs, n - 1, x);
    }
  }

  /**
   Of different things, what is left: all but the comparisons that have one behind them with the same
   attribute, decoded value and printed sign.
   */
  lemma KeptExactly<T>(xs: seq<T>, cs: seq<Option<Cmp>>, i: nat)
    requires i < |xs| == |cs| && forall j, k :: 0 <= j < k < |xs| ==> xs[j] != xs[k]
    ensures xs[i] !in KeepLast(xs, cs) <==>
              cs[i].Some? && exists j :: i < j < |cs| && cs[j].Some? && cs[i].value.attr == cs[j].value.attr
                                && cs[i].value.Value() == cs[j].value.Value()
                                && Symbol(cs[i].value.kind) == Symbol(cs[j].value.kind)
  {
    hide Cmp.Value, Symbol;
    KeepMember(xs, cs, |xs|, xs[i]);
  }

  /** One of each kind is left: behind every comparison, or in its place, one that agrees with it in the three. */
  lemma AgreesWithKept(cs: seq<Option<Cmp>>, i: nat) returns (k: nat)
    requires i < |cs| && cs[i].Some?
    ensures i <= k < |cs| && cs[k].Some? && cs[k] in KeepLast(cs, cs)
    ensures cs[k].value.attr == cs[i].value.attr && cs[k].value.Value() == cs[i].value.Value()
    ensures Symbol(cs[k].value.kind) == Symbol(cs[i].value.kind)
  {
    hide Cmp.Value, Symbol;
    k := LastIsKept(cs, i);
    KeepMember(cs, cs, |cs|, cs[k]);
  }

  /** What is left stands in its old order. */
  lemma {:induction false} KeptInOrder<T>(xs: seq<T>, cs: seq<Option<Cmp>>, n: nat) returns (places: seq<nat>)
    requires n <= |xs| == |cs|
    ensures |places| == |Keep(xs, cs, n)|
    ensures forall a :: 0 <= a < |places| ==> places[a] < n && Keep(xs, cs, n)[a] == xs[places[a]]
    ensures forall a, b :: 0 <= a < b < |places| ==> places[a] < places[b]
  {
    hide Dropped;
    if n == 0 {
      places := [];
    } else {
      places := KeptInOrder(xs, cs, n - 1);
      if !Dropped(cs, n - 1) {
        places := places + [n - 1];
      }
    }
  }

  predicate NoneEqual(cs: seq<Option<Cmp>>) {
    forall i, j :: 0 <= i < j < |cs| && cs[i].Some? && cs[j].Some? ==> !cs[i].value.SameAs(cs[j].value)
  }

  lemma NoneEqualAppend(cs: seq<Option<Cmp>>, x: Option<Cmp>)
    requires NoneEqual(cs)
    requires x.Some? ==> forall i :: 0 <= i < |cs| && cs[i].Some? ==> !cs[i].value.SameAs(x.value)
    ensures NoneEqual(cs + [x])
  {
    hide Cmp.SameAs;
  }

  /** Afterwards no two comparisons are equal. */
  lemma {:induction false} KeepDistinct(cs: seq<Option<Cmp>>, n: nat)
    requires n <= |cs|
    ensures NoneEqual(Keep(cs, cs, n))
  {
    hide Cmp.SameAs;
    if n > 0 {
      KeepDistinct(cs, n - 1);
      var before, x := Keep(cs, cs, n - 1), cs[n - 1];
      forall i | 0 <= i < |before| && before[i].Some? && x.Some?
        ensures !before[i].value.SameAs(x.value)
      {
        KeepMember(cs, cs, n - 1, before[i]);
        assert before[i] in before;
        var k :| 0 <= k < n - 1 && cs[k] == before[i] && !Dropped(cs, k);
      }
      NoneEqualAppend(before, x);
      assert before + [] == before;
    }
  }

  // ----- the deduplication on trees, and exactly when it keeps the meaning -----

  function CmpOf(e: Expr): Option<Cmp> { if e.Leaf? then Some(e.cmp) else None }

  function CmpsOf(items: seq<Expr>): seq<Option<Cmp>> {
    seq(|items|, i requires 0 <= i < |items| => CmpOf(items[i]))
  }

  function Deduped(items: seq<Expr>): seq<Expr> { KeepLast(items, CmpsOf(items)) }

  /** Equal comparisons among the children have equal outcomes. */
  ghost predicate EqualMeansSame(items: seq<Expr>, entry: Entry) {
    forall a <- items, b <- items | a.Leaf? && b.Leaf? && a.cmp.SameAs(b.cmp) :: Eval(a, entry) == Eval(b, entry)
  }

  /** Every comparison asks for the same test as one that is kept. */
  predicate TestsRemain(items: seq<Expr>) {
    forall i :: 0 <= i < |items| && items[i].Leaf? ==> Remains(items, TestOf(items[i].cmp))
  }

  predicate Remains(items: seq<Expr>, test: Test) {
    exists k :: 0 <= k < |items| && items[k].Leaf? && !Dropped(CmpsOf(items), k) && TestOf(items[k].cmp) == test
  }

  lemma {:induction false} EvalsMember(items: seq<Expr>, entry: Entry, t: Truth)
    ensures t in Evals(items, entry) <==> exists i :: 0 <= i < |items| && !items[i].Tok? && Eval(items[i], entry) == t
  {
    hide Eval;
    if items != [] {
      EvalsMember(items[1..], entry, t);
      assert forall i :: 1 <= i < |items| ==> items[i] == items[1..][i - 1];
      assert t in Evals(items, entry) <==>
          (!items[0].Tok? && Eval(items[0], entry) == t) || t in Evals(items[1..], entry);
      if exists i :: 0 <= i < |items[1..]| && !items[1..][i].Tok? && Eval(items[1..][i], entry) == t {
        var i :| 0 <= i < |items[1..]| && !items[1..][i].Tok? && Eval(items[1..][i], entry) == t;
        assert items[i + 1] == items[1..][i];
      }
    }
  }

  lemma CombineSame(cls: Cls, a: seq<Truth>, b: seq<Truth>)
    requires forall t: Truth :: t in a <==> t in b
    ensures Combine(cls, a) == Combine(cls, b)
  {
  }

  lemma DedupeOutcomes(items: seq<Expr>, entry: Entry, t: Truth)
    requires EqualMeansSame(items, entry)
    ensures t in Evals(Deduped(items), entry) <==> t in Evals(items, entry)
  {
    hide Eval, Evals, Cmp.SameAs;
    var cs := CmpsOf(items);
    EvalsMember(items, entry, t);
    EvalsMember(Deduped(items), entry, t);
    if t in Evals(items, entry) {
      var i :| 0 <= i < |items| && !items[i].Tok? && Eval(items[i], entry) == t;
      var k := LastIsKept(cs, i);
      KeepMember(items, cs, |items|, items[k]);
      assert items[i] in items && items[k] in items;
      assert items[k] in Deduped(items) && Eval(items[k], entry) == t && !items[k].Tok?;
    }
    if t in Evals(Deduped(items), entry) {
      var k :| 0 <= k < |Deduped(items)| && !Deduped(items)[k].Tok? && Eval(Deduped(items)[k], entry) == t;
      KeepMember(items, cs, |items|, Deduped(items)[k]);
    }
  }

  /** Dropping all but the last of equal comparisons keeps the outcome where equal means the same. */
  lemma DedupeMeaning(cls: Cls, items: seq<Expr>, entry: Entry)
    requires EqualMeansSame(items, entry)
    ensures Eval(Node(cls, "", Deduped(items)), entry) == Eval(Node(cls, "", items), entry)
  {
    hide Deduped, Combine, EqualMeansSame;
    forall t: Truth ensures t in Evals(Deduped(items), entry) <==> t in Evals(items, entry) {
      DedupeOutcomes(items, entry, t);
    }
    CombineSame(cls, Evals(Deduped(items), entry), Evals(items, entry));
  }

  /** Equal comparisons that are neither extensible matches nor substrings ask the same. */
  lemma PlainMeansSame(items: seq<Expr>, entry: Entry)
    requires forall e <- items :: e.Leaf? ==> e.cmp.kind in {Equality, GreaterEq, LessEq, Approx, Presence}
    ensures EqualMeansSame(items, entry)
  {
    forall a <- items, b <- items | a.Leaf? && b.Leaf? && a.cmp.SameAs(b.cmp) ensures Eval(a, entry) == Eval(b, entry) {
      SameSymbol(a.cmp.kind, b.cmp.kind);
      LeafEval(a, entry);
      LeafEval(b, entry);
    }
  }

  lemma SameSymbol(a: Kind, b: Kind)
    requires a in {Equality, GreaterEq, LessEq, Approx, Presence}
    requires b in {Equality, GreaterEq, LessEq, Approx, Presence}
    requires Symbol(a) == Symbol(b)
    ensures a == b
  {
  }

  /** Without extensible matches and substrings the deduplication keeps the outcome on every entry. */
  lemma PlainDedupe(cls: Cls, items: seq<Expr>, entry: Entry)
    requires forall e <- items :: e.Leaf? ==> e.cmp.kind in {Equality, GreaterEq, LessEq, Approx, Presence}
    ensures Eval(Node(cls, "", Deduped(items)), entry) == Eval(Node(cls, "", items), entry)
  {
    PlainMeansSame(items, entry);
    DedupeMeaning(cls, items, entry);
  }

  /** What an entry can tell apart: class with rule and flag, attribute, and the decoded value or the pattern. */
  lemma TestsTold(c: Cmp, d: Cmp)
    ensures TestOf(c) == TestOf(d) <==>
              && c.kind == d.kind && c.attr == d.attr
              && if c.kind.Substring? then c.EscapedText() == d.EscapedText() else c.Value() == d.Value()
  {
  }

  /** The three-valued tables. */
  lemma TruthTables(ts: seq<Truth>)
    ensures Combine(And, ts) == Yes <==> forall t <- ts :: t == Yes
    ensures Combine(And, ts) == No <==> No in ts
    ensures Combine(Or, ts) == Yes <==> Yes in ts
    ensures Combine(Or, ts) == No <==> forall t <- ts :: t == No
    ensures |ts| == 1 && ts[0] == Yes ==> Combine(Not, ts) == No
    ensures |ts| == 1 && ts[0] == No ==> Combine(Not, ts) == Yes
    ensures |ts| == 1 && ts[0] == Unknown ==> Combine(Not, ts) == Unknown
  {
    if No !in ts && Unknown in ts {
      assert !(forall t <- ts :: t == Yes);
    }
  }

  /** The only outcome of a one-child AND or OR is the outcome of the child. */
  lemma UnwrapMeaning(cls: Cls, t: Truth)
    requires cls != Not
    ensures Combine(cls, [t]) == t
  {
  }

  /**
   On a group of comparisons the deduplication is right for every entry exactly when every test is
   still asked afterwards. It need not be: equality ignores the matching rule and the pattern.
   */
  lemma DedupeExact(cls: Cls, items: seq<Expr>)
    requires cls == And || cls == Or
    requires forall e <- items :: e.Leaf?
    ensures (forall entry: Entry :: Eval(Node(cls, "", Deduped(items)), entry) == Eval(Node(cls, "", items), entry))
            <==> TestsRemain(items)
  {
    hide Eval, Evals, Deduped, Combine;
    if TestsRemain(items) {
      forall entry: Entry ensures Eval(Node(cls, "", Deduped(items)), entry) == Eval(Node(cls, "", items), entry) {
        RemainingTests(cls, items, entry);
      }
    } else {
      var i :| 0 <= i < |items| && items[i].Leaf? && !Remains(items, TestOf(items[i].cmp));
      LostTest(cls, items, i);
    }
  }

  lemma LeafEval(e: Expr, entry: Entry)
    requires e.Leaf?
    ensures Eval(e, entry) == entry(TestOf(e.cmp))
  {
  }

  lemma DedupedIsLeaf(items: seq<Expr>, e: Expr)
    requires e in Deduped(items)
    ensures e in items && (e.Leaf? ==> Remains(items, TestOf(e.cmp)))
  {
    KeepMember(items, CmpsOf(items), |items|, e);
  }

  lemma KeptIsDeduped(items: seq<Expr>, k: nat)
    requires k < |items| && !Dropped(CmpsOf(items), k)
    ensures items[k] in Deduped(items)
  {
    KeepMember(items, CmpsOf(items), |items|, items[k]);
  }

  lemma RemainingTests(cls: Cls, items: seq<Expr>, entry: Entry)
    requires TestsRemain(items) && forall e <- items :: e.Leaf?
    ensures Eval(Node(cls, "", Deduped(items)), entry) == Eval(Node(cls, "", items), entry)
  {
    hide Deduped, Combine, TestOf, Evals;
    forall t: Truth ensures t in Evals(Deduped(items), entry) <==> t in Evals(items, entry) {
      EvalsMember(items, entry, t);
      EvalsMember(Deduped(items), entry, t);
      if t in Evals(items, entry) {
        var i :| 0 <= i < |items| && !items[i].Tok? && Eval(items[i], entry) == t;
        var k :| 0 <= k < |items| && items[k].Leaf? && !Dropped(CmpsOf(items), k)
          && TestOf(items[k].cmp) == TestOf(items[i].cmp);
        KeepMember(items, CmpsOf(items), |items|, items[k]);
        LeafEval(items[k], entry);
        LeafEval(items[i], entry);
        KeptIsDeduped(items, k);
      }
      if t in Evals(Deduped(items), entry) {
        var k :| 0 <= k < |Deduped(items)| && !Deduped(items)[k].Tok? && Eval(Deduped(items)[k], entry) == t;
        DedupedIsLeaf(items, Deduped(items)[k]);
      }
    }
    CombineSame(cls, Evals(Deduped(items), entry), Evals(items, entry));
  }

  /** The entry on which exactly one test decides a group. */
  function Deciding(cls: Cls, lost: Test): Entry {
    test => if test == lost then Decides(cls) else Negate(Decides(cls))
  }

  function Decides(cls: Cls): Truth { if cls == And then No else Yes }

  lemma DecidedBy(cls: Cls, ts: seq<Truth>)
    requires cls == And || cls == Or
    ensures Combine(cls, ts) == Decides(cls) <==> Decides(cls) in ts
  {
  }

  /** A test that is no longer asked decides the group on some entry. */
  lemma LostTest(cls: Cls, items: seq<Expr>, i: nat)
    requires cls == And || cls == Or
    requires forall e <- items :: e.Leaf?
    requires i < |items|
    requires !Remains(items, TestOf(items[i].cmp))
    ensures exists entry: Entry :: Eval(Node(cls, "", Deduped(items)), entry) != Eval(Node(cls, "", items), entry)
  {
    hide Deduped, TestOf, Evals, Combine, Remains, Decides;
    var lost := TestOf(items[i].cmp);
    var entry, d := Deciding(cls, lost), Decides(cls);
    EvalsMember(items, entry, d);
    LeafEval(items[i], entry);
    DecidedBy(cls, Evals(items, entry));
    EvalsMember(Deduped(items), entry, d);
    DecidedBy(cls, Evals(Deduped(items), entry));
    if d in Evals(Deduped(items), entry) {
      var k :| 0 <= k < |Deduped(items)| && !Deduped(items)[k].Tok? && Eval(Deduped(items)[k], entry) == d;
      DedupedIsLeaf(items, Deduped(items)[k]);
      LeafEval(Deduped(items)[k], entry);
      DecidesNot(cls);
      assert false;
    }
    assert Eval(Node(cls, "", Deduped(items)), entry) != Eval(Node(cls, "", items), entry);
  }

  lemma DecidesNot(cls: Cls)
    ensures Negate(Decides(cls)) != Decides(cls)
  {
  }

  /** Two comparisons that differ only in the matching rule: the first one is lost. */
  lemma DedupeLosesRule()
    ensures var a := Leaf(Cmp(Extensible("", "caseExactMatch"), "cn", "x", true));
            var b := Leaf(Cmp(Extensible("", "caseIgnoreMatch"), "cn", "x", true));
            exists entry: Entry :: Eval(Node(Or, "", Deduped([a, b])), entry) != Eval(Node(Or, "", [a, b]), entry)
  {
    var a := Leaf(Cmp(Extensible("", "caseExactMatch"), "cn", "x", true));
    var b := Leaf(Cmp(Extensible("", "caseIgnoreMatch"), "cn", "x", true));
    var cs := CmpsOf([a, b]);
    assert cs[0].value.SameAs(cs[1].value);
    assert Dropped(cs, 0) && !Dropped(cs, 1);
    assert Keep([a, b], cs, 1) == [];
    assert Deduped([a, b]) == [b];
    LostTest(Or, [a, b], 0);
  }
}
