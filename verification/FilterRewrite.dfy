/** What a rewriting walk means: it keeps the outcome of the filter on every entry. */
module FilterRewrite {
  import opened Options
  import opened FilterTree
  import opened FilterMeaning
  import opened ExprNodes
  import opened FilterTrees

  function ClsOf(n: ExprNode): Cls { if n.tag.GroupTag? then n.tag.cls else Plain }

  /** The expression an object graph stands for. */
  function Erase(t: Tree): Expr
    decreases t, 0
  {
    match t
    case LeafT(_, c) => Leaf(c)
    case SpaceT(_) => Tok(" ")
    case BranchT(n, kids) => Node(ClsOf(n), "", Erases(kids))
  }

  function Erases(ts: seq<Tree>): (es: seq<Expr>)
    ensures |es| == |ts| && forall i :: 0 <= i < |ts| ==> es[i] == Erase(ts[i])
    decreases ts, 0
  {
    if ts == [] then [] else [Erase(ts[0])] + Erases(ts[1..])
  }

  ghost function Meaning(t: Tree, entry: Entry): Truth { Eval(Erase(t), entry) }

  /** Below an operator there are comparisons, operators and whitespace, as parsing leaves them. */
  ghost predicate Regular(t: Tree) {
    t.BranchT? ==> forall k <- t.kids :: (k.SpaceT? <==> !Seen(k)) && Regular(k)
  }

  /** Every swap of the comparison callback keeps the meaning of the comparison on this entry. */
  ghost predicate SwapsKeep(t: Tree, job: Job, R: map<ExprNode, Tree>, entry: Entry) {
    && (forall n <- R :: Seen(R[n]) && !R[n].SpaceT?)
    && (forall l <- Leaves(t) :: Meaning(Result(l, job, R), entry) == Meaning(l, entry))
  }

  /** The comparisons that the leaves become, and that can therefore meet in one group. */
  ghost function Pool(t: Tree, job: Job, R: map<ExprNode, Tree>): set<Cmp> {
    set l | l in Leaves(t) && Result(l, job, R).LeafT? :: Result(l, job, R).cmp
  }

  /** Of these comparisons, those that are equal to Python have the same outcome on this entry. */
  ghost predicate EqualKeep(pool: set<Cmp>, job: Job, entry: Entry) {
    job.operators == Simplifying ==>
      forall c <- pool, d <- pool | c.SameAs(d) :: entry(TestOf(c)) == entry(TestOf(d))
  }

  lemma {:induction false} SameEvals(a: seq<Tree>, b: seq<Tree>, entry: Entry)
    requires |a| == |b|
    requires forall i :: 0 <= i < |a| ==>
               (a[i].SpaceT? <==> b[i].SpaceT?) && Meaning(a[i], entry) == Meaning(b[i], entry)
    ensures Evals(Erases(a), entry) == Evals(Erases(b), entry)
  {
    hide Eval;
    if a != [] {
      SameEvals(a[1..], b[1..], entry);
      assert Erases(a)[1..] == Erases(a[1..]) && Erases(b)[1..] == Erases(b[1..]);
    }
  }

  lemma ErasesMore(ts: seq<Tree>, t: Tree)
    ensures Erases(ts + [t]) == Erases(ts) + [Erase(t)]
  {
    hide Erases, Erase;
  }

  lemma {:induction false} KeepErased(ts: seq<Tree>, cs: seq<Option<Cmp>>, n: nat)
    requires n <= |ts| == |cs|
    ensures Erases(Keep(ts, cs, n)) == Keep(Erases(ts), cs, n)
  {
    hide Dropped, Erase, Erases;
    if n > 0 {
      KeepErased(ts, cs, n - 1);
      var before := Keep(ts, cs, n - 1);
      ErasesMore(before, ts[n - 1]);
      assert before + [] == before && Erases(before) + [] == Erases(before);
    }
  }

  lemma KeptErased(ts: seq<Tree>)
    ensures Erases(KeptTrees(ts)) == Deduped(Erases(ts))
  {
    KeepErased(ts, TreeCmps(ts), |ts|);
    assert CmpsOf(Erases(ts)) == TreeCmps(ts);
  }

  lemma {:induction false} SoleEvals(ts: seq<Tree>, entry: Entry)
    requires forall t <- ts :: t.SpaceT? <==> !Seen(t)
    ensures Evals(Erases(ts), entry) == Outcomes(SeenTrees(ts), entry)
  {
    if ts != [] {
      SoleEvals(ts[1..], entry);
      assert Erases(ts)[1..] == Erases(ts[1..]);
      assert ts[0] in ts;
      if Seen(ts[0]) {
        assert SeenTrees(ts)[1..] == SeenTrees(ts[1..]);
      } else {
        assert SeenTrees(ts) == SeenTrees(ts[1..]);
      }
    }
  }

  ghost function Outcomes(ts: seq<Tree>, entry: Entry): seq<Truth> {
    if ts == [] then [] else [Meaning(ts[0], entry)] + Outcomes(ts[1..], entry)
  }

  /** The dedupe and unwrap steps keep the meaning of a group with final children. */
  lemma CloseMeaning(n: ExprNode, kids: seq<Tree>, pool: set<Cmp>, job: Job, entry: Entry)
    requires n.tag.GroupTag? && EqualKeep(pool, job, entry)
    requires forall k <- kids :: (k.SpaceT? <==> !Seen(k)) && (k.LeafT? ==> k.cmp in pool)
    ensures Meaning(Close(n, kids, job), entry) == Meaning(BranchT(n, kids), entry)
  {
    hide Seen, TestOf, Cmp.SameAs, Combine;
    if job.Closes(n) {
      var kept := KeptTrees(kids);
      KeptErased(kids);
      forall a <- Erases(kids), b <- Erases(kids) | a.Leaf? && b.Leaf? && a.cmp.SameAs(b.cmp)
        ensures Eval(a, entry) == Eval(b, entry)
      {
        LeafEval(a, entry);
        LeafEval(b, entry);
        ErasedLeaf(kids, a);
        ErasedLeaf(kids, b);
      }
      DedupeMeaning(n.tag.cls, Erases(kids), entry);
      assert Meaning(BranchT(n, kept), entry) == Meaning(BranchT(n, kids), entry);
      if |SeenTrees(kept)| == 1 && n.tag != GroupTag(Not) {
        forall k <- kept ensures k.SpaceT? <==> !Seen(k) {
          KeptMember(kids, k);
        }
        SoleEvals(kept, entry);
        var sole := SeenTrees(kept)[0];
        assert Outcomes(SeenTrees(kept), entry) == [Meaning(sole, entry)] by {
          assert SeenTrees(kept)[1..] == [];
        }
        UnwrapMeaning(n.tag.cls, Meaning(sole, entry));
      }
    }
  }

  lemma ErasedLeaf(kids: seq<Tree>, a: Expr)
    requires a in Erases(kids) && a.Leaf?
    ensures exists k :: k in kids && k.LeafT? && k.cmp == a.cmp
  {
    var i :| 0 <= i < |kids| && Erases(kids)[i] == a;
    assert kids[i] in kids;
  }

  /** In a group that was deduplicated no two comparisons are equal. */
  lemma KeptDistinct(kids: seq<Tree>)
    ensures NoneEqual(TreeCmps(KeptTrees(kids)))
  {
    var cs := TreeCmps(kids);
    KeepDistinct(cs, |cs|);
    KeptCmps(kids, cs, |kids|);
  }

  lemma {:induction false} KeptCmps(ts: seq<Tree>, cs: seq<Option<Cmp>>, n: nat)
    requires n <= |ts| && cs == TreeCmps(ts)
    ensures TreeCmps(Keep(ts, cs, n)) == Keep(cs, cs, n)
  {
    hide Dropped;
    if n > 0 {
      KeptCmps(ts, cs, n - 1);
    }
  }

  /** When comparisons are only edited and replaced, a group is closed over the results of its children. */
  lemma ResultPlain(t: Tree, job: Job, R: map<ExprNode, Tree>)
    requires t.BranchT? && job.around == map[]
    ensures Result(t, job, R) == Close(t.node, Results(t.kids, job, R), job)
  {
    hide Close;
    ArrangedPlain(t.kids, Results(t.kids, job, R), job, R, job.around.Keys);
  }

  lemma {:induction false} ResultSeen(t: Tree, job: Job, R: map<ExprNode, Tree>)
    requires Seen(t) && Regular(t) && !t.SpaceT? && job.around == map[] && forall n <- R :: Seen(R[n]) && !R[n].SpaceT?
    ensures Seen(Result(t, job, R)) && !Result(t, job, R).SpaceT?
    decreases t
  {
    if t.BranchT? {
      ResultPlain(t, job, R);
      var kids := Results(t.kids, job, R);
      var f := Result(t, job, R);
      if f.node != t.node {
        SeenMember(KeptTrees(kids), f);
        KeptMember(kids, f);
        var i :| 0 <= i < |kids| && kids[i] == f;
        assert t.kids[i] in t.kids;
        if Seen(t.kids[i]) {
          ResultSeen(t.kids[i], job, R);
        }
      } else if f != BranchT(t.node, kids) && f != BranchT(t.node, KeptTrees(kids)) {
        SeenMember(KeptTrees(kids), f);
        KeptMember(kids, f);
        var i :| 0 <= i < |kids| && kids[i] == f;
        assert t.kids[i] in t.kids;
        if Seen(t.kids[i]) {
          ResultSeen(t.kids[i], job, R);
        }
      }
    }
  }

  lemma {:induction false} LeavesBelow(t: Tree, k: nat)
    requires t.BranchT? && k < |t.kids|
    ensures Leaves(t.kids[k]) <= Leaves(t)
  {
  }

  lemma KidPool(t: Tree, k: nat, job: Job, R: map<ExprNode, Tree>)
    requires t.BranchT? && k < |t.kids|
    ensures Pool(t.kids[k], job, R) <= Pool(t, job, R)
  {
    LeavesBelow(t, k);
  }

  lemma {:induction false} ResultInPool(t: Tree, job: Job, R: map<ExprNode, Tree>)
    requires Tagged(t) && Regular(t) && job.around == map[] && Result(t, job, R).LeafT?
    ensures Result(t, job, R).cmp in Pool(t, job, R)
    decreases t
  {
    if t.LeafT? {
      assert t in Leaves(t);
    } else if t.BranchT? {
      ResultPlain(t, job, R);
      var kids, f := Results(t.kids, job, R), Result(t, job, R);
      SeenMember(KeptTrees(kids), f);
      KeptMember(kids, f);
      var i :| 0 <= i < |kids| && kids[i] == f;
      assert t.kids[i] in t.kids;
      KidPool(t, i, job, R);
      assert Seen(t.kids[i]);
      ResultInPool(t.kids[i], job, R);
    }
  }

  /**
   The tree a rewriting walk leaves behind means what the tree meant: swapped comparisons, removed
   duplicates and unwrapped groups included, when the comparison callback only edits and replaces.
   */
  lemma {:induction false} RewriteMeaning(t: Tree, job: Job, R: map<ExprNode, Tree>, entry: Entry)
    requires Tagged(t) && Regular(t) && job.around == map[]
    requires SwapsKeep(t, job, R, entry) && EqualKeep(Pool(t, job, R), job, entry)
    ensures Meaning(Result(t, job, R), entry) == Meaning(t, entry)
    decreases t, 0
  {
    hide Seen, Eval, Close, Evals, EqualKeep, Pool, SwapsKeep;
    if t.LeafT? {
      OwnSwap(t, job, R, entry);
    } else if t.BranchT? {
      ResultPlain(t, job, R);
      var kids := Results(t.kids, job, R);
      forall k | 0 <= k < |kids| ensures KidKept(t, k, job, R, entry) {
        KidMeaning(t, k, job, R, entry);
      }
      forall k | 0 <= k < |kids|
        ensures (kids[k].SpaceT? <==> t.kids[k].SpaceT?) && Meaning(kids[k], entry) == Meaning(t.kids[k], entry)
      {
        assert KidKept(t, k, job, R, entry);
      }
      forall x <- kids ensures (x.SpaceT? <==> !Seen(x)) && (x.LeafT? ==> x.cmp in Pool(t, job, R)) {
        var k :| 0 <= k < |kids| && kids[k] == x;
        assert KidKept(t, k, job, R, entry);
      }
      SameEvals(kids, t.kids, entry);
      BranchMeaning(t.node, kids, t.kids, entry);
      CloseMeaning(t.node, kids, Pool(t, job, R), job, entry);
    }
  }

  /** Simplifying alone keeps the outcome of a filter without extensible matches and substrings on every entry. */
  lemma SimplifyPlain(t: Tree, job: Job, entry: Entry)
    requires Tagged(t) && Regular(t) && job.edit == map[] && job.around == map[]
    requires forall l <- Leaves(t) :: l.LeafT? && l.cmp.kind in {Equality, GreaterEq, LessEq, Approx, Presence}
    ensures Meaning(Result(t, job, map[]), entry) == Meaning(t, entry)
  {
    hide Leaves, Tagged, Regular;
    var pool := Pool(t, job, map[]);
    forall l <- Leaves(t) ensures Result(l, job, map[]) == l {
    }
    forall c <- pool, d <- pool | c.SameAs(d) ensures entry(TestOf(c)) == entry(TestOf(d)) {
      SameSymbol(c.kind, d.kind);
    }
    RewriteMeaning(t, job, map[], entry);
  }

  lemma OwnSwap(t: Tree, job: Job, R: map<ExprNode, Tree>, entry: Entry)
    requires t.LeafT? && SwapsKeep(t, job, R, entry)
    ensures Meaning(Result(t, job, R), entry) == Meaning(t, entry)
  {
    assert t in Leaves(t);
  }

  ghost predicate KidKept(t: Tree, k: nat, job: Job, R: map<ExprNode, Tree>, entry: Entry)
    requires t.BranchT? && k < |t.kids|
  {
    var kid, r := t.kids[k], Results(t.kids, job, R)[k];
    && (r.SpaceT? <==> kid.SpaceT?) && (r.SpaceT? <==> !Seen(r)) && (r.LeafT? ==> r.cmp in Pool(t, job, R))
    && Meaning(r, entry) == Meaning(kid, entry)
  }

  lemma {:induction false} KidMeaning(t: Tree, k: nat, job: Job, R: map<ExprNode, Tree>, entry: Entry)
    requires t.BranchT? && k < |t.kids|
    requires Tagged(t) && Regular(t) && job.around == map[]
    requires SwapsKeep(t, job, R, entry) && EqualKeep(Pool(t, job, R), job, entry)
    ensures KidKept(t, k, job, R, entry)
    decreases t.kids[k], 1
  {
    hide Seen, Eval, Close, Evals, Meaning;
    var kid := t.kids[k];
    assert kid in t.kids;
    LeavesBelow(t, k);
    KidPool(t, k, job, R);
    if Seen(kid) {
      RewriteMeaning(kid, job, R, entry);
      ResultSeen(kid, job, R);
      if Result(kid, job, R).LeafT? {
        ResultInPool(kid, job, R);
      }
    }
  }

  lemma BranchMeaning(n: ExprNode, a: seq<Tree>, b: seq<Tree>, entry: Entry)
    requires Evals(Erases(a), entry) == Evals(Erases(b), entry)
    ensures Meaning(BranchT(n, a), entry) == Meaning(BranchT(n, b), entry)
  {
  }

  /** Without edits, replacements and simplification the tree stays what it was. */
  lemma {:induction false} ReadOnlyResult(t: Tree, job: Job)
    requires job.edit == map[] && job.around == map[] && job.operators != Simplifying
    ensures Result(t, job, map[]) == t
    decreases t
  {
    if t.BranchT? {
      ResultPlain(t, job, map[]);
      var kids := Results(t.kids, job, map[]);
      forall k | 0 <= k < |kids| ensures kids[k] == t.kids[k] {
        ReadOnlyResult(t.kids[k], job);
      }
      assert kids == t.kids;
    }
  }
}
