/** What a simplifying walk achieves for a whole filter: the same meaning, in a form that is left alone. */
module FilterSimplified {
  import opened Options
  import opened FilterTree
  import opened FilterMeaning
  import opened ExprNodes
  import opened FilterTrees
  import opened FilterRewrite
  import opened FilterWalk
  import opened FilterWalkRun

  /** No operator has two equal comparisons, and no AND or OR has just one expression. */
  ghost predicate Simplified(t: Tree) {
    t.BranchT? ==>
      && (t.node.IsOperator() ==>
            NoneEqual(TreeCmps(t.kids)) && (t.node.tag != GroupTag(Not) ==> |SeenTrees(t.kids)| != 1))
      && forall k <- t.kids :: Simplified(k)
  }

  /** One walk reaches such a form, whatever the comparison callback replaces, adds and removes. */
  lemma {:induction false} ResultSimplified(t: Tree, job: Job, R: map<ExprNode, Tree>)
    requires job.operators == Simplifying && Regular(t) && forall n <- R :: Simplified(R[n])
    ensures Simplified(Result(t, job, R))
    decreases t
  {
    hide NoneEqual, Seen;
    if t.BranchT? {
      var trees := Results(t.kids, job, R);
      forall k | 0 <= k < |trees| ensures Simplified(trees[k]) {
        assert t.kids[k] in t.kids;
        if Seen(t.kids[k]) {
          ResultSimplified(t.kids[k], job, R);
        }
      }
      ArrangedSimplified(t.kids, trees, job, R, job.around.Keys);
      CloseSimplified(t.node, Arranged(t.kids, trees, job, R, job.around.Keys), job);
    }
  }

  lemma ArrangedSimplified(kids: seq<Tree>, trees: seq<Tree>, job: Job, R: map<ExprNode, Tree>, acting: set<ExprNode>)
    requires |trees| == |kids| && forall k :: 0 <= k < |trees| ==> Simplified(trees[k])
    requires forall n <- R :: Simplified(R[n])
    ensures forall r <- Arranged(kids, trees, job, R, acting) :: Simplified(r)
  {
    LayoutFits(kids, |kids|, job, acting);
    var entries := Layout(kids, |kids|, job, acting);
    forall i | 0 <= i < |entries| ensures Simplified(Arranged(kids, trees, job, R, acting)[i]) {
      LaidAt(entries, trees, R, i);
    }
  }

  lemma CloseSimplified(n: ExprNode, kids: seq<Tree>, job: Job)
    requires job.operators == Simplifying && forall k <- kids :: Simplified(k)
    ensures Simplified(Close(n, kids, job))
  {
    hide NoneEqual, Seen;
    if job.Closes(n) {
      var kept := KeptTrees(kids);
      KeptDistinct(kids);
      forall k <- kept ensures Simplified(k) {
        KeptMember(kids, k);
      }
      if |SeenTrees(kept)| == 1 {
        SeenMember(kept, SeenTrees(kept)[0]);
      }
    }
  }

  lemma {:induction false} NothingDropped<T>(xs: seq<T>, cs: seq<Option<Cmp>>, n: nat)
    requires n <= |xs| == |cs| && NoneEqual(cs)
    ensures Keep(xs, cs, n) == xs[..n]
  {
    hide Cmp.SameAs;
    if n > 0 {
      NothingDropped(xs, cs, n - 1);
    }
  }

  /** A simplified filter is a fixed point: another simplifying walk leaves it as it is. */
  lemma {:induction false} SimplifiedIsFixed(t: Tree, job: Job)
    requires job.operators == Simplifying && job.edit == map[] && job.around == map[] && Simplified(t)
    ensures Result(t, job, map[]) == t
    decreases t
  {
    hide NoneEqual, Seen;
    if t.BranchT? {
      ResultPlain(t, job, map[]);
      var kids := Results(t.kids, job, map[]);
      forall k | 0 <= k < |kids| ensures kids[k] == t.kids[k] {
        assert t.kids[k] in t.kids;
        SimplifiedIsFixed(t.kids[k], job);
      }
      assert kids == t.kids;
      if t.node.IsOperator() {
        NothingDropped(kids, TreeCmps(kids), |kids|);
        assert kids[..|kids|] == kids;
      }
    }
  }

  /** The two together: simplifying twice is simplifying once. */
  lemma SimplifyTwice(t: Tree, job: Job, R: map<ExprNode, Tree>, again: Job)
    requires job.operators == Simplifying && Regular(t) && forall n <- R :: Simplified(R[n])
    requires again.operators == Simplifying && again.edit == map[] && again.around == map[]
    ensures Result(Result(t, job, R), again, map[]) == Result(t, job, R)
  {
    ResultSimplified(t, job, R);
    SimplifiedIsFixed(Result(t, job, R), again);
  }

  /** For the whole syntax tree of Filter.walk: the filter means what it meant, and is simplified. */
  lemma WalkKeepsMeaning(w: World, entry: Entry)
    requires Setup(w) && w.F.BranchT? && w.r < |w.F.kids| && Regular(Root(w)) && w.job.around == map[]
    requires SwapsKeep(Root(w), w.job, w.R, entry) && EqualKeep(Pool(Root(w), w.job, w.R), w.job, entry)
    ensures Meaning(Outcome(w), entry) == Meaning(w.F, entry)
  {
    hide Meaning, SwapsKeep, EqualKeep, Pool, Regular, Seen, Erase;
    RootIs(w);
    var root, final := Root(w), Final(w, Root(w));
    RewriteMeaning(root, w.job, w.R, entry);
    RootResult(w, entry);
    var kids := w.F.kids[w.r := final];
    SameEvals(kids, w.F.kids, entry);
    BranchMeaning(w.F.node, kids, w.F.kids, entry);
    ArrangedPlain(w.F.kids, kids, w.job, w.R, {root.node});
  }

  lemma RootIs(w: World)
    requires Setup(w)
    ensures w.r < |w.F.kids| && Root(w) == w.F.kids[w.r] && Tagged(Root(w)) && !Root(w).SpaceT?
  {
    assert w.F.kids[w.r] in w.F.kids;
  }

  lemma RootResult(w: World, entry: Entry)
    requires Setup(w) && SwapsKeep(w.F.kids[w.r], w.job, w.R, entry)
    requires Regular(w.F.kids[w.r]) && w.job.around == map[]
    ensures !Final(w, w.F.kids[w.r]).SpaceT?
  {
    RootIs(w);
    if Seen(w.F.kids[w.r]) {
      ResultSeen(w.F.kids[w.r], w.job, w.R);
    }
  }
}
