/**
 The loop over the explicit stack. Whatever the callbacks of the job do to the graph, the calls are
 those of the recursive traversal of the original tree, also when comparisons come and go in the list
 that is walked, and the graph left behind is the recursive rewriting of that tree.
 */
module FilterWalkRun {
  import opened Options
  import opened FilterTree
  import opened FilterMeaning
  import opened ExprNodes
  import opened Callbacks
  import opened FilterTrees
  import opened FilterWalk
  import opened FilterOrder

  // ----- the operator callback -----

  /** The root of a finished tree on the heap. */
  ghost predicate RootHeld(h: Snapshot, t: Tree) {
    && t.node in h.cmps && (t.LeafT? <==> t.node.IsComparison())
    && (t.LeafT? ==> h.cmps[t.node] == t.cmp)
  }

  /** A subtree of the original tree. */
  ghost predicate Part(w: World, t: Tree) {
    && (t.LeafT? ==> t in Leaves(w.F)) && (t.BranchT? ==> t in Branches(w.F))
    && Tagged(t) && Distinct(t) && t.node in w.objects
  }

  lemma KidIsPart(w: World, t: Tree, k: nat)
    requires Setup(w) && Part(w, t) && t.BranchT? && k < |t.kids|
    ensures Part(w, t.kids[k])
  {
    KidBelow(t, k);
    KidKinds(t, k);
    BranchNodes(w.F, t);
    if t.kids[k].LeafT? {
      assert t.kids[k] in Leaves(t.kids[k]);
    } else if t.kids[k].BranchT? {
      OwnBranch(t.kids[k]);
      assert t.kids[k] in Branches(t);
    }
  }

  lemma LeafHeld(w: World, h: Snapshot, l: Tree, done: set<ExprNode>)
    requires Setup(w) && Agrees(w, h, done) && Supplies(w, h) && Part(w, l) && l.LeafT?
    requires w.job.comparisons ==> l.node in done
    requires h.cmps.Keys == w.objects
    ensures RootHeld(h, Final(w, l)) && Tagged(Final(w, l))
  {
    hide Nodes, Branches, Distinct, LeafObjects, ItemsNow;
    if l.node in w.R {
      SupplyHeld(w, h, l.node);
    }
  }

  lemma SupplyHeld(w: World, h: Snapshot, n: ExprNode)
    requires Setup(w) && Supplies(w, h) && n in w.R && h.cmps.Keys == w.objects
    ensures RootHeld(h, w.R[n]) && Tagged(w.R[n])
  {
    hide Distinct, LeafObjects, Branches;
    var r := w.R[n];
    assert Replacement(w, n);
    NodeIn(r);
    if r.LeafT? {
      assert r in Leaves(r);
      RootIsNew(w, n);
      NotEdited(w, r.node);
    }
  }

  lemma RootIsNew(w: World, n: ExprNode)
    requires Setup(w) && n in w.R
    ensures w.R[n].node !in Nodes(w.F)
  {
    hide Distinct, LeafObjects, Branches, Tagged;
    assert Replacement(w, n);
    NodeIn(w.R[n]);
  }

  lemma NotEdited(w: World, n: ExprNode)
    requires Setup(w) && n !in Nodes(w.F)
    ensures n !in w.job.edit
  {
    if n in w.job.edit {
      var l :| l in Leaves(w.F) && l.node == n;
      LeafNodes(w.F, l);
    }
  }

  /** What is done below a container splits over its children. */
  lemma KidComplete(w: World, t: Tree, k: nat, done: set<ExprNode>)
    requires Setup(w) && t.BranchT? && Distinct(t) && k < |t.kids| && t in Branches(w.F) && t != w.F
    requires done * Below(t) == TargetsBelow(t, w.job)
    ensures done * Nodes(t.kids[k]) == if Seen(t.kids[k]) then Targets(t.kids[k], w.job) else {}
  {
    hide Nodes, Targets, TargetsBelow, Below;
    KidBelow(t, k);
    TargetsAt(t, k, w.job);
  }

  lemma BelowComplete(t: Tree, job: Job, done: set<ExprNode>)
    requires t.BranchT? && Distinct(t) && done * Nodes(t) == Targets(t, job)
    ensures done * Below(t) == TargetsBelow(t, job)
  {
    TargetsAreNodes(t, job);
  }

  lemma {:induction false} FinalHeld(w: World, h: Snapshot, t: Tree, done: set<ExprNode>)
    requires Setup(w) && Agrees(w, h, done) && Supplies(w, h) && Part(w, t) && t != w.F
    requires done * Nodes(t) == Targets(t, w.job) && h.cmps.Keys == w.objects
    ensures RootHeld(h, Final(w, t)) && Tagged(Final(w, t))
    decreases t, 0
  {
    hide Setup, Agrees, Supplies, Nodes, Below, Branches, Leaves, TargetsBelow;
    NodeIn(t);
    if t.LeafT? {
      LeafHeld(w, h, t, done);
    } else if t.BranchT? {
      BelowComplete(t, w.job, done);
      var kids := FinalKids(w, t);
      var f := Final(w, t);
      forall k <- kids ensures RootHeld(h, k) && Tagged(k) {
        var i := ArrangedKid(w, t.kids, Finals(w, t.kids), w.job.around.Keys, k);
        if k == Finals(w, t.kids)[i] {
          KidHeld(w, h, t, i, done);
        } else {
          AddedHeld(w, h, t.kids[i], k);
        }
      }
      ClosedHeld(w, h, t.node, kids);
    }
  }

  lemma ClosedHeld(w: World, h: Snapshot, n: ExprNode, kids: seq<Tree>)
    requires n.tag.GroupTag? && n in h.cmps && forall k <- kids :: RootHeld(h, k) && Tagged(k)
    ensures RootHeld(h, Close(n, kids, w.job)) && Tagged(Close(n, kids, w.job))
  {
    hide Seen;
    forall x | x in KeptTrees(kids) ensures Tagged(x) && RootHeld(h, x) {
      KeptMember(kids, x);
    }
    var f := Close(n, kids, w.job);
    if f != BranchT(n, kids) && f != BranchT(n, KeptTrees(kids)) {
      SeenMember(KeptTrees(kids), f);
    }
  }

  lemma AddedHeld(w: World, h: Snapshot, t: Tree, f: Tree)
    requires Setup(w) && Supplies(w, h) && h.cmps.Keys == w.objects && AddedTree(w, t, f)
    ensures RootHeld(h, f) && Tagged(f)
  {
    hide Setup, Supplies;
    var x :| x in NewNodes(w.job.around[t.node]) && f == TreeOf(New(x), [], w.R);
    AddedRoot(w, t.node, x);
    SupplyHeld(w, h, x);
  }

  lemma {:induction false} KidHeld(w: World, h: Snapshot, t: Tree, k: nat, done: set<ExprNode>)
    requires Setup(w) && Agrees(w, h, done) && Supplies(w, h) && Part(w, t) && t != w.F
    requires t.BranchT? && k < |t.kids| && done * Below(t) == TargetsBelow(t, w.job) && h.cmps.Keys == w.objects
    ensures RootHeld(h, Finals(w, t.kids)[k]) && Tagged(Finals(w, t.kids)[k])
    decreases t.kids[k], 1
  {
    hide Setup, Agrees, Supplies, Nodes, Below, Branches, Leaves, TargetsBelow, Targets;
    KidIsPart(w, t, k);
    KidComplete(w, t, k, done);
    if Seen(t.kids[k]) {
      NotOutermost(w, t, k);
      FinalHeld(w, h, t.kids[k], done);
    }
  }

  lemma NotOutermost(w: World, t: Tree, k: nat)
    requires Setup(w) && t in Branches(w.F) && t.BranchT? && k < |t.kids|
    ensures t.kids[k] != w.F
  {
    BranchNodes(w.F, t);
    KidBelow(t, k);
    RootApart(w.F);
  }

  /** When all callbacks below an operator are over, the comparisons in its list have all acted. */
  lemma LayoutComplete(w: World, t: Tree, done: set<ExprNode>)
    requires Setup(w) && Part(w, t) && t.BranchT? && t != w.F && done * Below(t) == TargetsBelow(t, w.job)
    ensures LayoutNow(w, t, done) == LayoutNow(w, t, w.job.around.Keys)
  {
    hide Setup, Nodes, Below, TargetsBelow, Branches, Leaves, Distinct;
    forall kid <- t.kids ensures Acts(kid, w.job, done) == Acts(kid, w.job, w.job.around.Keys) {
      var k :| 0 <= k < |t.kids| && t.kids[k] == kid;
      KidComplete(w, t, k, done);
      NodeIn(kid);
      if kid.LeafT? && kid.node in w.job.around {
        KidIsPart(w, t, k);
        AroundIsTarget(w, kid);
      }
    }
    LayoutAgrees(t.kids, |t.kids|, w.job, done, w.job.around.Keys);
  }

  lemma AroundIsTarget(w: World, t: Tree)
    requires Setup(w) && t.LeafT? && Tagged(t) && t.node in w.job.around
    ensures Seen(t) && t.node in Targets(t, w.job)
  {
  }

  /** The children of an operator when its turn has come: all final. */
  lemma ItemsComplete(w: World, t: Tree, done: set<ExprNode>)
    requires Setup(w) && Part(w, t) && t.BranchT? && t != w.F && done * Below(t) == TargetsBelow(t, w.job)
    ensures ListNow(w, t.kids, LayoutNow(w, t, done), done) == Roots(FinalKids(w, t))
    ensures NoRepeats(Roots(FinalKids(w, t)))
  {
    hide Setup, Nodes, Below, TargetsBelow, Branches, Leaves, ListNow, Tidy, Layout;
    forall k | 0 <= k < |t.kids| ensures Slot(w, t.kids[k], done) == Finals(w, t.kids)[k].node {
      var kid := t.kids[k];
      KidComplete(w, t, k, done);
      NodeIn(kid);
      KidIsPart(w, t, k);
      if Seen(kid) && kid.node !in done {
        SameRoot(w, kid);
      }
    }
    LayoutComplete(w, t, done);
    LayoutTidy(w, t, |t.kids|, done);
    TidyDistinct(w, t, LayoutNow(w, t, done), done);
    LaidRoots(w, t.kids, LayoutNow(w, t, done), Finals(w, t.kids), done);
  }

  /** The objects in an edited list are the roots of the trees in it. */
  lemma LaidRoots(w: World, kids: seq<Tree>, entries: seq<Item>, trees: seq<Tree>, done: set<ExprNode>)
    requires Setup(w) && Tidy(w, kids, entries) && |trees| == |kids|
    requires forall k :: 0 <= k < |kids| ==> Slot(w, kids[k], done) == trees[k].node
    ensures ListNow(w, kids, entries, done) == Roots(Laid(entries, trees, w.R))
  {
    hide Setup, Slot;
    forall i | 0 <= i < |entries| ensures ListNow(w, kids, entries, done)[i] == Laid(entries, trees, w.R)[i].node {
      assert entries[i] in entries;
      if entries[i].New? {
        var k :| 0 <= k < |kids| && AddedAt(w, kids[k], entries[i].node);
        AddedRoot(w, kids[k].node, entries[i].node);
      }
    }
  }

  lemma SameRoot(w: World, t: Tree)
    requires Setup(w) && t.node !in Targets(t, w.job)
    ensures Final(w, t).node == t.node
  {
  }

  lemma UnwrapFinal(w: World, t: Tree)
    requires t.BranchT? && w.job.Closes(t.node)
    ensures Unwrapped(t.node, Roots(KeptTrees(FinalKids(w, t)))) == Final(w, t).node
  {
    SeenRoots(KeptTrees(FinalKids(w, t)));
  }

  /** The step of an operator callback on what the objects hold. */
  lemma AgreesAfterOperator(w: World, h: Snapshot, h': Snapshot, b: Tree, i: nat, done: set<ExprNode>)
    requires Setup(w) && Agrees(w, h, done) && Place(w, b, i, done) && b.kids[i].BranchT? && b.kids[i] in Branches(w.F)
    requires var t := b.kids[i];
             && ChangesOnly(h, h', {b.node, t.node}, {})
             && b.node in h'.items && h'.items[b.node] == ItemsNow(w, b, done + {t.node})
             && t.node in h'.items && h'.items[t.node] == ItemsNow(w, t, done + {t.node})
    ensures Agrees(w, h', done + {b.kids[i].node})
  {
    hide Final, Setup, ItemsNow, CmpNow, Tagged, Distinct, Nodes, Leaves, Branches;
    var t := b.kids[i];
    forall c <- Branches(w.F) | c != b && c != t
      ensures c.BranchT? && c.node != b.node && c.node != t.node
      ensures ItemsNow(w, c, done + {t.node}) == ItemsNow(w, c, done)
    {
      BranchObject(w, c);
      ApartFrom(w, b, c);
      ApartFrom(w, t, c);
      ItemsElsewhere(w, b, i, c, done);
    }
    forall l <- Leaves(w.F) ensures l.LeafT? && CmpNow(w, l, done + {t.node}) == CmpNow(w, l, done) {
      LeafObject(w, l);
      LeafIsNoOperator(w, l, t);
      CmpElsewhere(w, l, t.node, done);
    }
  }

  lemma LeafIsNoOperator(w: World, l: Tree, t: Tree)
    requires Setup(w) && l in Leaves(w.F) && t in Branches(w.F)
    ensures l.node != t.node
  {
    LeafTag(w.F, l);
    BranchDistinctTag(w.F, t);
  }

  lemma {:induction false} HeldCmps(w: World, ts: seq<Tree>)
    requires forall k :: 0 <= k < |ts| ==> RootHeld(Now(w), ts[k])
    ensures CmpsAt(Roots(ts)) == TreeCmps(ts)
  {
    forall k | 0 <= k < |ts| ensures CmpAt(ts[k].node) == TreeCmp(ts[k]) {
      assert RootHeld(Now(w), ts[k]);
    }
  }

  /** The operator callback: deduplicate, then unwrap. It never raises. */
  method VisitOperator(ghost w: World, ghost b: Tree, ghost i: nat, ghost done: set<ExprNode>, parent: ExprNode,
                       node: ExprNode)
    returns (found: bool)
    requires Setup(w) && Agrees(w, Now(w), done) && Supplies(w, Now(w))
    requires Place(w, b, i, done) && parent == b.node && node == b.kids[i].node
    requires Part(w, b.kids[i]) && b.kids[i].BranchT? && b.kids[i] != w.F && w.job.Closes(node)
    requires done * Below(b.kids[i]) == TargetsBelow(b.kids[i], w.job)
    modifies parent`items, node`items
    ensures found && Agrees(w, Now(w), done + {node}) && Supplies(w, Now(w))
  {
    hide Final, Setup, Position, Agrees, Supplies, Nodes, Below, TargetsBelow, Branches, Leaves, KeptTrees, KeepLast,
      Unwrapped, ItemsNow, CmpNow, Tagged, Distinct, RootHeld, Expressions, NoRepeats;
    ghost var h, t := Now(w), b.kids[i];
    ghost var kids := FinalKids(w, t);
    OperatorReady(w, h, b, i, done);
    FinalKidsHeld(w, h, t, done);
    HeldCmps(w, kids);
    UnwrapFinal(w, t);
    KeptRoots(kids);
    found := Simplify(parent, node);
    assert node.items == Roots(KeptTrees(kids));
    AgreesAfterOperator(w, h, Now(w), b, i, done);
    SuppliesAfter(w, h, Now(w), {parent, node}, {});
  }

  lemma FinalKidsHeld(w: World, h: Snapshot, t: Tree, done: set<ExprNode>)
    requires Setup(w) && Agrees(w, h, done) && Supplies(w, h) && Part(w, t) && t != w.F
    requires t.BranchT? && done * Below(t) == TargetsBelow(t, w.job) && h.cmps.Keys == w.objects
    ensures forall i :: 0 <= i < |FinalKids(w, t)| ==> RootHeld(h, FinalKids(w, t)[i]) && Tagged(FinalKids(w, t)[i])
  {
    hide Setup, Agrees, Supplies, Nodes, Below, Branches, Leaves, TargetsBelow, RootHeld, Part;
    forall k <- FinalKids(w, t) ensures RootHeld(h, k) && Tagged(k) {
      var i := ArrangedKid(w, t.kids, Finals(w, t.kids), w.job.around.Keys, k);
      if k == Finals(w, t.kids)[i] {
        KidHeld(w, h, t, i, done);
      } else {
        AddedHeld(w, h, t.kids[i], k);
      }
    }
  }

  lemma KeptRoots(ts: seq<Tree>)
    ensures Roots(KeptTrees(ts)) == KeepLast(Roots(ts), TreeCmps(ts))
  {
    KeepRoots(ts, TreeCmps(ts), |ts|);
  }

  lemma OperatorReady(w: World, h: Snapshot, b: Tree, i: nat, done: set<ExprNode>)
    requires Setup(w) && Agrees(w, h, done) && Place(w, b, i, done)
    requires Part(w, b.kids[i]) && b.kids[i].BranchT? && b.kids[i] != w.F && w.job.Closes(b.kids[i].node)
    requires done * Below(b.kids[i]) == TargetsBelow(b.kids[i], w.job)
    ensures var t := b.kids[i];
            && b.node != t.node && b.node in w.objects && t.node in w.objects
            && b.node in h.items && h.items[b.node] == ItemsNow(w, b, done)
            && t.node in h.items && h.items[t.node] == Roots(FinalKids(w, t)) && NoRepeats(h.items[t.node])
            && (var items := ItemsNow(w, b, done);
                && t.node in items
                && ItemsNow(w, b, done + {t.node}) == items[Position(items, t.node) := Final(w, t).node])
            && ItemsNow(w, t, done + {t.node}) == Roots(KeptTrees(FinalKids(w, t)))
  {
    hide Final, Setup, Position, Nodes, Below, TargetsBelow, FinalKids, ListNow, LayoutNow;
    var t := b.kids[i];
    ItemsHere(w, b, i, done);
    AgreesHere(w, h, b, i, done);
    ItemsComplete(w, t, done);
    NotOwnParent(w, b, i);
  }

  lemma NotOwnParent(w: World, b: Tree, i: nat)
    requires Setup(w) && b in Branches(w.F) && b.BranchT? && i < |b.kids|
    ensures b.node != b.kids[i].node
  {
    BranchDistinct(w.F, b);
    KidBelow(b, i);
    RootApart(b);
  }

  // ----- the stack -----

  /** A stack entry: the child at a place, before or after its own children. */
  datatype Ent = Ent(b: Tree, i: nat, pre: bool) {
    ghost predicate Fits() { b.BranchT? && i < |b.kids| }

    ghost function Kid(): Tree
      requires Fits()
    {
      b.kids[i]
    }
  }

  ghost predicate EntOk(w: World, e: Ent) {
    && e.Fits() && w.F.BranchT? && w.r < |w.F.kids| && VisitedPlace(w, e.b, e.i)
    && (!e.pre ==> e.Kid().BranchT? && w.job.AfterKids(e.Kid().node))
  }

  ghost function EntCalls(w: World, e: Ent): seq<Call>
    requires e.Fits()
  {
    if e.pre then Calls(e.b.node, e.Kid(), w.job) else [OpCall(e.b.node, e.Kid().node)]
  }

  ghost predicate EntsOk(w: World, gs: seq<Ent>) { forall e <- gs :: EntOk(w, e) }

  /** The calls still to come: the top of the stack is its last entry. */
  ghost function Pending(w: World, gs: seq<Ent>): seq<Call>
    requires EntsOk(w, gs)
  {
    assert gs != [] ==> gs[|gs| - 1] in gs;
    if gs == [] then [] else EntCalls(w, gs[|gs| - 1]) + Pending(w, gs[..|gs| - 1])
  }

  /** The real stack holds the entries' objects. */
  ghost predicate Matches(w: World, stack: seq<(ExprNode, ExprNode, bool)>, gs: seq<Ent>) {
    && |stack| == |gs| && EntsOk(w, gs)
    && forall k :: 0 <= k < |gs| ==> gs[k].Fits() && stack[k] == (gs[k].b.node, gs[k].Kid().node, gs[k].pre)
  }

  ghost function Size(t: Tree): nat
    decreases t, 0
  {
    1 + if t.BranchT? then Sizes(t.kids) else 0
  }

  ghost function Sizes(ts: seq<Tree>): nat
    decreases ts, 0
  {
    if ts == [] then 0 else Size(ts[0]) + Sizes(ts[1..])
  }

  ghost function Weight(gs: seq<Ent>): nat {
    if gs == [] then 0 else EntWeight(gs[|gs| - 1]) + Weight(gs[..|gs| - 1])
  }

  ghost function EntWeight(e: Ent): nat { if e.pre && e.Fits() then 2 * Size(e.Kid()) else 1 }

  /** The entries of the visited children from place k on, the first child on top. */
  ghost function KidEnts(t: Tree, k: nat): seq<Ent>
    requires t.BranchT? && k <= |t.kids|
    decreases |t.kids| - k
  {
    if k == |t.kids| then [] else KidEnts(t, k + 1) + if Seen(t.kids[k]) then [Ent(t, k, true)] else []
  }

  function PushAll(parent: ExprNode, children: seq<ExprNode>): seq<(ExprNode, ExprNode, bool)> {
    if children == [] then [] else PushAll(parent, children[1..]) + [(parent, children[0], true)]
  }

  lemma KidEntOk(w: World, t: Tree, k: nat)
    requires Setup(w) && w.F.BranchT? && w.r < |w.F.kids|
    requires t in Opened(Root(w)) && Tagged(t) && t.BranchT? && k < |t.kids| && Seen(t.kids[k])
    ensures EntOk(w, Ent(t, k, true))
  {
    assert t.kids[k] in t.kids;
  }

  lemma PendingTop(w: World, gs: seq<Ent>, e: Ent)
    requires EntsOk(w, gs) && EntOk(w, e)
    ensures EntsOk(w, gs + [e]) && Pending(w, gs + [e]) == EntCalls(w, e) + Pending(w, gs)
    ensures Weight(gs + [e]) == EntWeight(e) + Weight(gs)
  {
    hide EntOk, EntCalls, EntWeight;
    assert (gs + [e])[..|gs|] == gs;
  }

  lemma {:induction false} PendingKids(w: World, gs: seq<Ent>, t: Tree, k: nat)
    requires Setup(w) && w.F.BranchT? && w.r < |w.F.kids| && EntsOk(w, gs)
    requires t in Opened(Root(w)) && Tagged(t) && t.BranchT? && k <= |t.kids|
    ensures EntsOk(w, gs + KidEnts(t, k))
    ensures Pending(w, gs + KidEnts(t, k)) == KidCalls(t.node, t.kids[k..], w.job) + Pending(w, gs)
    ensures Weight(gs + KidEnts(t, k)) <= 2 * Sizes(t.kids[k..]) + Weight(gs)
    decreases |t.kids| - k
  {
    hide Setup, EntOk, Opened, Tagged, Calls, Size, Weight, Pending;
    if k == |t.kids| {
      assert gs + [] == gs && t.kids[k..] == [];
    } else {
      PendingKids(w, gs, t, k + 1);
      assert t.kids[k..][1..] == t.kids[k + 1..] && t.kids[k..][0] == t.kids[k];
      if Seen(t.kids[k]) {
        KidEntOk(w, t, k);
        PendingTop(w, gs + KidEnts(t, k + 1), Ent(t, k, true));
        assert gs + KidEnts(t, k) == gs + KidEnts(t, k + 1) + [Ent(t, k, true)];
      } else {
        assert KidEnts(t, k) == KidEnts(t, k + 1) + [] == KidEnts(t, k + 1);
      }
    }
  }

  lemma {:induction false} PushedKids(t: Tree, k: nat)
    requires t.BranchT? && k <= |t.kids|
    ensures var p, g := PushAll(t.node, Roots(SeenTrees(t.kids[k..]))), KidEnts(t, k);
            |p| == |g| && forall j :: 0 <= j < |g| ==>
              g[j].b == t && g[j].i < |t.kids| && g[j].pre && p[j] == (t.node, t.kids[g[j].i].node, true)
    decreases |t.kids| - k
  {
    if k < |t.kids| {
      PushedKids(t, k + 1);
      assert t.kids[k..][1..] == t.kids[k + 1..] && t.kids[k..][0] == t.kids[k];
      SeenFirst(t.node, t.kids[k..]);
    }
  }

  lemma SeenFirst(n: ExprNode, kids: seq<Tree>)
    requires kids != []
    ensures PushAll(n, Roots(SeenTrees(kids))) ==
            PushAll(n, Roots(SeenTrees(kids[1..]))) + if Seen(kids[0]) then [(n, kids[0].node, true)] else []
  {
    var rest := SeenTrees(kids[1..]);
    if Seen(kids[0]) {
      assert SeenTrees(kids) == [kids[0]] + rest;
      assert Roots([kids[0]] + rest)[1..] == Roots(rest);
    } else {
      assert SeenTrees(kids) == rest;
    }
  }

  // ----- what the graph is at the end -----

  /** Untouched parts are still what they were. */
  lemma {:induction false} UntouchedModels(w: World, t: Tree, done: set<ExprNode>)
    requires Setup(w) && Part(w, t) && Agrees(w, Now(w), done) && done * Nodes(t) == {}
    ensures Models(t)
    decreases t
  {
    hide Setup, Tagged, Distinct, Branches, Leaves, Agrees, ItemsNow, CmpNow;
    NodeIn(t);
    NotDone(done, Nodes(t), t.node);
    UntouchedNode(w, t, done);
    if t.BranchT? {
      forall k | 0 <= k < |t.kids| ensures Models(t.kids[k]) && t.kids[k].node !in done {
        KidIsPart(w, t, k);
        KidBelow(t, k);
        UntouchedModels(w, t.kids[k], done);
      }
      UntouchedList(w, t, done);
    }
  }

  lemma NotDone(done: set<ExprNode>, s: set<ExprNode>, x: ExprNode)
    requires done * s == {} && x in s
    ensures x !in done
  {
    assert x !in done * s;
  }

  lemma UntouchedNode(w: World, t: Tree, done: set<ExprNode>)
    requires Part(w, t) && Agrees(w, Now(w), done) && t.node !in done
    ensures t.BranchT? ==> t.node.items == ListNow(w, t.kids, LayoutNow(w, t, done), done)
    ensures t.LeafT? ==> t.node.cmp == t.cmp
  {
    hide Tagged, Distinct, Branches, Leaves;
  }

  /** A list of which no child has had its callback. */
  lemma UntouchedList(w: World, t: Tree, done: set<ExprNode>)
    requires t.BranchT? && forall k <- t.kids :: k.node !in done
    ensures ListNow(w, t.kids, LayoutNow(w, t, done), done) == Roots(t.kids)
  {
    hide Final, Layout;
    NoEdits(t.kids, |t.kids|, w.job, done);
    forall k | 0 <= k < |t.kids| ensures Slot(w, t.kids[k], done) == t.kids[k].node {
      assert t.kids[k] in t.kids;
    }
  }

  lemma {:induction false} SupplyModels(w: World, n: ExprNode, s: Tree, done: set<ExprNode>)
    requires Setup(w) && Agrees(w, Now(w), done) && Supplies(w, Now(w)) && n in w.R && (n in w.job.subst ==> n in done)
    requires Branches(s) <= Branches(w.R[n]) && Leaves(s) <= Leaves(w.R[n])
    ensures Models(s)
    decreases s
  {
    hide Setup, Tagged, Distinct, Agrees;
    if s.BranchT? {
      OwnBranch(s);
      forall k | 0 <= k < |s.kids| ensures Models(s.kids[k]) {
        assert Branches(s.kids[k]) <= Branches(s) && Leaves(s.kids[k]) <= Leaves(s);
        SupplyModels(w, n, s.kids[k], done);
      }
    } else if s.LeafT? {
      assert s in Leaves(s);
      SupplyLeafHeld(w, n, s, done);
    }
  }

  lemma SupplyLeafHeld(w: World, n: ExprNode, l: Tree, done: set<ExprNode>)
    requires Setup(w) && Agrees(w, Now(w), done) && Supplies(w, Now(w)) && n in w.R && (n in w.job.subst ==> n in done)
    requires l in Leaves(w.R[n])
    ensures l.LeafT? && l.node.cmp == l.cmp
  {
    hide Tagged, Distinct, Branches, LeafObjects, ItemsNow;
    assert Replacement(w, n);
    LeafNodes(w.R[n], l);
    if l.node in w.job.edit {
      EditedIsOriginal(w, l.node);
      var l' :| l' in Leaves(w.F) && l'.node == l.node;
      LeafNodes(w.F, l');
      assert l.node in Nodes(w.R[n]) * Nodes(w.F);
    }
  }

  lemma EditedIsOriginal(w: World, n: ExprNode)
    requires Setup(w) && n in w.job.edit
    ensures exists l :: l in Leaves(w.F) && l.node == n
  {
  }

  lemma {:induction false} FinalModels(w: World, t: Tree, done: set<ExprNode>)
    requires Setup(w) && Agrees(w, Now(w), done) && Supplies(w, Now(w)) && Part(w, t) && t != w.F
    requires done * Nodes(t) == Targets(t, w.job)
    ensures Models(Final(w, t))
    decreases t, 0
  {
    hide Setup, Supplies, Tagged, Distinct, Branches, Leaves, TargetsBelow, Below, Nodes;
    NodeIn(t);
    if t.LeafT? {
      LeafModels(w, t, done);
    } else if t.BranchT? {
      BelowComplete(t, w.job, done);
      forall k <- FinalKids(w, t) ensures Models(k) {
        var i := ArrangedKid(w, t.kids, Finals(w, t.kids), w.job.around.Keys, k);
        if k == Finals(w, t.kids)[i] {
          KidModels(w, t, i, done);
        } else {
          AddedModels(w, t.kids[i], k, done);
        }
      }
      BranchModels(w, t, done);
    }
  }

  lemma AddedModels(w: World, t: Tree, f: Tree, done: set<ExprNode>)
    requires Setup(w) && Agrees(w, Now(w), done) && Supplies(w, Now(w)) && AddedTree(w, t, f)
    ensures Models(f)
  {
    hide Setup, Supplies, Agrees, Models;
    var x :| x in NewNodes(w.job.around[t.node]) && f == TreeOf(New(x), [], w.R);
    AddedRoot(w, t.node, x);
    SupplyModels(w, x, f, done);
  }

  lemma LeafModels(w: World, t: Tree, done: set<ExprNode>)
    requires Setup(w) && Agrees(w, Now(w), done) && Supplies(w, Now(w)) && Part(w, t) && t.LeafT?
    requires done * Nodes(t) == Targets(t, w.job)
    ensures Models(Final(w, t))
  {
    hide Tagged, Distinct, Branches, LeafObjects, ItemsNow, Supplies;
    if t.node in w.R {
      SupplyModels(w, t.node, w.R[t.node], done);
    }
  }

  lemma {:induction false} KidModels(w: World, t: Tree, k: nat, done: set<ExprNode>)
    requires Setup(w) && Agrees(w, Now(w), done) && Supplies(w, Now(w)) && Part(w, t) && t != w.F
    requires t.BranchT? && k < |t.kids| && done * Below(t) == TargetsBelow(t, w.job)
    ensures Models(Finals(w, t.kids)[k])
    decreases t.kids[k], 1
  {
    hide Setup, Agrees, Supplies, Nodes, Below, Branches, Leaves, TargetsBelow, Targets, Models;
    KidIsPart(w, t, k);
    KidComplete(w, t, k, done);
    if Seen(t.kids[k]) {
      NotOutermost(w, t, k);
      FinalModels(w, t.kids[k], done);
    } else {
      UntouchedModels(w, t.kids[k], done);
    }
  }

  /** The children of a container whose turn is over, or that has none. */
  lemma BranchModels(w: World, t: Tree, done: set<ExprNode>)
    requires Setup(w) && Agrees(w, Now(w), done) && Part(w, t) && t != w.F && t.BranchT?
    requires done * Nodes(t) == Targets(t, w.job) && done * Below(t) == TargetsBelow(t, w.job)
    requires forall k <- FinalKids(w, t) :: Models(k)
    ensures Models(Final(w, t))
  {
    hide Setup, Supplies, Tagged, Distinct, Branches, Leaves, TargetsBelow, Below, KeptTrees, FinalKids, ListNow,
      LayoutNow;
    if !w.job.Closes(t.node) {
      ItemsComplete(w, t, done);
    }
    ClosedModels(t.node, FinalKids(w, t), w.job);
    FinalClosed(w, t);
  }

  lemma FinalClosed(w: World, t: Tree)
    requires t.BranchT?
    ensures Final(w, t) == Close(t.node, FinalKids(w, t), w.job)
  {
  }

  lemma ClosedModels(n: ExprNode, kids: seq<Tree>, job: Job)
    requires n.items == Roots(if job.Closes(n) then KeptTrees(kids) else kids) && forall k <- kids :: Models(k)
    ensures Models(Close(n, kids, job))
  {
    forall x | x in KeptTrees(kids) ensures Models(x) {
      KeptMember(kids, x);
    }
    forall x | x in SeenTrees(KeptTrees(kids)) ensures Models(x) {
      SeenMember(KeptTrees(kids), x);
    }
  }

  /** The tree the walk leaves below the outermost container. */
  ghost function Outcome(w: World): Tree
    requires w.F.BranchT? && w.r < |w.F.kids|
  {
    BranchT(w.F.node, Arranged(w.F.kids, w.F.kids[w.r := Final(w, Root(w))], w.job, w.R, {Root(w).node}))
  }

  lemma OutcomeModels(w: World, done: set<ExprNode>)
    requires Setup(w) && Agrees(w, Now(w), done) && Supplies(w, Now(w))
    requires w.F.BranchT? && w.r < |w.F.kids| && done == Targets(Root(w), w.job)
    ensures Models(Outcome(w))
  {
    hide Setup, Supplies, Tagged, Distinct, Branches, Leaves, Below, Nodes, Targets, Models;
    RootFacts(w);
    OutermostPart(w);
    TargetsAreNodes(Root(w), w.job);
    KidIsPart(w, w.F, w.r);
    NotOutermost(w, w.F, w.r);
    FinalModels(w, Root(w), done);
    var trees := w.F.kids[w.r := Final(w, Root(w))];
    forall k | 0 <= k < |trees| ensures Models(trees[k]) && Slot(w, w.F.kids[k], done) == trees[k].node {
      OutermostKid(w, done, k);
    }
    forall f <- Outcome(w).kids ensures Models(f) {
      var i := ArrangedKid(w, w.F.kids, trees, {Root(w).node}, f);
      if f != trees[i] {
        AddedModels(w, w.F.kids[i], f, done);
      }
    }
    OutermostItems(w, done);
    OutermostLayout(w, done);
    LayoutTidy(w, w.F, |w.F.kids|, done);
    LaidRoots(w, w.F.kids, LayoutNow(w, w.F, done), trees, done);
    BranchHeld(Outcome(w));
  }

  lemma OutermostKid(w: World, done: set<ExprNode>, k: nat)
    requires Setup(w) && Agrees(w, Now(w), done) && Supplies(w, Now(w))
    requires w.F.BranchT? && w.r < |w.F.kids| && done == Targets(Root(w), w.job) && k < |w.F.kids|
    requires Models(Final(w, Root(w)))
    ensures var t := w.F.kids[w.r := Final(w, Root(w))][k]; Models(t) && Slot(w, w.F.kids[k], done) == t.node
  {
    hide Setup, Supplies, Tagged, Distinct, Branches, Leaves, Below, Nodes, Targets, Models, Agrees;
    RootFacts(w);
    OutermostPart(w);
    if k != w.r {
      OthersUntouched(w, k);
      KidIsPart(w, w.F, k);
      UntouchedModels(w, w.F.kids[k], done);
      NodeIn(w.F.kids[k]);
      NotDone(done, Nodes(w.F.kids[k]), w.F.kids[k].node);
    } else if Root(w).node !in done {
      SameRoot(w, Root(w));
    }
  }

  lemma OthersUntouched(w: World, k: nat)
    requires Setup(w) && w.F.BranchT? && w.r < |w.F.kids| && k < |w.F.kids| && k != w.r
    ensures Targets(Root(w), w.job) * Nodes(w.F.kids[k]) == {}
    ensures w.F.kids[k].node !in Targets(Root(w), w.job) && w.F.kids[k].node != Root(w).node
  {
    hide Setup, Tagged, Branches, Leaves, Below, Targets;
    RootFacts(w);
    KidsApart(w.F, k, w.r);
    TargetsAreNodes(Root(w), w.job);
    NodeIn(w.F.kids[k]);
    NodeIn(Root(w));
  }

  /** In the outermost list only the root may have acted. */
  lemma OutermostLayout(w: World, done: set<ExprNode>)
    requires Setup(w) && w.F.BranchT? && w.r < |w.F.kids| && done == Targets(Root(w), w.job)
    ensures LayoutNow(w, w.F, done) == LayoutNow(w, w.F, {Root(w).node})
  {
    hide Setup, Targets;
    RootFacts(w);
    forall kid <- w.F.kids ensures Acts(kid, w.job, done) == Acts(kid, w.job, {Root(w).node}) {
      var k :| 0 <= k < |w.F.kids| && w.F.kids[k] == kid;
      if k != w.r {
        OthersUntouched(w, k);
      } else if kid.LeafT? && kid.node in w.job.around {
        AroundIsTarget(w, kid);
      }
    }
    LayoutAgrees(w.F.kids, |w.F.kids|, w.job, done, {Root(w).node});
  }

  lemma BranchHeld(t: Tree)
    requires t.BranchT? && t.node.items == Roots(t.kids) && forall k :: 0 <= k < |t.kids| ==> Models(t.kids[k])
    ensures Models(t)
  {
  }

  lemma OutermostPart(w: World)
    requires Setup(w)
    ensures Part(w, w.F)
  {
    NodeIn(w.F);
    OwnBranch(w.F);
  }

  lemma OutermostItems(w: World, done: set<ExprNode>)
    requires Setup(w) && w.F.BranchT? && w.F in Branches(w.F) && Agrees(w, Now(w), done)
    ensures w.F.node.items == ListNow(w, w.F.kids, LayoutNow(w, w.F, done), done)
  {
    NodeIn(w.F);
  }

  /** At the start nothing is done. */
  lemma {:induction false} StartAgrees(w: World)
    requires Setup(w) && Models(w.F)
    ensures Agrees(w, Now(w), {})
  {
    forall b <- Branches(w.F) ensures b.BranchT? && b.node.items == ItemsNow(w, b, {}) && b.node in w.objects {
      BranchNodes(w.F, b);
      BranchIsHeld(w.F, b);
      UntouchedList(w, b, {});
    }
    forall l <- Leaves(w.F) ensures l.LeafT? && l.node.cmp == l.cmp && l.node in w.objects {
      LeafNodes(w.F, l);
      LeafIsHeld(w.F, l);
    }
  }

  lemma {:induction false} BranchIsHeld(t: Tree, b: Tree)
    requires Models(t) && b in Branches(t)
    ensures b.BranchT? && b.node.items == Roots(b.kids)
    decreases t
  {
    if b != t {
      var k :| 0 <= k < |t.kids| && b in Branches(t.kids[k]);
      BranchIsHeld(t.kids[k], b);
    }
  }

  lemma {:induction false} LeafIsHeld(t: Tree, l: Tree)
    requires Models(t) && l in Leaves(t)
    ensures l.LeafT? && l.node.cmp == l.cmp
    decreases t
  {
    if t.BranchT? {
      var k :| 0 <= k < |t.kids| && l in Leaves(t.kids[k]);
      LeafIsHeld(t.kids[k], l);
    }
  }

  // ----- the walk -----

  /** Opening a container: its visited children, as they hang in the graph at this moment. */
  lemma OpeningChildren(w: World, b: Tree, i: nat, P: seq<Call>, Q: seq<Call>)
    requires Setup(w) && w.F.BranchT? && w.r < |w.F.kids| && VisitedPlace(w, b, i) && b.kids[i].BranchT?
    requires AllCalls(w) == P + Calls(b.node, b.kids[i], w.job) + Q && Agrees(w, Now(w), Done(P, w.job))
    ensures Expressions(b.kids[i].node.items) == Roots(SeenTrees(b.kids[i].kids))
  {
    hide Setup, Branches, Leaves, Tagged, Distinct, Agrees, Opened, AllCalls, Calls;
    var t, done := b.kids[i], Done(P, w.job);
    EntryFacts(w, b, i);
    AtOpening(w, P, Q, b, i);
    PartOf(w, t);
    NodeIn(t);
    NotDone(done, Nodes(t), t.node);
    UntouchedNode(w, t, done);
    BelowIsNodes(t);
    forall k | 0 <= k < |t.kids| ensures t.kids[k].node !in done {
      KidBelow(t, k);
      NotDone(done, Nodes(t), t.kids[k].node);
    }
    UntouchedList(w, t, done);
    SeenRoots(t.kids);
  }

  lemma PartOf(w: World, t: Tree)
    requires Setup(w) && t.BranchT? && t in Branches(w.F)
    ensures Part(w, t)
  {
    BranchDistinct(w.F, t);
    BranchNodes(w.F, t);
  }

  lemma KidOfPlace(w: World, b: Tree, i: nat)
    requires Setup(w) && w.F.BranchT? && w.r < |w.F.kids| && VisitedPlace(w, b, i)
    ensures Part(w, b.kids[i]) && b.kids[i] != w.F && b.node in w.objects && b.kids[i].node in w.objects
    ensures b.kids[i].LeafT? <==> b.kids[i].node.IsComparison()
    ensures b.kids[i].BranchT? <==> b.kids[i].node.tag.GroupTag?
    ensures b.kids[i].node.IsComparison() || b.kids[i].node.tag.GroupTag?
  {
    hide Distinct, Nodes, Opened;
    EntryFacts(w, b, i);
    PartOf(w, b);
    KidIsPart(w, b, i);
    NotOutermost(w, b, i);
  }

  /** The calls of a container: its own before, those of its children, its own after. */
  lemma CallsOfBranch(w: World, b: Tree, i: nat)
    requires b.BranchT? && i < |b.kids| && b.kids[i].BranchT?
    ensures var t := b.kids[i];
            Calls(b.node, t, w.job) ==
              (if w.job.BeforeKids(t.node) then [OpCall(b.node, t.node)] else []) + KidCalls(t.node, t.kids, w.job) +
              (if w.job.AfterKids(t.node) then [OpCall(b.node, t.node)] else [])
  {
  }

  ghost function CallBefore(w: World, e: Ent): seq<Call>
    requires e.Fits()
  {
    if w.job.BeforeKids(e.Kid().node) then [OpCall(e.b.node, e.Kid().node)] else []
  }

  /** The stack after opening a container, and the calls it stands for. */
  ghost function Opening(w: World, gs: seq<Ent>, e: Ent): seq<Ent>
    requires e.Fits() && e.Kid().BranchT?
  {
    gs + (if w.job.AfterKids(e.Kid().node) then [Ent(e.b, e.i, false)] else []) + KidEnts(e.Kid(), 0)
  }

  lemma OpeningCalls(w: World, gs: seq<Ent>, e: Ent)
    requires Setup(w) && EntsOk(w, gs) && EntOk(w, e) && e.pre && e.Kid().BranchT?
    ensures EntsOk(w, Opening(w, gs, e))
    ensures CallBefore(w, e) + Pending(w, Opening(w, gs, e)) ==
            Calls(e.b.node, e.Kid(), w.job) + Pending(w, gs)
    ensures Weight(Opening(w, gs, e)) < Weight(gs) + 2 * Size(e.Kid())
  {
    hide Setup, Opened, Tagged, Distinct, Calls, Pending, Weight, Branches, Leaves;
    var t := e.Kid();
    EntryFacts(w, e.b, e.i);
    CallsOfBranch(w, e.b, e.i);
    var after := if w.job.AfterKids(t.node) then [Ent(e.b, e.i, false)] else [];
    if w.job.AfterKids(t.node) {
      PendingTop(w, gs, Ent(e.b, e.i, false));
    } else {
      assert gs + after == gs;
    }
    PendingKids(w, gs + after, t, 0);
    assert t.kids[0..] == t.kids;
    SizeOf(t);
  }

  lemma SizeOf(t: Tree)
    requires t.BranchT?
    ensures Size(t) == 1 + Sizes(t.kids)
  {
  }

  /** What holds whenever the loop looks at its stack. */
  ghost predicate Progressing(w: World, trace: seq<Call>, gs: seq<Ent>) {
    && EntsOk(w, gs) && w.F.BranchT? && w.r < |w.F.kids|
    && trace + Pending(w, gs) == AllCalls(w)
  }

  /** The popped entry, and what follows it. */
  lemma Popped(w: World, trace: seq<Call>, gs: seq<Ent>)
    requires Progressing(w, trace, gs) && gs != []
    ensures var e, rest := gs[|gs| - 1], gs[..|gs| - 1];
            && EntOk(w, e) && EntsOk(w, rest) && AllCalls(w) == trace + EntCalls(w, e) + Pending(w, rest)
            && Weight(gs) == EntWeight(e) + Weight(rest)
  {
    hide VisitedPlace, AllCalls, EntCalls;
    assert gs[|gs| - 1] in gs;
    var e, rest := gs[|gs| - 1], gs[..|gs| - 1];
    assert trace + (EntCalls(w, e) + Pending(w, rest)) == trace + EntCalls(w, e) + Pending(w, rest);
  }

  lemma EmptyStack(w: World, trace: seq<Call>)
    requires Setup(w) && Progressing(w, trace, [])
    ensures trace == AllCalls(w) && Done(trace, w.job) == Targets(Root(w), w.job)
  {
    hide Calls, Targets, Setup;
    assert trace + [] == trace;
    RootFacts(w);
    CallsOnce(w.F.node, Root(w), w.job);
  }

  /** The walk visits one comparison. */
  method TakeComparison(ghost w: World, ghost e: Ent, ghost rest: seq<Ent>, trace: seq<Call>,
                        parent: ExprNode, expression: ExprNode, job: Job) returns (trace': seq<Call>)
    requires Setup(w) && w.job == job && EntOk(w, e) && EntsOk(w, rest) && e.pre && e.Kid().LeafT?
    requires parent == e.b.node && expression == e.Kid().node
    requires AllCalls(w) == trace + EntCalls(w, e) + Pending(w, rest)
    requires Agrees(w, Now(w), Done(trace, job)) && Supplies(w, Now(w))
    modifies parent`items, expression`cmp
    ensures Progressing(w, trace', rest)
    ensures Agrees(w, Now(w), Done(trace', job)) && Supplies(w, Now(w))
  {
    hide Setup, Agrees, Supplies, Pending, Done, AllCalls, VisitedPlace;
    trace' := trace;
    if job.comparisons {
      ghost var call := CmpCall(parent, expression);
      assert EntCalls(w, e) == [call];
      AtCall(w, trace, call, Pending(w, rest), e.b, e.i);
      var _ := VisitComparison(w, e.b, e.i, Done(trace, job), parent, expression, job);
      trace' := trace + [CmpCall(parent, expression)];
    } else {
      assert EntCalls(w, e) == [];
      assert trace + [] == trace;
    }
  }

  /** The walk comes back to an operator. */
  method TakeOperator(ghost w: World, ghost e: Ent, ghost rest: seq<Ent>, trace: seq<Call>,
                      parent: ExprNode, expression: ExprNode, job: Job) returns (trace': seq<Call>)
    requires Setup(w) && w.job == job && EntOk(w, e) && EntsOk(w, rest) && !e.pre
    requires parent == e.b.node && expression == e.Kid().node
    requires AllCalls(w) == trace + EntCalls(w, e) + Pending(w, rest)
    requires Agrees(w, Now(w), Done(trace, job)) && Supplies(w, Now(w))
    modifies parent`items, expression`items
    ensures Progressing(w, trace', rest)
    ensures Agrees(w, Now(w), Done(trace', job)) && Supplies(w, Now(w))
  {
    hide Setup, Agrees, Supplies, Pending, AllCalls, VisitedPlace, Counted;
    ghost var call := OpCall(parent, expression);
    trace' := trace + [OpCall(parent, expression)];
    if job.operators == Simplifying {
      KidOfPlace(w, e.b, e.i);
      AtCall(w, trace, call, Pending(w, rest), e.b, e.i);
      BelowOfNodes(e.Kid(), Done(trace, job), job);
      var _ := VisitOperator(w, e.b, e.i, Done(trace, job), parent, expression);
    } else {
      NotCounted(trace, call, job);
    }
  }

  lemma BelowOfNodes(t: Tree, done: set<ExprNode>, job: Job)
    requires t.BranchT? && done * Nodes(t) == TargetsBelow(t, job)
    ensures done * Below(t) == TargetsBelow(t, job)
  {
    TargetsAreNodes(t, job);
  }

  lemma NotCounted(trace: seq<Call>, call: Call, job: Job)
    requires call.OpCall? && job.operators != Simplifying
    ensures Done(trace + [call], job) == Done(trace, job)
  {
    CountedConcat(trace, [call], job);
    assert [call][1..] == [];
    assert Counted([call], job) == [];
  }

  /** The walk opens a container: its call before the children, then the children on the stack. */
  method TakeContainer(ghost w: World, ghost e: Ent, ghost rest: seq<Ent>, trace: seq<Call>,
                       stack: seq<(ExprNode, ExprNode, bool)>, parent: ExprNode, expression: ExprNode, job: Job)
    returns (trace': seq<Call>, stack': seq<(ExprNode, ExprNode, bool)>)
    requires Setup(w) && w.job == job && EntOk(w, e) && EntsOk(w, rest) && e.pre && e.Kid().BranchT?
    requires Matches(w, stack, rest)
    requires parent == e.b.node && expression == e.Kid().node
    requires AllCalls(w) == trace + EntCalls(w, e) + Pending(w, rest)
    requires Agrees(w, Now(w), Done(trace, job)) && Supplies(w, Now(w))
    ensures Progressing(w, trace', Opening(w, rest, e)) && Matches(w, stack', Opening(w, rest, e))
    ensures Agrees(w, Now(w), Done(trace', job)) && Supplies(w, Now(w))
  {
    hide Setup, Agrees, Supplies, Pending, AllCalls, VisitedPlace, Counted, Done, Calls, PushAll;
    trace', stack' := trace, stack;
    OpeningChildren(w, e.b, e.i, trace, Pending(w, rest));
    OpeningCalls(w, rest, e);
    if job.BeforeKids(expression) {
      BeforeIsNotCounted(w, trace, OpCall(parent, expression));
      trace' := trace' + [OpCall(parent, expression)];
    }
    SameCalls(w, trace, rest, e);
    if job.AfterKids(expression) {
      stack' := stack' + [(parent, expression, false)];
    }
    stack' := PushChildren(stack', expression, Expressions(expression.items));
    OpeningMatches(w, stack, rest, e);
  }

  /** Pushes the children from the last to the first, so that the first one is popped first. */
  method PushChildren(stack: seq<(ExprNode, ExprNode, bool)>, parent: ExprNode, children: seq<ExprNode>)
    returns (stack': seq<(ExprNode, ExprNode, bool)>)
    ensures stack' == stack + PushAll(parent, children)
  {
    stack' := stack;
    for k := |children| downto 0
      invariant stack' == stack + PushAll(parent, children[k..])
    {
      assert children[k..][1..] == children[k + 1..];
      stack' := stack' + [(parent, children[k], true)];
    }
    assert children[0..] == children;
  }

  lemma BeforeIsNotCounted(w: World, trace: seq<Call>, call: Call)
    requires Setup(w) && call.OpCall? && w.job.BeforeKids(call.node)
    ensures Done(trace + [call], w.job) == Done(trace, w.job)
  {
    NotCounted(trace, call, w.job);
  }

  lemma SameCalls(w: World, trace: seq<Call>, rest: seq<Ent>, e: Ent)
    requires EntsOk(w, rest) && EntOk(w, e) && e.pre && e.Kid().BranchT? && EntsOk(w, Opening(w, rest, e))
    requires AllCalls(w) == trace + EntCalls(w, e) + Pending(w, rest)
    requires CallBefore(w, e) + Pending(w, Opening(w, rest, e)) ==
             Calls(e.b.node, e.Kid(), w.job) + Pending(w, rest)
    ensures Progressing(w, trace + CallBefore(w, e), Opening(w, rest, e))
  {
    hide VisitedPlace, AllCalls, Calls, Pending, Opening;
    var a := CallBefore(w, e);
    assert trace + a + Pending(w, Opening(w, rest, e)) == trace + (a + Pending(w, Opening(w, rest, e)));
    assert trace + EntCalls(w, e) + Pending(w, rest) == trace + (EntCalls(w, e) + Pending(w, rest));
  }

  lemma OpeningMatches(w: World, stack: seq<(ExprNode, ExprNode, bool)>, rest: seq<Ent>, e: Ent)
    requires Matches(w, stack, rest) && EntOk(w, e) && e.pre && e.Kid().BranchT? && EntsOk(w, Opening(w, rest, e))
    ensures var t := e.Kid();
            Matches(w,
              stack + (if w.job.AfterKids(t.node) then [(e.b.node, t.node, false)] else []) +
              PushAll(t.node, Roots(SeenTrees(t.kids))),
              Opening(w, rest, e))
  {
    hide VisitedPlace;
    PushedKids(e.Kid(), 0);
    assert e.Kid().kids[0..] == e.Kid().kids;
  }

  /** One round of the loop. */
  method Round(ghost w: World, ghost gs: seq<Ent>, trace: seq<Call>, stack: seq<(ExprNode, ExprNode, bool)>, job: Job)
    returns (trace': seq<Call>, stack': seq<(ExprNode, ExprNode, bool)>, ghost gs': seq<Ent>)
    requires Setup(w) && w.job == job && Progressing(w, trace, gs) && Matches(w, stack, gs) && stack != []
    requires Agrees(w, Now(w), Done(trace, job)) && Supplies(w, Now(w))
    modifies w.objects
    ensures Progressing(w, trace', gs') && Matches(w, stack', gs') && Weight(gs') < Weight(gs)
    ensures Agrees(w, Now(w), Done(trace', job)) && Supplies(w, Now(w))
  {
    hide Setup, Agrees, Supplies, Pending, VisitedPlace, Counted, Done, Calls, Opening, Weight, Size, AllCalls,
      EntCalls;
    Popped(w, trace, gs);
    var (parent, expression, isPreVisit) := stack[|stack| - 1];
    ghost var e, rest := gs[|gs| - 1], gs[..|gs| - 1];
    var left := stack[..|stack| - 1];
    KidOfPlace(w, e.b, e.i);
    EntWeightPositive(e);
    if expression.IsComparison() {
      trace' := TakeComparison(w, e, rest, trace, parent, expression, job);
      stack', gs' := left, rest;
    } else if expression.tag.GroupTag? {
      if isPreVisit {
        OpeningCalls(w, rest, e);
        trace', stack' := TakeContainer(w, e, rest, trace, left, parent, expression, job);
        gs' := Opening(w, rest, e);
      } else {
        trace' := TakeOperator(w, e, rest, trace, parent, expression, job);
        stack', gs' := left, rest;
      }
    } else {
      assert false; // a token is never on the stack
    }
  }

  /**
   Filter.walk. The calls are those of the recursive traversal of the tree as it was at the start,
   and the graph ends up as the recursive rewriting of that tree.
   */
  method Walk(ast: ExprNode, root: ExprNode, job: Job, ghost w: World) returns (trace: seq<Call>)
    requires Setup(w) && w.job == job && w.F.BranchT? && w.r < |w.F.kids| && ast == w.F.node && root == Root(w).node
    requires Models(w.F) && Supplies(w, Now(w))
    modifies w.objects
    ensures trace == Calls(ast, Root(w), job)
    ensures forall b <- Opened(Root(w)) | AndOrNot(b.node) :: Ordered(trace, b, job.operators, job.strategy)
    ensures forall c <- trace :: Known(c, Root(w), job)
    ensures Models(Outcome(w))
  {
    hide Setup, Agrees, Supplies, Pending, Counted, Done, Calls, Weight, Models, Outcome, Ordered, Known;
    trace := [];
    var stack := [(ast, root, true)];
    ghost var gs := [Ent(w.F, w.r, true)];
    StartAgrees(w);
    StartStack(w);
    while stack != []
      invariant Progressing(w, trace, gs) && Matches(w, stack, gs)
      invariant Agrees(w, Now(w), Done(trace, job)) && Supplies(w, Now(w))
      decreases Weight(gs)
    {
      trace, stack, gs := Round(w, gs, trace, stack, job);
    }
    EmptyStack(w, trace);
    OrderOfCalls(w);
    OutcomeModels(w, Done(trace, job));
  }

  lemma OrderOfCalls(w: World)
    requires Setup(w) && w.F.BranchT? && w.r < |w.F.kids|
    ensures forall b <- Opened(Root(w)) | AndOrNot(b.node) :: Ordered(AllCalls(w), b, w.job.operators, w.job.strategy)
    ensures forall c <- AllCalls(w) :: Known(c, Root(w), w.job)
  {
    hide Setup, Ordered, Known, Calls, Opened;
    RootFacts(w);
    OperatorsOrdered(w.F.node, Root(w), w.job);
    CallsKnown(w.F.node, Root(w), w.job);
  }

  lemma EntWeightPositive(e: Ent)
    ensures EntWeight(e) > 0
    ensures e.pre && e.Fits() ==> EntWeight(e) == 2 * Size(e.Kid())
  {
  }

  lemma StartStack(w: World)
    requires Setup(w) && w.F.BranchT? && w.r < |w.F.kids|
    ensures var gs := [Ent(w.F, w.r, true)];
            && Progressing(w, [], gs) && Matches(w, [(w.F.node, Root(w).node, true)], gs) && Done([], w.job) == {}
  {
    hide Calls;
    var e := Ent(w.F, w.r, true);
    assert EntOk(w, e);
    PendingTop(w, [], e);
    assert [] + [e] == [e];
    assert EntCalls(w, e) + [] == EntCalls(w, e) && [] + EntCalls(w, e) == EntCalls(w, e);
  }
}
