/**
 The explicit-stack walk over an expression graph, with the callbacks of a job rewriting the graph
 under it, proved against the recursive traversal and the recursive rewriting of the original tree.
 */
module FilterWalk {
  import opened Options
  import opened FilterTree
  import opened FilterMeaning
  import opened ExprNodes
  import opened Callbacks
  import opened FilterTrees

  /** The original tree with the syntax tree's container at its root, the job of the walk, and all objects involved. */
  datatype World = World(F: Tree, r: nat, job: Job, R: map<ExprNode, Tree>, objects: set<ExprNode>)

  /** The graph is a tree of distinct objects; what the callbacks bring in is new, except for the replaced object. */
  ghost predicate Setup(w: World) {
    && Nodes(w.F) <= w.objects
    && w.F.BranchT? && Tagged(w.F) && Distinct(w.F) && !w.F.node.IsOperator()
    && w.r < |w.F.kids| && !w.F.kids[w.r].SpaceT?
    && w.job.edit.Keys <= LeafObjects(w.F) && w.job.subst.Keys <= LeafObjects(w.F)
    && w.job.around.Keys <= LeafObjects(w.F)
    && (!w.job.comparisons ==> w.job.edit == map[] && w.job.subst == map[] && w.job.around == map[])
    && (w.job.operators == Simplifying ==> w.job.strategy == Post)
    && w.R.Keys == w.job.subst.Keys + AddedNodes(w.job) && AddedNodes(w.job) !! Nodes(w.F)
    && (forall n <- w.R.Keys :: Replacement(w, n))
    && (forall n <- w.R.Keys, m <- w.R.Keys | n != m :: Nodes(w.R[n]) !! Nodes(w.R[m]))
    && (forall a <- w.job.around.Keys :: EditsOnce(w.job, a))
    && (forall a <- w.job.around.Keys, b <- w.job.around.Keys | a != b ::
          Elements(NewNodes(w.job.around[a])) !! Elements(NewNodes(w.job.around[b])))
  }

  ghost function AddedNodes(job: Job): set<ExprNode> {
    set a, x | a in job.around.Keys && x in NewNodes(job.around[a]) :: x
  }

  /** A callback adds an object once, and takes its comparison out at most once, by removing or by replacing it. */
  ghost predicate EditsOnce(job: Job, a: ExprNode)
    requires a in job.around
  {
    && NoRepeats(NewNodes(job.around[a]))
    && (forall i, j :: 0 <= i < j < |job.around[a]| ==> !(job.around[a][i].Removed? && job.around[a][j].Removed?))
    && (a in job.subst ==> Removed !in job.around[a])
  }

  ghost predicate Replacement(w: World, n: ExprNode)
    requires n in w.R
  {
    && Tagged(w.R[n]) && Nodes(w.R[n]) <= w.objects
    && if n in w.job.subst
       then w.R[n].node == w.job.subst[n] && w.R[n].node !in Nodes(w.F) && Nodes(w.R[n]) * Nodes(w.F) <= {n}
       else w.R[n].node == n && Nodes(w.R[n]) !! Nodes(w.F)
  }

  ghost function LeafObjects(t: Tree): set<ExprNode> { set l | l in Leaves(t) :: l.node }

  // ----- the heap while the walk is under way -----

  ghost function Final(w: World, t: Tree): Tree { Result(t, w.job, w.R) }

  ghost function Finals(w: World, ts: seq<Tree>): (r: seq<Tree>)
    ensures |r| == |ts|
  {
    Results(ts, w.job, w.R)
  }

  ghost function Slot(w: World, t: Tree, done: set<ExprNode>): ExprNode {
    if t.node in done then Final(w, t).node else t.node
  }

  ghost function Slots(w: World, kids: seq<Tree>, done: set<ExprNode>): (r: seq<ExprNode>)
    ensures |r| == |kids| && forall i :: 0 <= i < |kids| ==> r[i] == Slot(w, kids[i], done)
  {
    seq(|kids|, i requires 0 <= i < |kids| => Slot(w, kids[i], done))
  }

  ghost function NodeAt(w: World, kids: seq<Tree>, e: Item, done: set<ExprNode>): ExprNode
    requires e.Kid? ==> e.k < |kids|
  {
    match e
    case Kid(k) => Slot(w, kids[k], done)
    case New(x) => x
  }

  ghost function ListNow(w: World, kids: seq<Tree>, entries: seq<Item>, done: set<ExprNode>): (r: seq<ExprNode>)
    requires Fits(entries, |kids|)
    ensures |r| == |entries|
  {
    seq(|entries|, i requires 0 <= i < |entries| =>
      assert entries[i] in entries;
      NodeAt(w, kids, entries[i], done))
  }

  ghost function LayoutNow(w: World, b: Tree, done: set<ExprNode>): (r: seq<Item>)
    requires b.BranchT?
    ensures Fits(r, |b.kids|)
  {
    LayoutFits(b.kids, |b.kids|, w.job, done);
    Layout(b.kids, |b.kids|, w.job, done)
  }

  /** The children of a container when all callbacks of its own children are over. */
  ghost function FinalKids(w: World, b: Tree): seq<Tree>
    requires b.BranchT?
  {
    Arranged(b.kids, Finals(w, b.kids), w.job, w.R, w.job.around.Keys)
  }

  /** The children of an original container after the callbacks of the objects in done. */
  ghost function ItemsNow(w: World, b: Tree, done: set<ExprNode>): seq<ExprNode>
    requires b.BranchT?
  {
    if w.job.Closes(b.node) && b.node in done then Roots(KeptTrees(FinalKids(w, b)))
    else ListNow(w, b.kids, LayoutNow(w, b, done), done)
  }

  ghost function CmpNow(w: World, l: Tree, done: set<ExprNode>): Cmp
    requires l.LeafT?
  {
    if l.node in done && l.node in w.job.edit then w.job.edit[l.node] else l.cmp
  }

  /** What the objects hold at one moment. */
  datatype Snapshot = Snapshot(items: map<ExprNode, seq<ExprNode>>, cmps: map<ExprNode, Cmp>)

  ghost function Now(w: World): (h: Snapshot)
    reads w.objects
    ensures h.items.Keys == h.cmps.Keys == w.objects
    ensures forall o <- w.objects :: h.items[o] == o.items && h.cmps[o] == o.cmp
  {
    Snapshot(map o | o in w.objects :: o.items, map o | o in w.objects :: o.cmp)
  }

  ghost predicate Agrees(w: World, h: Snapshot, done: set<ExprNode>) {
    && (forall b <- Branches(w.F) :: b.BranchT? && b.node in h.items && h.items[b.node] == ItemsNow(w, b, done))
    && (forall l <- Leaves(w.F) :: l.LeafT? && l.node in h.cmps && h.cmps[l.node] == CmpNow(w, l, done))
  }

  function Overlay(w: World, h: Snapshot, n: ExprNode): Cmp
    requires n in h.cmps
  {
    if n in w.job.edit then w.job.edit[n] else h.cmps[n]
  }

  /** The replacement trees are on the heap, up to the edits of the objects they reuse. */
  ghost predicate Supplies(w: World, h: Snapshot) {
    && (forall n, b | n in w.R && b in Branches(w.R[n]) ::
         b.BranchT? && b.node in h.items && h.items[b.node] == Roots(b.kids))
    && (forall n, l | n in w.R && l in Leaves(w.R[n]) :: l.LeafT? && l.node in h.cmps && l.cmp == Overlay(w, h, l.node))
  }

  // ----- where the objects of a result come from -----

  ghost predicate Swapped(w: World, n: ExprNode, x: ExprNode) { n in w.job.subst && n in w.R && x == w.R[n].node }

  /** The callback of n brings in x. */
  ghost predicate Brings(w: World, n: ExprNode, x: ExprNode) {
    || Swapped(w, n, x)
    || (n in w.job.around && x in NewNodes(w.job.around[n]))
  }

  ghost predicate Origin(w: World, x: ExprNode, t: Tree) {
    x in Nodes(t) || exists n :: n in Nodes(t) && Brings(w, n, x)
  }

  /** What is brought in is not of the tree, and the root of what R holds for it. */
  lemma Brought(w: World, n: ExprNode, x: ExprNode) returns (k: ExprNode)
    requires Setup(w) && Brings(w, n, x)
    ensures x !in Nodes(w.F) && k in w.R && x in Nodes(w.R[k]) && x == w.R[k].node
    ensures if Swapped(w, n, x) then k == n else n in w.job.around && k == x && x in NewNodes(w.job.around[n])
    ensures Swapped(w, n, x) ==> k in Nodes(w.F)
  {
    hide LeafObjects, Tagged, Distinct;
    k := if Swapped(w, n, x) then n else x;
    if !Swapped(w, n, x) {
      assert x in AddedNodes(w.job);
    }
    assert Replacement(w, k);
    NodeIn(w.R[k]);
    if k in w.job.subst {
      SubstIsOriginal(w, k);
    }
  }

  lemma SubstIsOriginal(w: World, n: ExprNode)
    requires Setup(w) && (n in w.job.subst || n in w.job.around || n in w.job.edit)
    ensures n in Nodes(w.F) && exists l :: l in Leaves(w.F) && l.node == n
  {
    var l :| l in Leaves(w.F) && l.node == n;
    LeafNodes(w.F, l);
  }

  lemma BroughtApart(w: World, n: ExprNode, x: ExprNode, m: ExprNode, y: ExprNode)
    requires Setup(w) && n != m && Brings(w, n, x) && Brings(w, m, y)
    ensures x != y
  {
    hide LeafObjects, Tagged, Distinct, Nodes, Brings, Swapped;
    var k := Brought(w, n, x);
    var k' := Brought(w, m, y);
    if !Swapped(w, n, x) && !Swapped(w, m, y) {
      assert x in Elements(NewNodes(w.job.around[n]));
      assert y in Elements(NewNodes(w.job.around[m]));
    }
  }

  lemma OriginWider(w: World, x: ExprNode, b: Tree, i: nat)
    requires b.BranchT? && i < |b.kids| && Origin(w, x, b.kids[i])
    ensures Origin(w, x, b)
  {
    KidBelow(b, i);
  }

  /** An element of an edited list: the tree of a child, or something a comparison in the list brought in. */
  lemma ArrangedKid(w: World, kids: seq<Tree>, trees: seq<Tree>, acting: set<ExprNode>, f: Tree) returns (i: nat)
    requires |trees| == |kids| && f in Arranged(kids, trees, w.job, w.R, acting)
    ensures i < |kids| && (f == trees[i] || AddedTree(w, kids[i], f))
  {
    LayoutFits(kids, |kids|, w.job, acting);
    var L, r := Layout(kids, |kids|, w.job, acting), Arranged(kids, trees, w.job, w.R, acting);
    var p :| 0 <= p < |r| && r[p] == f;
    LaidAt(L, trees, w.R, p);
    if L[p].Kid? {
      i := L[p].k;
    } else {
      i := NewFrom(kids, |kids|, w.job, acting, L[p].node);
      assert AddedAt(w, kids[i], L[p].node);
    }
  }

  ghost predicate AddedTree(w: World, t: Tree, f: Tree) {
    && t.LeafT? && t.node in w.job.around
    && exists x :: x in NewNodes(w.job.around[t.node]) && f == TreeOf(New(x), [], w.R)
  }

  /** What is new in a list was brought in by one of the comparisons in it. */
  lemma NewFrom(kids: seq<Tree>, k: nat, job: Job, acting: set<ExprNode>, x: ExprNode) returns (i: nat)
    requires k <= |kids| && New(x) in Layout(kids, k, job, acting)
    ensures i < k && BringsIn(kids[i], job, acting, x)
  {
    LayoutExact(kids, k, job, acting);
    i :| 0 <= i < k && BringsIn(kids[i], job, acting, x);
  }

  lemma {:induction false} ResultOrigin(w: World, t: Tree)
    requires Setup(w)
    ensures Origin(w, Final(w, t).node, t)
    decreases t
  {
    hide Setup, Brings, Arranged;
    NodeIn(t);
    if t.BranchT? {
      var f := Final(w, t);
      if f.node != t.node {
        SeenMember(KeptTrees(FinalKids(w, t)), f);
        KeptMember(FinalKids(w, t), f);
        var i := ArrangedKid(w, t.kids, Finals(w, t.kids), w.job.around.Keys, f);
        if f == Finals(w, t.kids)[i] {
          assert Seen(t.kids[i]);
          ResultOrigin(w, t.kids[i]);
        } else {
          NewOrigin(w, t.kids[i], f);
        }
        OriginWider(w, f.node, t, i);
      }
    } else if t.LeafT? && t.node in w.R {
      LeafBrings(w, t);
    }
  }

  lemma LeafBrings(w: World, t: Tree)
    requires Setup(w) && t.LeafT? && t.node in w.R
    ensures Origin(w, w.R[t.node].node, t)
  {
    NodeIn(t);
    assert Replacement(w, t.node);
    if t.node in w.job.subst {
      assert Brings(w, t.node, w.R[t.node].node);
    }
  }

  lemma NewOrigin(w: World, t: Tree, f: Tree)
    requires Setup(w) && AddedTree(w, t, f)
    ensures Origin(w, f.node, t)
  {
    NodeIn(t);
    var x :| x in NewNodes(w.job.around[t.node]) && f == TreeOf(New(x), [], w.R);
    AddedRoot(w, t.node, x);
    assert Brings(w, t.node, x);
  }

  lemma OriginsApart(w: World, b: Tree, i: nat, j: nat, x: ExprNode, y: ExprNode)
    requires Setup(w) && b in Branches(w.F) && b.BranchT? && i < |b.kids| && j < |b.kids| && i != j
    requires Origin(w, x, b.kids[i]) && Origin(w, y, b.kids[j])
    ensures x != y
  {
    hide Below, Branches, Distinct, Tagged, Leaves, LeafObjects, Brings, Setup;
    BranchDistinctIn(w, b);
    KidBelow(b, i);
    KidBelow(b, j);
    KidsApart(b, i, j);
    Supplied(w, x, b.kids[i]);
    Supplied(w, y, b.kids[j]);
    if x !in Nodes(b.kids[i]) && y !in Nodes(b.kids[j]) {
      var n :| n in Nodes(b.kids[i]) && Brings(w, n, x);
      var m :| m in Nodes(b.kids[j]) && Brings(w, m, y);
      BroughtApart(w, n, x, m, y);
    }
  }

  lemma BranchDistinctIn(w: World, b: Tree)
    requires Setup(w) && b in Branches(w.F)
    ensures b.BranchT? && Distinct(b) && Tagged(b) && Nodes(b) <= Nodes(w.F) && Below(b) <= Nodes(w.F)
  {
    BranchDistinct(w.F, b);
    BranchNodes(w.F, b);
  }

  /** An object that is not of the tree was brought in, and is new. */
  lemma Supplied(w: World, x: ExprNode, t: Tree)
    requires Setup(w) && Origin(w, x, t)
    ensures x in Nodes(t) || x !in Nodes(w.F)
  {
    hide Brings, Setup;
    if x !in Nodes(t) {
      var n :| n in Nodes(t) && Brings(w, n, x);
      var k := Brought(w, n, x);
    }
  }

  lemma NoRepeatsSlots(w: World, b: Tree, done: set<ExprNode>)
    requires Setup(w) && b in Branches(w.F) && b.BranchT?
    ensures NoRepeats(Slots(w, b.kids, done))
  {
    hide Setup, Origin, Final;
    var s := Slots(w, b.kids, done);
    forall i, j | 0 <= i < j < |s| ensures s[i] != s[j] {
      SlotOrigin(w, b.kids[i], done);
      SlotOrigin(w, b.kids[j], done);
      OriginsApart(w, b, i, j, s[i], s[j]);
    }
  }

  lemma SlotOrigin(w: World, t: Tree, done: set<ExprNode>)
    requires Setup(w)
    ensures Origin(w, Slot(w, t, done), t)
  {
    hide Setup;
    NodeIn(t);
    ResultOrigin(w, t);
  }

  // ----- lists that are edited while they are walked -----

  /** Every entry once, and what is new was added by a comparison in the list. */
  ghost predicate Tidy(w: World, kids: seq<Tree>, entries: seq<Item>) {
    && Fits(entries, |kids|)
    && (forall i, j :: 0 <= i < j < |entries| ==> entries[i] != entries[j])
    && (forall e <- entries :: e.New? ==> AddedAmong(w, kids, e.node))
  }

  ghost predicate AddedAmong(w: World, kids: seq<Tree>, x: ExprNode) {
    exists k :: 0 <= k < |kids| && AddedAt(w, kids[k], x)
  }

  ghost predicate AddedAt(w: World, t: Tree, x: ExprNode) {
    t.LeafT? && t.node in w.job.around && x in NewNodes(w.job.around[t.node])
  }

  /** What a comparison adds is none of the objects in the places of the children. */
  lemma AddedIsNoSlot(w: World, b: Tree, k: nat, x: ExprNode, i: nat, done: set<ExprNode>)
    requires Setup(w) && b in Branches(w.F) && b.BranchT? && k < |b.kids| && i < |b.kids| && AddedAt(w, b.kids[k], x)
    ensures Slot(w, b.kids[i], done) != x
  {
    hide Setup, Final, Nodes, Below, Branches, Swapped;
    var n := b.kids[k].node;
    NodeIn(b.kids[k]);
    assert Brings(w, n, x) && Origin(w, x, b.kids[k]);
    if i != k {
      SlotOrigin(w, b.kids[i], done);
      OriginsApart(w, b, i, k, Slot(w, b.kids[i], done), x);
    } else {
      OwnSlot(w, b, k, x, done);
    }
  }

  lemma OwnSlot(w: World, b: Tree, k: nat, x: ExprNode, done: set<ExprNode>)
    requires Setup(w) && b in Branches(w.F) && b.BranchT? && k < |b.kids| && AddedAt(w, b.kids[k], x)
    ensures Slot(w, b.kids[k], done) != x
  {
    hide Distinct, Tagged, LeafObjects, Branches;
    var t := b.kids[k];
    BranchDistinctIn(w, b);
    KidBelow(b, k);
    AddedRoot(w, t.node, x);
    NodeIn(w.R[x]);
    if t.node in w.R {
      NodeIn(w.R[t.node]);
      assert Nodes(w.R[t.node]) !! Nodes(w.R[x]);
    }
  }

  lemma AddedRoot(w: World, a: ExprNode, x: ExprNode)
    requires Setup(w) && a in w.job.around && x in NewNodes(w.job.around[a])
    ensures x in w.R && x !in w.job.subst && w.R[x].node == x && Nodes(w.R[x]) !! Nodes(w.F) && x !in Nodes(w.F)
  {
    hide Distinct, Tagged, LeafObjects;
    assert x in AddedNodes(w.job);
    assert Replacement(w, x);
    NotSubst(w, x);
  }

  lemma NotSubst(w: World, x: ExprNode)
    requires Setup(w) && x !in Nodes(w.F)
    ensures x !in w.job.subst && x !in w.job.around && x !in w.job.edit
  {
    forall l <- Leaves(w.F) ensures l.node != x {
      LeafNodes(w.F, l);
    }
  }

  lemma TidyDistinct(w: World, b: Tree, entries: seq<Item>, done: set<ExprNode>)
    requires Setup(w) && b in Branches(w.F) && b.BranchT? && Tidy(w, b.kids, entries)
    ensures NoRepeats(ListNow(w, b.kids, entries, done))
  {
    hide Setup, Final, Slot, AddedAt, Branches;
    NoRepeatsSlots(w, b, done);
    var s := ListNow(w, b.kids, entries, done);
    forall i, j | 0 <= i < j < |s| ensures s[i] != s[j] {
      EntriesApart(w, b, entries, done, i, j);
    }
  }

  lemma EntriesApart(w: World, b: Tree, entries: seq<Item>, done: set<ExprNode>, i: nat, j: nat)
    requires Setup(w) && b in Branches(w.F) && b.BranchT? && Tidy(w, b.kids, entries) && i < j < |entries|
    requires NoRepeats(Slots(w, b.kids, done))
    ensures ListNow(w, b.kids, entries, done)[i] != ListNow(w, b.kids, entries, done)[j]
  {
    hide Setup, Final, Slot, AddedAt, Branches;
    var e, f := entries[i], entries[j];
    assert e in entries && f in entries;
    if e.Kid? && f.Kid? {
      var s := Slots(w, b.kids, done);
      assert s[e.k] != s[f.k];
    } else if e.Kid? {
      var k :| 0 <= k < |b.kids| && AddedAt(w, b.kids[k], f.node);
      AddedIsNoSlot(w, b, k, f.node, e.k, done);
    } else if f.Kid? {
      var k :| 0 <= k < |b.kids| && AddedAt(w, b.kids[k], e.node);
      AddedIsNoSlot(w, b, k, e.node, f.k, done);
    }
  }

  /** The same edits on the objects themselves. */
  function ListEdited(items: seq<ExprNode>, n: ExprNode, es: seq<ListEdit>): seq<ExprNode>
    decreases |es|
  {
    if es == [] then items else ListEdited(OnceEdited(items, n, es[0]), n, es[1..])
  }

  function OnceEdited(items: seq<ExprNode>, n: ExprNode, e: ListEdit): seq<ExprNode> {
    match e
    case Appended(x) => items + [x]
    case Inserted(x, index) => PutIn(items, x, index)
    case Removed => TakenFrom(items, n)
  }

  /** Every removal finds the comparison. */
  predicate AllFound(items: seq<ExprNode>, n: ExprNode, es: seq<ListEdit>)
    decreases |es|
  {
    es == [] || ((es[0].Removed? ==> n in items) && AllFound(OnceEdited(items, n, es[0]), n, es[1..]))
  }

  /** No entry of these edits is in the list yet. */
  ghost predicate Fresh(entries: seq<Item>, k: nat, es: seq<ListEdit>) {
    && NoRepeats(NewNodes(es)) && (forall x <- NewNodes(es) :: New(x) !in entries)
    && (forall i, j :: 0 <= i < j < |es| ==> !(es[i].Removed? && es[j].Removed?))
    && (Removed in es ==> Kid(k) in entries)
  }

  lemma PutInOnce(entries: seq<Item>, e: Item, index: int)
    requires (forall i, j :: 0 <= i < j < |entries| ==> entries[i] != entries[j]) && e !in entries
    ensures var r := PutIn(entries, e, index); forall i, j :: 0 <= i < j < |r| ==> r[i] != r[j]
  {
    var r, at := PutIn(entries, e, index), InsertAt(|entries|, index);
    assert forall i :: 0 <= i < at ==> r[i] == entries[i];
    assert r[at] == e;
    assert forall i :: at < i < |r| ==> r[i] == entries[i - 1];
  }

  /** What one edit keeps of a tidy list. */
  ghost predicate StaysTidy(w: World, b: Tree, entries: seq<Item>, k: nat, rest: seq<ListEdit>) {
    && b.BranchT? && Tidy(w, b.kids, entries) && Fresh(entries, k, rest)
  }

  lemma AppendStep(w: World, b: Tree, entries: seq<Item>, k: nat, x: ExprNode, rest: seq<ListEdit>, done: set<ExprNode>)
    requires b.BranchT? && Tidy(w, b.kids, entries) && Fresh(entries, k, [Appended(x)] + rest)
    requires AddedAmong(w, b.kids, x)
    ensures StaysTidy(w, b, entries + [New(x)], k, rest)
    ensures ListNow(w, b.kids, entries + [New(x)], done) == ListNow(w, b.kids, entries, done) + [x]
  {
    hide Slot, AddedAmong;
    FreshRest(entries, k, Appended(x), rest);
    var r := entries + [New(x)];
    assert forall i :: 0 <= i < |entries| ==> r[i] == entries[i];
    assert r[|entries|] == New(x);
  }

  lemma InsertStep(w: World, b: Tree, entries: seq<Item>, k: nat, x: ExprNode, index: int, rest: seq<ListEdit>,
                   done: set<ExprNode>)
    requires b.BranchT? && Tidy(w, b.kids, entries) && Fresh(entries, k, [Inserted(x, index)] + rest)
    requires AddedAmong(w, b.kids, x)
    ensures StaysTidy(w, b, PutIn(entries, New(x), index), k, rest)
    ensures ListNow(w, b.kids, PutIn(entries, New(x), index), done) ==
              PutIn(ListNow(w, b.kids, entries, done), x, index)
  {
    hide Slot, AddedAmong, ListNow, PutIn;
    FreshRest(entries, k, Inserted(x, index), rest);
    PutInOnce(entries, New(x), index);
    PutInMembers(entries, New(x), index);
    var r := PutIn(entries, New(x), index);
    assert Fits(r, |b.kids|);
    assert Tidy(w, b.kids, r);
    assert Fresh(r, k, rest);
    InsertNow(w, b, entries, x, index, done);
  }

  lemma InsertNow(w: World, b: Tree, entries: seq<Item>, x: ExprNode, index: int, done: set<ExprNode>)
    requires b.BranchT? && Fits(entries, |b.kids|) && Fits(PutIn(entries, New(x), index), |b.kids|)
    ensures ListNow(w, b.kids, PutIn(entries, New(x), index), done) ==
              PutIn(ListNow(w, b.kids, entries, done), x, index)
  {
    hide Slot;
    var r, at := PutIn(entries, New(x), index), InsertAt(|entries|, index);
    assert r[at] == New(x);
    assert forall i :: 0 <= i < at ==> r[i] == entries[i];
    assert forall i :: at < i < |r| ==> r[i] == entries[i - 1];
  }

  lemma RemoveStep(w: World, b: Tree, entries: seq<Item>, k: nat, rest: seq<ListEdit>, done: set<ExprNode>)
    requires Setup(w) && b in Branches(w.F) && b.BranchT? && k < |b.kids|
    requires Tidy(w, b.kids, entries) && Fresh(entries, k, [Removed] + rest)
    ensures StaysTidy(w, b, TakenFrom(entries, Kid(k)), k, rest)
    ensures ListNow(w, b.kids, TakenFrom(entries, Kid(k)), done) ==
            TakenFrom(ListNow(w, b.kids, entries, done), Slot(w, b.kids[k], done))
    ensures Slot(w, b.kids[k], done) in ListNow(w, b.kids, entries, done)
  {
    hide Setup, Slot, AddedAmong, Branches, ListNow, TakenFrom;
    FreshRest(entries, k, Removed, rest);
    var p := Position(entries, Kid(k));
    TakenFromPlace(entries, p);
    WithoutOnce(entries, p);
    TidyDistinct(w, b, entries, done);
    RemoveNow(w, b, entries, k, p, done);
  }

  lemma WithoutOnce(entries: seq<Item>, p: nat)
    requires (forall i, j :: 0 <= i < j < |entries| ==> entries[i] != entries[j]) && p < |entries|
    ensures var r := entries[..p] + entries[p + 1..]; forall i, j :: 0 <= i < j < |r| ==> r[i] != r[j]
  {
    var r := entries[..p] + entries[p + 1..];
    assert forall i :: 0 <= i < p ==> r[i] == entries[i];
    assert forall i :: p <= i < |r| ==> r[i] == entries[i + 1];
  }

  lemma RemoveNow(w: World, b: Tree, entries: seq<Item>, k: nat, p: nat, done: set<ExprNode>)
    requires b.BranchT? && k < |b.kids| && Fits(entries, |b.kids|) && p < |entries| && entries[p] == Kid(k)
    requires NoRepeats(ListNow(w, b.kids, entries, done)) && Fits(entries[..p] + entries[p + 1..], |b.kids|)
    ensures ListNow(w, b.kids, entries[..p] + entries[p + 1..], done) ==
            TakenFrom(ListNow(w, b.kids, entries, done), Slot(w, b.kids[k], done))
    ensures Slot(w, b.kids[k], done) in ListNow(w, b.kids, entries, done)
  {
    hide Slot;
    var items, r := ListNow(w, b.kids, entries, done), entries[..p] + entries[p + 1..];
    PositionIs(items, p);
    assert items[p] == Slot(w, b.kids[k], done);
    assert forall i :: 0 <= i < p ==> r[i] == entries[i];
    assert forall i :: p <= i < |r| ==> r[i] == entries[i + 1];
  }

  /** A whole list of edits, on entries and on objects. */
  lemma {:induction false} EditSteps(w: World, b: Tree, entries: seq<Item>, k: nat, es: seq<ListEdit>,
                                     done: set<ExprNode>)
    requires Setup(w) && b in Branches(w.F) && b.BranchT? && k < |b.kids|
    requires Tidy(w, b.kids, entries) && Fresh(entries, k, es) && forall x <- NewNodes(es) :: AddedAmong(w, b.kids, x)
    ensures Tidy(w, b.kids, EditedBy(entries, k, es))
    ensures ListNow(w, b.kids, EditedBy(entries, k, es), done) ==
            ListEdited(ListNow(w, b.kids, entries, done), Slot(w, b.kids[k], done), es)
    ensures AllFound(ListNow(w, b.kids, entries, done), Slot(w, b.kids[k], done), es)
    decreases |es|
  {
    hide Setup, Slot, AddedAmong, Branches, Tidy, Fresh, ListNow;
    if es != [] {
      var e, rest := es[0], es[1..];
      assert es == [e] + rest;
      FirstIsNew(es);
      match e {
        case Appended(x) => AppendStep(w, b, entries, k, x, rest, done);
        case Inserted(x, index) => InsertStep(w, b, entries, k, x, index, rest, done);
        case Removed => RemoveStep(w, b, entries, k, rest, done);
      }
      EditSteps(w, b, Edited(entries, k, e), k, rest, done);
    }
  }

  lemma FirstIsNew(es: seq<ListEdit>)
    requires es != []
    ensures !es[0].Removed? ==> es[0].node in NewNodes(es)
    ensures forall x <- NewNodes(es[1..]) :: x in NewNodes(es)
  {
  }

  lemma FreshRest(entries: seq<Item>, k: nat, e: ListEdit, rest: seq<ListEdit>)
    requires Fresh(entries, k, [e] + rest)
    ensures NoRepeats(NewNodes(rest)) && (forall x <- NewNodes(rest) :: New(x) !in entries)
    ensures forall i, j :: 0 <= i < j < |rest| ==> !(rest[i].Removed? && rest[j].Removed?)
    ensures e.Removed? ==> Removed !in rest && Kid(k) in entries
    ensures Removed in rest ==> Kid(k) in entries
    ensures !e.Removed? ==> e.node !in NewNodes(rest) && New(e.node) !in entries
  {
    var es := [e] + rest;
    assert es[1..] == rest && es[0] == e;
    assert forall i :: 0 <= i < |rest| ==> es[i + 1] == rest[i];
    assert e.Removed? ==> forall i :: 0 <= i < |rest| ==> !rest[i].Removed?;
    NewFirst(es);
  }

  lemma NewFirst(es: seq<ListEdit>)
    requires es != [] && NoRepeats(NewNodes(es))
    ensures NoRepeats(NewNodes(es[1..])) && forall x <- NewNodes(es[1..]) :: x in NewNodes(es)
    ensures !es[0].Removed? ==> es[0].node in NewNodes(es) && es[0].node !in NewNodes(es[1..])
  {
    var all, rest := NewNodes(es), NewNodes(es[1..]);
    if es[0].Removed? {
      assert all == rest;
    } else {
      assert all == [es[0].node] + rest;
      assert all[0] == es[0].node && forall i :: 0 <= i < |rest| ==> all[i + 1] == rest[i];
    }
  }

  lemma PositionIs(s: seq<ExprNode>, i: nat)
    requires NoRepeats(s) && i < |s|
    ensures Position(s, s[i]) == i
  {
  }

  // ----- one callback -----

  /** The place in the tree that a callback works on. */
  ghost predicate Place(w: World, b: Tree, i: nat, done: set<ExprNode>) {
    && b in Branches(w.F) && b.BranchT? && i < |b.kids|
    && b.node !in done && b.kids[i].node !in done
    && (b.kids[i].LeafT? ==> forall j | i < j < |b.kids| && b.kids[j].LeafT? :: b.kids[j].node !in done)
  }

  lemma {:induction false} LayoutAgrees(kids: seq<Tree>, k: nat, job: Job, a: set<ExprNode>, b: set<ExprNode>)
    requires k <= |kids| && forall t <- kids :: Acts(t, job, a) == Acts(t, job, b)
    ensures Layout(kids, k, job, a) == Layout(kids, k, job, b)
  {
    if k > 0 {
      LayoutAgrees(kids, k - 1, job, a, b);
      assert kids[k - 1] in kids;
    }
  }

  /** The next comparison of a list to act edits what the earlier ones left. */
  lemma {:induction false} LayoutMore(kids: seq<Tree>, k: nat, job: Job, done: set<ExprNode>, i: nat)
    requires i < |kids| && k <= |kids| && kids[i].LeafT? && kids[i].node !in done
    requires forall j :: 0 <= j < |kids| && j != i ==> kids[j].node != kids[i].node
    requires forall j :: i < j < |kids| && kids[j].LeafT? ==> kids[j].node !in done
    ensures var n := kids[i].node;
            Layout(kids, k, job, done + {n}) ==
            if k > i && n in job.around
            then EditedBy(Layout(kids, k, job, done), i, job.around[n])
            else Layout(kids, k, job, done)
  {
    if k > 0 {
      LayoutMore(kids, k - 1, job, done, i);
    }
  }

  lemma KidsDiffer(w: World, b: Tree, i: nat)
    requires Setup(w) && b in Branches(w.F) && b.BranchT? && i < |b.kids|
    ensures forall j :: 0 <= j < |b.kids| && j != i ==> b.kids[j].node != b.kids[i].node
    ensures b.node != b.kids[i].node
  {
    hide Setup, Branches, Leaves;
    BranchDistinctIn(w, b);
    KidBelow(b, i);
    RootApart(b);
    forall j | 0 <= j < |b.kids| && j != i ensures b.kids[j].node != b.kids[i].node {
      KidsApart(b, i, j);
      KidBelow(b, j);
    }
  }

  /** The list is tidy at every moment. */
  lemma {:induction false} LayoutTidy(w: World, b: Tree, k: nat, done: set<ExprNode>)
    requires Setup(w) && b in Branches(w.F) && b.BranchT? && k <= |b.kids|
    ensures Tidy(w, b.kids, Layout(b.kids, k, w.job, done))
  {
    hide Setup, Branches, Tidy;
    if k > 0 {
      LayoutTidy(w, b, k - 1, done);
      TidyStep(w, b, k - 1, done);
    } else {
      KidsTidy(w, b.kids);
    }
  }

  lemma TidyStep(w: World, b: Tree, k: nat, done: set<ExprNode>)
    requires Setup(w) && b in Branches(w.F) && b.BranchT? && k < |b.kids|
    requires Tidy(w, b.kids, Layout(b.kids, k, w.job, done))
    ensures Tidy(w, b.kids, Layout(b.kids, k + 1, w.job, done))
  {
    hide Setup, Branches, Tidy, Fresh, EditedBy, NewNodes, InOrder, TakesOut, BringsIn, AddedAmong, ListEdited, ListNow;
    if Acts(b.kids[k], w.job, done) {
      LayoutExact(b.kids, k, w.job, done);
      FreshEdits(w, b, k, k, done);
      EditSteps(w, b, Layout(b.kids, k, w.job, done), k, w.job.around[b.kids[k].node], done);
    }
  }

  lemma KidsTidy(w: World, kids: seq<Tree>)
    ensures Tidy(w, kids, Kids(|kids|))
  {
  }

  lemma FreshEdits(w: World, b: Tree, m: nat, k: nat, done: set<ExprNode>)
    requires Setup(w) && b in Branches(w.F) && b.BranchT? && m <= |b.kids| && k < |b.kids|
    requires b.kids[k].LeafT? && b.kids[k].node in w.job.around && Kid(k) in Layout(b.kids, m, w.job, done)
    requires k < m ==> b.kids[k].node !in done
    ensures Fresh(Layout(b.kids, m, w.job, done), k, w.job.around[b.kids[k].node])
    ensures forall x <- NewNodes(w.job.around[b.kids[k].node]) :: AddedAmong(w, b.kids, x)
  {
    hide Nodes, Branches, Distinct, Tagged, LeafObjects;
    var n := b.kids[k].node;
    KidsDiffer(w, b, k);
    assert EditsOnce(w.job, n);
    forall x <- NewNodes(w.job.around[n])
      ensures New(x) !in Layout(b.kids, m, w.job, done) && AddedAmong(w, b.kids, x)
    {
      assert AddedAt(w, b.kids[k], x);
      if New(x) in Layout(b.kids, m, w.job, done) {
        var i := NewFrom(b.kids, m, w.job, done, x);
        AddedTwice(w, b.kids[i].node, n, x);
      }
    }
  }

  lemma AddedTwice(w: World, a: ExprNode, b: ExprNode, x: ExprNode)
    requires Setup(w) && a in w.job.around && b in w.job.around
    requires x in NewNodes(w.job.around[a]) && x in NewNodes(w.job.around[b])
    ensures a == b
  {
    assert x in Elements(NewNodes(w.job.around[a])) && x in Elements(NewNodes(w.job.around[b]));
  }

  lemma ItemsElsewhere(w: World, b: Tree, i: nat, c: Tree, done: set<ExprNode>)
    requires Setup(w) && b in Branches(w.F) && b.BranchT? && i < |b.kids|
    requires c in Branches(w.F) && c.BranchT? && c != b && c.node != b.kids[i].node
    ensures ItemsNow(w, c, done + {b.kids[i].node}) == ItemsNow(w, c, done)
  {
    hide Final, FinalKids;
    var n := b.kids[i].node;
    forall j | 0 <= j < |c.kids| ensures c.kids[j].node != n {
      if c.kids[j].node == n {
        KidUnique(w.F, c, j, b, i);
      }
    }
    LayoutAgrees(c.kids, |c.kids|, w.job, done + {n}, done);
    assert ListNow(w, c.kids, LayoutNow(w, c, done), done + {n}) == ListNow(w, c.kids, LayoutNow(w, c, done), done);
  }

  /** What the callback of a comparison makes of its list. */
  function LeafTurn(items: seq<ExprNode>, n: ExprNode, job: Job): seq<ExprNode> {
    var edited := if n in job.around then ListEdited(items, n, job.around[n]) else items;
    if n in job.subst && n in edited then edited[Position(edited, n) := job.subst[n]] else edited
  }

  /** The comparison stands in its list whenever its callback removes or replaces it. */
  predicate TurnFinds(items: seq<ExprNode>, n: ExprNode, job: Job) {
    && (n in job.around ==> AllFound(items, n, job.around[n]))
    && (n in job.subst ==> n in if n in job.around then ListEdited(items, n, job.around[n]) else items)
  }

  /** The place of one child among the objects. */
  lemma SlotChange(w: World, b: Tree, entries: seq<Item>, i: nat, done: set<ExprNode>)
    requires Setup(w) && b in Branches(w.F) && b.BranchT? && i < |b.kids| && b.kids[i].node !in done
    requires Tidy(w, b.kids, entries)
    ensures var n, items := b.kids[i].node, ListNow(w, b.kids, entries, done);
            && (Kid(i) in entries ==>
                 && Position(items, n) < |items|
                 && ListNow(w, b.kids, entries, done + {n}) == items[Position(items, n) := Final(w, b.kids[i]).node])
            && (Kid(i) !in entries ==> ListNow(w, b.kids, entries, done + {n}) == items)
  {
    hide Setup, Final, AddedAmong, Branches;
    var n := b.kids[i].node;
    var items, after := ListNow(w, b.kids, entries, done), ListNow(w, b.kids, entries, done + {n});
    KidsDiffer(w, b, i);
    TidyDistinct(w, b, entries, done);
    forall p | 0 <= p < |entries| && entries[p] != Kid(i) ensures after[p] == items[p] {
      assert entries[p] in entries;
    }
    if Kid(i) in entries {
      var p :| 0 <= p < |entries| && entries[p] == Kid(i);
      assert items[p] == n;
      PositionIs(items, p);
      assert after[p] == Final(w, b.kids[i]).node;
    }
  }

  /** The list before and after the callback of a child. */
  lemma ItemsHere(w: World, b: Tree, i: nat, done: set<ExprNode>)
    requires Setup(w) && Place(w, b, i, done)
    ensures var n, items := b.kids[i].node, ItemsNow(w, b, done);
            ItemsNow(w, b, done + {n}) ==
            if b.kids[i].LeafT? then LeafTurn(items, n, w.job)
            else if n in items then items[Position(items, n) := Final(w, b.kids[i]).node] else items
    ensures if b.kids[i].LeafT? then TurnFinds(ItemsNow(w, b, done), b.kids[i].node, w.job)
            else b.kids[i].node in ItemsNow(w, b, done)
  {
    hide Setup, Final, Branches, FinalKids, ListNow, Layout, LeafTurn, TurnFinds, Tidy;
    var n, L := b.kids[i].node, LayoutNow(w, b, done);
    KidsDiffer(w, b, i);
    LayoutTidy(w, b, |b.kids|, done);
    if b.kids[i].LeafT? {
      LeafHere(w, b, i, done);
    } else {
      forall t <- b.kids ensures Acts(t, w.job, done + {n}) == Acts(t, w.job, done) {
        var j :| 0 <= j < |b.kids| && b.kids[j] == t;
      }
      LayoutAgrees(b.kids, |b.kids|, w.job, done + {n}, done);
      StillThere(w, b, i, done);
      SlotChange(w, b, L, i, done);
    }
  }

  /** A child is in the list until its own callback takes it out. */
  lemma StillThere(w: World, b: Tree, i: nat, done: set<ExprNode>)
    requires b.BranchT? && i < |b.kids| && (!b.kids[i].LeafT? || b.kids[i].node !in done)
    ensures Kid(i) in LayoutNow(w, b, done) && InOrder(LayoutNow(w, b, done))
  {
    LayoutExact(b.kids, |b.kids|, w.job, done);
  }

  lemma LeafHere(w: World, b: Tree, i: nat, done: set<ExprNode>)
    requires Setup(w) && Place(w, b, i, done) && b.kids[i].LeafT?
    ensures var n, items := b.kids[i].node, ListNow(w, b.kids, LayoutNow(w, b, done), done);
            && ListNow(w, b.kids, LayoutNow(w, b, done + {n}), done + {n}) == LeafTurn(items, n, w.job)
            && TurnFinds(items, n, w.job)
  {
    hide Setup, Final, Branches, ListNow, Layout, Tidy, AllFound, ListEdited;
    var n, L := b.kids[i].node, LayoutNow(w, b, done);
    var items := ListNow(w, b.kids, L, done);
    KidsDiffer(w, b, i);
    StillThere(w, b, i, done);
    LayoutTidy(w, b, |b.kids|, done);
    LayoutMore(b.kids, |b.kids|, w.job, done, i);
    LeafFinal(w, b, i);
    var L' := L;
    if n in w.job.around {
      FreshEdits(w, b, |b.kids|, i, done);
      EditSteps(w, b, L, i, w.job.around[n], done);
      EditedByExact(L, i, w.job.around[n]);
      L' := EditedBy(L, i, w.job.around[n]);
      SwapStays(w, n);
    }
    SlotChange(w, b, L', i, done);
  }

  lemma SwapStays(w: World, n: ExprNode)
    requires Setup(w) && n in w.job.around
    ensures n in w.job.subst ==> Removed !in w.job.around[n]
  {
    assert EditsOnce(w.job, n);
  }

  lemma LeafFinal(w: World, b: Tree, i: nat)
    requires Setup(w) && b in Branches(w.F) && b.BranchT? && i < |b.kids| && b.kids[i].LeafT?
    ensures var n := b.kids[i].node; Final(w, b.kids[i]).node == if n in w.job.subst then w.job.subst[n] else n
  {
    hide Distinct, Tagged, LeafObjects, Branches;
    var n := b.kids[i].node;
    BranchDistinctIn(w, b);
    KidBelow(b, i);
    if n in w.R {
      assert Replacement(w, n);
    }
  }

  lemma LeafIsNoBranch(w: World, b: Tree, i: nat, c: Tree)
    requires Setup(w) && b in Branches(w.F) && b.BranchT? && i < |b.kids| && b.kids[i].LeafT?
    requires c in Branches(w.F)
    ensures c.BranchT? && c.node != b.kids[i].node
    ensures b.kids[i] in Leaves(w.F)
  {
    BranchDistinct(w.F, b);
    BranchDistinct(w.F, c);
    BranchNodes(w.F, b);
    assert b.kids[i] in b.kids && b.kids[i] in Leaves(b.kids[i]);
    assert b.kids[i] in Leaves(b);
  }

  /** From one moment to the next, only the children of parents and the attributes of edited change. */
  ghost predicate ChangesOnly(h: Snapshot, h': Snapshot, parents: set<ExprNode>, edited: set<ExprNode>) {
    && h.items.Keys == h'.items.Keys && h.cmps.Keys == h'.cmps.Keys
    && (forall o <- h.items :: o !in parents ==> h'.items[o] == h.items[o])
    && (forall o <- h.cmps :: o !in edited ==> h'.cmps[o] == h.cmps[o])
  }

  /** The step of a comparison callback on what the objects hold. */
  lemma AgreesAfterLeaf(w: World, h: Snapshot, h': Snapshot, b: Tree, i: nat, done: set<ExprNode>)
    requires Setup(w) && Agrees(w, h, done) && Place(w, b, i, done) && b.kids[i].LeafT?
    requires var n := b.kids[i].node;
             && ChangesOnly(h, h', {b.node}, {n})
             && b.node in h'.items && h'.items[b.node] == ItemsNow(w, b, done + {n})
             && n in h'.cmps && h'.cmps[n] == CmpNow(w, b.kids[i], done + {n})
    ensures Agrees(w, h', done + {b.kids[i].node})
  {
    hide Final, Setup, ItemsNow, CmpNow, Tagged, Distinct, Nodes, Leaves, Branches;
    var n := b.kids[i].node;
    forall c <- Branches(w.F) | c != b
      ensures c.BranchT? && c.node != b.node && ItemsNow(w, c, done + {n}) == ItemsNow(w, c, done)
    {
      LeafIsNoBranch(w, b, i, c);
      ApartFrom(w, b, c);
      ItemsElsewhere(w, b, i, c, done);
    }
    forall l <- Leaves(w.F)
      ensures l.LeafT? && if l.node == n then l == b.kids[i] else CmpNow(w, l, done + {n}) == CmpNow(w, l, done)
    {
      if l.node == n {
        LeafIsNoBranch(w, b, i, b);
        SameLeaf(w, l, b.kids[i]);
      } else {
        CmpElsewhere(w, l, n, done);
      }
    }
  }

  /** Replacement trees do not notice what happens to original containers and edited objects. */
  lemma SuppliesAfter(w: World, h: Snapshot, h': Snapshot, parents: set<ExprNode>, edited: set<ExprNode>)
    requires Setup(w) && Supplies(w, h) && ChangesOnly(h, h', parents, edited)
    requires forall p <- parents :: exists b :: b in Branches(w.F) && b.node == p
    requires edited <= w.job.edit.Keys
    ensures Supplies(w, h')
  {
    hide Setup, Tagged, Distinct, Nodes, Leaves, Branches;
    forall n, c | n in w.R && c in Branches(w.R[n]) ensures c.BranchT? && h'.items[c.node] == Roots(c.kids) {
      if c.node in parents {
        var b :| b in Branches(w.F) && b.node == c.node;
        SupplyApart(w, n, c, b);
        assert false;
      }
    }
  }

  /** What a comparison callback does to the list its comparison stands in. */
  method EditList(parent: ExprNode, node: ExprNode, edits: seq<ListEdit>) returns (found: bool)
    modifies parent`items
    ensures parent.items == ListEdited(old(parent.items), node, edits)
    ensures found == AllFound(old(parent.items), node, edits)
  {
    found := true;
    for k := 0 to |edits|
      invariant ListEdited(parent.items, node, edits[k..]) == ListEdited(old(parent.items), node, edits)
      invariant AllFound(old(parent.items), node, edits) == (found && AllFound(parent.items, node, edits[k..]))
    {
      assert edits[k..][1..] == edits[k + 1..];
      match edits[k] {
        case Appended(x) => parent.Append(x);
        case Inserted(x, index) => parent.Insert(x, index);
        case Removed =>
          var here := parent.Remove(node);
          found := found && here;
      }
    }
  }

  /** The list operations of a comparison callback; false is the ValueError of one of them. */
  method TurnList(parent: ExprNode, node: ExprNode, job: Job) returns (found: bool)
    modifies parent`items
    ensures parent.items == LeafTurn(old(parent.items), node, job)
    ensures found == TurnFinds(old(parent.items), node, job)
  {
    found := true;
    if node in job.around {
      found := EditList(parent, node, job.around[node]);
    }
    if node in job.subst {
      var here := parent.Replace(node, job.subst[node]);
      found := found && here;
    }
  }

  /** The comparison callback: set attributes, edit the list around the comparison, then replace. It never raises. */
  method VisitComparison(ghost w: World, ghost b: Tree, ghost i: nat, ghost done: set<ExprNode>,
                         parent: ExprNode, node: ExprNode, job: Job) returns (found: bool)
    requires Setup(w) && w.job == job && job.comparisons && Agrees(w, Now(w), done) && Supplies(w, Now(w))
    requires Place(w, b, i, done) && b.kids[i].LeafT? && parent == b.node && node == b.kids[i].node
    modifies parent`items, node`cmp
    ensures found && Agrees(w, Now(w), done + {node}) && Supplies(w, Now(w))
  {
    hide Final, Setup, ItemsNow, CmpNow, Position, Agrees, Supplies, Nodes, Branches, Leaves, LeafTurn, TurnFinds;
    ghost var h := Now(w);
    ItemsHere(w, b, i, done);
    AgreesHere(w, h, b, i, done);
    CmpHere(w, b.kids[i], done);
    if node in job.edit {
      node.cmp := job.edit[node];
    }
    found := TurnList(parent, node, job);
    assert parent.items == ItemsNow(w, b, done + {node});
    LeafStep(w, h, Now(w), b, i, done);
  }

  lemma LeafStep(w: World, h: Snapshot, h': Snapshot, b: Tree, i: nat, done: set<ExprNode>)
    requires Setup(w) && Agrees(w, h, done) && Supplies(w, h) && Place(w, b, i, done) && b.kids[i].LeafT?
    requires var n := b.kids[i].node;
             && ChangesOnly(h, h', {b.node}, if n in w.job.edit then {n} else {})
             && b.node in h'.items && h'.items[b.node] == ItemsNow(w, b, done + {n})
             && n in h'.cmps && h'.cmps[n] == CmpNow(w, b.kids[i], done + {n})
    ensures Agrees(w, h', done + {b.kids[i].node}) && Supplies(w, h')
  {
    hide Final, Setup, ItemsNow, CmpNow, Agrees, Supplies, Nodes, Branches, Leaves;
    var n := b.kids[i].node;
    AgreesAfterLeaf(w, h, h', b, i, done);
    SuppliesAfter(w, h, h', {b.node}, if n in w.job.edit then {n} else {});
  }

  lemma AgreesHere(w: World, h: Snapshot, b: Tree, i: nat, done: set<ExprNode>)
    requires Setup(w) && Place(w, b, i, done) && Agrees(w, h, done)
    ensures b.node in h.items && h.items[b.node] == ItemsNow(w, b, done) && b.node in w.objects
    ensures b.kids[i].node in w.objects
    ensures b.kids[i].LeafT? ==> b.kids[i].node in h.cmps && h.cmps[b.kids[i].node] == CmpNow(w, b.kids[i], done)
  {
    BranchNodes(w.F, b);
    KidBelow(b, i);
    if b.kids[i].LeafT? {
      LeafIsNoBranch(w, b, i, b);
    }
  }

  lemma CmpHere(w: World, l: Tree, done: set<ExprNode>)
    requires l.LeafT? && l.node !in done
    ensures CmpNow(w, l, done) == l.cmp
    ensures CmpNow(w, l, done + {l.node}) == if l.node in w.job.edit then w.job.edit[l.node] else l.cmp
  {
  }

  lemma CmpElsewhere(w: World, l: Tree, n: ExprNode, done: set<ExprNode>)
    requires l.LeafT? && l.node != n
    ensures CmpNow(w, l, done + {n}) == CmpNow(w, l, done)
  {
  }

  lemma BranchObject(w: World, c: Tree)
    requires Setup(w) && c in Branches(w.F)
    ensures c.BranchT? && c.node in w.objects
  {
    BranchNodes(w.F, c);
  }

  lemma LeafObject(w: World, l: Tree)
    requires Setup(w) && l in Leaves(w.F)
    ensures l.LeafT? && l.node in w.objects
  {
    LeafNodes(w.F, l);
  }

  lemma SameLeaf(w: World, l: Tree, l': Tree)
    requires Setup(w) && l in Leaves(w.F) && l' in Leaves(w.F) && l.node == l'.node
    ensures l == l'
  {
    LeafUnique(w.F, l, l');
  }

  lemma ApartFrom(w: World, b: Tree, c: Tree)
    requires Setup(w) && b in Branches(w.F) && c in Branches(w.F) && c != b
    ensures c.node != b.node
  {
    if c.node == b.node {
      BranchUnique(w.F, b, c);
    }
  }

  /** A container of a replacement is none of the original containers. */
  lemma SupplyApart(w: World, n: ExprNode, c: Tree, b: Tree)
    requires Setup(w) && n in w.R && c in Branches(w.R[n]) && b in Branches(w.F)
    ensures c.node != b.node
  {
    assert Replacement(w, n);
    BranchNodes(w.R[n], c);
    BranchDistinctTag(w.R[n], c);
    BranchNodes(w.F, b);
    if c.node == b.node {
      assert c.node in Nodes(w.R[n]) * Nodes(w.F);
      var l :| l in Leaves(w.F) && l.node == n;
      LeafNodes(w.F, l);
      LeafTag(w.F, l);
    }
  }

  lemma {:induction false} BranchDistinctTag(t: Tree, b: Tree)
    requires Tagged(t) && b in Branches(t)
    ensures b.node.tag.GroupTag?
    decreases t
  {
    if b != t {
      var k :| 0 <= k < |t.kids| && b in Branches(t.kids[k]);
      assert t.kids[k] in t.kids;
      BranchDistinctTag(t.kids[k], b);
    }
  }

  lemma {:induction false} LeafTag(t: Tree, l: Tree)
    requires Tagged(t) && l in Leaves(t)
    ensures l.LeafT? && l.node.tag == ComparisonTag
    decreases t
  {
    if t.BranchT? {
      var k :| 0 <= k < |t.kids| && l in Leaves(t.kids[k]);
      assert t.kids[k] in t.kids;
      LeafTag(t.kids[k], l);
    }
  }

  // ----- where in the order of calls the walk stands -----

  ghost function Root(w: World): Tree
    requires w.F.BranchT? && w.r < |w.F.kids|
  {
    w.F.kids[w.r]
  }

  /** A child the walk visits: the root, or one it sees below an opened container. */
  ghost predicate VisitedPlace(w: World, b: Tree, i: nat)
    requires w.F.BranchT? && w.r < |w.F.kids|
  {
    && b.BranchT? && i < |b.kids| && !b.kids[i].SpaceT?
    && ((b == w.F && i == w.r) || (b in Opened(Root(w)) && Seen(b.kids[i])))
  }

  lemma {:induction false} OpenedStep(t: Tree, b: Tree, i: nat)
    requires b in Opened(t) && b.BranchT? && i < |b.kids| && Seen(b.kids[i]) && b.kids[i].BranchT?
    ensures b.kids[i] in Opened(t)
    decreases t
  {
    if b != t {
      var k :| 0 <= k < |t.kids| && Seen(t.kids[k]) && b in Opened(t.kids[k]);
      OpenedStep(t.kids[k], b, i);
    } else {
      assert b.kids[i] in Opened(b.kids[i]);
    }
  }

  lemma RootFacts(w: World)
    requires Setup(w)
    ensures w.F.BranchT? && w.r < |w.F.kids| && Distinct(w.F) && Tagged(w.F)
    ensures Distinct(Root(w)) && Tagged(Root(w)) && Branches(Root(w)) <= Branches(w.F) && Leaves(Root(w)) <= Leaves(w.F)
    ensures w.F.node !in Nodes(Root(w)) && w.F in Branches(w.F)
    ensures w.job.operators == Simplifying ==> w.job.strategy == Post
  {
    assert Root(w) in w.F.kids;
    KidBelow(w.F, w.r);
  }

  lemma KidKinds(b: Tree, i: nat)
    requires b.BranchT? && i < |b.kids| && Distinct(b) && Tagged(b)
    ensures Distinct(b.kids[i]) && Tagged(b.kids[i]) && Leaves(b.kids[i]) <= Leaves(b)
  {
    assert b.kids[i] in b.kids;
  }

  lemma EntryFacts(w: World, b: Tree, i: nat)
    requires Setup(w) && w.F.BranchT? && w.r < |w.F.kids| && VisitedPlace(w, b, i)
    ensures b in Branches(w.F) && Distinct(b) && Tagged(b) && Distinct(b.kids[i]) && Tagged(b.kids[i])
    ensures b.kids[i].BranchT? ==> b.kids[i] in Opened(Root(w)) && b.kids[i] in Branches(w.F)
  {
    hide Below, Nodes, Setup, Branches, Opened, Distinct, Tagged, Leaves;
    RootFacts(w);
    if b != w.F {
      OpenedIsBranch(Root(w), b);
    }
    BranchDistinct(w.F, b);
    KidKinds(b, i);
    if b.kids[i].BranchT? {
      if b == w.F && i == w.r {
        OwnBranch(Root(w));
      } else {
        OpenedStep(Root(w), b, i);
        OpenedIsBranch(Root(w), b.kids[i]);
      }
    }
  }

  /** In a sequence without repeats, the neighbourhood of one element. */
  lemma SplitAt(a: seq<ExprNode>, x: ExprNode, c: seq<ExprNode>)
    requires NoRepeats(a + [x] + c)
    ensures x !in a
    ensures forall y :: Earlier(a + [x] + c, y, x) ==> y in a
    ensures forall y :: Earlier(a + [x] + c, x, y) ==> y !in a
  {
    var s := a + [x] + c;
    assert s[|a|] == x;
    assert forall i :: 0 <= i < |a| ==> s[i] == a[i];
  }

  lemma CountedSplit(P: seq<Call>, mid: seq<Call>, Q: seq<Call>, job: Job)
    ensures Counted(P + mid + Q, job) == Counted(P, job) + Counted(mid, job) + Counted(Q, job)
    ensures Done(P, job) <= Done(P + mid + Q, job)
    ensures Done(P + mid, job) == Done(P, job) + Done(mid, job)
  {
    CountedConcat(P, mid, job);
    CountedConcat(P + mid, Q, job);
  }

  ghost function AllCalls(w: World): seq<Call>
    requires w.F.BranchT? && w.r < |w.F.kids|
  {
    Calls(w.F.node, Root(w), w.job)
  }

  /** What is done lies among the targets below the root, never the outermost container. */
  lemma DoneIsTarget(w: World, P: seq<Call>, mid: seq<Call>, Q: seq<Call>)
    requires Setup(w) && AllCalls(w) == P + mid + Q
    ensures Done(P, w.job) <= Targets(Root(w), w.job) && w.F.node !in Done(P, w.job)
  {
    hide Below, Nodes, Targets, Calls, Counted, Setup;
    RootFacts(w);
    CallsOnce(w.F.node, Root(w), w.job);
    CountedSplit(P, mid, Q, w.job);
    TargetsAreNodes(Root(w), w.job);
  }

  /** When a container is opened, nothing below it has been done. */
  lemma AtOpening(w: World, P: seq<Call>, Q: seq<Call>, b: Tree, i: nat)
    requires Setup(w) && w.F.BranchT? && w.r < |w.F.kids| && VisitedPlace(w, b, i) && b.kids[i].BranchT?
    requires AllCalls(w) == P + Calls(b.node, b.kids[i], w.job) + Q
    ensures Done(P, w.job) * Nodes(b.kids[i]) == {}
  {
    hide Below, Nodes, Targets, Calls, Counted, Setup, Opened, Branches;
    var t, mid := b.kids[i], Calls(b.node, b.kids[i], w.job);
    RootFacts(w);
    EntryFacts(w, b, i);
    DoneIsTarget(w, P, mid, Q);
    TargetsWithin(Root(w), t, w.job);
    CallsOnce(b.node, t, w.job);
    CallsOnce(w.F.node, Root(w), w.job);
    CountedSplit(P, mid, Q, w.job);
    forall x | x in Done(P, w.job) && x in Nodes(t) ensures false {
      assert x in Targets(t, w.job);
      TwiceIsRepeat(Counted(P, w.job), Counted(mid, w.job), Counted(Q, w.job), x);
    }
  }

  lemma TwiceIsRepeat(a: seq<ExprNode>, b: seq<ExprNode>, c: seq<ExprNode>, x: ExprNode)
    requires x in a && x in b
    ensures !NoRepeats(a + b + c)
  {
    var i :| 0 <= i < |a| && a[i] == x;
    var j :| 0 <= j < |b| && b[j] == x;
    assert (a + b + c)[i] == x && (a + b + c)[|a| + j] == x;
  }

  /** When a call is made that may change the filter, where it stands and what is done below. */
  lemma AtCall(w: World, P: seq<Call>, call: Call, Q: seq<Call>, b: Tree, i: nat)
    requires Setup(w) && w.F.BranchT? && w.r < |w.F.kids| && VisitedPlace(w, b, i) && AllCalls(w) == P + [call] + Q
    requires call.node == b.kids[i].node
    requires if b.kids[i].LeafT? then call.CmpCall? && w.job.comparisons else call.OpCall? && w.job.Closes(call.node)
    ensures Place(w, b, i, Done(P, w.job))
    ensures Done(P + [call], w.job) == Done(P, w.job) + {call.node}
    ensures b.kids[i].BranchT? ==> Done(P, w.job) * Nodes(b.kids[i]) == TargetsBelow(b.kids[i], w.job)
  {
    hide Below, Nodes, Calls, Setup, Branches;
    var t, x, done := b.kids[i], call.node, Done(P, w.job);
    RootFacts(w);
    EntryFacts(w, b, i);
    DoneIsTarget(w, P, [call], Q);
    CallsOnce(w.F.node, Root(w), w.job);
    CountedSplit(P, [call], Q, w.job);
    CountedCall(call, w.job);
    SplitAt(Counted(P, w.job), x, Counted(Q, w.job));
    if b != w.F {
      ParentNotDone(w, b, i, done, Counted(AllCalls(w), w.job));
    }
    if t.LeafT? {
      LaterNotDone(w, b, i, done, Counted(AllCalls(w), w.job));
    }
    if t.BranchT? {
      TargetsWithin(Root(w), t, w.job);
      TargetsAreNodes(t, w.job);
      RootApart(t);
      forall y <- TargetsBelow(t, w.job) ensures y in done {
        assert Earlier(Counted(AllCalls(w), w.job), y, x);
      }
      BelowIsNodes(t);
    }
  }

  lemma BelowIsNodes(t: Tree)
    requires t.BranchT?
    ensures Nodes(t) == {t.node} + Below(t)
  {
  }

  lemma CountedCall(call: Call, job: Job)
    requires call.CmpCall? || job.operators == Simplifying
    ensures Counted([call], job) == [call.node] && Done([call], job) == {call.node}
  {
    assert [call][1..] == [];
  }

  lemma ParentNotDone(w: World, b: Tree, i: nat, done: set<ExprNode>, c: seq<ExprNode>)
    requires w.F.BranchT? && w.r < |w.F.kids| && VisitedPlace(w, b, i) && b != w.F && Distinct(Root(w)) && Distinct(b)
    requires OrderedBelow(c, Opened(Root(w)), w.job) && done <= Targets(Root(w), w.job)
    requires b.kids[i].node in Targets(b.kids[i], w.job)
    requires forall y :: Earlier(c, b.kids[i].node, y) ==> y !in done
    ensures b.node !in done
  {
    hide Below, Nodes, Opened, Earlier, Targets;
    if w.job.Closes(b.node) {
      assert b.kids[i].node in TargetsBelow(b, w.job);
    } else {
      TargetsWithin(Root(w), b, w.job);
      TargetsAreNodes(b, w.job);
      RootApart(b);
      NodeIn(b);
      NotOwnTarget(b, w.job);
    }
  }

  /** The comparisons behind this one in its list are still to come. */
  lemma LaterNotDone(w: World, b: Tree, i: nat, done: set<ExprNode>, c: seq<ExprNode>)
    requires Setup(w) && w.job.comparisons && w.F.BranchT? && w.r < |w.F.kids| && VisitedPlace(w, b, i)
    requires b.kids[i].LeafT?
    requires c == Counted(AllCalls(w), w.job) && done <= Targets(Root(w), w.job)
    requires forall y :: Earlier(c, b.kids[i].node, y) ==> y !in done
    ensures forall j | i < j < |b.kids| && b.kids[j].LeafT? :: b.kids[j].node !in done
  {
    hide Below, Nodes, Opened, Earlier, Targets, Setup, Counted, Calls;
    RootFacts(w);
    if b in Opened(Root(w)) {
      CalledInOrder(w.F.node, Root(w), w.job);
      assert LeftToRight(c, b, 0);
    } else {
      TargetsAreNodes(Root(w), w.job);
      forall j | i < j < |b.kids| ensures b.kids[j].node !in done {
        KidsApart(b, i, j);
        NodeIn(b.kids[j]);
      }
    }
  }

  lemma NotOwnTarget(b: Tree, job: Job)
    requires b.BranchT? && Distinct(b) && !job.Closes(b.node)
    ensures b.node !in Targets(b, job)
  {
    TargetsAreNodes(b, job);
  }
}
