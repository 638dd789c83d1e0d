/**
 The shape of an expression graph on the heap, as a ghost tree of its objects, and what a walk is to
 make of it: the trace of callback calls and the tree left behind.
 */
module FilterTrees {
  import opened Options
  import opened FilterTree
  import opened FilterMeaning
  import opened ExprNodes

  datatype Tree =
    | LeafT(node: ExprNode, cmp: Cmp)
    | SpaceT(node: ExprNode)
    | BranchT(node: ExprNode, kids: seq<Tree>)

  /** Children that a walk descends to: comparisons and operators, neither tokens nor plain groups. */
  predicate Seen(t: Tree) { t.node.IsExpression() }

  function Roots(ts: seq<Tree>): (r: seq<ExprNode>)
    ensures |r| == |ts| && forall i :: 0 <= i < |ts| ==> r[i] == ts[i].node
  {
    seq(|ts|, i requires 0 <= i < |ts| => ts[i].node)
  }

  ghost function Nodes(t: Tree): set<ExprNode>
    decreases t, 1
  {
    {t.node} + if t.BranchT? then Below(t) else {}
  }

  ghost function Below(t: Tree): set<ExprNode>
    requires t.BranchT?
    decreases t, 0
  {
    set k, x | 0 <= k < |t.kids| && x in Nodes(t.kids[k]) :: x
  }

  ghost function Branches(t: Tree): set<Tree> {
    if t.BranchT? then {t} + set k, b | 0 <= k < |t.kids| && b in Branches(t.kids[k]) :: b else {}
  }

  ghost function Leaves(t: Tree): set<Tree> {
    if t.LeafT? then {t}
    else if t.BranchT? then set k, l | 0 <= k < |t.kids| && l in Leaves(t.kids[k]) :: l
    else {}
  }

  ghost predicate Tagged(t: Tree) {
    match t
    case LeafT(n, _) => n.tag == ComparisonTag
    case SpaceT(n) => n.tag == TokenTag
    case BranchT(n, kids) => n.tag.GroupTag? && forall k <- kids :: Tagged(k)
  }

  /** No object occurs twice. */
  ghost predicate Distinct(t: Tree) {
    t.BranchT? ==>
      && t.node !in Below(t)
      && (forall k <- t.kids :: Distinct(k))
      && (forall i, j :: 0 <= i < j < |t.kids| ==> Nodes(t.kids[i]) !! Nodes(t.kids[j]))
  }

  /** The heap holds this tree. */
  ghost predicate Models(t: Tree)
    reads Nodes(t)
    decreases t
  {
    match t
    case LeafT(n, c) => n.cmp == c
    case SpaceT(_) => true
    case BranchT(n, kids) =>
      assert forall k :: 0 <= k < |kids| ==> Nodes(kids[k]) <= Nodes(t);
      n.items == Roots(kids) && forall k :: 0 <= k < |kids| ==> Models(kids[k])
  }

  // ----- uniqueness -----

  predicate KidAt(b: Tree, i: int, t: Tree) {
    b.BranchT? && 0 <= i < |b.kids| && b.kids[i] == t
  }

  lemma KidBelow(b: Tree, i: nat)
    requires b.BranchT? && i < |b.kids|
    ensures b.kids[i].node in Nodes(b.kids[i]) && b.kids[i].node in Below(b) && Nodes(b.kids[i]) <= Below(b)
  {
  }

  lemma {:induction false} BranchNodes(t: Tree, b: Tree)
    requires b in Branches(t)
    ensures t.BranchT? && b.BranchT? && b.node in Nodes(t) && Nodes(b) <= Nodes(t) && Branches(b) <= Branches(t)
    ensures Leaves(b) <= Leaves(t)
    ensures Below(b) <= Below(t)
    ensures b != t ==> b.node in Below(t)
  {
    if b != t {
      var k :| 0 <= k < |t.kids| && b in Branches(t.kids[k]);
      BranchNodes(t.kids[k], b);
    }
  }

  lemma {:induction false} LeafNodes(t: Tree, l: Tree)
    requires l in Leaves(t)
    ensures l.LeafT? && l.node in Nodes(t)
    ensures t.BranchT? ==> exists b, i :: b in Branches(t) && KidAt(b, i, l)
  {
    if t.BranchT? {
      var k :| 0 <= k < |t.kids| && l in Leaves(t.kids[k]);
      LeafNodes(t.kids[k], l);
      if t.kids[k].BranchT? {
        var b, i :| b in Branches(t.kids[k]) && KidAt(b, i, l);
        assert b in Branches(t);
      } else {
        assert t in Branches(t) && KidAt(t, k, l);
      }
    }
  }

  lemma {:induction false} BranchDistinct(t: Tree, b: Tree)
    requires Distinct(t) && Tagged(t) && b in Branches(t)
    ensures Distinct(b) && Tagged(b) && b.BranchT?
  {
    if b != t {
      var k :| 0 <= k < |t.kids| && b in Branches(t.kids[k]);
      assert t.kids[k] in t.kids;
      BranchDistinct(t.kids[k], b);
    }
  }

  /** The child of t over which the object stands is the only one. */
  lemma OnePlace(t: Tree, k: nat, k': nat, x: ExprNode)
    requires Distinct(t) && t.BranchT? && k < |t.kids| && k' < |t.kids|
    requires x in Nodes(t.kids[k]) && x in Nodes(t.kids[k'])
    ensures k == k' && Distinct(t.kids[k])
  {
    assert t.kids[k] in t.kids;
  }

  lemma BranchPlace(t: Tree, b: Tree) returns (k: nat)
    requires Distinct(t) && b in Branches(t) && b != t
    ensures t.BranchT? && k < |t.kids| && b in Branches(t.kids[k]) && b.BranchT?
    ensures t.kids[k].BranchT? && Below(b) <= Below(t.kids[k]) <= Nodes(t.kids[k]) && Nodes(b) <= Nodes(t.kids[k])
    ensures Distinct(t.kids[k]) && t.kids[k].node !in Below(b)
  {
    k :| 0 <= k < |t.kids| && b in Branches(t.kids[k]);
    BranchNodes(t.kids[k], b);
    KidBelow(t, k);
    assert t.kids[k] in t.kids;
  }

  /** A child determines its parent and its place. */
  lemma {:induction false} KidUnique(t: Tree, b: Tree, i: nat, b': Tree, i': nat)
    requires Distinct(t) && b in Branches(t) && b' in Branches(t)
    requires b.BranchT? && i < |b.kids| && b'.BranchT? && i' < |b'.kids|
    requires b.kids[i].node == b'.kids[i'].node
    ensures b == b' && i == i'
  {
    hide Nodes, Below, Branches, Distinct;
    var x := b.kids[i].node;
    KidBelow(b, i);
    KidBelow(b', i');
    if b != t {
      var k := BranchPlace(t, b);
      if b' != t {
        var k' := BranchPlace(t, b');
        OnePlace(t, k, k', x);
        KidUnique(t.kids[k], b, i, b', i');
      } else {
        OnePlace(t, k, i', x);
        assert false;
      }
    } else if b' != t {
      var k' := BranchPlace(t, b');
      OnePlace(t, k', i, x);
      assert false;
    } else {
      OnePlace(t, i, i', x);
    }
  }

  lemma {:induction false} BranchUnique(t: Tree, b: Tree, b': Tree)
    requires Distinct(t) && b in Branches(t) && b' in Branches(t) && b.node == b'.node
    ensures b == b'
  {
    hide Nodes, Below, Branches, Distinct;
    BranchNodes(t, b);
    BranchNodes(t, b');
    RootApart(t);
    if b != t && b' != t {
      var k := BranchPlace(t, b);
      var k' := BranchPlace(t, b');
      NodeIn(b);
      NodeIn(b');
      OnePlace(t, k, k', b.node);
      BranchUnique(t.kids[k], b, b');
    }
  }

  lemma NodeIn(t: Tree)
    ensures t.node in Nodes(t)
  {
  }

  lemma RootApart(t: Tree)
    requires Distinct(t) && t.BranchT?
    ensures t.node !in Below(t)
  {
  }

  lemma LeafUnique(t: Tree, l: Tree, l': Tree)
    requires Distinct(t) && t.BranchT? && l in Leaves(t) && l' in Leaves(t) && l.node == l'.node
    ensures l == l'
  {
    hide Nodes, Below, Branches, Distinct, Leaves;
    LeafNodes(t, l);
    LeafNodes(t, l');
    var b, i :| b in Branches(t) && KidAt(b, i, l);
    var b', i' :| b' in Branches(t) && KidAt(b', i', l');
    BranchNodes(t, b);
    BranchNodes(t, b');
    KidUnique(t, b, i, b', i');
  }

  /** Children of different places hang over disjoint sets of objects. */
  lemma KidsApart(b: Tree, i: nat, j: nat)
    requires Distinct(b) && b.BranchT? && i < |b.kids| && j < |b.kids| && i != j
    ensures Nodes(b.kids[i]) !! Nodes(b.kids[j])
  {
  }

  // ----- the calls a walk makes -----

  datatype Strategy = Both | Post | Pre

  /** What the operator callback does: nothing, nothing that changes the filter, or the simplification. */
  datatype OpCallback = NoCallback | ReadOnly | Simplifying

  /** What a comparison callback does to the list its comparison stands in, besides replacing it. */
  datatype ListEdit = Appended(node: ExprNode) | Inserted(node: ExprNode, index: int) | Removed

  /**
   The two callbacks of a walk. The comparison callback sets the attributes of the objects in edit,
   appends to, inserts into and removes from the parent's list for the objects in around, and calls
   parent.replace for the objects in subst.
   */
  datatype Job = Job(
    comparisons: bool, edit: map<ExprNode, Cmp>, around: map<ExprNode, seq<ListEdit>>, subst: map<ExprNode, ExprNode>,
    operators: OpCallback, strategy: Strategy)
  {
    predicate BeforeKids(n: ExprNode) {
      operators != NoCallback && strategy != Post && n.IsOperator()
    }

    predicate AfterKids(n: ExprNode) {
      operators != NoCallback && strategy != Pre && n.IsOperator()
    }

    predicate Closes(n: ExprNode) { operators == Simplifying && n.IsOperator() }
  }

  datatype Call =
    | CmpCall(parent: ExprNode, node: ExprNode)
    | OpCall(parent: ExprNode, node: ExprNode)

  /** The recursive traversal: comparisons from left to right, operators before or after, or both. */
  function Calls(parent: ExprNode, t: Tree, job: Job): seq<Call>
    decreases t, 0
  {
    match t
    case LeafT(n, _) => if job.comparisons then [CmpCall(parent, n)] else []
    case SpaceT(_) => []
    case BranchT(n, kids) =>
      (if job.BeforeKids(n) then [OpCall(parent, n)] else []) + KidCalls(n, kids, job) +
      (if job.AfterKids(n) then [OpCall(parent, n)] else [])
  }

  function KidCalls(n: ExprNode, kids: seq<Tree>, job: Job): seq<Call>
    decreases kids, 0
  {
    if kids == [] then []
    else (if Seen(kids[0]) then Calls(n, kids[0], job) else []) + KidCalls(n, kids[1..], job)
  }

  // ----- the tree a walk leaves behind -----

  function TreeCmp(t: Tree): Option<Cmp> { if t.LeafT? then Some(t.cmp) else None }

  function TreeCmps(ts: seq<Tree>): (cs: seq<Option<Cmp>>)
    ensures |cs| == |ts| && forall i :: 0 <= i < |ts| ==> cs[i] == TreeCmp(ts[i])
  {
    seq(|ts|, i requires 0 <= i < |ts| => TreeCmp(ts[i]))
  }

  function SeenTrees(ts: seq<Tree>): seq<Tree> {
    if ts == [] then [] else (if Seen(ts[0]) then [ts[0]] else []) + SeenTrees(ts[1..])
  }

  function KeptTrees(ts: seq<Tree>): seq<Tree> { KeepLast(ts, TreeCmps(ts)) }

  /** What stands in a list that is edited while it is walked: one of the first children, or something new. */
  datatype Item = Kid(k: nat) | New(node: ExprNode)

  function Kids(n: nat): (r: seq<Item>)
    ensures |r| == n && forall k :: 0 <= k < n ==> r[k] == Kid(k)
  {
    seq(n, k requires 0 <= k < n => Kid(k))
  }

  predicate Fits(entries: seq<Item>, n: nat) { forall e <- entries :: e.Kid? ==> e.k < n }

  /** One edit by the callback of child k. */
  function Edited(entries: seq<Item>, k: nat, e: ListEdit): seq<Item> {
    match e
    case Appended(x) => entries + [New(x)]
    case Inserted(x, index) => PutIn(entries, New(x), index)
    case Removed => TakenFrom(entries, Kid(k))
  }

  function EditedBy(entries: seq<Item>, k: nat, es: seq<ListEdit>): seq<Item>
    decreases |es|
  {
    if es == [] then entries else EditedBy(Edited(entries, k, es[0]), k, es[1..])
  }

  predicate Acts(t: Tree, job: Job, acting: set<ExprNode>) { t.LeafT? && t.node in acting && t.node in job.around }

  /** The list after the callbacks of those of the first k children that have acted, in their order. */
  function Layout(kids: seq<Tree>, k: nat, job: Job, acting: set<ExprNode>): seq<Item>
    requires k <= |kids|
  {
    if k == 0 then Kids(|kids|)
    else
      var before := Layout(kids, k - 1, job, acting);
      if Acts(kids[k - 1], job, acting) then EditedBy(before, k - 1, job.around[kids[k - 1].node]) else before
  }

  lemma {:induction false} FitsEdited(entries: seq<Item>, k: nat, es: seq<ListEdit>, n: nat)
    requires Fits(entries, n)
    ensures Fits(EditedBy(entries, k, es), n)
    decreases |es|
  {
    if es != [] {
      if es[0].Inserted? {
        PutInMembers(entries, New(es[0].node), es[0].index);
      }
      FitsEdited(Edited(entries, k, es[0]), k, es[1..], n);
    }
  }

  lemma {:induction false} LayoutFits(kids: seq<Tree>, k: nat, job: Job, acting: set<ExprNode>)
    requires k <= |kids|
    ensures Fits(Layout(kids, k, job, acting), |kids|)
  {
    if k > 0 {
      LayoutFits(kids, k - 1, job, acting);
      if Acts(kids[k - 1], job, acting) {
        FitsEdited(Layout(kids, k - 1, job, acting), k - 1, job.around[kids[k - 1].node], |kids|);
      }
    }
  }

  /** The objects that edits bring in. */
  function NewNodes(es: seq<ListEdit>): seq<ExprNode> {
    if es == [] then [] else (if es[0].Removed? then [] else [es[0].node]) + NewNodes(es[1..])
  }

  /** The children that are left stand in their old order. */
  predicate InOrder(entries: seq<Item>) {
    forall p, q :: 0 <= p < q < |entries| && entries[p].Kid? && entries[q].Kid? ==> entries[p].k < entries[q].k
  }

  lemma PutInOrder(entries: seq<Item>, x: ExprNode, index: int)
    requires InOrder(entries)
    ensures InOrder(PutIn(entries, New(x), index))
  {
    var at, r := InsertAt(|entries|, index), PutIn(entries, New(x), index);
    assert forall i :: 0 <= i < at ==> r[i] == entries[i];
    assert forall i :: at < i < |r| ==> r[i] == entries[i - 1];
  }

  lemma TakenFromOrder(entries: seq<Item>, k: nat)
    requires InOrder(entries)
    ensures InOrder(TakenFrom(entries, Kid(k)))
    ensures forall e :: e in TakenFrom(entries, Kid(k)) <==> e in entries && e != Kid(k)
  {
    var r, i := TakenFrom(entries, Kid(k)), Position(entries, Kid(k));
    if i < |entries| {
      TakenFromPlace(entries, i);
      assert forall j :: 0 <= j < i ==> r[j] == entries[j];
      assert forall j :: i <= j < |r| ==> r[j] == entries[j + 1];
    }
  }

  lemma EditedExact(entries: seq<Item>, k: nat, e: ListEdit)
    requires InOrder(entries)
    ensures InOrder(Edited(entries, k, e))
    ensures forall x :: x in Edited(entries, k, e) <==>
              if e.Removed? then x in entries && x != Kid(k) else x in entries || x == New(e.node)
  {
    hide PutIn, TakenFrom;
    match e
    case Appended(_) =>
    case Inserted(x, index) =>
      PutInMembers(entries, New(x), index);
      PutInOrder(entries, x, index);
    case Removed => TakenFromOrder(entries, k);
  }

  lemma {:induction false} EditedByExact(entries: seq<Item>, k: nat, es: seq<ListEdit>)
    requires InOrder(entries)
    ensures InOrder(EditedBy(entries, k, es))
    ensures forall j: nat :: Kid(j) in EditedBy(entries, k, es) <==> Kid(j) in entries && (j == k ==> Removed !in es)
    ensures forall x :: New(x) in EditedBy(entries, k, es) <==> New(x) in entries || x in NewNodes(es)
    decreases |es|
  {
    if es != [] {
      EditedExact(entries, k, es[0]);
      EditedByExact(Edited(entries, k, es[0]), k, es[1..]);
      assert Removed in es <==> es[0] == Removed || Removed in es[1..];
    }
  }

  predicate TakesOut(t: Tree, job: Job, acting: set<ExprNode>) { Acts(t, job, acting) && Removed in job.around[t.node] }

  predicate BringsIn(t: Tree, job: Job, acting: set<ExprNode>, x: ExprNode) {
    Acts(t, job, acting) && x in NewNodes(job.around[t.node])
  }

  /**
   What is left of an edited list, whatever the indices: the children whose callback has not removed
   them, in their old order, and among them all that the callbacks brought in.
   */
  lemma {:induction false} LayoutExact(kids: seq<Tree>, k: nat, job: Job, acting: set<ExprNode>)
    requires k <= |kids|
    ensures var L := Layout(kids, k, job, acting);
            && InOrder(L)
            && (forall j: nat :: Kid(j) in L <==> j < |kids| && (j < k ==> !TakesOut(kids[j], job, acting)))
            && (forall x :: New(x) in L <==> exists i :: 0 <= i < k && BringsIn(kids[i], job, acting, x))
  {
    hide InOrder, BringsIn, TakesOut;
    if k > 0 {
      LayoutExact(kids, k - 1, job, acting);
      LayoutStep(kids, k - 1, job, acting);
    } else {
      AllInOrder(|kids|);
    }
  }

  lemma LayoutStep(kids: seq<Tree>, k: nat, job: Job, acting: set<ExprNode>)
    requires k < |kids| && InOrder(Layout(kids, k, job, acting))
    ensures var L, L' := Layout(kids, k, job, acting), Layout(kids, k + 1, job, acting);
            && InOrder(L')
            && (forall j: nat :: Kid(j) in L' <==> Kid(j) in L && (j == k ==> !TakesOut(kids[j], job, acting)))
            && (forall x :: New(x) in L' <==> New(x) in L || BringsIn(kids[k], job, acting, x))
  {
    hide EditedBy, NewNodes, InOrder;
    if Acts(kids[k], job, acting) {
      EditedByExact(Layout(kids, k, job, acting), k, job.around[kids[k].node]);
    }
  }

  lemma AllInOrder(n: nat)
    ensures InOrder(Kids(n)) && forall j: nat :: Kid(j) in Kids(n) <==> j < n
  {
    assert forall j: nat :: j < n ==> Kids(n)[j] == Kid(j);
  }

  /** The children for the entries; R holds the trees of new objects. */
  ghost function Laid(entries: seq<Item>, trees: seq<Tree>, R: map<ExprNode, Tree>): (r: seq<Tree>)
    requires Fits(entries, |trees|)
    ensures |r| == |entries|
  {
    seq(|entries|, i requires 0 <= i < |entries| =>
      assert entries[i] in entries;
      TreeOf(entries[i], trees, R))
  }

  function TreeOf(e: Item, trees: seq<Tree>, R: map<ExprNode, Tree>): Tree
    requires e.Kid? ==> e.k < |trees|
  {
    match e
    case Kid(k) => trees[k]
    case New(x) => if x in R then R[x] else SpaceT(x)
  }

  lemma LaidAt(entries: seq<Item>, trees: seq<Tree>, R: map<ExprNode, Tree>, i: nat)
    requires Fits(entries, |trees|) && i < |entries|
    ensures entries[i] in entries && Laid(entries, trees, R)[i] == TreeOf(entries[i], trees, R)
  {
  }

  /** A group whose children are final: deduplicated, and replaced by an only expression. */
  function Close(n: ExprNode, kids: seq<Tree>, job: Job): Tree {
    if !job.Closes(n) then BranchT(n, kids)
    else if |SeenTrees(KeptTrees(kids))| == 1 && n.tag != GroupTag(Not) then SeenTrees(KeptTrees(kids))[0]
    else BranchT(n, KeptTrees(kids))
  }

  /** R holds the trees of the replacements and of the objects added to lists. */
  ghost function Result(t: Tree, job: Job, R: map<ExprNode, Tree>): Tree
    decreases t, 0
  {
    match t
    case LeafT(n, c) => if n in R then R[n] else LeafT(n, if n in job.edit then job.edit[n] else c)
    case SpaceT(_) => t
    case BranchT(n, kids) => Close(n, Arranged(kids, Results(kids, job, R), job, R, job.around.Keys), job)
  }

  /** The children of a container after the edits of the acting ones among them. */
  ghost function Arranged(kids: seq<Tree>, trees: seq<Tree>, job: Job, R: map<ExprNode, Tree>,
                          acting: set<ExprNode>): seq<Tree>
    requires |trees| == |kids|
  {
    LayoutFits(kids, |kids|, job, acting);
    Laid(Layout(kids, |kids|, job, acting), trees, R)
  }

  /** Without edits around the comparisons the children stay where they are. */
  lemma {:induction false} NoEdits(kids: seq<Tree>, k: nat, job: Job, acting: set<ExprNode>)
    requires k <= |kids| && forall t <- kids :: !Acts(t, job, acting)
    ensures Layout(kids, k, job, acting) == Kids(|kids|)
  {
    if k > 0 {
      NoEdits(kids, k - 1, job, acting);
      assert kids[k - 1] in kids;
    }
  }

  lemma ArrangedPlain(kids: seq<Tree>, trees: seq<Tree>, job: Job, R: map<ExprNode, Tree>, acting: set<ExprNode>)
    requires |trees| == |kids| && forall t <- kids :: !Acts(t, job, acting)
    ensures Arranged(kids, trees, job, R, acting) == trees
  {
    NoEdits(kids, |kids|, job, acting);
  }

  ghost function Results(ts: seq<Tree>, job: Job, R: map<ExprNode, Tree>): (r: seq<Tree>)
    ensures |r| == |ts|
    ensures forall i :: 0 <= i < |ts| ==> r[i] == if Seen(ts[i]) then Result(ts[i], job, R) else ts[i]
    decreases ts, 0
  {
    if ts == [] then []
    else [if Seen(ts[0]) then Result(ts[0], job, R) else ts[0]] + Results(ts[1..], job, R)
  }

  lemma {:induction false} SeenMember(ts: seq<Tree>, t: Tree)
    requires t in SeenTrees(ts)
    ensures t in ts && Seen(t)
  {
    if ts != [] && t in SeenTrees(ts[1..]) {
      SeenMember(ts[1..], t);
    }
  }

  lemma KeptMember(ts: seq<Tree>, t: Tree)
    requires t in KeptTrees(ts)
    ensures t in ts
  {
    KeepMember(ts, TreeCmps(ts), |ts|, t);
  }

  lemma {:induction false} SeenRoots(ts: seq<Tree>)
    ensures Expressions(Roots(ts)) == Roots(SeenTrees(ts))
  {
    if ts != [] {
      SeenRoots(ts[1..]);
      assert Roots(ts)[1..] == Roots(ts[1..]);
    }
  }

  lemma {:induction false} KeepRoots(ts: seq<Tree>, cs: seq<Option<Cmp>>, n: nat)
    requires n <= |ts| == |cs|
    ensures Roots(Keep(ts, cs, n)) == Keep(Roots(ts), cs, n)
  {
    hide Dropped;
    if n > 0 {
      KeepRoots(ts, cs, n - 1);
    }
  }

  // ----- the order of the calls -----

  /** The objects whose callback may change the filter, in the order of the calls. */
  function Counted(calls: seq<Call>, job: Job): seq<ExprNode> {
    if calls == [] then []
    else (if calls[0].CmpCall? || job.operators == Simplifying then [calls[0].node] else []) + Counted(calls[1..], job)
  }

  ghost function Elements(s: seq<ExprNode>): set<ExprNode> { set x | x in s }

  ghost function Done(calls: seq<Call>, job: Job): set<ExprNode> { Elements(Counted(calls, job)) }

  /** The objects below a tree whose callback may change the filter. */
  ghost function Targets(t: Tree, job: Job): set<ExprNode>
    decreases t, 1
  {
    match t
    case LeafT(n, _) => if job.comparisons then {n} else {}
    case SpaceT(_) => {}
    case BranchT(n, kids) => (if job.Closes(n) then {n} else {}) + TargetsBelow(t, job)
  }

  ghost function TargetsBelow(t: Tree, job: Job): set<ExprNode>
    requires t.BranchT?
    decreases t, 0
  {
    set k, x | 0 <= k < |t.kids| && Seen(t.kids[k]) && x in Targets(t.kids[k], job) :: x
  }

  /** The containers a walk from here opens. */
  ghost function Opened(t: Tree): set<Tree> {
    if t.BranchT? then {t} + set k, b | 0 <= k < |t.kids| && Seen(t.kids[k]) && b in Opened(t.kids[k]) :: b else {}
  }

  ghost predicate Earlier(s: seq<ExprNode>, x: ExprNode, y: ExprNode) {
    exists i, j :: 0 <= i < j < |s| && s[i] == x && s[j] == y
  }

  lemma {:induction false} CountedConcat(a: seq<Call>, b: seq<Call>, job: Job)
    ensures Counted(a + b, job) == Counted(a, job) + Counted(b, job)
  {
    if a == [] {
      assert a + b == b;
    } else {
      assert (a + b)[1..] == a[1..] + b;
      CountedConcat(a[1..], b, job);
    }
  }

  lemma {:induction false} TargetsAreNodes(t: Tree, job: Job)
    ensures Targets(t, job) <= Nodes(t)
    ensures t.BranchT? ==> TargetsBelow(t, job) <= Below(t)
    decreases t
  {
    if t.BranchT? {
      forall x <- TargetsBelow(t, job) ensures x in Below(t) {
        var k :| 0 <= k < |t.kids| && Seen(t.kids[k]) && x in Targets(t.kids[k], job);
        TargetsAreNodes(t.kids[k], job);
      }
    }
  }

  lemma {:induction false} OpenedIsBranch(t: Tree, b: Tree)
    requires b in Opened(t)
    ensures b in Branches(t) && b.BranchT? && t.BranchT?
    decreases t
  {
    if b != t {
      var k :| 0 <= k < |t.kids| && Seen(t.kids[k]) && b in Opened(t.kids[k]);
      OpenedIsBranch(t.kids[k], b);
    }
  }

  lemma OwnBranch(t: Tree)
    requires t.BranchT?
    ensures t in Branches(t) && t in Opened(t)
  {
  }

  lemma NoRepeatsConcat(a: seq<ExprNode>, b: seq<ExprNode>)
    requires NoRepeats(a) && NoRepeats(b) && Elements(a) !! Elements(b)
    ensures NoRepeats(a + b) && Elements(a + b) == Elements(a) + Elements(b)
  {
    forall i, j | 0 <= i < j < |a + b| ensures (a + b)[i] != (a + b)[j] {
      if i < |a| <= j {
        assert (a + b)[i] in Elements(a) && (a + b)[j] in Elements(b);
      }
    }
    assert forall x :: x in a + b <==> x in a || x in b;
  }

  lemma EarlierConcat(a: seq<ExprNode>, b: seq<ExprNode>, x: ExprNode, y: ExprNode)
    ensures Earlier(a, x, y) || Earlier(b, x, y) ==> Earlier(a + b, x, y)
    ensures x in a && y in b ==> Earlier(a + b, x, y)
  {
    if Earlier(a, x, y) {
      var i, j :| 0 <= i < j < |a| && a[i] == x && a[j] == y;
      assert (a + b)[i] == x && (a + b)[j] == y;
    }
    if Earlier(b, x, y) {
      var i, j :| 0 <= i < j < |b| && b[i] == x && b[j] == y;
      assert (a + b)[|a| + i] == x && (a + b)[|a| + j] == y;
    }
    if x in a && y in b {
      var i :| 0 <= i < |a| && a[i] == x;
      var j :| 0 <= j < |b| && b[j] == y;
      assert (a + b)[i] == x && (a + b)[|a| + j] == y;
    }
  }

  /** Below an operator everything is called before the operator itself. */
  ghost predicate OrderedBelow(s: seq<ExprNode>, bs: set<Tree>, job: Job) {
    forall b <- bs :: b.BranchT? && (job.Closes(b.node) ==> forall x <- TargetsBelow(b, job) :: Earlier(s, x, b.node))
  }

  lemma CountedBranch(p: ExprNode, t: Tree, job: Job)
    requires t.BranchT? && (job.operators == Simplifying ==> job.strategy == Post)
    ensures Counted(Calls(p, t, job), job) ==
            Counted(KidCalls(t.node, t.kids, job), job) + if job.Closes(t.node) then [t.node] else []
  {
    hide KidCalls, Counted;
    var calls := KidCalls(t.node, t.kids, job);
    var before := if job.BeforeKids(t.node) then [OpCall(p, t.node)] else [];
    var after := if job.AfterKids(t.node) then [OpCall(p, t.node)] else [];
    CountedConcat(before, calls, job);
    CountedConcat(before + calls, after, job);
    CountedOne(p, t.node, job);
  }

  lemma CountedOne(p: ExprNode, n: ExprNode, job: Job)
    ensures Counted([OpCall(p, n)], job) == if job.operators == Simplifying then [n] else []
    ensures Counted([], job) == []
  {
    assert [OpCall(p, n)][1..] == [];
  }

  /** Each target is called exactly once, and below an operator before it. */
  lemma {:induction false} CallsOnce(p: ExprNode, t: Tree, job: Job)
    requires Distinct(t) && (job.operators == Simplifying ==> job.strategy == Post)
    ensures var c := Counted(Calls(p, t, job), job);
            NoRepeats(c) && Elements(c) == Targets(t, job) && OrderedBelow(c, Opened(t), job)
    decreases t, 1
  {
    if t.BranchT? {
      hide Nodes, Below, Branches, Calls, KidCalls, Counted, NoRepeats, Earlier, Opened, OrderedBelow, TargetsBelow,
        Elements;
      KidCallsOnce(t, 0, job);
      assert t.kids[0..] == t.kids;
      var c := Counted(KidCalls(t.node, t.kids, job), job);
      CountedBranch(p, t, job);
      RootApart(t);
      TargetsAreNodes(t, job);
      FromStart(t, job);
      if job.Closes(t.node) {
        ClosingLast(c, t, job);
      } else {
        assert c + [] == c;
      }
    } else if t.LeafT? && job.comparisons {
      LeafOnce(p, t, job);
    }
  }

  lemma LeafOnce(p: ExprNode, t: Tree, job: Job)
    requires t.LeafT? && job.comparisons
    ensures Counted(Calls(p, t, job), job) == [t.node]
  {
    assert Calls(p, t, job)[1..] == [];
  }

  /** The operator's own call comes behind all the calls below it. */
  lemma ClosingLast(c: seq<ExprNode>, t: Tree, job: Job)
    requires t.BranchT? && t.node !in TargetsBelow(t, job)
    requires NoRepeats(c) && Elements(c) == TargetsBelow(t, job) && OrderedBelow(c, OpenedFrom(t, 0), job)
    ensures var d := c + [t.node];
            && NoRepeats(d) && Elements(d) == TargetsBelow(t, job) + {t.node}
            && OrderedBelow(d, {t} + OpenedFrom(t, 0), job)
  {
    hide NoRepeats, Earlier, TargetsBelow, OpenedFrom;
    OneNode(t.node);
    NoRepeatsConcat(c, [t.node]);
    forall b <- {t} + OpenedFrom(t, 0)
      ensures b.BranchT?
      ensures (job.Closes(b.node) ==> forall x <- TargetsBelow(b, job) :: Earlier(c + [t.node], x, b.node))
    {
      forall x | b.BranchT? && job.Closes(b.node) && x in TargetsBelow(b, job)
        ensures Earlier(c + [t.node], x, b.node)
      {
        EarlierConcat(c, [t.node], x, b.node);
        assert b == t ==> x in Elements(c);
      }
    }
  }

  lemma OneNode(n: ExprNode)
    ensures NoRepeats([n]) && Elements([n]) == {n}
  {
  }

  ghost function TargetsFrom(t: Tree, k: nat, job: Job): set<ExprNode>
    requires t.BranchT?
  {
    set j, x | k <= j < |t.kids| && Seen(t.kids[j]) && x in Targets(t.kids[j], job) :: x
  }

  ghost function OpenedFrom(t: Tree, k: nat): set<Tree>
    requires t.BranchT?
  {
    set j, b | k <= j < |t.kids| && Seen(t.kids[j]) && b in Opened(t.kids[j]) :: b
  }

  lemma FromStart(t: Tree, job: Job)
    requires t.BranchT?
    ensures TargetsFrom(t, 0, job) == TargetsBelow(t, job)
    ensures Opened(t) == {t} + OpenedFrom(t, 0)
  {
  }

  lemma FromNext(t: Tree, k: nat, job: Job)
    requires t.BranchT? && k < |t.kids|
    ensures TargetsFrom(t, k, job) ==
              (if Seen(t.kids[k]) then Targets(t.kids[k], job) else {}) + TargetsFrom(t, k + 1, job)
    ensures OpenedFrom(t, k) == (if Seen(t.kids[k]) then Opened(t.kids[k]) else {}) + OpenedFrom(t, k + 1)
  {
  }

  lemma FromApart(t: Tree, k: nat, job: Job)
    requires Distinct(t) && t.BranchT? && k < |t.kids|
    ensures Targets(t.kids[k], job) !! TargetsFrom(t, k + 1, job)
  {
    TargetsAreNodes(t.kids[k], job);
    forall x <- TargetsFrom(t, k + 1, job) ensures x !in Targets(t.kids[k], job) {
      var j :| k + 1 <= j < |t.kids| && Seen(t.kids[j]) && x in Targets(t.kids[j], job);
      TargetsAreNodes(t.kids[j], job);
      KidsApart(t, k, j);
    }
  }

  lemma {:induction false} KidCallsOnce(t: Tree, k: nat, job: Job)
    requires t.BranchT? && Distinct(t) && k <= |t.kids| && (job.operators == Simplifying ==> job.strategy == Post)
    ensures var c := Counted(KidCalls(t.node, t.kids[k..], job), job);
            NoRepeats(c) && Elements(c) == TargetsFrom(t, k, job) && OrderedBelow(c, OpenedFrom(t, k), job)
    decreases t, 0, |t.kids| - k
  {
    hide Nodes, Below, Branches, Targets, Opened, Calls;
    if k < |t.kids| {
      var kid, rest := t.kids[k], KidCalls(t.node, t.kids[k + 1..], job);
      assert t.kids[k..][1..] == t.kids[k + 1..];
      KidCallsOnce(t, k + 1, job);
      FromNext(t, k, job);
      if Seen(kid) {
        assert kid in t.kids && Distinct(kid);
        CallsOnce(t.node, kid, job);
        var c, d := Counted(Calls(t.node, kid, job), job), Counted(rest, job);
        CountedConcat(Calls(t.node, kid, job), rest, job);
        FromApart(t, k, job);
        NoRepeatsConcat(c, d);
        forall b <- Opened(kid) + OpenedFrom(t, k + 1)
          ensures b.BranchT? && (job.Closes(b.node) ==> forall x <- TargetsBelow(b, job) :: Earlier(c + d, x, b.node))
        {
          forall x | b.BranchT? && job.Closes(b.node) && x in TargetsBelow(b, job) ensures Earlier(c + d, x, b.node) {
            EarlierConcat(c, d, x, b.node);
          }
        }
      } else {
        assert KidCalls(t.node, t.kids[k..], job) == rest;
      }
    }
  }

  /** Comparisons in one list are called from left to right. */
  ghost predicate LeftToRight(s: seq<ExprNode>, b: Tree, k: nat) {
    b.BranchT? && forall i, j | k <= i < j < |b.kids| && b.kids[i].LeafT? && b.kids[j].LeafT? ::
      Earlier(s, b.kids[i].node, b.kids[j].node)
  }

  lemma {:induction false} CalledInOrder(p: ExprNode, t: Tree, job: Job)
    requires Tagged(t) && job.comparisons
    ensures forall b <- Opened(t) :: LeftToRight(Counted(Calls(p, t, job), job), b, 0)
    decreases t, 1
  {
    if t.BranchT? {
      hide Counted, KidCalls, Tagged, LeftToRight;
      KidsInOrder(t, 0, job);
      assert t.kids[0..] == t.kids;
      var calls := KidCalls(t.node, t.kids, job);
      var before := if job.BeforeKids(t.node) then [OpCall(p, t.node)] else [];
      var after := if job.AfterKids(t.node) then [OpCall(p, t.node)] else [];
      CountedConcat(before, calls, job);
      CountedConcat(before + calls, after, job);
      FromStart(t, job);
      forall b <- Opened(t) ensures LeftToRight(Counted(Calls(p, t, job), job), b, 0) {
        StillLeftToRight(Counted(before, job), Counted(calls, job), Counted(after, job), b, 0);
      }
    }
  }

  lemma StillLeftToRight(x: seq<ExprNode>, s: seq<ExprNode>, y: seq<ExprNode>, b: Tree, k: nat)
    requires LeftToRight(s, b, k)
    ensures LeftToRight(x + s + y, b, k)
  {
    hide Earlier;
    forall i, j | k <= i < j < |b.kids| && b.kids[i].LeafT? && b.kids[j].LeafT?
      ensures Earlier(x + s + y, b.kids[i].node, b.kids[j].node)
    {
      EarlierConcat(x, s, b.kids[i].node, b.kids[j].node);
      EarlierConcat(x + s, y, b.kids[i].node, b.kids[j].node);
    }
  }

  lemma {:induction false} KidsInOrder(t: Tree, k: nat, job: Job)
    requires t.BranchT? && Tagged(t) && job.comparisons && k <= |t.kids|
    ensures var c := Counted(KidCalls(t.node, t.kids[k..], job), job);
            && LeftToRight(c, t, k)
            && (forall b <- OpenedFrom(t, k) :: LeftToRight(c, b, 0))
            && (forall j :: k <= j < |t.kids| && t.kids[j].LeafT? ==> t.kids[j].node in c)
    decreases t, 0, |t.kids| - k, 1
  {
    hide Opened, OpenedFrom, Calls, LeftToRight, Counted;
    var all := Counted(KidCalls(t.node, t.kids[k..], job), job);
    if k < |t.kids| {
      var kid, d := t.kids[k], Counted(KidCalls(t.node, t.kids[k + 1..], job), job);
      assert kid in t.kids;
      KidsInOrder(t, k + 1, job);
      FromNext(t, k, job);
      var c := FirstCounted(t, k, job);
      forall b <- OpenedFrom(t, k) ensures LeftToRight(all, b, 0) {
        if Seen(kid) && b in Opened(kid) {
          StillLeftToRight([], c, d, b, 0);
          assert [] + c == c;
        } else {
          StillLeftToRight(c, d, [], b, 0);
          assert c + d + [] == c + d;
        }
      }
      FirstThenRest(c, d, t, k);
    } else {
      NothingToOrder(t, k, all);
      NoneOpened(t, k);
    }
  }

  lemma NoneOpened(t: Tree, k: nat)
    requires t.BranchT? && k >= |t.kids|
    ensures OpenedFrom(t, k) == {}
  {
  }

  /** The calls of the children from place k on begin with those of the first. */
  lemma {:induction false} FirstCounted(t: Tree, k: nat, job: Job) returns (c: seq<ExprNode>)
    requires t.BranchT? && Tagged(t) && job.comparisons && k < |t.kids|
    ensures Counted(KidCalls(t.node, t.kids[k..], job), job) == c + Counted(KidCalls(t.node, t.kids[k + 1..], job), job)
    ensures t.kids[k].LeafT? ==> c == [t.kids[k].node]
    ensures Seen(t.kids[k]) ==> c == Counted(Calls(t.node, t.kids[k], job), job)
    ensures Seen(t.kids[k]) ==> forall b <- Opened(t.kids[k]) :: LeftToRight(c, b, 0)
    decreases t, 0, |t.kids| - k, 0
  {
    hide Opened, Calls, LeftToRight, Counted;
    var kid, rest := t.kids[k], KidCalls(t.node, t.kids[k + 1..], job);
    assert kid in t.kids;
    assert t.kids[k..][1..] == t.kids[k + 1..] && t.kids[k..][0] == kid;
    c := if Seen(kid) then Counted(Calls(t.node, kid, job), job) else [];
    if Seen(kid) {
      CalledInOrder(t.node, kid, job);
      CountedConcat(Calls(t.node, kid, job), rest, job);
      if kid.LeafT? {
        LeafOnce(t.node, kid, job);
      }
    } else {
      assert KidCalls(t.node, t.kids[k..], job) == rest;
    }
  }

  lemma NothingToOrder(t: Tree, k: nat, s: seq<ExprNode>)
    requires t.BranchT? && k >= |t.kids|
    ensures LeftToRight(s, t, k)
  {
  }

  lemma FirstThenRest(c: seq<ExprNode>, d: seq<ExprNode>, t: Tree, k: nat)
    requires t.BranchT? && k < |t.kids| && LeftToRight(d, t, k + 1)
    requires t.kids[k].LeafT? ==> c == [t.kids[k].node]
    requires forall j :: k < j < |t.kids| && t.kids[j].LeafT? ==> t.kids[j].node in d
    ensures LeftToRight(c + d, t, k)
  {
    hide Earlier;
    forall i, j | k <= i < j < |t.kids| && t.kids[i].LeafT? && t.kids[j].LeafT?
      ensures Earlier(c + d, t.kids[i].node, t.kids[j].node)
    {
      EarlierConcat(c, d, t.kids[i].node, t.kids[j].node);
    }
  }

  /** Of all targets, those among the objects of a container that is opened are the container's own. */
  lemma {:induction false} TargetsWithin(t: Tree, b: Tree, job: Job)
    requires Distinct(t) && b in Opened(t)
    ensures Targets(t, job) * Nodes(b) == Targets(b, job)
    decreases t
  {
    hide Nodes, Below, Targets, TargetsBelow;
    TargetsAreNodes(b, job);
    if b != t {
      var k :| 0 <= k < |t.kids| && Seen(t.kids[k]) && b in Opened(t.kids[k]);
      assert t.kids[k] in t.kids;
      TargetsWithin(t.kids[k], b, job);
      OpenedIsBranch(t.kids[k], b);
      BranchNodes(t.kids[k], b);
      KidBelow(t, k);
      RootApart(t);
      TargetsAt(t, k, job);
      OwnTarget(t, job);
    }
  }

  lemma OwnTarget(t: Tree, job: Job)
    requires t.BranchT?
    ensures Targets(t, job) == (if job.Closes(t.node) then {t.node} else {}) + TargetsBelow(t, job)
  {
  }

  /** The targets among the objects of a child are the child's own, if the walk sees it. */
  lemma TargetsAt(t: Tree, k: nat, job: Job)
    requires Distinct(t) && t.BranchT? && k < |t.kids|
    ensures TargetsBelow(t, job) * Nodes(t.kids[k]) == if Seen(t.kids[k]) then Targets(t.kids[k], job) else {}
  {
    TargetsAreNodes(t.kids[k], job);
    forall x | x in TargetsBelow(t, job) && x in Nodes(t.kids[k])
      ensures Seen(t.kids[k]) && x in Targets(t.kids[k], job)
    {
      var j :| 0 <= j < |t.kids| && Seen(t.kids[j]) && x in Targets(t.kids[j], job);
      TargetsAreNodes(t.kids[j], job);
      OnePlace(t, j, k, x);
    }
  }
}
