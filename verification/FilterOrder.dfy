/** When a walk calls the operator callback: how often for each operator, and where among the other calls. */
module FilterOrder {
  import opened Options
  import opened FilterTree
  import opened ExprNodes
  import opened FilterTrees

  predicate AndOrNot(n: ExprNode) { n.tag in {GroupTag(And), GroupTag(Or), GroupTag(Not)} }

  /** How often the operator callback is called with n. */
  function Times(trace: seq<Call>, n: ExprNode): nat {
    if trace == [] then 0 else (if trace[0].OpCall? && trace[0].node == n then 1 else 0) + Times(trace[1..], n)
  }

  /** The call at i is the operator's, and all other calls of the operator and below it come later. */
  ghost predicate Leads(trace: seq<Call>, i: int, b: Tree) {
    && 0 <= i < |trace| && trace[i].OpCall? && trace[i].node == b.node
    && forall j :: 0 <= j < |trace| && j != i && trace[j].node in Nodes(b) ==> i < j
  }

  /** The call at i is the operator's, and all other calls of the operator and below it come earlier. */
  ghost predicate Closes(trace: seq<Call>, i: int, b: Tree) {
    && 0 <= i < |trace| && trace[i].OpCall? && trace[i].node == b.node
    && forall j :: 0 <= j < |trace| && j != i && trace[j].node in Nodes(b) ==> j < i
  }

  /** The calls an operator is to get, by strategy. */
  ghost predicate Ordered(trace: seq<Call>, b: Tree, callback: OpCallback, strategy: Strategy) {
    if callback == NoCallback then Times(trace, b.node) == 0
    else
      match strategy
      case Pre => Times(trace, b.node) == 1 && exists i :: Leads(trace, i, b)
      case Post => Times(trace, b.node) == 1 && exists i :: Closes(trace, i, b)
      case Both => Times(trace, b.node) == 2 && (exists i :: Leads(trace, i, b)) && exists i :: Closes(trace, i, b)
  }

  lemma {:induction false} TimesConcat(a: seq<Call>, b: seq<Call>, n: ExprNode)
    ensures Times(a + b, n) == Times(a, n) + Times(b, n)
  {
    if a == [] {
      assert a + b == b;
    } else {
      assert (a + b)[1..] == a[1..] + b;
      TimesConcat(a[1..], b, n);
    }
  }

  lemma {:induction false} TimesNone(a: seq<Call>, n: ExprNode)
    requires forall c <- a :: c.node != n
    ensures Times(a, n) == 0
  {
    if a != [] {
      TimesNone(a[1..], n);
    }
  }

  /** Calls elsewhere make no difference. */
  lemma OrderedWithin(x: seq<Call>, s: seq<Call>, y: seq<Call>, b: Tree, callback: OpCallback, strategy: Strategy)
    requires Ordered(s, b, callback, strategy)
    requires forall c :: c in x || c in y ==> c.node !in Nodes(b)
    ensures Ordered(x + s + y, b, callback, strategy)
  {
    NodeIn(b);
    TimesConcat(x, s, b.node);
    TimesConcat(x + s, y, b.node);
    TimesNone(x, b.node);
    TimesNone(y, b.node);
    if i :| Leads(s, i, b) {
      LeadsWithin(x, s, y, b, i);
    }
    if i :| Closes(s, i, b) {
      ClosesWithin(x, s, y, b, i);
    }
  }

  lemma Elsewhere(x: seq<Call>, s: seq<Call>, y: seq<Call>, b: Tree, j: nat)
    requires forall c :: c in x || c in y ==> c.node !in Nodes(b)
    requires j < |x + s + y| && (x + s + y)[j].node in Nodes(b)
    ensures |x| <= j < |x| + |s| && (x + s + y)[j] == s[j - |x|]
  {
    var t := x + s + y;
    assert forall i :: 0 <= i < |x| ==> t[i] == x[i];
    assert forall i :: |x| + |s| <= i < |t| ==> t[i] == y[i - |x| - |s|];
  }

  lemma LeadsWithin(x: seq<Call>, s: seq<Call>, y: seq<Call>, b: Tree, i: int)
    requires Leads(s, i, b) && forall c :: c in x || c in y ==> c.node !in Nodes(b)
    ensures Leads(x + s + y, |x| + i, b)
  {
    hide Nodes;
    var t := x + s + y;
    forall j | 0 <= j < |t| && j != |x| + i && t[j].node in Nodes(b) ensures |x| + i < j {
      Elsewhere(x, s, y, b, j);
    }
  }

  lemma ClosesWithin(x: seq<Call>, s: seq<Call>, y: seq<Call>, b: Tree, i: int)
    requires Closes(s, i, b) && forall c :: c in x || c in y ==> c.node !in Nodes(b)
    ensures Closes(x + s + y, |x| + i, b)
  {
    hide Nodes;
    var t := x + s + y;
    forall j | 0 <= j < |t| && j != |x| + i && t[j].node in Nodes(b) ensures j < |x| + i {
      Elsewhere(x, s, y, b, j);
    }
  }

  /** Calls are made with objects of the tree. */
  lemma {:induction false} CallsWithin(p: ExprNode, t: Tree, job: Job)
    ensures forall c <- Calls(p, t, job) :: c.node in Nodes(t)
    decreases t, 1
  {
    if t.BranchT? {
      hide Nodes, Below, KidCalls;
      KidCallsWithin(t, 0, job);
      assert t.kids[0..] == t.kids;
      BranchNodesAre(t);
    } else {
      NodeIn(t);
    }
  }

  lemma BranchNodesAre(t: Tree)
    requires t.BranchT?
    ensures Nodes(t) == {t.node} + Below(t)
  {
  }

  lemma {:induction false} KidCallsWithin(t: Tree, k: nat, job: Job)
    requires t.BranchT? && k <= |t.kids|
    ensures forall c <- KidCalls(t.node, t.kids[k..], job) ::
              exists i :: k <= i < |t.kids| && c.node in Nodes(t.kids[i])
    ensures forall c <- KidCalls(t.node, t.kids[k..], job) :: c.node in Below(t)
    decreases t, 0, |t.kids| - k
  {
    hide Nodes, Calls;
    if k < |t.kids| {
      assert t.kids[k..][1..] == t.kids[k + 1..];
      KidCallsWithin(t, k + 1, job);
      CallsWithin(t.node, t.kids[k], job);
      KidBelow(t, k);
    }
  }

  /** Every operator that a walk reaches is called as the strategy says. */
  lemma {:induction false} OperatorsOrdered(p: ExprNode, t: Tree, job: Job)
    requires Distinct(t) && Tagged(t)
    ensures forall b <- Opened(t) | AndOrNot(b.node) :: Ordered(Calls(p, t, job), b, job.operators, job.strategy)
    decreases t, 1
  {
    if t.BranchT? {
      hide Nodes, Below, KidCalls, Ordered, OpenedFrom;
      KidsOrdered(t, 0, job);
      assert t.kids[0..] == t.kids;
      FromStart(t, job);
      RootApart(t);
      KidCallsWithin(t, 0, job);
      var calls := KidCalls(t.node, t.kids, job);
      var before := if job.BeforeKids(t.node) then [OpCall(p, t.node)] else [];
      var after := if job.AfterKids(t.node) then [OpCall(p, t.node)] else [];
      forall b <- OpenedFrom(t, 0) | AndOrNot(b.node)
        ensures Ordered(before + calls + after, b, job.operators, job.strategy)
      {
        OpenedBelow(t, 0, b);
        OrderedWithin(before, calls, after, b, job.operators, job.strategy);
      }
      if AndOrNot(t.node) {
        OwnOrder(p, t, calls, job);
      }
    }
  }

  lemma OpenedBelow(t: Tree, k: nat, b: Tree)
    requires t.BranchT? && Distinct(t) && b in OpenedFrom(t, k)
    ensures Nodes(b) <= Below(t) && t.node !in Nodes(b)
    ensures exists i :: k <= i < |t.kids| && Nodes(b) <= Nodes(t.kids[i])
  {
    var i :| k <= i < |t.kids| && Seen(t.kids[i]) && b in Opened(t.kids[i]);
    OpenedIsBranch(t.kids[i], b);
    BranchNodes(t.kids[i], b);
    KidBelow(t, i);
    RootApart(t);
  }

  /** The operator's own calls around those of its children. */
  lemma OwnOrder(p: ExprNode, t: Tree, calls: seq<Call>, job: Job)
    requires t.BranchT? && AndOrNot(t.node) && t.node !in Below(t) && forall c <- calls :: c.node in Below(t)
    ensures var own := OpCall(p, t.node);
            var before := if job.BeforeKids(t.node) then [own] else [];
            var after := if job.AfterKids(t.node) then [own] else [];
            Ordered(before + calls + after, t, job.operators, job.strategy)
  {
    hide Below, Nodes;
    var own := OpCall(p, t.node);
    var before := if job.BeforeKids(t.node) then [own] else [];
    var after := if job.AfterKids(t.node) then [own] else [];
    var s := before + calls + after;
    TimesConcat(before, calls, t.node);
    TimesConcat(before + calls, after, t.node);
    TimesNone(calls, t.node);
    assert [own][1..] == [] && Times([own], t.node) == 1;
    if job.operators != NoCallback && job.strategy != Post {
      assert s[0] == own;
      assert Leads(s, 0, t);
    }
    if job.operators != NoCallback && job.strategy != Pre {
      assert s[|s| - 1] == own;
      assert Closes(s, |s| - 1, t);
    }
  }

  lemma {:induction false} KidsOrdered(t: Tree, k: nat, job: Job)
    requires t.BranchT? && Distinct(t) && Tagged(t) && k <= |t.kids|
    ensures forall b <- OpenedFrom(t, k) | AndOrNot(b.node) ::
              Ordered(KidCalls(t.node, t.kids[k..], job), b, job.operators, job.strategy)
    decreases t, 0, |t.kids| - k
  {
    hide Nodes, Below, Opened, OpenedFrom, Calls, Ordered;
    if k < |t.kids| {
      var kid, d := t.kids[k], KidCalls(t.node, t.kids[k + 1..], job);
      assert t.kids[k..][1..] == t.kids[k + 1..] && kid in t.kids;
      KidsOrdered(t, k + 1, job);
      FromNext(t, k, job);
      KidCallsWithin(t, k + 1, job);
      CallsWithin(t.node, kid, job);
      if Seen(kid) {
        OperatorsOrdered(t.node, kid, job);
      }
      var c := if Seen(kid) then Calls(t.node, kid, job) else [];
      assert KidCalls(t.node, t.kids[k..], job) == c + d;
      forall b <- OpenedFrom(t, k) | AndOrNot(b.node) ensures Ordered(c + d, b, job.operators, job.strategy) {
        if Seen(kid) && b in Opened(kid) {
          BesideKid(t, k, b, d);
          OrderedWithin([], c, d, b, job.operators, job.strategy);
          assert [] + c + d == c + d;
        } else {
          BehindKid(t, k, b, c);
          OrderedWithin(c, d, [], b, job.operators, job.strategy);
          assert c + d + [] == c + d;
        }
      }
    } else {
      NothingOpened(t, k);
    }
  }

  lemma NothingOpened(t: Tree, k: nat)
    requires t.BranchT? && k >= |t.kids|
    ensures OpenedFrom(t, k) == {}
  {
  }

  lemma BesideKid(t: Tree, k: nat, b: Tree, d: seq<Call>)
    requires t.BranchT? && Distinct(t) && k < |t.kids| && b in Opened(t.kids[k])
    requires forall c <- d :: exists i :: k + 1 <= i < |t.kids| && c.node in Nodes(t.kids[i])
    ensures forall c <- d :: c.node !in Nodes(b)
  {
    hide Nodes, Below, Opened, Distinct;
    OpenedIsBranch(t.kids[k], b);
    BranchNodes(t.kids[k], b);
    forall c <- d ensures c.node !in Nodes(b) {
      var i :| k + 1 <= i < |t.kids| && c.node in Nodes(t.kids[i]);
      KidsApart(t, k, i);
    }
  }

  lemma BehindKid(t: Tree, k: nat, b: Tree, c: seq<Call>)
    requires t.BranchT? && Distinct(t) && k < |t.kids| && b in OpenedFrom(t, k + 1)
    requires forall x <- c :: x.node in Nodes(t.kids[k])
    ensures forall x <- c :: x.node !in Nodes(b)
  {
    hide Nodes, Below, Opened, Distinct, OpenedFrom;
    OpenedBelow(t, k + 1, b);
    var i :| k + 1 <= i < |t.kids| && Nodes(b) <= Nodes(t.kids[i]);
    KidsApart(t, k, i);
  }

  /** What a call can be: of an operator that is reached, or of a comparison, and only if there is a callback for it. */
  ghost predicate Known(call: Call, t: Tree, job: Job) {
    match call
    case OpCall(_, n) => job.operators != NoCallback && AndOrNot(n) && exists b :: b in Opened(t) && b.node == n
    case CmpCall(_, n) => job.comparisons && exists l :: l in Leaves(t) && l.node == n
  }

  lemma {:induction false} CallsKnown(p: ExprNode, t: Tree, job: Job)
    requires Tagged(t)
    ensures forall c <- Calls(p, t, job) :: Known(c, t, job)
    decreases t, 1
  {
    if t.BranchT? {
      hide KidCalls, Opened, Leaves;
      KidCallsKnown(t, 0, job);
      assert t.kids[0..] == t.kids;
      OwnBranch(t);
    } else {
      hide Opened;
    }
  }

  lemma {:induction false} KidCallsKnown(t: Tree, k: nat, job: Job)
    requires t.BranchT? && Tagged(t) && k <= |t.kids|
    ensures forall c <- KidCalls(t.node, t.kids[k..], job) :: Known(c, t, job)
    decreases t, 0, |t.kids| - k
  {
    hide Calls, Known;
    if k < |t.kids| {
      assert t.kids[k..][1..] == t.kids[k + 1..] && t.kids[k] in t.kids;
      KidCallsKnown(t, k + 1, job);
      if Seen(t.kids[k]) {
        CallsKnown(t.node, t.kids[k], job);
        forall c <- Calls(t.node, t.kids[k], job) ensures Known(c, t, job) {
          KnownAbove(c, t, k, job);
        }
      }
    }
  }

  lemma KnownAbove(c: Call, t: Tree, k: nat, job: Job)
    requires t.BranchT? && k < |t.kids| && Seen(t.kids[k]) && Known(c, t.kids[k], job)
    ensures Known(c, t, job)
  {
    assert forall b <- Opened(t.kids[k]) :: b in Opened(t);
    assert forall l <- Leaves(t.kids[k]) :: l in Leaves(t);
  }
}
