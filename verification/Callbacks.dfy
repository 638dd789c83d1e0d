/** The two simplifications of the documented operator callback, done in place. */
module Callbacks {
  import opened Options
  import opened FilterTree
  import opened FilterMeaning
  import opened ExprNodes

  lemma {:induction false} CountSameConcat(a: seq<Option<Cmp>>, b: seq<Option<Cmp>>, c: Cmp)
    ensures CountSame(a + b, c) == CountSame(a, c) + CountSame(b, c)
  {
    hide Cmp.SameAs;
    if a == [] {
      assert a + b == b;
    } else {
      assert (a + b)[1..] == a[1..] + b;
      CountSameConcat(a[1..], b, c);
    }
  }

  lemma {:induction false} CountSamePositive(cs: seq<Option<Cmp>>, c: Cmp)
    ensures CountSame(cs, c) > 0 <==> exists i :: 0 <= i < |cs| && cs[i].Some? && c.SameAs(cs[i].value)
  {
    hide Cmp.SameAs;
    if cs != [] {
      CountSamePositive(cs[1..], c);
      if i :| 0 <= i < |cs[1..]| && cs[1..][i].Some? && c.SameAs(cs[1..][i].value) {
        assert cs[i + 1] == cs[1..][i];
      }
      assert forall i :: 1 <= i < |cs| ==> cs[i] == cs[1..][i - 1];
    }
  }

  /** What has become of the things once those in front of position j had their turn. */
  function Progress<T>(xs: seq<T>, cs: seq<Option<Cmp>>, j: nat): seq<T>
    requires j <= |xs| == |cs|
  {
    Keep(xs, cs, j) + xs[j..]
  }

  lemma ProgressKeeps<T>(xs: seq<T>, cs: seq<Option<Cmp>>, j: nat)
    requires j < |xs| == |cs| && !Dropped(cs, j)
    ensures Progress(xs, cs, j) == Progress(xs, cs, j + 1)
  {
    hide Dropped;
    assert xs[j..] == [xs[j]] + xs[j + 1..];
  }

  /** The next comparison at or behind position j; what lies between is kept. */
  lemma {:induction false} NextComparison(s: seq<ExprNode>, cs: seq<Option<Cmp>>, j: nat) returns (k: nat)
    requires |s| == |cs| && j <= |s|
    requires forall i :: 0 <= i < |s| ==> (cs[i].Some? <==> s[i].IsComparison())
    requires Comparisons(s[j..]) != []
    ensures j <= k < |s| && s[k].IsComparison() && Comparisons(s[j..]) == [s[k]] + Comparisons(s[k + 1..])
    ensures Progress(s, cs, j) == Progress(s, cs, k) && Progress(cs, cs, j) == Progress(cs, cs, k)
    decreases |s| - j
  {
    hide Keep, Progress;
    assert s[j..][1..] == s[j + 1..];
    if s[j].IsComparison() {
      k := j;
    } else {
      ProgressKeeps(s, cs, j);
      ProgressKeeps(cs, cs, j);
      k := NextComparison(s, cs, j + 1);
    }
  }

  /** When a comparison is looked at, only equal ones behind it are left to be counted. */
  lemma CountAtTurn(cs: seq<Option<Cmp>>, k: nat)
    requires k < |cs| && cs[k].Some?
    ensures CountSame(Progress(cs, cs, k), cs[k].value) > 1 <==> Dropped(cs, k)
  {
    hide Cmp.SameAs, Keep;
    var c := cs[k].value;
    var before, behind := Keep(cs, cs, k), cs[k + 1..];
    CountSameConcat(before, cs[k..], c);
    assert cs[k..][1..] == behind;
    SameReflexive(c);
    NoneBefore(cs, k);
    BehindIsDropped(cs, k);
  }

  lemma NoneBefore(cs: seq<Option<Cmp>>, k: nat)
    requires k < |cs| && cs[k].Some?
    ensures CountSame(Keep(cs, cs, k), cs[k].value) == 0
  {
    hide Cmp.SameAs, Keep, CountSame;
    var c, before := cs[k].value, Keep(cs, cs, k);
    CountSamePositive(before, c);
    if i :| 0 <= i < |before| && before[i].Some? && c.SameAs(before[i].value) {
      KeepMember(cs, cs, k, before[i]);
      assert before[i] in before;
      var m :| 0 <= m < k && cs[m] == before[i] && !Dropped(cs, m);
      SameSymmetric(c, cs[m].value);
      assert false;
    }
  }

  lemma BehindIsDropped(cs: seq<Option<Cmp>>, k: nat)
    requires k < |cs| && cs[k].Some?
    ensures CountSame(cs[k + 1..], cs[k].value) > 0 <==> Dropped(cs, k)
  {
    hide Cmp.SameAs, CountSame;
    var c, behind := cs[k].value, cs[k + 1..];
    CountSamePositive(behind, c);
    if Dropped(cs, k) {
      var j :| k < j < |cs| && cs[j].Some? && c.SameAs(cs[j].value);
      assert behind[j - k - 1] == cs[j];
    }
    if i :| 0 <= i < |behind| && behind[i].Some? && c.SameAs(behind[i].value) {
      assert cs[k + 1 + i] == behind[i];
    }
  }

  lemma SameReflexive(c: Cmp)
    ensures c.SameAs(c)
  {
  }

  lemma SameSymmetric(a: Cmp, b: Cmp)
    requires a.SameAs(b)
    ensures b.SameAs(a)
  {
  }

  /** The comparisons of what is left are what is left of the comparisons. */
  lemma {:induction false} ProgressCmps(s: seq<ExprNode>, cs: seq<Option<Cmp>>, n: nat)
    requires n <= |s| && cs == CmpsAt(s)
    ensures CmpsAt(Progress(s, cs, n)) == Progress(cs, cs, n)
  {
    KeepCmps(s, cs, n);
  }

  lemma {:induction false} KeepCmps(s: seq<ExprNode>, cs: seq<Option<Cmp>>, n: nat)
    requires n <= |s| && cs == CmpsAt(s)
    ensures CmpsAt(Keep(s, cs, n)) == Keep(cs, cs, n)
  {
    hide Dropped;
    if n > 0 {
      KeepCmps(s, cs, n - 1);
    }
  }

  lemma KeepAbsent(s: seq<ExprNode>, cs: seq<Option<Cmp>>, k: nat)
    requires k < |s| == |cs| && NoRepeats(s)
    ensures s[k] !in Keep(s, cs, k)
    ensures Position(Keep(s, cs, k) + s[k..], s[k]) == |Keep(s, cs, k)|
  {
    KeepMember(s, cs, k, s[k]);
    var all := Keep(s, cs, k) + s[k..];
    assert all[|Keep(s, cs, k)|] == s[k];
    assert forall i :: 0 <= i < |Keep(s, cs, k)| ==> all[i] in Keep(s, cs, k);
  }

  lemma TakenOut(s: seq<ExprNode>, cs: seq<Option<Cmp>>, k: nat)
    requires k < |s| == |cs| && NoRepeats(s) && Dropped(cs, k)
    ensures TakenFrom(Progress(s, cs, k), s[k]) == Progress(s, cs, k + 1)
  {
    hide Dropped, NoRepeats, Position;
    var kept, all := Keep(s, cs, k), Progress(s, cs, k);
    KeepAbsent(s, cs, k);
    assert all[..|kept|] == kept;
    assert all[|kept| + 1..] == s[k + 1..];
    assert Keep(s, cs, k + 1) == kept + [] == kept;
  }

  /** One turn: the comparison is removed exactly when an equal one stands behind it. */
  lemma Turn(s: seq<ExprNode>, cs: seq<Option<Cmp>>, j: nat) returns (k: nat)
    requires j <= |s| == |cs| && NoRepeats(s) && Comparisons(s[j..]) != []
    requires forall i :: 0 <= i < |s| ==> (cs[i].Some? <==> s[i].IsComparison())
    ensures j <= k < |s| && cs[k].Some? && Comparisons(s[j..]) == [s[k]] + Comparisons(s[k + 1..])
    ensures Progress(s, cs, k + 1) ==
            if CountSame(Progress(cs, cs, j), cs[k].value) > 1
            then TakenFrom(Progress(s, cs, j), s[k])
            else Progress(s, cs, j)
  {
    hide Dropped, Comparisons, CountSame, Position, NoRepeats, Progress, TakenFrom;
    k := NextComparison(s, cs, j);
    CountAtTurn(cs, k);
    if Dropped(cs, k) {
      TakenOut(s, cs, k);
    } else {
      ProgressKeeps(s, cs, k);
    }
  }

  /** For every comparison in turn: remove it if the group holds another equal one. */
  method DropDuplicates(expression: ExprNode)
    requires NoRepeats(expression.items)
    modifies expression`items
    ensures expression.items == KeepLast(old(expression.items), old(CmpsAt(expression.items)))
  {
    hide Progress, Comparisons, CountSame, Position, NoRepeats;
    ghost var s, cs, j := expression.items, CmpsAt(expression.items), 0;
    var todo := Comparisons(expression.items);
    StartProgress(s, cs);
    for n := 0 to |todo|
      invariant j <= |s| && cs == CmpsAt(s)
      invariant expression.items == Progress(s, cs, j)
      invariant Comparisons(s[j..]) == todo[n..]
    {
      assert todo[n..] == [todo[n]] + todo[n + 1..];
      ghost var k := Turn(s, cs, j);
      ProgressCmps(s, cs, j);
      if CountSame(CmpsAt(expression.items), todo[n].cmp) > 1 {
        var _ := expression.Remove(todo[n]);
        assert CmpsAt(s) == cs;
      }
      j := k + 1;
    }
    NoneLeft(s, cs, j);
  }

  lemma StartProgress(s: seq<ExprNode>, cs: seq<Option<Cmp>>)
    requires |s| == |cs|
    ensures Progress(s, cs, 0) == s && s[0..] == s
  {
  }

  lemma {:induction false} NoneLeft(s: seq<ExprNode>, cs: seq<Option<Cmp>>, j: nat)
    requires |s| == |cs| && j <= |s| && Comparisons(s[j..]) == []
    requires forall i :: 0 <= i < |s| ==> (cs[i].Some? <==> s[i].IsComparison())
    ensures Progress(s, cs, j) == KeepLast(s, cs)
    decreases |s| - j
  {
    if j < |s| {
      assert s[j..][0] == s[j] && s[j..][1..] == s[j + 1..];
      assert !Dropped(cs, j);
      hide Dropped, Progress, Keep;
      NoneLeft(s, cs, j + 1);
      ProgressKeeps(s, cs, j);
    } else {
      assert Keep(s, cs, j) + [] == Keep(s, cs, j);
    }
  }

  /** A group with one expression is unwrapped, unless it is negated. */
  predicate Collapses(expression: ExprNode, items: seq<ExprNode>) {
    |Expressions(items)| == 1 && expression.tag != GroupTag(Not)
  }

  /** What is to stand in the parent's place of a group with one expression. */
  function Unwrapped(expression: ExprNode, items: seq<ExprNode>): ExprNode {
    if Collapses(expression, items) then Expressions(items)[0] else expression
  }

  /**
   Deduplicates the group, then puts an only expression in its place, unless it is negated; false is
   the ValueError for a group that is no longer in its parent's list.
   */
  method Simplify(parent: ExprNode, expression: ExprNode) returns (found: bool)
    requires parent != expression && NoRepeats(expression.items)
    modifies parent`items, expression`items
    ensures expression.items == KeepLast(old(expression.items), old(CmpsAt(expression.items)))
    ensures var i, r := Position(old(parent.items), expression), Unwrapped(expression, expression.items);
            parent.items == if i == |old(parent.items)| then old(parent.items) else old(parent.items)[i := r]
    ensures found <==> expression in old(parent.items) || !Collapses(expression, expression.items)
  {
    DropDuplicates(expression);
    ExpressionCounts(expression.items);
    found := true;
    if |Comparisons(expression.items)| + |Operators(expression.items)| == 1 && expression.tag != GroupTag(Not) {
      found := parent.Replace(expression, Expressions(expression.items)[0]);
    }
  }

  /**
   The simplification before the children's callbacks, as in PRE order, then the swap of a comparison
   that is left. The swap reaches the filter if and only if the group was not unwrapped: an unwrapped
   group still takes the swap, but the comparison itself stands in its place.
   */
  method SimplifyThenSwap(parent: ExprNode, group: ExprNode, c: ExprNode, r: ExprNode)
    requires parent != group && NoRepeats(group.items) && NoRepeats(parent.items) && group in parent.items
    requires c in KeepLast(group.items, CmpsAt(group.items)) && c.IsExpression() && r !in parent.items + group.items
    requires c !in parent.items && group !in group.items && r != group
    modifies parent`items, group`items
    ensures var kept := KeepLast(old(group.items), old(CmpsAt(group.items)));
            && group.items == kept[Position(kept, c) := r]
            && (group in parent.items <==> !Collapses(group, kept))
            && (Collapses(group, kept) <==> parent.items == old(parent.items)[Position(old(parent.items), group) := c])
            && r !in parent.items
  {
    KeepMember(group.items, CmpsAt(group.items), |group.items|, c);
    var _ := Simplify(parent, group);
    SoleIs(group.items, c);
    var _ := group.Replace(c, r);
  }

  lemma {:induction false} SoleIs(s: seq<ExprNode>, c: ExprNode)
    requires c in s && c.IsExpression()
    ensures c in Expressions(s)
    ensures |Expressions(s)| == 1 ==> Expressions(s) == [c]
  {
    if s[0] != c {
      SoleIs(s[1..], c);
    }
  }
}
