/** Filter expressions as mutable objects, with the list operations of a container. */
module ExprNodes {
  import opened Options
  import opened FilterTree
  import opened FilterMeaning

  datatype Tag = ComparisonTag | TokenTag | GroupTag(cls: Cls)

  class ExprNode {
    const tag: Tag
    var cmp: Cmp // the attributes of a comparison; unused otherwise
    var items: seq<ExprNode> // the children of a container; empty otherwise

    constructor (tag: Tag, cmp: Cmp, items: seq<ExprNode>)
      ensures this.tag == tag && this.cmp == cmp && this.items == items
    {
      this.tag, this.cmp, this.items := tag, cmp, items;
    }

    predicate IsComparison() { tag.ComparisonTag? }

    predicate IsOperator() { tag.GroupTag? && tag.cls.Operator() }

    predicate IsExpression() { IsComparison() || IsOperator() }

    method Append(expression: ExprNode)
      modifies this`items
      ensures items == old(items) + [expression]
    {
      items := items + [expression];
    }

    method Insert(expression: ExprNode, index: int)
      modifies this`items
      ensures items == PutIn(old(items), expression, index)
    {
      items := PutIn(items, expression, index);
    }

    /** Puts the replacement where the very object stands first; false is the ValueError. */
    method Replace(expression: ExprNode, replacement: ExprNode) returns (found: bool)
      modifies this`items
      ensures found <==> expression in old(items)
      ensures !found ==> items == old(items)
      ensures found ==> var i := Position(old(items), expression); items == old(items)[i := replacement]
    {
      var i := Position(items, expression);
      found := i < |items|;
      if found {
        items := items[i := replacement];
      }
    }

    method Remove(expression: ExprNode) returns (found: bool)
      modifies this`items
      ensures found <==> expression in old(items)
      ensures !found ==> items == old(items)
      ensures items == TakenFrom(old(items), expression)
    {
      var i := Position(items, expression);
      found := i < |items|;
      if found {
        items := items[..i] + items[i + 1..];
      }
    }
  }

  /** Where list.insert puts something: a negative index counts from the end, and every index is cut to the list. */
  function InsertAt(n: nat, index: int): (at: nat)
    ensures at <= n
  {
    if index < 0 then (if n + index < 0 then 0 else n + index) else if index > n then n else index
  }

  function PutIn<T>(s: seq<T>, x: T, index: int): (r: seq<T>)
    ensures |r| == |s| + 1
  {
    var at := InsertAt(|s|, index);
    s[..at] + [x] + s[at..]
  }

  /** The list without the first occurrence. */
  function TakenFrom<T(==)>(s: seq<T>, e: T): (r: seq<T>)
    ensures forall x <- r :: x in s
  {
    var i := Position(s, e);
    if i < |s| then s[..i] + s[i + 1..] else s
  }

  lemma PutInMembers<T>(s: seq<T>, x: T, index: int)
    ensures forall y :: y in PutIn(s, x, index) <==> y in s || y == x
  {
    var at := InsertAt(|s|, index);
    assert s == s[..at] + s[at..];
  }

  /** What stands at one place only is gone once it is taken out. */
  lemma TakenFromPlace<T>(s: seq<T>, i: nat)
    requires i < |s| && forall j :: 0 <= j < |s| && j != i ==> s[j] != s[i]
    ensures Position(s, s[i]) == i && TakenFrom(s, s[i]) == s[..i] + s[i + 1..]
    ensures forall y :: y in TakenFrom(s, s[i]) <==> y in s && y != s[i]
  {
    assert s == s[..i] + [s[i]] + s[i + 1..];
    assert forall y :: y in s <==> y in s[..i] || y == s[i] || y in s[i + 1..];
  }

  /** An inserted object stands at its index, counted from the front or the end; taking it out again undoes it. */
  lemma InsertThenRemove(s: seq<ExprNode>, x: ExprNode, index: int)
    requires x !in s
    ensures var r := PutIn(s, x, index);
            && (0 <= index <= |s| ==> r[index] == x)
            && (-|s| <= index < 0 ==> r[|s| + index] == x && |r| - (|s| + index) == 1 - index)
            && (index > |s| ==> r[|s|] == x) && (index < -|s| ==> r[0] == x)
            && TakenFrom(r, x) == s
  {
    var r, at := PutIn(s, x, index), InsertAt(|s|, index);
    PutInAt(s, x, index);
    hide TakenFrom, Position, PutIn;
    assert forall j :: 0 <= j < |r| && j != at ==> r[j] in s;
    TakenFromPlace(r, at);
  }

  lemma PutInAt<T>(s: seq<T>, x: T, index: int)
    ensures var r, at := PutIn(s, x, index), InsertAt(|s|, index);
            && r[at] == x && r[..at] + r[at + 1..] == s
            && (forall j :: 0 <= j < at ==> r[j] == s[j]) && (forall j :: at < j < |r| ==> r[j] == s[j - 1])
  {
  }

  /** Index of the first occurrence of the very object, or the length. */
  function Position<T(==)>(s: seq<T>, e: T): (i: nat)
    ensures i <= |s| && (i < |s| <==> e in s)
    ensures i < |s| ==> s[i] == e
    ensures forall j :: 0 <= j < i ==> s[j] != e
  {
    if s == [] then 0 else if s[0] == e then 0 else 1 + Position(s[1..], e)
  }

  function Comparisons(s: seq<ExprNode>): seq<ExprNode> {
    if s == [] then [] else (if s[0].IsComparison() then [s[0]] else []) + Comparisons(s[1..])
  }

  function Operators(s: seq<ExprNode>): seq<ExprNode> {
    if s == [] then [] else (if s[0].IsOperator() then [s[0]] else []) + Operators(s[1..])
  }

  function Expressions(s: seq<ExprNode>): seq<ExprNode> {
    if s == [] then [] else (if s[0].IsExpression() then [s[0]] else []) + Expressions(s[1..])
  }

  lemma {:induction false} ExpressionCounts(s: seq<ExprNode>)
    ensures |Comparisons(s)| + |Operators(s)| == |Expressions(s)|
  {
    if s != [] {
      ExpressionCounts(s[1..]);
    }
  }

  function CmpAt(e: ExprNode): Option<Cmp>
    reads e`cmp
  {
    if e.IsComparison() then Some(e.cmp) else None
  }

  function CmpsAt(s: seq<ExprNode>): (cs: seq<Option<Cmp>>)
    reads s
    ensures |cs| == |s| && forall i :: 0 <= i < |s| ==> cs[i] == CmpAt(s[i])
  {
    seq(|s|, i requires 0 <= i < |s| reads s => CmpAt(s[i]))
  }

  /** How many of the comparisons equal c. */
  function CountSame(cs: seq<Option<Cmp>>, c: Cmp): nat {
    if cs == [] then 0 else (if cs[0].Some? && c.SameAs(cs[0].value) then 1 else 0) + CountSame(cs[1..], c)
  }

  predicate NoRepeats(s: seq<ExprNode>) {
    forall i, j :: 0 <= i < j < |s| ==> s[i] != s[j]
  }
}
