/** Sorting by a total order, and why the sorted form of a collection is canonical. */
module Ordering {

  /** Lexicographic order of texts by code point, as Python compares str. */
  predicate TextLe(a: string, b: string) {
    a == "" || (b != "" && (a[0] < b[0] || (a[0] == b[0] && TextLe(a[1..], b[1..]))))
  }

  lemma {:induction false} TextTotal(a: string, b: string)
    ensures TextLe(a, b) || TextLe(b, a)
    ensures TextLe(a, b) && TextLe(b, a) ==> a == b
  {
    if a != "" && b != "" && a[0] == b[0] {
      TextTotal(a[1..], b[1..]);
      assert a == [a[0]] + a[1..] && b == [b[0]] + b[1..];
    }
  }

  lemma {:induction false} TextTransitive(a: string, b: string, c: string)
    requires TextLe(a, b) && TextLe(b, c)
    ensures TextLe(a, c)
  {
    if a != "" && b != "" && c != "" && a[0] == b[0] == c[0] {
      TextTransitive(a[1..], b[1..], c[1..]);
    }
  }

  /** A triple as it is hashed: compared component by component. */
  datatype Triple = Triple(first: string, second: string, third: int)

  predicate Le(a: Triple, b: Triple) {
    if a.first != b.first then TextLe(a.first, b.first)
    else if a.second != b.second then TextLe(a.second, b.second)
    else a.third <= b.third
  }

  lemma LeTotal(a: Triple, b: Triple)
    ensures Le(a, b) || Le(b, a)
    ensures Le(a, b) && Le(b, a) ==> a == b
  {
    TextTotal(a.first, b.first);
    TextTotal(a.second, b.second);
  }

  lemma LeTransitive(a: Triple, b: Triple, c: Triple)
    requires Le(a, b) && Le(b, c)
    ensures Le(a, c)
  {
    TextTotal(a.first, b.first);
    TextTotal(b.first, c.first);
    TextTotal(a.second, b.second);
    TextTotal(b.second, c.second);
    if TextLe(a.first, b.first) && TextLe(b.first, c.first) {
      TextTransitive(a.first, b.first, c.first);
    }
    if TextLe(a.second, b.second) && TextLe(b.second, c.second) {
      TextTransitive(a.second, b.second, c.second);
    }
  }

  predicate IsSorted(s: seq<Triple>) {
    |s| > 1 ==> Le(s[0], s[1]) && IsSorted(s[1..])
  }

  function Insert(x: Triple, s: seq<Triple>): seq<Triple> {
    if s == [] || Le(x, s[0]) then [x] + s else [s[0]] + Insert(x, s[1..])
  }

  function Sort(s: seq<Triple>): seq<Triple> {
    if s == [] then [] else Insert(s[0], Sort(s[1..]))
  }

  lemma {:induction false} InsertSorted(x: Triple, s: seq<Triple>)
    requires IsSorted(s)
    ensures IsSorted(Insert(x, s)) && multiset(Insert(x, s)) == multiset(s) + multiset{x}
    ensures Insert(x, s)[0] == x || (s != [] && Insert(x, s)[0] == s[0])
  {
    if s == [] || Le(x, s[0]) {
      assert ([x] + s)[1..] == s;
    } else {
      InsertSorted(x, s[1..]);
      var t := Insert(x, s[1..]);
      LeTotal(x, s[0]);
      assert ([s[0]] + t)[1..] == t;
      assert s == [s[0]] + s[1..];
    }
  }

  lemma {:induction false} SortSorts(s: seq<Triple>)
    ensures IsSorted(Sort(s)) && multiset(Sort(s)) == multiset(s)
  {
    if s != [] {
      SortSorts(s[1..]);
      InsertSorted(s[0], Sort(s[1..]));
      assert s == [s[0]] + s[1..];
    }
  }

  lemma {:induction false} HeadIsLeast(s: seq<Triple>, x: Triple)
    requires IsSorted(s) && x in s
    ensures Le(s[0], x)
  {
    if x == s[0] {
      LeTotal(x, x);
    } else {
      assert x in s[1..];
      HeadIsLeast(s[1..], x);
      LeTransitive(s[0], s[1], x);
    }
  }

  lemma TailElements(s: seq<Triple>)
    requires s != []
    ensures multiset(s[1..]) == multiset(s) - multiset{s[0]}
  {
    assert s == [s[0]] + s[1..];
  }

  /** Two sorted sequences of the same elements are the same sequence. */
  lemma {:induction false} SortedIsCanonical(a: seq<Triple>, b: seq<Triple>)
    requires IsSorted(a) && IsSorted(b) && multiset(a) == multiset(b)
    ensures a == b
  {
    hide Le;
    assert |multiset(a)| == |a| && |multiset(b)| == |b|;
    if a != [] {
      assert a[0] in multiset(a) && b[0] in multiset(b);
      assert a[0] in multiset(b);
      assert b[0] in multiset(a);
      HeadIsLeast(a, b[0]);
      HeadIsLeast(b, a[0]);
      LeTotal(a[0], b[0]);
      TailElements(a);
      TailElements(b);
      SortedIsCanonical(a[1..], b[1..]);
      assert a == [a[0]] + a[1..] && b == [b[0]] + b[1..];
    }
  }
}
