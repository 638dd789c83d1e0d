/**
 Distinguished names as lists of parsed RDNs. Equality compares the tuple that is hashed, that is,
 hashing is taken to have no collisions. Of str.lower only its being a function is used, so it is a
 parameter of everything below.
 */
module DistinguishedNames {
  import opened Options
  import opened Ordering

  /** Attribute, value and the flags of one attribute value assertion. */
  type Ava = Triple

  type Rdn = seq<Ava>

  type Dn = seq<Rdn>

  type Lower = string -> string

  const CASE_INSENSITIVE := ["c", "cn", "dc", "l", "o", "ou", "uid"]

  function Normal(lower: Lower, a: Ava): Ava {
    var attr := lower(a.first);
    Triple(attr, if attr in CASE_INSENSITIVE then lower(a.second) else a.second, a.third)
  }

  function Normals(lower: Lower, rdn: Rdn): (r: Rdn)
    ensures |r| == |rdn| && forall i :: 0 <= i < |rdn| ==> r[i] == Normal(lower, rdn[i])
  {
    seq(|rdn|, i requires 0 <= i < |rdn| => Normal(lower, rdn[i]))
  }

  /** The tuple that is hashed: per RDN the sorted normalised triples. */
  function Key(lower: Lower, dn: Dn): (k: Dn)
    ensures |k| == |dn| && forall i :: 0 <= i < |dn| ==> k[i] == Sort(Normals(lower, dn[i]))
  {
    seq(|dn|, i requires 0 <= i < |dn| => Sort(Normals(lower, dn[i])))
  }

  predicate Equal(lower: Lower, a: Dn, b: Dn) { Key(lower, a) == Key(lower, b) }

  // ----- slices and what is built from them -----

  /** s[k:] with Python's treatment of negative and too large bounds. */
  function From<T>(s: seq<T>, k: int): seq<T> {
    if k >= |s| then [] else if k >= 0 then s[k..] else if |s| + k <= 0 then s else s[|s| + k..]
  }

  /** s[:k] for a bound that is not negative. */
  function UpTo<T>(s: seq<T>, k: nat): seq<T> { if k >= |s| then s else s[..k] }

  predicate EndsWith(lower: Lower, dn: Dn, other: Dn) {
    Equal(lower, From(dn, if |other| != 0 then -|other| else |dn|), other)
  }

  predicate StartsWith(lower: Lower, dn: Dn, other: Dn) {
    Equal(lower, UpTo(dn, |other|), other)
  }

  function Parent(dn: Dn): Option<Dn> { if |dn| > 1 then Some(dn[1..]) else None }

  function GetParent(lower: Lower, dn: Dn, end: Dn): Option<Dn> {
    if !EndsWith(lower, dn, end) || Equal(lower, dn, end) then None else Parent(dn)
  }

  // ----- equality -----

  /** Equal names have as many RDNs, and each pair has the same normalised assertions, however ordered. */
  lemma EqualExact(lower: Lower, a: Dn, b: Dn)
    ensures Equal(lower, a, b) <==>
            |a| == |b| && forall i :: 0 <= i < |a| ==> multiset(Normals(lower, a[i])) == multiset(Normals(lower, b[i]))
  {
    hide Normals, Sort;
    if |a| == |b| {
      forall i | 0 <= i < |a|
        ensures Key(lower, a)[i] == Key(lower, b)[i] <==>
                  multiset(Normals(lower, a[i])) == multiset(Normals(lower, b[i]))
      {
        SortSorts(Normals(lower, a[i]));
        SortSorts(Normals(lower, b[i]));
        if multiset(Normals(lower, a[i])) == multiset(Normals(lower, b[i])) {
          SortedIsCanonical(Sort(Normals(lower, a[i])), Sort(Normals(lower, b[i])));
        }
      }
      if forall i :: 0 <= i < |a| ==> multiset(Normals(lower, a[i])) == multiset(Normals(lower, b[i])) {
        assert Key(lower, a) == Key(lower, b);
      }
    } else {
      assert |Key(lower, a)| != |Key(lower, b)|;
    }
  }

  /** For one assertion each: types and flags agree, and values do as they are, or lowered for the seven types. */
  lemma EqualAssertions(lower: Lower, x: Ava, y: Ava)
    ensures Equal(lower, [[x]], [[y]]) <==>
              && lower(x.first) == lower(y.first) && x.third == y.third
              && (x.second == y.second
                  || (lower(x.first) in {"c", "cn", "dc", "l", "o", "ou", "uid"} && lower(x.second) == lower(y.second)))
  {
    EqualExact(lower, [[x]], [[y]]);
    SevenTypes(lower(x.first));
    SevenTypes(lower(y.first));
    assert Normals(lower, [x]) == [Normal(lower, x)] && Normals(lower, [y]) == [Normal(lower, y)];
    OneEach(Normal(lower, x), Normal(lower, y));
    assert Equal(lower, [[x]], [[y]]) <==> Normal(lower, x) == Normal(lower, y) by {
      assert [[x]][0] == [x] && [[y]][0] == [y];
    }
  }

  lemma OneEach(a: Ava, b: Ava)
    ensures multiset([a]) == multiset([b]) <==> a == b
  {
    assert a in multiset([a]);
  }

  lemma SevenTypes(t: string)
    ensures t in CASE_INSENSITIVE <==> t in {"c", "cn", "dc", "l", "o", "ou", "uid"}
  {
    var s := CASE_INSENSITIVE;
    assert s[0] == "c" && s[1] == "cn" && s[2] == "dc" && s[3] == "l" && s[4] == "o" && s[5] == "ou" && s[6] == "uid";
  }

  lemma KeySlice(lower: Lower, dn: Dn, i: nat, j: nat)
    requires i <= j <= |dn|
    ensures Key(lower, dn[i..j]) == Key(lower, dn)[i..j]
  {
    hide Normals, Sort;
  }

  /** Equal names have equal slices. */
  lemma EqualSlices(lower: Lower, a: Dn, b: Dn, i: nat, j: nat)
    requires Equal(lower, a, b) && i <= j <= |a|
    ensures |a| == |b| && Equal(lower, a[i..j], b[i..j])
  {
    assert |Key(lower, a)| == |Key(lower, b)|;
    KeySlice(lower, a, i, j);
    KeySlice(lower, b, i, j);
  }

  // ----- ancestry -----

  /** endswith holds exactly for suffixes. */
  lemma EndsWithExact(lower: Lower, dn: Dn, other: Dn)
    ensures EndsWith(lower, dn, other) <==> exists k :: 0 <= k <= |dn| && Equal(lower, dn[k..], other)
    ensures EndsWith(lower, dn, other) ==> |other| <= |dn| && Equal(lower, dn[|dn| - |other|..], other)
  {
    hide Normals, Sort;
    var n := |dn| - |other|;
    var s := From(dn, if |other| != 0 then -|other| else |dn|);
    assert EndsWith(lower, dn, other) ==> |Key(lower, s)| == |Key(lower, other)|;
    assert n >= 0 ==> s == dn[n..];
    if k :| 0 <= k <= |dn| && Equal(lower, dn[k..], other) {
      assert |Key(lower, dn[k..])| == |Key(lower, other)|;
      assert k == n;
    }
  }

  lemma StartsWithExact(lower: Lower, dn: Dn, other: Dn)
    ensures StartsWith(lower, dn, other) <==> exists k :: 0 <= k <= |dn| && Equal(lower, dn[..k], other)
  {
    hide Normals, Sort;
    assert StartsWith(lower, dn, other) ==> |Key(lower, UpTo(dn, |other|))| == |Key(lower, other)|;
    assert dn[..|dn|] == dn;
    if k :| 0 <= k <= |dn| && Equal(lower, dn[..k], other) {
      assert |Key(lower, dn[..k])| == |Key(lower, other)|;
    }
  }

  /** A partial order up to equality. */
  lemma EndsWithOrder(lower: Lower, a: Dn, b: Dn, c: Dn)
    ensures EndsWith(lower, a, a)
    ensures EndsWith(lower, a, b) && EndsWith(lower, b, c) ==> EndsWith(lower, a, c)
    ensures EndsWith(lower, a, b) && EndsWith(lower, b, a) ==> Equal(lower, a, b)
  {
    hide Key, EndsWith;
    EndsWithExact(lower, a, a);
    assert a[0..] == a;
    EndsWithExact(lower, a, b);
    EndsWithExact(lower, b, c);
    EndsWithExact(lower, b, a);
    EndsWithExact(lower, a, c);
    if EndsWith(lower, a, b) && EndsWith(lower, b, c) {
      var s := a[|a| - |b|..];
      SameLength(lower, s, b);
      EqualSlices(lower, s, b, |b| - |c|, |b|);
      assert s[|b| - |c|..|b|] == a[|a| - |c|..] && b[|b| - |c|..|b|] == b[|b| - |c|..];
      assert Equal(lower, a[|a| - |c|..], c);
    }
  }

  lemma SameLength(lower: Lower, a: Dn, b: Dn)
    requires Equal(lower, a, b)
    ensures |a| == |b|
  {
    assert |Key(lower, a)| == |Key(lower, b)|;
  }

  /** Equal names have the same ancestors and descendants, and start with the same names. */
  lemma AncestryRespectsEqual(lower: Lower, a: Dn, a': Dn, b: Dn, b': Dn)
    requires Equal(lower, a, a') && Equal(lower, b, b')
    ensures EndsWith(lower, a, b) <==> EndsWith(lower, a', b')
    ensures StartsWith(lower, a, b) <==> StartsWith(lower, a', b')
  {
    hide Key;
    SameLength(lower, a, a');
    SameLength(lower, b, b');
    if |b| <= |a| {
      EqualSlices(lower, a, a', |a| - |b|, |a|);
      EqualSlices(lower, a, a', 0, |b|);
      assert a[|a| - |b|..|a|] == a[|a| - |b|..] && a'[|a| - |b|..|a|] == a'[|a| - |b|..];
      assert a[0..|b|] == a[..|b|] && a'[0..|b|] == a'[..|b|];
    }
    EndsWithExact(lower, a, b);
    EndsWithExact(lower, a', b');
    assert UpTo(a, |b|) == a[..if |b| <= |a| then |b| else |a|];
    assert a[..|a|] == a && a'[..|a|] == a';
  }

  // ----- walk and get_parent -----

  function WalkStart(dn: Dn, base: Dn): nat { if |base| == 0 then 1 else |base| }

  /** All suffixes from the length of the base, but at least one, up to the name itself. */
  function WalkList(dn: Dn, base: Dn): (r: seq<Dn>)
    requires |base| <= |dn|
  {
    var least := WalkStart(dn, base);
    seq(|dn| + 1 - least, k requires 0 <= k < |dn| + 1 - least => dn[|dn| - least - k..])
  }

  /** DN.walk; None is the ValueError. */
  method Walk(lower: Lower, dn: Dn, base: Dn) returns (r: Option<seq<Dn>>)
    ensures r.Some? <==> EndsWith(lower, dn, base)
    ensures r.Some? ==> |base| <= |dn| && r.value == WalkList(dn, base)
  {
    hide Key, Equal, EndsWith;
    EndsWithExact(lower, dn, base);
    if !EndsWith(lower, dn, base) {
      return None;
    }
    var out, count := [], |dn| - (if |base| == 0 then 1 else |base|) + 1;
    for i := count downto 0
      invariant |out| == count - i
      invariant forall k :: 0 <= k < |out| ==> out[k] == dn[count - 1 - k..]
    {
      out := out + [dn[i..]];
    }
    r := Some(out);
  }

  /** The list climbs from the base to the name, one RDN at a time, and misses no suffix in between. */
  lemma WalkClimbs(lower: Lower, dn: Dn, base: Dn)
    requires EndsWith(lower, dn, base) && dn != []
    ensures |base| <= |dn|
    ensures var w := WalkList(dn, base);
            && w != [] && w[|w| - 1] == dn
            && (base != [] ==> Equal(lower, w[0], base)) && (base == [] ==> |w[0]| == 1)
            && (forall k :: 0 <= k < |w| - 1 ==> Parent(w[k + 1]) == Some(w[k]))
            && (forall k :: 0 <= k < |dn| && |dn| - k >= WalkStart(dn, base) ==> dn[k..] in w)
  {
    hide Key;
    EndsWithExact(lower, dn, base);
    var w, least := WalkList(dn, base), WalkStart(dn, base);
    forall k | 0 <= k < |w| - 1 ensures Parent(w[k + 1]) == Some(w[k]) {
      assert w[k + 1][1..] == w[k];
    }
    forall k | 0 <= k < |dn| && |dn| - k >= least ensures dn[k..] in w {
      assert w[|dn| - least - k] == dn[k..];
    }
  }

  /** Walks of equal names are equal, element by element. */
  lemma WalkRespectsEqual(lower: Lower, a: Dn, a': Dn, b: Dn, b': Dn)
    requires Equal(lower, a, a') && Equal(lower, b, b') && |b| <= |a|
    ensures |a'| == |a| && |b'| == |b| && |WalkList(a, b)| == |WalkList(a', b')|
    ensures forall k :: 0 <= k < |WalkList(a, b)| ==> Equal(lower, WalkList(a, b)[k], WalkList(a', b')[k])
  {
    hide Key;
    SameLength(lower, a, a');
    SameLength(lower, b, b');
    forall k | 0 <= k < |WalkList(a, b)| ensures Equal(lower, WalkList(a, b)[k], WalkList(a', b')[k]) {
      var i := |a| - WalkStart(a, b) - k;
      EqualSlices(lower, a, a', i, |a|);
      assert a[i..|a|] == a[i..] && a'[i..|a|] == a'[i..];
    }
  }

  /** get_parent applied k times. */
  function Climb(lower: Lower, dn: Dn, end: Dn, k: nat): Option<Dn> {
    if k == 0 then Some(dn)
    else
      var below := Climb(lower, dn, end, k - 1);
      if below.None? then None else GetParent(lower, below.value, end)
  }

  /** One step up from a suffix that is still long enough. */
  lemma StepUp(lower: Lower, dn: Dn, end: Dn, j: nat)
    requires EndsWith(lower, dn, end) && j <= |dn| && |end| <= |dn| - j
    ensures GetParent(lower, dn[j..], end) == if |dn| - j > WalkStart(dn, end) then Some(dn[j + 1..]) else None
    ensures Equal(lower, dn[j..], end) <==> |dn| - j == |end|
  {
    hide Key, EndsWith, Equal, From;
    var s := dn[j..];
    EndsWithExact(lower, dn, end);
    EndsWithExact(lower, s, end);
    assert s[|s| - |end|..] == dn[|dn| - |end|..];
    if s != [] {
      assert s[1..] == dn[j + 1..];
    }
    if Equal(lower, s, end) {
      SameLength(lower, s, end);
    }
  }

  lemma {:induction false} ClimbIsSuffix(lower: Lower, dn: Dn, end: Dn, k: nat)
    requires EndsWith(lower, dn, end)
    ensures |end| <= |dn|
    ensures Climb(lower, dn, end, k) ==
            if k <= |dn| - WalkStart(dn, end) || k == 0 then Some(dn[k..]) else None
  {
    hide Key, EndsWith, Equal, GetParent;
    EndsWithExact(lower, dn, end);
    if k > 0 {
      ClimbIsSuffix(lower, dn, end, k - 1);
      if k - 1 <= |dn| - WalkStart(dn, end) || k == 1 {
        StepUp(lower, dn, end, k - 1);
      }
    } else {
      assert dn[0..] == dn;
    }
  }

  /**
   Repeated get_parent arrives at the base exactly for a non-empty base the name ends with (or for
   the empty name); it does so in as many steps as the lengths differ, and then stops.
   */
  lemma ClimbArrives(lower: Lower, dn: Dn, end: Dn)
    ensures (exists k: nat :: Climb(lower, dn, end, k).Some? && Equal(lower, Climb(lower, dn, end, k).value, end))
            <==> EndsWith(lower, dn, end) && (end != [] || dn == [])
    ensures EndsWith(lower, dn, end) && end != [] ==>
              && |end| <= |dn|
              && Climb(lower, dn, end, |dn| - |end|) == Some(dn[|dn| - |end|..])
              && Equal(lower, dn[|dn| - |end|..], end)
              && Climb(lower, dn, end, |dn| - |end| + 1) == None
  {
    hide Key, EndsWith, Equal, GetParent, Climb;
    EndsWithExact(lower, dn, end);
    if EndsWith(lower, dn, end) {
      var n := |dn| - |end|;
      ClimbIsSuffix(lower, dn, end, n);
      ClimbIsSuffix(lower, dn, end, n + 1);
      if end != [] || dn == [] {
        assert Climb(lower, dn, end, n).Some? && Equal(lower, Climb(lower, dn, end, n).value, end);
      } else {
        forall k: nat | Climb(lower, dn, end, k).Some? ensures !Equal(lower, Climb(lower, dn, end, k).value, end) {
          ClimbIsSuffix(lower, dn, end, k);
          StepUp(lower, dn, end, k);
        }
      }
    } else {
      forall k: nat | Climb(lower, dn, end, k).Some? ensures !Equal(lower, Climb(lower, dn, end, k).value, end) {
        NoClimb(lower, dn, end, k);
        assert dn[0..] == dn;
      }
    }
  }

  lemma {:induction false} NoClimb(lower: Lower, dn: Dn, end: Dn, k: nat)
    requires !EndsWith(lower, dn, end)
    ensures Climb(lower, dn, end, k) == if k == 0 then Some(dn) else None
  {
    hide Key, EndsWith, Equal, Parent;
    if k > 0 {
      NoClimb(lower, dn, end, k - 1);
    }
  }

  /** A name object, which computes its hash once and keeps it. */
  class NameObject {
    const lower: Lower
    const rdns: Dn
    var cachedHash: Option<Dn>

    predicate Valid()
      reads this
    {
      cachedHash.Some? ==> cachedHash.value == Key(lower, rdns)
    }

    constructor (lower: Lower, rdns: Dn)
      ensures Valid() && this.lower == lower && this.rdns == rdns
    {
      this.lower, this.rdns, cachedHash := lower, rdns, None;
    }

    method Hash() returns (h: Dn)
      requires Valid()
      modifies this`cachedHash
      ensures Valid() && cachedHash == Some(h) && h == Key(lower, rdns)
    {
      if cachedHash.None? {
        cachedHash := Some(Key(lower, rdns));
      }
      h := cachedHash.value;
    }

    method Equals(other: NameObject) returns (same: bool)
      requires Valid() && other.Valid() && lower == other.lower
      modifies this`cachedHash, other`cachedHash
      ensures Valid() && other.Valid() && same == Equal(lower, rdns, other.rdns)
    {
      var mine := Hash();
      var others := other.Hash();
      same := mine == others;
    }
  }
}
