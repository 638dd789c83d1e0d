/** The name an entry gets when a modification writes attributes of its RDN. */
module RdnRewrite {
  import opened Options
  import opened Ordering
  import opened DistinguishedNames

  datatype ModOp = Add | Delete | Replace | Increment

  /** One value, a list of values, or none; values are texts, already decoded. */
  datatype ModValue = Absent | Single(text: string) | Several(texts: seq<string>) {
    predicate Truthy() { (Single? && text != "") || (Several? && texts != []) }

    function First(): string
      requires Truthy()
    {
      if Single? then text else texts[0]
    }
  }

  datatype Mod = Mod(op: ModOp, key: string, val: ModValue)

  datatype Outcome = Changed(dn: Dn) | Failed(error: Error)

  datatype Error = IndexError | InvalidName

  const AVA_STRING := 1

  /** The dictionary of the RDN: attribute in lower case to value, a later one overwriting. */
  function DnVals(lower: Lower, rdn: Rdn): (m: map<string, string>)
    ensures forall i :: 0 <= i < |rdn| ==> lower(rdn[i].first) in m
  {
    if rdn == [] then map[]
    else
      var n := |rdn| - 1;
      assert forall i :: 0 <= i < n ==> rdn[i] == rdn[..n][i];
      DnVals(lower, rdn[..n])[lower(rdn[n].first) := rdn[n].second]
  }

  /** A modification that can change the RDN attribute named. */
  predicate Writes(lower: Lower, m: Mod, key: string) {
    lower(m.key) == key && m.val.Truthy() && m.op != Delete
  }

  /** The dictionary of new values: only attributes of the RDN, a later modification overwriting. */
  function NewVals(lower: Lower, names: map<string, string>, ml: seq<Mod>): map<string, string> {
    if ml == [] then map[]
    else
      var n := |ml| - 1;
      var before := NewVals(lower, names, ml[..n]);
      if lower(ml[n].key) in names && Writes(lower, ml[n], lower(ml[n].key))
      then before[lower(ml[n].key) := ml[n].val.First()]
      else before
  }

  function Rebuilt(lower: Lower, rdn: Rdn, ml: seq<Mod>): (r: Rdn)
    ensures |r| == |rdn|
  {
    var own := DnVals(lower, rdn);
    var written := NewVals(lower, own, ml);
    seq(|rdn|, i requires 0 <= i < |rdn| =>
      var key := lower(rdn[i].first);
      Triple(rdn[i].first, if key in written then written[key] else own[key], AVA_STRING))
  }

  /** Connection._compute_changed_dn. Appending the text of a missing parent makes no valid name. */
  function Compute(lower: Lower, dn: Dn, ml: seq<Mod>): Outcome {
    if dn == [] then Failed(IndexError)
    else
      var rdn := Rebuilt(lower, dn[0], ml);
      if Equal(lower, [dn[0]], [rdn]) then Changed(dn)
      else if Parent(dn).None? then Failed(InvalidName)
      else Changed([rdn] + Parent(dn).value)
  }

  // ----- the value of an attribute after the modifications -----

  /** The first value of the last modification that writes the attribute. */
  function LastWritten(lower: Lower, ml: seq<Mod>, key: string): Option<string> {
    if ml == [] then None
    else if Writes(lower, ml[|ml| - 1], key) then Some(ml[|ml| - 1].val.First())
    else LastWritten(lower, ml[..|ml| - 1], key)
  }

  /** The last value the RDN itself gives for the attribute. */
  function LastOwn(lower: Lower, rdn: Rdn, key: string): Option<string> {
    if rdn == [] then None
    else if lower(rdn[|rdn| - 1].first) == key then Some(rdn[|rdn| - 1].second)
    else LastOwn(lower, rdn[..|rdn| - 1], key)
  }

  lemma {:induction false} NewValsIsLastWritten(lower: Lower, names: map<string, string>, ml: seq<Mod>, key: string)
    ensures Lookup(NewVals(lower, names, ml), key) == if key in names then LastWritten(lower, ml, key) else None
  {
    if ml != [] {
      NewValsIsLastWritten(lower, names, ml[..|ml| - 1], key);
    }
  }

  lemma {:induction false} DnValsIsLastOwn(lower: Lower, rdn: Rdn, key: string)
    ensures Lookup(DnVals(lower, rdn), key) == LastOwn(lower, rdn, key)
  {
    if rdn != [] {
      DnValsIsLastOwn(lower, rdn[..|rdn| - 1], key);
    }
  }

  /** Attribute types are kept; each value is the last one written, or else the RDN's own. */
  lemma RebuiltValues(lower: Lower, rdn: Rdn, ml: seq<Mod>, i: nat)
    requires i < |rdn|
    ensures var a := Rebuilt(lower, rdn, ml)[i]; var key := lower(rdn[i].first);
            && a.first == rdn[i].first && a.third == AVA_STRING
            && Some(a.second) ==
               (if LastWritten(lower, ml, key).Some? then LastWritten(lower, ml, key) else LastOwn(lower, rdn, key))
  {
    var key := lower(rdn[i].first);
    NewValsIsLastWritten(lower, DnVals(lower, rdn), ml, key);
    DnValsIsLastOwn(lower, rdn, key);
  }

  /** A modification that sets the attribute: no deletion, and with a value that is there and not empty. */
  predicate Sets(lower: Lower, m: Mod, key: string) {
    && lower(m.key) == key && m.op in {Add, Replace, Increment}
    && match m.val
       case Absent => false
       case Single(text) => text != ""
       case Several(texts) => |texts| > 0
  }

  /** The value, or the first of the values. */
  predicate Gives(val: ModValue, text: string) {
    val == Single(text) || (val.Several? && |val.texts| > 0 && val.texts[0] == text)
  }

  lemma {:induction false} LastSet(lower: Lower, ml: seq<Mod>, key: string, k: nat)
    requires k < |ml| && Sets(lower, ml[k], key) && forall j :: k < j < |ml| ==> !Sets(lower, ml[j], key)
    ensures LastWritten(lower, ml, key).Some? && Gives(ml[k].val, LastWritten(lower, ml, key).value)
  {
    if k < |ml| - 1 {
      assert forall j :: 0 <= j < |ml| - 1 ==> ml[..|ml| - 1][j] == ml[j];
      LastSet(lower, ml[..|ml| - 1], key, k);
    }
  }

  lemma {:induction false} NoneSet(lower: Lower, ml: seq<Mod>, key: string)
    requires forall m <- ml :: !Sets(lower, m, key)
    ensures LastWritten(lower, ml, key) == None
  {
    if ml != [] {
      assert forall m <- ml[..|ml| - 1] :: m in ml;
      assert ml[|ml| - 1] in ml;
      NoneSet(lower, ml[..|ml| - 1], key);
    }
  }

  /** The new value on the list itself: the first of the last modification that sets the attribute, or the old one. */
  lemma NewValueExactly(lower: Lower, rdn: Rdn, ml: seq<Mod>, i: nat)
    requires i < |rdn|
    ensures var value, key := Rebuilt(lower, rdn, ml)[i].second, lower(rdn[i].first);
            && (forall k | 0 <= k < |ml| && Sets(lower, ml[k], key) ::
                  (forall j :: k < j < |ml| ==> !Sets(lower, ml[j], key)) ==> Gives(ml[k].val, value))
            && ((forall m <- ml :: !Sets(lower, m, key)) && DistinctTypes(lower, rdn) ==> value == rdn[i].second)
  {
    hide Rebuilt, Sets, LastWritten;
    var key := lower(rdn[i].first);
    RebuiltValues(lower, rdn, ml, i);
    forall k | 0 <= k < |ml| && Sets(lower, ml[k], key) && (forall j :: k < j < |ml| ==> !Sets(lower, ml[j], key))
      ensures LastWritten(lower, ml, key).Some? && Gives(ml[k].val, LastWritten(lower, ml, key).value)
    {
      LastSet(lower, ml, key, k);
    }
    if forall m <- ml :: !Sets(lower, m, key) {
      NoneSet(lower, ml, key);
      if DistinctTypes(lower, rdn) {
        OwnValue(lower, rdn, i);
      }
    }
  }

  predicate DistinctTypes(lower: Lower, rdn: Rdn) {
    forall i, j :: 0 <= i < j < |rdn| ==> lower(rdn[i].first) != lower(rdn[j].first)
  }

  lemma {:induction false} OwnValue(lower: Lower, rdn: Rdn, i: nat)
    requires DistinctTypes(lower, rdn) && i < |rdn|
    ensures LastOwn(lower, rdn, lower(rdn[i].first)) == Some(rdn[i].second)
  {
    var n := |rdn| - 1;
    if i < n {
      assert rdn[..n][i] == rdn[i];
      OwnValue(lower, rdn[..n], i);
    }
  }

  /** Whatever the RDN, the result is the rebuilt RDN over the same parent, up to equality of names. */
  lemma ComputeExact(lower: Lower, dn: Dn, ml: seq<Mod>)
    ensures dn == [] <==> Compute(lower, dn, ml) == Failed(IndexError)
    ensures Compute(lower, dn, ml) == Failed(InvalidName) <==>
            |dn| == 1 && !Equal(lower, dn, [Rebuilt(lower, dn[0], ml)])
    ensures Compute(lower, dn, ml).Changed? ==>
              var r := Compute(lower, dn, ml).dn;
              && |r| == |dn| > 0 && r[1..] == dn[1..]
              && Equal(lower, r, [Rebuilt(lower, dn[0], ml)] + dn[1..])
              && (r == dn || r[0] == Rebuilt(lower, dn[0], ml))
  {
    hide Rebuilt, Normals, Sort;
    if dn != [] {
      var rdn := Rebuilt(lower, dn[0], ml);
      var whole := [rdn] + dn[1..];
      assert dn == [dn[0]] + dn[1..];
      assert |dn| == 1 ==> dn == [dn[0]];
      if Equal(lower, [dn[0]], [rdn]) {
        assert Key(lower, [dn[0]])[0] == Key(lower, [rdn])[0];
        assert Key(lower, dn) == Key(lower, whole);
      }
      assert whole[1..] == dn[1..];
    }
  }

  /** For an RDN with distinct types, over a parent: which value every attribute ends up with. */
  lemma ComputeValues(lower: Lower, dn: Dn, ml: seq<Mod>, i: nat)
    requires |dn| > 1 && DistinctTypes(lower, dn[0]) && i < |dn[0]|
    ensures Compute(lower, dn, ml).Changed?
    ensures var r := Compute(lower, dn, ml).dn; var w := LastWritten(lower, ml, lower(dn[0][i].first));
            && Parent(r) == Parent(dn)
            && Equal(lower, r, [Rebuilt(lower, dn[0], ml)] + dn[1..])
            && Rebuilt(lower, dn[0], ml)[i] ==
               Triple(dn[0][i].first, if w.Some? then w.value else dn[0][i].second, AVA_STRING)
  {
    hide Equal, Rebuilt;
    ComputeExact(lower, dn, ml);
    RebuiltValues(lower, dn[0], ml, i);
    OwnValue(lower, dn[0], i);
  }

  // ----- rewriting twice, and rewriting nothing -----

  /** Only the types and the values that are looked up determine what is rebuilt. */
  lemma RebuiltAgain(lower: Lower, rdn: Rdn, ml: seq<Mod>)
    ensures Rebuilt(lower, Rebuilt(lower, rdn, ml), ml) == Rebuilt(lower, rdn, ml)
  {
    hide Rebuilt;
    var r := Rebuilt(lower, rdn, ml);
    var s := Rebuilt(lower, r, ml);
    forall i | 0 <= i < |r| ensures s[i] == r[i] {
      RebuiltValues(lower, rdn, ml, i);
      RebuiltValues(lower, r, ml, i);
      var key := lower(rdn[i].first);
      if LastWritten(lower, ml, key).None? {
        LastOwnOfRebuilt(lower, rdn, ml, key, |rdn|);
        assert r[..|r|] == r;
      }
    }
  }

  lemma {:induction false} LastOwnOfRebuilt(lower: Lower, rdn: Rdn, ml: seq<Mod>, key: string, n: nat)
    requires n <= |rdn| && LastWritten(lower, ml, key).None?
    ensures var own := LastOwn(lower, Rebuilt(lower, rdn, ml)[..n], key); own == None || own == LastOwn(lower, rdn, key)
  {
    hide Rebuilt;
    if n > 0 {
      var r := Rebuilt(lower, rdn, ml);
      LastOwnOfRebuilt(lower, rdn, ml, key, n - 1);
      RebuiltValues(lower, rdn, ml, n - 1);
      assert r[..n][..n - 1] == r[..n - 1];
    }
  }

  /** Applying the modifications to the new name gives the new name again. */
  lemma ComputeTwice(lower: Lower, dn: Dn, ml: seq<Mod>)
    requires Compute(lower, dn, ml).Changed?
    ensures Compute(lower, Compute(lower, dn, ml).dn, ml) == Compute(lower, dn, ml)
  {
    hide Rebuilt, Equal, Key;
    var r := Compute(lower, dn, ml).dn;
    RebuiltAgain(lower, dn[0], ml);
    EqualSelf(lower, [r[0]]);
  }

  lemma EqualSelf(lower: Lower, dn: Dn)
    ensures Equal(lower, dn, dn)
  {
  }

  /** Plain strings only, and assertions of one type agree on their value. */
  predicate Settled(lower: Lower, rdn: Rdn) {
    forall i :: 0 <= i < |rdn| ==>
      Normal(lower, rdn[i]) == Normal(lower, Triple(rdn[i].first, OwnOr(lower, rdn, i), AVA_STRING))
  }

  function OwnOr(lower: Lower, rdn: Rdn, i: nat): string
    requires i < |rdn|
  {
    var own := LastOwn(lower, rdn, lower(rdn[i].first));
    if own.Some? then own.value else rdn[i].second
  }

  predicate Untouched(lower: Lower, rdn: Rdn, ml: seq<Mod>) {
    forall i :: 0 <= i < |rdn| ==> LastWritten(lower, ml, lower(rdn[i].first)).None?
  }

  /** What one type looks like in the rebuilt RDN depends on the type only. */
  lemma RebuiltByType(lower: Lower, rdn: Rdn, ml: seq<Mod>, i: nat, j: nat)
    requires i < |rdn| && j < |rdn| && lower(rdn[i].first) == lower(rdn[j].first)
    ensures Normal(lower, Rebuilt(lower, rdn, ml)[i]) == Normal(lower, Rebuilt(lower, rdn, ml)[j])
  {
    hide Rebuilt;
    RebuiltValues(lower, rdn, ml, i);
    RebuiltValues(lower, rdn, ml, j);
  }

  /** An RDN equals the one rebuilt from it only assertion by assertion. */
  lemma RebuiltEqual(lower: Lower, rdn: Rdn, ml: seq<Mod>)
    ensures Equal(lower, [rdn], [Rebuilt(lower, rdn, ml)]) <==>
            forall i :: 0 <= i < |rdn| ==> Normal(lower, rdn[i]) == Normal(lower, Rebuilt(lower, rdn, ml)[i])
  {
    hide Rebuilt, Normal, Equal;
    var r := Rebuilt(lower, rdn, ml);
    var a, b := Normals(lower, rdn), Normals(lower, r);
    EqualExact(lower, [rdn], [r]);
    assert [rdn][0] == rdn && [r][0] == r;
    if multiset(a) == multiset(b) {
      forall i | 0 <= i < |rdn| ensures a[i] == b[i] {
        assert a[i] in multiset(a);
        assert a[i] in multiset(b);
        assert a[i] in b;
        var j :| 0 <= j < |b| && b[j] == a[i];
        RebuiltValues(lower, rdn, ml, j);
        NormalType(lower, rdn[i], r[j]);
        RebuiltByType(lower, rdn, ml, i, j);
      }
    }
    if forall i :: 0 <= i < |rdn| ==> Normal(lower, rdn[i]) == Normal(lower, r[i]) {
      assert a == b;
    }
  }

  lemma NormalType(lower: Lower, a: Ava, b: Ava)
    requires Normal(lower, a) == Normal(lower, b)
    ensures lower(a.first) == lower(b.first)
  {
  }

  /** What the modifications leave an assertion with: the last value written, or else the RDN's own. */
  function NewValue(lower: Lower, rdn: Rdn, ml: seq<Mod>, i: nat): string
    requires i < |rdn|
  {
    var w := LastWritten(lower, ml, lower(rdn[i].first));
    if w.Some? then w.value else OwnOr(lower, rdn, i)
  }

  /** Whatever the modifications, the name is left alone exactly when no assertion changes, up to equality. */
  lemma UnchangedExact(lower: Lower, dn: Dn, ml: seq<Mod>)
    requires dn != []
    ensures Compute(lower, dn, ml) == Changed(dn) <==>
            forall i :: 0 <= i < |dn[0]| ==>
              Normal(lower, dn[0][i]) ==
              Normal(lower, Triple(dn[0][i].first, NewValue(lower, dn[0], ml, i), AVA_STRING))
  {
    hide Rebuilt, Normal, Equal;
    var rdn := dn[0];
    var r := Rebuilt(lower, rdn, ml);
    RebuiltEqual(lower, rdn, ml);
    forall i | 0 <= i < |rdn| ensures r[i] == Triple(rdn[i].first, NewValue(lower, rdn, ml, i), AVA_STRING) {
      RebuiltValues(lower, rdn, ml, i);
    }
    if !Equal(lower, [rdn], [r]) && |dn| > 1 {
      assert ([r] + dn[1..])[0] == r;
      if r == rdn {
        EqualSelf(lower, [rdn]);
      }
    }
  }

  /** Two assertions of one type with different values: every list of modifications, even no list, changes the name. */
  lemma RepeatedTypeIsAlwaysRenamed(lower: Lower, dn: Dn, ml: seq<Mod>, i: nat, j: nat)
    requires dn != [] && i < |dn[0]| && j < |dn[0]|
    requires lower(dn[0][i].first) == lower(dn[0][j].first) && Normal(lower, dn[0][i]) != Normal(lower, dn[0][j])
    ensures Compute(lower, dn, ml) != Changed(dn)
  {
    hide Rebuilt, Normal, Equal;
    var r := Rebuilt(lower, dn[0], ml);
    RebuiltEqual(lower, dn[0], ml);
    RebuiltByType(lower, dn[0], ml, i, j);
    if |dn| > 1 && r == dn[0] {
      EqualSelf(lower, [r]);
    }
  }

  /** Modifications that write no attribute of the RDN leave the name alone exactly when it is settled. */
  lemma UntouchedExact(lower: Lower, dn: Dn, ml: seq<Mod>)
    requires dn != [] && Untouched(lower, dn[0], ml)
    ensures Compute(lower, dn, ml) == Changed(dn) <==> Settled(lower, dn[0])
  {
    hide Rebuilt, Normal, Equal, Compute;
    UnchangedExact(lower, dn, ml);
    assert forall i :: 0 <= i < |dn[0]| ==> NewValue(lower, dn[0], ml, i) == OwnOr(lower, dn[0], i);
  }

  /** Distinct types and plain strings are settled. */
  lemma DistinctIsSettled(lower: Lower, rdn: Rdn)
    requires DistinctTypes(lower, rdn) && forall a <- rdn :: a.third == AVA_STRING
    ensures Settled(lower, rdn)
  {
    forall i | 0 <= i < |rdn| ensures OwnOr(lower, rdn, i) == rdn[i].second && rdn[i].third == AVA_STRING {
      OwnValue(lower, rdn, i);
      assert rdn[i] in rdn;
    }
  }

  /** With two values of one type, a modification list that is empty still renames the entry. */
  lemma RepeatedTypeIsRenamed(parent: Dn)
    requires parent != []
    ensures var id: Lower := s => s;
            Compute(id, [[Triple("cn", "a", 1), Triple("cn", "b", 1)]] + parent, [])
            == Changed([[Triple("cn", "b", 1), Triple("cn", "b", 1)]] + parent)
  {
    var id: Lower := s => s;
    var rdn := [Triple("cn", "a", 1), Triple("cn", "b", 1)];
    var dn := [rdn] + parent;
    assert rdn[..1][..0] == [];
    assert DnVals(id, rdn[..1]) == map["cn" := "a"];
    assert DnVals(id, rdn) == map["cn" := "b"];
    var r := Rebuilt(id, rdn, []);
    assert r == [Triple("cn", "b", 1), Triple("cn", "b", 1)];
    RebuiltEqual(id, rdn, []);
    assert Normal(id, rdn[0]) != Normal(id, r[0]);
    assert dn[1..] == parent;
  }
}
