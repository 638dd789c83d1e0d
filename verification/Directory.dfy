/** Recursive delete against a server that refuses to delete an entry with children. */
module Directory {
  import opened Options

  /** The RDNs of a name, the entry's own first. */
  type Name = seq<string>

  datatype Outcome = Done | NoSuchObject | NotAllowedOnNonleaf | InsufficientAccess

  datatype Request = Request(dn: Name, controls: Option<string>)

  predicate Within(e: Name, dn: Name) { |dn| <= |e| && e[|e| - |dn|..] == dn }

  predicate ChildOf(e: Name, dn: Name) { |e| == |dn| + 1 && e[1..] == dn }

  predicate Leaf(entries: set<Name>, dn: Name) { forall e <- entries :: !ChildOf(e, dn) }

  /** Every entry is below the naming context and has its parent. */
  predicate Closed(entries: set<Name>, base: Name) {
    forall e <- entries :: Within(e, base) && (e == base || (e != [] && e[1..] in entries))
  }

  function Subtree(entries: set<Name>, dn: Name): set<Name> { set e <- entries | Within(e, dn) }

  function Inner(entries: set<Name>, dn: Name): set<Name> { set e <- Subtree(entries, dn) | !Leaf(entries, e) }

  /** The entries below any of the names, and those of them with children. */
  function Under(entries: set<Name>, names: seq<Name>): set<Name> {
    set e <- entries | exists n <- names :: Within(e, n)
  }

  function InnerUnder(entries: set<Name>, names: seq<Name>): set<Name> {
    set e <- Under(entries, names) | !Leaf(entries, e)
  }

  function Elements(names: seq<Name>): set<Name> { set n <- names }

  /** No name comes before one that is below it. */
  predicate BottomUp(names: seq<Name>) {
    forall i, j :: 0 <= i < j < |names| ==> !Within(names[j], names[i])
  }

  /** Different children of the name. */
  predicate Children(before: set<Name>, dn: Name, children: seq<Name>) {
    && (forall c <- children :: c in before && ChildOf(c, dn))
    && forall i, j :: 0 <= i < j < |children| ==> children[i] != children[j]
  }

  /** The requests that name these entries; only those for the entry itself carry the controls. */
  function Requests(names: seq<Name>, dn: Name, controls: Option<string>): seq<Request> {
    seq(|names|, i requires 0 <= i < |names| => Request(names[i], if names[i] == dn then controls else None))
  }

  // ----- names below names -----

  lemma WithinTrans(a: Name, b: Name, c: Name)
    requires Within(a, b) && Within(b, c)
    ensures Within(a, c)
  {
    assert a[|a| - |c|..] == a[|a| - |b|..][|b| - |c|..];
  }

  lemma WithinTwo(e: Name, a: Name, b: Name)
    requires Within(e, a) && Within(e, b) && |a| == |b|
    ensures a == b
  {
  }

  /** An entry strictly below another is below one of its children, which is an entry. */
  lemma {:induction false} BelowChild(entries: set<Name>, base: Name, dn: Name, e: Name) returns (c: Name)
    requires Closed(entries, base) && dn in entries && e in entries && Within(e, dn) && e != dn
    ensures c in entries && ChildOf(c, dn) && Within(e, c)
    decreases |e|
  {
    if |e| == |dn| + 1 {
      c := e;
    } else {
      assert |e| > |dn| >= |base| by { assert Within(dn, base); }
      var up := e[1..];
      assert up in entries;
      assert up[|up| - |dn|..] == e[|e| - |dn|..];
      c := BelowChild(entries, base, dn, up);
      assert e[|e| - |c|..] == up[|up| - |c|..];
    }
  }

  lemma SmallerSubtree(entries: set<Name>, dn: Name, child: Name)
    requires dn in entries && ChildOf(child, dn)
    ensures Subtree(entries, child) < Subtree(entries, dn)
    ensures |Subtree(entries, child)| < |Subtree(entries, dn)|
  {
    forall e <- Subtree(entries, child) ensures e in Subtree(entries, dn) {
      assert child[|child| - |dn|..] == child[1..];
      WithinTrans(e, child, dn);
    }
    assert dn in Subtree(entries, dn) && dn !in Subtree(entries, child);
    ProperSubset(Subtree(entries, child), Subtree(entries, dn));
  }

  lemma ProperSubset(a: set<Name>, b: set<Name>)
    requires a < b
    ensures |a| < |b|
  {
    assert a + (b - a) == b;
    assert b - a != {};
  }

  /** Deleting below some children leaves the subtree of the next one as it was. */
  lemma NextChild(entries: set<Name>, dn: Name, children: seq<Name>, i: nat)
    requires Children(entries, dn, children) && i < |children|
    ensures children[i] in Subtree(entries, children[i]) && ChildOf(children[i], dn)
    ensures var c := children[i]; var rest := entries - Under(entries, children[..i]);
            && Subtree(rest, c) == Subtree(entries, c) && Inner(rest, c) == Inner(entries, c)
            && Under(entries, children[..i]) !! Subtree(entries, c)
            && multiset(Under(entries, children[..i + 1])) ==
                 multiset(Under(entries, children[..i])) + multiset(Subtree(entries, c))
            && multiset(InnerUnder(entries, children[..i + 1])) ==
                 multiset(InnerUnder(entries, children[..i])) + multiset(Inner(entries, c))
            && Under(entries, children[..i + 1]) == Under(entries, children[..i]) + Subtree(entries, c)
  {
    hide Leaf;
    var c := children[i];
    var earlier, rest := children[..i], entries - Under(entries, children[..i]);
    assert children[..i + 1] == earlier + [c];
    forall e <- entries | Within(e, c) ensures e !in Under(entries, earlier) {
      forall n <- earlier ensures !Within(e, n) {
        var j :| 0 <= j < i && children[j] == n;
        assert n in children && c in children;
        if Within(e, n) {
          WithinTwo(e, n, c);
        }
      }
    }
    assert Under(entries, children[..i + 1]) == Under(entries, earlier) + Subtree(entries, c);
    assert InnerUnder(entries, children[..i + 1]) == InnerUnder(entries, earlier) + Inner(entries, c);
    assert Subtree(rest, c) == Subtree(entries, c);
    forall e <- Subtree(entries, c) ensures Leaf(rest, e) == Leaf(entries, e) {
      LeafBelow(entries, rest, c, e);
    }
    assert Inner(rest, c) == Inner(entries, c);
  }

  lemma LeafBelow(entries: set<Name>, rest: set<Name>, c: Name, e: Name)
    requires rest <= entries && Subtree(rest, c) == Subtree(entries, c) && Within(e, c)
    ensures Leaf(rest, e) == Leaf(entries, e)
  {
    forall n <- entries | ChildOf(n, e) ensures n in rest {
      assert n[|n| - |c|..] == e[|e| - |c|..];
      assert n in Subtree(entries, c);
    }
  }

  /** Below the children of an entry is all of its subtree but the entry. */
  lemma AllChildren(entries: set<Name>, base: Name, dn: Name, children: seq<Name>)
    requires Closed(entries, base) && dn in entries && !Leaf(entries, dn)
    requires Elements(children) == set e <- entries | ChildOf(e, dn)
    ensures Under(entries, children) == Subtree(entries, dn) - {dn}
    ensures InnerUnder(entries, children) == Inner(entries, dn) - {dn} && dn in Inner(entries, dn)
    ensures dn in entries - Under(entries, children) && Leaf(entries - Under(entries, children), dn)
  {
    AllBelow(entries, base, dn, children);
    forall e <- entries - Under(entries, children) ensures !ChildOf(e, dn) {
      assert ChildOf(e, dn) ==> Within(e, dn);
    }
  }

  lemma AllBelow(entries: set<Name>, base: Name, dn: Name, children: seq<Name>)
    requires Closed(entries, base) && dn in entries && !Leaf(entries, dn)
    requires Elements(children) == set e <- entries | ChildOf(e, dn)
    ensures Under(entries, children) == Subtree(entries, dn) - {dn}
    ensures InnerUnder(entries, children) == Inner(entries, dn) - {dn} && dn in Inner(entries, dn)
  {
    hide Leaf;
    forall e <- entries ensures e in Under(entries, children) <==> Within(e, dn) && e != dn {
      if Within(e, dn) && e != dn {
        var c := BelowChild(entries, base, dn, e);
        assert c in Elements(children);
      }
      if n :| n in children && Within(e, n) {
        assert n in Elements(children);
        assert n[|n| - |dn|..] == n[1..];
        WithinTrans(e, n, dn);
      }
    }
  }

  lemma RequestsBelow(sent: seq<Name>, below: seq<Name>, dn: Name, child: Name, controls: Option<string>)
    requires ChildOf(child, dn) && forall n <- below :: Within(n, child)
    ensures Requests(sent + below, dn, controls) == Requests(sent, dn, controls) + Requests(below, child, None)
    ensures forall n <- sent + below :: Within(n, dn) || n in sent
  {
    forall n <- below ensures n != dn && Within(n, dn) {
      assert child[|child| - |dn|..] == child[1..];
      WithinTrans(n, child, dn);
    }
    forall k | 0 <= k < |below| ensures below[k] in below { }
  }

  /** What is removed below one child comes after what was removed below the others. */
  lemma BottomUpJoin(entries: set<Name>, gone: seq<Name>, below: seq<Name>, earlier: seq<Name>, child: Name)
    requires BottomUp(gone) && BottomUp(below)
    requires Elements(gone) == Under(entries, earlier) && Elements(below) <= Subtree(entries, child)
    requires forall c <- earlier :: |c| == |child| && c != child
    ensures BottomUp(gone + below)
  {
    var all := gone + below;
    forall i, j | 0 <= i < j < |all| ensures !Within(all[j], all[i]) {
      if i < |gone| <= j {
        var n, m := gone[i], below[j - |gone|];
        assert n in Elements(gone) && m in Elements(below);
        var c :| c in earlier && Within(n, c);
        if Within(m, n) {
          WithinTrans(m, n, c);
          WithinTwo(m, c, child);
        }
      }
    }
  }

  // ----- the state of the descent, as values -----

  /** What a recursive delete tells, sends and removes, from the entries it started with. */
  ghost predicate Removal(before: set<Name>, locked: set<Name>, dn: Name, o: Outcome, sent: seq<Name>,
                          gone: seq<Name>) {
    && o == (if dn !in before then NoSuchObject else if Subtree(before, dn) !! locked then Done else InsufficientAccess)
    && BottomUp(gone) && Elements(gone) <= Subtree(before, dn) - locked
    && (forall n <- sent :: Within(n, dn))
    && (o.Done? ==>
      && multiset(gone) == multiset(Subtree(before, dn))
      && multiset(sent) == multiset(Subtree(before, dn)) + multiset(Inner(before, dn)))
  }

  /** The same when some of the children are gone. */
  ghost predicate Partial(before: set<Name>, locked: set<Name>, dn: Name, children: seq<Name>, sent: seq<Name>,
                          gone: seq<Name>) {
    && Under(before, children) !! locked
    && BottomUp(gone) && multiset(gone) == multiset(Under(before, children))
    && (forall n <- sent :: Within(n, dn))
    && multiset(sent) == multiset{dn} + multiset(Under(before, children)) + multiset(InnerUnder(before, children))
  }

  lemma OneRequest(sent: seq<Name>, dn: Name, controls: Option<string>)
    ensures Requests(sent + [dn], dn, controls) == Requests(sent, dn, controls) + [Request(dn, controls)]
    ensures Requests([dn], dn, controls) == [Request(dn, controls)]
  {
  }

  lemma ElementsJoin(a: seq<Name>, b: seq<Name>)
    ensures Elements(a + b) == Elements(a) + Elements(b) && Elements([]) == {}
  {
  }

  lemma Minus(a: set<Name>, b: set<Name>, c: set<Name>)
    ensures a - b - c == a - (b + c) && b + {} == b && a - {} == a
  {
  }

  lemma ElementsOf(names: seq<Name>, all: set<Name>)
    requires multiset(names) == multiset(all)
    ensures Elements(names) == all
  {
    forall n ensures n in names <==> n in all {
      assert n in multiset(names) <==> n in multiset(all);
    }
  }

  lemma DeleteClosed(entries: set<Name>, base: Name, dn: Name)
    requires Closed(entries, base) && Leaf(entries, dn)
    ensures Closed(entries - {dn}, base)
  {
    forall e <- entries | e != base && e != dn ensures e[1..] != dn {
      assert !ChildOf(e, dn);
    }
  }

  lemma Single(before: set<Name>, locked: set<Name>, dn: Name, o: Outcome)
    requires o == if dn !in before then NoSuchObject else if dn in locked then InsufficientAccess else Done
    requires dn in before ==> Leaf(before, dn)
    requires exists base :: Closed(before, base)
    ensures Removal(before, locked, dn, o, [dn], if o.Done? then [dn] else [])
  {
    if dn in before {
      var base :| Closed(before, base);
      forall e <- Subtree(before, dn) ensures e == dn {
        if e != dn {
          var c := BelowChild(before, base, dn, e);
        }
      }
      assert Subtree(before, dn) == {dn};
      assert Inner(before, dn) == {};
      assert Elements([dn]) == {dn};
    }
  }

  lemma NoChildYet(before: set<Name>, locked: set<Name>, dn: Name)
    ensures Under(before, []) == {} == Elements([])
    ensures Partial(before, locked, dn, [], [dn], [])
  {
    assert InnerUnder(before, []) == {};
  }

  lemma AreChildren(before: set<Name>, dn: Name, children: seq<Name>)
    requires Elements(children) == set e <- before | ChildOf(e, dn)
    requires forall i, j :: 0 <= i < j < |children| ==> children[i] != children[j]
    ensures Children(before, dn, children)
  {
    assert forall c <- children :: c in Elements(children);
  }

  lemma Advance(before: set<Name>, locked: set<Name>, dn: Name, children: seq<Name>, i: nat, o: Outcome,
                sent: seq<Name>, gone: seq<Name>, sentBelow: seq<Name>, goneBelow: seq<Name>)
    requires dn in before && Children(before, dn, children) && i < |children|
    requires Partial(before, locked, dn, children[..i], sent, gone)
    requires Removal(before - Under(before, children[..i]), locked, children[i], o, sentBelow, goneBelow)
    ensures Elements(gone + goneBelow) == Under(before, children[..i]) + Elements(goneBelow)
    ensures o.Done? ==>
              && Partial(before, locked, dn, children[..i + 1], sent + sentBelow, gone + goneBelow)
              && Elements(gone + goneBelow) == Under(before, children[..i + 1])
    ensures !o.Done? ==> Removal(before, locked, dn, o, sent + sentBelow, gone + goneBelow)
    ensures forall n <- sentBelow :: Within(n, children[i])
  {
    hide Inner, InnerUnder, Under, Subtree, Elements, BottomUp, Leaf, Within;
    var c := children[i];
    NextChild(before, dn, children, i);
    SmallerSubtree(before, dn, c);
    ElementsOf(gone, Under(before, children[..i]));
    ElementsJoin(gone, goneBelow);
    UnderWithin(before, dn, children, i);
    RequestsBelow(sent, sentBelow, dn, c, None);
    forall e <- children[..i] ensures e != c && |e| == |c| {
      assert e in children;
    }
    BottomUpJoin(before, gone, goneBelow, children[..i], c);
    if o.Done? {
      ElementsOf(goneBelow, Subtree(before, c));
    }
  }

  lemma Reflexive(entries: set<Name>, n: Name)
    ensures Within(n, n) && Elements([n]) == {n}
    ensures n in entries ==> n in Subtree(entries, n)
  {
  }

  lemma BottomUpLast(entries: set<Name>, gone: seq<Name>, dn: Name)
    requires BottomUp(gone) && Elements(gone) <= Subtree(entries, dn) - {dn}
    ensures BottomUp(gone + [dn])
  {
    forall k | 0 <= k < |gone| ensures !Within(dn, gone[k]) {
      assert gone[k] in Elements(gone);
    }
  }

  lemma UnderWithin(before: set<Name>, dn: Name, children: seq<Name>, i: nat)
    requires Children(before, dn, children) && i <= |children|
    ensures Under(before, children[..i]) <= Subtree(before, dn)
  {
    forall e <- Under(before, children[..i]) ensures Within(e, dn) {
      var c :| c in children[..i] && Within(e, c);
      assert c in children;
      assert c[|c| - |dn|..] == c[1..];
      WithinTrans(e, c, dn);
    }
  }

  lemma Finish(before: set<Name>, locked: set<Name>, dn: Name, children: seq<Name>, o: Outcome, sent: seq<Name>,
               gone: seq<Name>)
    requires dn in before && Partial(before, locked, dn, children, sent, gone)
    requires Under(before, children) == Subtree(before, dn) - {dn}
    requires InnerUnder(before, children) == Inner(before, dn) - {dn} && dn in Inner(before, dn)
    requires o == if dn in locked then InsufficientAccess else Done
    ensures Removal(before, locked, dn, o, sent + [dn], gone + if o.Done? then [dn] else [])
    ensures Elements(gone) == Under(before, children)
    ensures Elements(gone + [dn]) == Elements(gone) + {dn}
  {
    hide Inner, InnerUnder, Under, Leaf, Subtree, Elements, BottomUp, Within;
    ElementsOf(gone, Under(before, children));
    ElementsJoin(gone, [dn]);
    Reflexive(before, dn);
    BottomUpLast(before, gone, dn);
    assert gone + [] == gone;
    assert multiset(Subtree(before, dn)) == multiset(Subtree(before, dn) - {dn}) + multiset{dn};
    assert multiset(Inner(before, dn)) == multiset(Inner(before, dn) - {dn}) + multiset{dn};
  }

  class Server {
    const base: Name
    /** Entries the client may not delete. */
    const locked: set<Name>
    var entries: set<Name>
    var requests: seq<Request>
    /** The names deleted, in order. */
    var removed: seq<Name>

    constructor (base: Name, locked: set<Name>, entries: set<Name>)
      ensures this.base == base && this.locked == locked && this.entries == entries
      ensures requests == [] && removed == []
    {
      this.base, this.locked, this.entries := base, locked, entries;
      requests, removed := [], [];
    }

    /** Section 4.8 of RFC 4511: only leaf entries can be deleted. */
    method Delete(dn: Name, controls: Option<string>) returns (o: Outcome)
      modifies this
      ensures requests == old(requests) + [Request(dn, controls)]
      ensures o == if dn !in old(entries) then NoSuchObject
                   else if !Leaf(old(entries), dn) then NotAllowedOnNonleaf
                   else if dn in locked then InsufficientAccess else Done
      ensures entries == old(entries) - (if o.Done? then {dn} else {})
      ensures removed == old(removed) + if o.Done? then [dn] else []
    {
      requests := requests + [Request(dn, controls)];
      if dn !in entries {
        o := NoSuchObject;
      } else if !Leaf(entries, dn) {
        o := NotAllowedOnNonleaf;
      } else if dn in locked {
        o := InsufficientAccess;
      } else {
        entries, removed := entries - {dn}, removed + [dn];
        o := Done;
      }
    }

    /** The complete answer of a one-level search, in whatever order the server has. */
    method OneLevel(dn: Name) returns (names: seq<Name>)
      ensures Elements(names) == set e <- entries | ChildOf(e, dn)
      ensures Children(entries, dn, names)
    {
      hide ChildOf;
      names := [];
      var rest := set e <- entries | ChildOf(e, dn);
      ghost var all := rest;
      while rest != {}
        invariant Elements(names) == all - rest && rest <= all
        invariant forall i, j :: 0 <= i < j < |names| ==> names[i] != names[j]
        decreases |rest|
      {
        var e :| e in rest;
        assert e !in Elements(names);
        ElementsJoin(names, [e]);
        rest, names := rest - {e}, names + [e];
      }
      AreChildren(entries, dn, names);
    }

    /** Connection.delete_recursive. */
    method DeleteRecursive(dn: Name, controls: Option<string>)
      returns (o: Outcome, ghost sent: seq<Name>, ghost gone: seq<Name>)
      requires Closed(entries, base)
      modifies this
      ensures requests == old(requests) + Requests(sent, dn, controls)
      ensures removed == old(removed) + gone
      ensures entries == old(entries) - Elements(gone) && Closed(entries, base)
      ensures Removal(old(entries), locked, dn, o, sent, gone)
      decreases |Subtree(entries, dn)|
    {
      hide Under, InnerUnder, Inner, Subtree, Within, Requests, Leaf, Closed, Children, Elements, Removal, Partial;
      ghost var before := entries;
      o := Delete(dn, controls);
      sent, gone := [dn], if o.Done? then [dn] else [];
      OneRequest([], dn, controls);
      if dn in before && Leaf(before, dn) {
        DeleteClosed(before, base, dn);
      }
      ElementsJoin([], gone);
      Reflexive(before, dn);
      Minus(before, {}, {});
      if o.NotAllowedOnNonleaf? {
        var children := OneLevel(dn);
        NoChildYet(before, locked, dn);
        var i := 0;
        while i < |children|
          invariant 0 <= i <= |children|
          invariant requests == old(requests) + Requests(sent, dn, controls)
          invariant removed == old(removed) + gone
          invariant entries == before - Elements(gone) == before - Under(before, children[..i]) && Closed(entries, base)
          invariant Partial(before, locked, dn, children[..i], sent, gone)
        {
          NextChild(before, dn, children, i);
          SmallerSubtree(before, dn, children[i]);
          ghost var sentBelow, goneBelow;
          o, sentBelow, goneBelow := DeleteRecursive(children[i], None);
          Advance(before, locked, dn, children, i, o, sent, gone, sentBelow, goneBelow);
          RequestsBelow(sent, sentBelow, dn, children[i], controls);
          Joined(old(requests), Requests(sent, dn, controls), Requests(sentBelow, children[i], None));
          Joined(old(removed), gone, goneBelow);
          sent, gone := sent + sentBelow, gone + goneBelow;
          assert entries == before - Elements(gone) by {
            Minus(before, Under(before, children[..i]), Elements(goneBelow));
          }
          if !o.Done? {
            return;
          }
          i := i + 1;
        }
        assert children[..i] == children;
        AllChildren(before, base, dn, children);
        DeleteClosed(entries, base, dn);
        o := Delete(dn, controls);
        Finish(before, locked, dn, children, o, sent, gone);
        Minus(before, Under(before, children), if o.Done? then {dn} else {});
        OneRequest(sent, dn, controls);
        Joined(old(requests), Requests(sent, dn, controls), [Request(dn, controls)]);
        Joined(old(removed), gone, if o.Done? then [dn] else []);
        assert gone + [] == gone;
        sent, gone := sent + [dn], gone + if o.Done? then [dn] else [];
      } else {
        Single(before, locked, dn, o);
      }
    }
  }

  // ----- what a run means for the directory -----

  /** The entries after the first removals; the server's states are these and no others. */
  function After(before: set<Name>, gone: seq<Name>, k: nat): set<Name>
    requires k <= |gone|
  {
    before - Elements(gone[..k])
  }

  /** Whether it succeeds or stops half-way, no state of the directory ever lacks a parent. */
  lemma ParentsAlwaysKept(before: set<Name>, base: Name, gone: seq<Name>, k: nat)
    requires Closed(before, base) && Closed(After(before, gone, |gone|), base) && BottomUp(gone) && k <= |gone|
    ensures Closed(After(before, gone, k), base)
  {
    forall e <- After(before, gone, k) | e != base ensures e[1..] in After(before, gone, k) {
      assert Within(e, base) && e != [] && e[1..] in before;
      assert gone[..|gone|] == gone && Within(e, e[1..]);
      assert e in gone ==> e in gone[k..] by {
        assert gone == gone[..k] + gone[k..];
      }
      forall i, j | 0 <= i < k <= j < |gone| ensures !Within(gone[j], gone[i]) { }
      assert e !in gone ==> e in After(before, gone, |gone|);
    }
  }

  /** A run that succeeds leaves exactly the entries outside, after one request per leaf and two per inner entry. */
  lemma RemovesExactly(before: set<Name>, locked: set<Name>, dn: Name, sent: seq<Name>, gone: seq<Name>)
    requires Removal(before, locked, dn, Done, sent, gone)
    ensures dn in before && Subtree(before, dn) !! locked
    ensures before - Elements(gone) == set e <- before | !Within(e, dn)
    ensures |gone| == |Subtree(before, dn)|
    ensures |sent| == |Subtree(before, dn) - Inner(before, dn)| + 2 * |Inner(before, dn)|
    ensures forall e <- before :: multiset(sent)[e] == if !Within(e, dn) then 0 else if Leaf(before, e) then 1 else 2
  {
    var all, inner := Subtree(before, dn), Inner(before, dn);
    ElementsOf(gone, all);
    assert |multiset(gone)| == |gone| && |multiset(all)| == |all|;
    assert |multiset(sent)| == |sent| && |multiset(inner)| == |inner|;
    assert all == (all - inner) + inner;
  }

  /** A run that fails on a present entry met one it may not delete, and removed only entries below the name. */
  lemma FailsExactly(before: set<Name>, locked: set<Name>, dn: Name, o: Outcome, sent: seq<Name>, gone: seq<Name>)
    requires Removal(before, locked, dn, o, sent, gone) && dn in before
    ensures !o.Done? <==> exists e <- locked :: e in before && Within(e, dn)
    ensures forall e <- before :: e in locked || !Within(e, dn) ==> e in before - Elements(gone)
  {
  }
}
