/** Which derivations the transformer refuses, and which texts are therefore no filters. */
module FilterRefusals {
  import opened Options
  import opened Text
  import opened Escaping
  import opened FilterTree
  import opened FilterGrammar
  import opened FilterParser
  import opened FilterNormal
  import opened FilterRoundTrip
  import opened FilterLanguage

  /** Two neighbouring stars. */
  predicate TwoStars(s: string) { exists i :: 0 <= i && i + 1 < |s| && s[i] == s[i + 1] == '*' }

  /** A value that is there, and of which str.strip leaves nothing. */
  predicate Blank(body: string) { body != "" && forall c <- body :: IsSpace(c) }

  /** What is refused in a comparison: its stars, its value or its matching rule. */
  predicate Refused(d: CmpD) {
    || TwoStars(TextCmp(d))
    || (d.ValueCmpD? && Blank(d.value.body))
    || (d.ExtD? && Blank(d.value.body))
    || (d.SubstringD? && Blank(TextParts(d.parts)))
    || (d.ExtD? && d.attr == "" && d.dn == "" && |d.rule| == 2 && d.rule[0] in "dD" && d.rule[1] in "nN")
  }

  lemma NoStars(s: string)
    requires '*' !in s
    ensures !TwoStars(s)
  {
  }

  /** Two neighbouring stars lie in one of two parts, or where the parts meet. */
  lemma TwoStarsJoin(a: string, b: string)
    ensures TwoStars(a + b) <==>
              TwoStars(a) || TwoStars(b) || (a != "" && b != "" && a[|a| - 1] == b[0] == '*')
  {
    var s := a + b;
    assert forall i :: 0 <= i < |a| ==> s[i] == a[i];
    assert forall i :: 0 <= i < |b| ==> s[|a| + i] == b[i];
    if TwoStars(s) {
      var i :| 0 <= i && i + 1 < |s| && s[i] == s[i + 1] == '*';
      if i >= |a| {
        assert b[i - |a|] == b[i + 1 - |a|] == '*';
      }
    }
    if i :| 0 <= i && i + 1 < |b| && b[i] == b[i + 1] == '*' {
      assert s[|a| + i] == s[|a| + i + 1] == '*';
    }
  }

  /** Attributes: a letter, then letters, digits, hyphens and semicolons; or a digit, then digits and dots. */
  lemma AttrLanguage(a: string)
    ensures IsAttr(a) <==>
              && a != ""
              && (|| (('a' <= a[0] <= 'z' || 'A' <= a[0] <= 'Z')
                      && forall c <- a :: 'a' <= c <= 'z' || 'A' <= c <= 'Z' || '0' <= c <= '9' || c == '-' || c == ';')
                  || ('0' <= a[0] <= '9' && forall c <- a :: '0' <= c <= '9' || c == '.'))
  {
  }

  lemma AttrNoStar(a: string)
    requires a == "" || IsAttr(a)
    ensures '*' !in a
  {
  }

  lemma ExtNoStar(d: CmpD)
    requires WfCmp(d) && d.ExtD?
    ensures '*' !in TextCmp(d)
  {
    hide IsAttr, TextValue, WfValue;
    AttrNoStar(d.attr);
    AttrNoStar(d.rule);
    ValueNoStar(d.value);
  }

  lemma ValueCmpNoStar(d: CmpD)
    requires WfCmp(d) && d.ValueCmpD?
    ensures '*' !in TextCmp(d)
  {
    hide IsAttr, TextValue, WfValue;
    AttrNoStar(d.attr);
    ValueNoStar(d.value);
  }

  /** Behind an attribute and an equality sign the stars are those of the rest. */
  lemma StarsBehind(attr: string, v: string)
    requires '*' !in attr
    ensures TwoStars(attr + "=" + v) <==> TwoStars(v)
  {
    NoStars(attr + "=");
    TwoStarsJoin(attr + "=", v);
  }

  /** A comparison is refused exactly for one of these reasons. */
  lemma RefusedExactly(d: CmpD)
    requires WfCmp(d)
    ensures TransformCmp(d).None? <==> Refused(d)
  {
    hide IsAttr, WfValue, TextValue, TransformValue, IsSpace, IsValueText, TwoStars, TextParts, WfParts;
    match d
    case PresenceD(attr) =>
      AttrNoStar(attr);
      StarsBehind(attr, "*");
      OneStarOnly();
      assert attr + "=*" == attr + "=" + "*";
    case ValueCmpD(_, _, value) =>
      ValueCmpNoStar(d);
      NoStars(TextCmp(d));
      AcceptedBody(value);
    case ExtD(_, _, _, value) =>
      ExtNoStar(d);
      NoStars(TextCmp(d));
      AcceptedBody(value);
    case SubstringD(attr, parts) =>
      AttrNoStar(attr);
      StarsBehind(attr, TextParts(parts));
      StarsSame(TextParts(parts));
      AcceptedBody(ValueD("", TextParts(parts), ""));
  }

  lemma OneStarOnly()
    ensures !TwoStars("*")
  {
  }

  lemma StarsSame(s: string)
    ensures HasDoubleStar(s) <==> TwoStars(s)
  {
  }

  lemma AcceptedBody(v: ValueD)
    ensures TransformValue(v).None? <==> Blank(v.body)
  {
    hide TransformValue, IsSpace;
    AcceptedValue(v);
  }

  // ----- items, groups and whole filters -----

  function CmpsIn(d: ItemD): seq<CmpD> {
    match d
    case ExprD(_, cmp, _) => [cmp]
    case OpD(_, _, _, groups, _) => CmpsInGroups(groups)
  }

  function CmpsInGroups(gs: seq<GroupD>): seq<CmpD> {
    if gs == [] then [] else CmpsIn(gs[0].item) + CmpsInGroups(gs[1..])
  }

  /** No whitespace around the operand of a NOT. */
  predicate TightNots(d: ItemD) {
    d.OpD? ==> TightNotGroups(d.groups) && (d.cls.Not? ==> forall g <- d.groups :: g.ws1 == g.ws2 == "")
  }

  predicate TightNotGroups(gs: seq<GroupD>) {
    gs == [] || (TightNots(gs[0].item) && TightNotGroups(gs[1..]))
  }

  /** An item is accepted exactly if no comparison in it is refused and no NOT has whitespace around its operand. */
  lemma {:induction false} ItemAccepted(d: ItemD)
    requires WfItem(d)
    ensures TransformItem(d).Some? <==> TightNots(d) && forall c <- CmpsIn(d) :: !Refused(c)
    decreases d, 0
  {
    hide Refused, TransformCmp, WfCmp, IsWs;
    match d
    case ExprD(_, cmp, _) => RefusedExactly(cmp);
    case OpD(_, _, _, groups, _) => GroupsAccepted(groups);
  }

  lemma {:induction false} GroupsAccepted(gs: seq<GroupD>)
    requires WfGroups(gs)
    ensures TransformGroups(gs).Some? <==> TightNotGroups(gs) && forall c <- CmpsInGroups(gs) :: !Refused(c)
    decreases gs, 0
  {
    hide Refused, TransformItem, WfItem, TightNots, CmpsIn, IsWs;
    if gs != [] {
      ItemAccepted(gs[0].item);
      GroupsAccepted(gs[1..]);
      assert forall c :: c in CmpsInGroups(gs) <==> c in CmpsIn(gs[0].item) || c in CmpsInGroups(gs[1..]);
    }
  }

  /** Nothing around the outermost brackets, nothing around the operand of a NOT, no comparison refused. */
  predicate Acceptable(d: StartD) {
    match d
    case TopD(g) => g.ws1 == g.ws2 == "" && TightNots(g.item) && forall c <- CmpsIn(g.item) :: !Refused(c)
    case BareD(cmp) => !Refused(cmp)
  }

  lemma StartAccepted(d: StartD)
    requires WfStart(d)
    ensures TransformStart(d).Some? <==> Acceptable(d)
  {
    hide Refused, TransformItem, TransformCmp, WfItem, WfCmp, TightNots, CmpsIn;
    match d
    case TopD(g) => ItemAccepted(g.item);
    case BareD(cmp) => RefusedExactly(cmp);
  }

  /** The texts that are filters: the empty one, a single space, and those with an acceptable derivation. */
  lemma FilterTexts(s: string)
    ensures ParseFilter(s).Some? <==>
              s == "" || s == " " || exists d :: WfStart(d) && TextStart(d) == s && Acceptable(d)
  {
    hide WfStart, TextStart, ParseStart, TransformStart, Acceptable;
    AcceptsLanguage(s);
    if d :| WfStart(d) && TextStart(d) == s && Acceptable(d) {
      StartAccepted(d);
    }
    if d :| WfStart(d) && TextStart(d) == s && TransformStart(d).Some? {
      StartAccepted(d);
    }
  }

  /** A text with no stars at its ends and no two neighbouring ones. */
  predicate Guarded(s: string) { !TwoStars(s) && (s != "" ==> s[0] != '*' && s[|s| - 1] != '*') }

  lemma GuardedJoin(a: string, b: string)
    requires Guarded(a) && Guarded(b)
    ensures Guarded(a + b)
  {
    hide TwoStars;
    TwoStarsJoin(a, b);
  }

  lemma GuardedWs(w: string)
    requires AllWs(w)
    ensures Guarded(w)
  {
    assert forall i :: 0 <= i < |w| ==> w[i] in w && IsWs(w[i]);
  }

  lemma GuardedSigns()
    ensures Guarded("(") && Guarded(")") && Guarded("&") && Guarded("|") && Guarded("!")
  {
  }

  /** In brackets the end of a comparison does not matter. */
  lemma InBracketsGuarded(c: string, tr: string)
    requires !TwoStars(c) && (c != "" ==> c[0] != '*') && AllWs(tr)
    ensures Guarded("(" + c + tr + ")")
  {
    hide TwoStars, IsWs;
    GuardedWs(tr);
    GuardedSigns();
    GuardedJoin(tr, ")");
    TwoStarsJoin(c, tr + ")");
    assert tr + ")" != "" && (tr + ")")[0] != '*';
    TwoStarsJoin("(", c + (tr + ")"));
    assert "(" + c + tr + ")" == "(" + (c + (tr + ")"));
  }

  lemma CmpFirstNoStar(d: CmpD)
    requires WfCmp(d)
    ensures TextCmp(d) != "" && TextCmp(d)[0] != '*'
  {
    hide TextValue, TextParts, WfValue, WfParts, IsDnWord;
    var a := if d.ExtD? && d.attr == "" then ":" else d.attr;
    AttrNoStar(d.attr);
    if d.ExtD? && d.attr == "" {
      assert d.rule != "";
    }
  }

  lemma {:induction false} ItemGuarded(d: ItemD)
    requires WfItem(d) && forall c <- CmpsIn(d) :: !Refused(c)
    ensures Guarded(TextItem(d))
    decreases d, 0
  {
    hide Guarded, TwoStars, WfCmp, TextCmp, IsWs;
    match d
    case ExprD(ld, cmp, tr) =>
      assert cmp in CmpsIn(d);
      WfCmpText(cmp);
      LeadingWs(ld, TextCmp(cmp));
      InBracketsGuarded(ld + TextCmp(cmp), tr);
      assert "(" + ld + TextCmp(cmp) + tr + ")" == "(" + (ld + TextCmp(cmp)) + tr + ")";
    case OpD(cls, sep, ld, groups, tr) =>
      GroupsGuarded(groups);
      SignGuarded(cls);
      GuardedSigns();
      GuardedWs(sep);
      GuardedWs(ld);
      GuardedWs(tr);
      GuardedJoin("(", sep);
      GuardedJoin("(" + sep, cls.Sign());
      GuardedJoin("(" + sep + cls.Sign(), ld);
      GuardedJoin("(" + sep + cls.Sign() + ld, TextGroups(groups));
      GuardedJoin("(" + sep + cls.Sign() + ld + TextGroups(groups), tr);
      GuardedJoin("(" + sep + cls.Sign() + ld + TextGroups(groups) + tr, ")");
  }

  lemma SignGuarded(cls: Cls)
    ensures Guarded(cls.Sign())
  {
    GuardedSigns();
    NoStars("");
  }

  lemma WfCmpText(d: CmpD)
    requires WfCmp(d) && !Refused(d)
    ensures !TwoStars(TextCmp(d)) && TextCmp(d) != "" && TextCmp(d)[0] != '*'
  {
    hide TwoStars, TextCmp, WfCmp;
    CmpFirstNoStar(d);
  }

  lemma LeadingWs(ld: string, c: string)
    requires AllWs(ld) && !TwoStars(c) && c != "" && c[0] != '*'
    ensures !TwoStars(ld + c) && (ld + c)[0] != '*'
  {
    hide TwoStars;
    GuardedWs(ld);
    TwoStarsJoin(ld, c);
  }

  lemma {:induction false} GroupsGuarded(gs: seq<GroupD>)
    requires WfGroups(gs) && forall c <- CmpsInGroups(gs) :: !Refused(c)
    ensures Guarded(TextGroups(gs))
    decreases gs, 0
  {
    hide Guarded, TwoStars, Refused, WfItem, CmpsIn, TextItem, IsWs;
    if gs != [] {
      var g := gs[0];
      assert forall c <- CmpsIn(g.item) :: c in CmpsInGroups(gs);
      assert forall c <- CmpsInGroups(gs[1..]) :: c in CmpsInGroups(gs);
      ItemGuarded(g.item);
      GroupsGuarded(gs[1..]);
      GuardedWs(g.ws1);
      GuardedWs(g.ws2);
      GuardedJoin(g.ws1, TextItem(g.item));
      GuardedJoin(g.ws1 + TextItem(g.item), g.ws2);
      GuardedJoin(TextGroup(g), TextGroups(gs[1..]));
    } else {
      GuardedWs("");
    }
  }

  /** A text of which some derivation is accepted has no two neighbouring stars. */
  lemma AcceptedHasNoTwoStars(d: StartD)
    requires WfStart(d) && TransformStart(d).Some?
    ensures forall i :: 0 <= i && i + 1 < |TextStart(d)| ==> !(TextStart(d)[i] == '*' && TextStart(d)[i + 1] == '*')
  {
    hide Refused, TransformStart, WfItem, WfCmp, TextItem, TextCmp, TightNots, CmpsIn;
    StartAccepted(d);
    match d
    case TopD(g) =>
      ItemGuarded(g.item);
      assert TextStart(d) == "" + TextItem(g.item) + "" == TextItem(g.item);
    case BareD(cmp) => WfCmpText(cmp);
  }

  /** A string with two neighbouring stars anywhere is no filter. */
  lemma TwoStarsRefused(s: string, i: nat)
    requires i + 1 < |s| && s[i] == '*' && s[i + 1] == '*'
    ensures ParseFilter(s).None?
  {
    hide ParseStart, TransformStart, WfStart, TextStart;
    if ParseFilter(s).Some? {
      ParseSound(s);
      AcceptedHasNoTwoStars(ParseStart(s).value);
      assert false;
    }
  }
}
