/**
 The deterministic parser accepts the whole language of the ambiguous grammar: every derivation has
 a normal form with the same text, on which the parser is complete, and which the transformer
 accepts if it accepts the derivation.
 */
module FilterLanguage {
  import opened Options
  import opened Text
  import opened Escaping
  import opened FilterTree
  import opened FilterGrammar
  import opened FilterParser
  import opened FilterNormal
  import opened FilterRoundTrip

  // ----- values with stars among their atoms -----

  function StarAtom(s: string): (n: nat)
    ensures n <= |s|
  {
    if s != "" && s[0] == '*' then 1 else AtomLength(s)
  }

  /** The texts of substring derivations, and of values. */
  predicate StarText(s: string) {
    s == "" || (StarAtom(s) > 0 && StarText(s[StarAtom(s)..]))
  }

  lemma {:induction false} ValueIsStarText(s: string)
    requires IsValueText(s)
    ensures StarText(s)
  {
    if s != "" {
      ValueIsStarText(s[AtomLength(s)..]);
    }
  }

  lemma {:induction false} NoStarIsValue(s: string)
    requires StarText(s) && '*' !in s
    ensures IsValueText(s)
  {
    if s != "" {
      var n := StarAtom(s);
      assert s == s[..n] + s[n..];
      NoStarIsValue(s[n..]);
    }
  }

  lemma {:induction false} StarTextConcat(a: string, b: string)
    requires StarText(a) && StarText(b)
    ensures StarText(a + b)
  {
    hide AtomLength;
    if a == "" {
      assert a + b == b;
    } else {
      var n := StarAtom(a);
      StarTextConcat(a[n..], b);
      if a[0] != '*' {
        AtomPrefix(a, b);
      }
      assert (a + b)[0] == a[0] && (a + b)[n..] == a[n..] + b;
    }
  }

  /** An atom never reaches into a text that starts with neither a hexadecimal digit nor a backslash. */
  lemma AtomStable(a: string, b: string)
    requires a != "" && AtomLength(a + b) > 0
    requires b == "" || (!IsHex(b[0]) && b[0] != '\\')
    ensures AtomLength(a) == AtomLength(a + b)
  {
    assert forall i :: 0 <= i < |a| ==> (a + b)[i] == a[i];
    assert b != "" ==> (a + b)[|a|] == b[0];
  }

  lemma {:induction false} StarTextFront(a: string, b: string)
    requires StarText(a + b)
    requires b == "" || (!IsHex(b[0]) && b[0] != '\\')
    ensures StarText(a) && StarText(b)
  {
    if a == "" {
      assert a + b == b;
    } else {
      var n := StarAtom(a + b);
      assert (a + b)[0] == a[0];
      if a[0] != '*' {
        AtomStable(a, b);
      }
      assert (a + b)[n..] == a[n..] + b;
      StarTextFront(a[n..], b);
    }
  }

  lemma {:induction false} StarTextBehind(w: string, b: string)
    requires AllWs(w) && StarText(w + b)
    ensures StarText(b)
  {
    if w == "" {
      assert w + b == b;
    } else {
      assert w[0] in w && (w + b)[0] == w[0];
      assert StarAtom(w + b) == 1;
      assert (w + b)[1..] == w[1..] + b;
      StarTextBehind(w[1..], b);
    }
  }

  lemma WsIsValue(w: string)
    requires AllWs(w)
    ensures IsValueText(w)
  {
    PlainIsValue(w);
  }

  lemma {:induction false} PartsAreStarText(parts: seq<PartD>)
    requires WfParts(parts)
    ensures StarText(TextParts(parts))
  {
    hide IsValueText;
    if parts != [] {
      PartsAreStarText(parts[1..]);
      var rest := TextParts(parts[1..]);
      assert parts[0] in parts;
      if parts[0].Star? {
        assert ("*" + rest)[1..] == rest;
      } else {
        ValueIsStarText(parts[0].text);
        StarTextConcat(parts[0].text, rest);
      }
    }
  }

  lemma {:induction false} StarTextSplits(v: string)
    requires StarText(v)
    ensures WfParts(SplitStars(v))
    decreases |v|
  {
    hide Cut, IsValueText;
    if v != "" {
      if v[0] == '*' {
        StarTextSplits(v[1..]);
      } else {
        var (text, r) := Cut(NotStar, v);
        StarTextFront(text, r);
        assert '*' !in text;
        NoStarIsValue(text);
        StarTextSplits(r);
      }
    }
  }

  // ----- what all derivations of a text have in common -----

  /** Two choices of the grammar meet: a starless substring is an equality, a rule named dn is the dn flag. */
  function SettledKind(c: Cmp): Kind {
    if c.kind == Substring && '*' !in c.EscapedText() then Equality
    else if c.kind.Extensible? && c.kind.dn == "" && IsDnWord(c.kind.rule) && c.attr != ""
    then Extensible(c.kind.rule, "")
    else c.kind
  }

  function SettledCmp(c: Cmp): Cmp { Cmp(SettledKind(c), c.attr, c.EscapedText(), true) }

  /** The tree without optional whitespace, and without these two choices. */
  function Settled(e: Expr): Expr
    decreases e, 0
  {
    match e
    case Leaf(c) => Leaf(SettledCmp(c))
    case Tok(_) => e
    case Node(cls, _, items) => Node(cls, "", SettledItems(items))
  }

  function SettledItems(items: seq<Expr>): seq<Expr>
    decreases items, 0
  {
    if items == [] then []
    else (if items[0].Tok? then [] else [Settled(items[0])]) + SettledItems(items[1..])
  }

  lemma {:induction false} SettledConcat(a: seq<Expr>, b: seq<Expr>)
    ensures SettledItems(a + b) == SettledItems(a) + SettledItems(b)
  {
    hide Settled;
    if a == [] {
      assert a + b == b;
    } else {
      assert (a + b)[0] == a[0] && (a + b)[1..] == a[1..] + b;
      SettledConcat(a[1..], b);
      var first := if a[0].Tok? then [] else [Settled(a[0])];
      assert SettledItems(a + b) == first + SettledItems(a[1..] + b);
      assert SettledItems(a) == first + SettledItems(a[1..]);
    }
  }

  lemma SettledToks(ws: string)
    ensures SettledItems(Toks(ws)) == []
  {
    assert ws != "" ==> Toks(ws)[1..] == [];
  }

  lemma SettledSurrounded(a: string, items: seq<Expr>, b: string)
    ensures SettledItems(Toks(a) + items + Toks(b)) == SettledItems(items)
  {
    SettledToks(a);
    SettledToks(b);
    SettledConcat(Toks(a), items);
    SettledConcat(Toks(a) + items, Toks(b));
  }

  lemma StripIs(p: char -> bool, a: string, m: string, b: string)
    requires All(p, a) && All(p, b) && TightEnds(p, m)
    ensures StripBy(p, a + m + b) == m
  {
    if m != "" {
      assert a + m + b == a + (m + b);
      LeadIs(p, a, m + b);
      TrailIs(p, a + m, b);
      assert (a + m + b)[|a|..|a + m|] == m;
    } else {
      assert a + m + b == (a + b) + "";
      LeadIs(p, a + b, "");
    }
  }

  /** Whitespace around a text does not survive stripping it. */
  lemma StripMiddle(a: string, s: string, b: string)
    requires AllWs(a) && AllWs(b)
    ensures Strip(a + s + b) == Strip(s)
  {
    hide IsSpace, IsWs;
    WsAreSpace(a);
    WsAreSpace(b);
    var l, m, t := StripParts(s);
    AllConcat(IsSpace, a, l);
    AllConcat(IsSpace, t, b);
    FiveParts(a, l, m, t, b);
    StripIs(IsSpace, a + l, m, t + b);
  }

  lemma FiveParts(a: string, b: string, c: string, d: string, e: string)
    ensures a + (b + c + d) + e == (a + b) + c + (d + e)
  {
  }

  lemma StripBehind(s: string, b: string)
    requires AllWs(b)
    ensures Strip(s + b) == Strip(s)
  {
    assert "" + s + b == s + b;
    StripMiddle("", s, b);
  }

  lemma StripParts(s: string) returns (l: string, m: string, t: string)
    ensures s == l + m + t && All(IsSpace, l) && All(IsSpace, t) && m == Strip(s) && TightEnds(IsSpace, m)
  {
    hide IsSpace;
    StripEnds(IsSpace, s);
    var i, j := Lead(IsSpace, s), Trail(IsSpace, s);
    if i == |s| {
      l, m, t := s, "", "";
    } else {
      l, m, t := s[..i], s[i..j], s[j..];
    }
  }

  lemma WsAreSpace(w: string)
    requires AllWs(w)
    ensures All(IsSpace, w)
  {
    forall c <- w ensures IsSpace(c) {
      WsIsSpace(c);
    }
  }

  /** However the whitespace around a value is derived, the value is the stripped text. */
  lemma ValueIsStripped(v: ValueD)
    requires WfValue(v) && TransformValue(v).Some?
    ensures TransformValue(v).value.val == Strip(TextValue(v))
  {
    hide IsSpace, IsWs, IsValueText, StripBy;
    StripMiddle(v.lead, v.body, v.tail);
    if !Stripped(v.body) {
      PartitionAtStrip(IsSpace, v.body);
    }
  }

  /** What the transformer makes of d, it makes of n as well, up to whitespace and these choices. */
  predicate SameCmp(d: CmpD, n: CmpD) {
    TransformCmp(d).Some? ==>
      TransformCmp(n).Some? && SettledCmp(TransformCmp(d).value) == SettledCmp(TransformCmp(n).value)
  }

  predicate SameItem(d: ItemD, n: ItemD) {
    TransformItem(d).Some? ==>
      TransformItem(n).Some? && Settled(TransformItem(d).value) == Settled(TransformItem(n).value)
  }

  predicate SameGroups(gs: seq<GroupD>, ns: seq<GroupD>) {
    TransformGroups(gs).Some? ==>
      TransformGroups(ns).Some? && SettledItems(TransformGroups(gs).value) == SettledItems(TransformGroups(ns).value)
  }

  predicate SameStart(d: StartD, n: StartD) {
    TransformStart(d).Some? ==>
      TransformStart(n).Some? && Settled(TransformStart(d).value) == Settled(TransformStart(n).value)
  }

  lemma SettledPrefixed(kind: Kind, attr: string, v: ValueD, n: ValueD)
    requires WfValue(v) && WfValue(n) && TextValue(v) == TextValue(n) && TransformValue(v).Some?
    requires TransformValue(n).Some?
    ensures SettledCmp(Prefixed(kind, attr, TransformValue(v).value)) ==
              SettledCmp(Prefixed(kind, attr, TransformValue(n).value))
  {
    hide TransformValue, TextValue, IsValueText;
    ValueIsStripped(v);
    ValueIsStripped(n);
  }

  /** What a text without outer whitespace means behind an equality sign. */
  function StarCmp(attr: string, v: string): Cmp {
    if v == "*" then Cmp(Presence, attr, "", true) else Cmp(if '*' in v then Substring else Equality, attr, v, true)
  }

  lemma SettledStars(attr: string, parts: seq<PartD>)
    requires TransformCmp(SubstringD(attr, parts)).Some?
    ensures SettledCmp(TransformCmp(SubstringD(attr, parts)).value) == StarCmp(attr, Strip(TextParts(parts)))
  {
    hide Strip, TransformValue, HasDoubleStar, TextParts, IsDnWord;
    SubstringPadding(TextParts(parts));
  }

  lemma SettledEquality(attr: string, v: ValueD)
    requires WfValue(v) && TransformValue(v).Some?
    ensures SettledCmp(Prefixed(Equality, attr, TransformValue(v).value)) == StarCmp(attr, Strip(TextValue(v)))
  {
    hide TransformValue, TextValue, IsValueText, IsDnWord, IsSpace, IsWs, Strip;
    ValueIsStripped(v);
    ValueNoStar(v);
    var l, m, t := StripParts(TextValue(v));
    assert forall c <- m :: c in l + m + t;
  }

  lemma SettledStar(attr: string)
    ensures SettledCmp(TransformCmp(PresenceD(attr)).value) == StarCmp(attr, Strip("*"))
  {
    StripEnds(IsSpace, "*");
  }

  // ----- values -----

  predicate Shows(s: string) { exists c <- s :: !IsSpace(c) }

  /** The transformer rejects exactly the values that are not empty and strip to nothing. */
  lemma AcceptedValue(v: ValueD)
    ensures TransformValue(v).Some? <==> v.body == "" || Shows(v.body)
  {
    hide IsSpace, Partition;
    var s, a, b := v.body, Lead(IsSpace, v.body), Trail(IsSpace, v.body);
    StripEnds(IsSpace, s);
    if a < |s| {
      assert s[a] in s;
      assert Strip(s) == s[a..b];
    }
  }

  lemma WsStarText(w: string)
    requires AllWs(w)
    ensures StarText(w)
  {
    WsIsValue(w);
    ValueIsStarText(w);
  }

  lemma WsHides(w: string)
    requires AllWs(w)
    ensures !Shows(w)
  {
    forall c <- w ensures IsSpace(c) {
      WsIsSpace(c);
    }
  }

  /** What the parser makes of a value without stars. */
  lemma TextForm(t: string) returns (n: ValueD)
    requires StarText(t) && '*' !in t
    ensures ParseValue(t) == Some(n) && WfValue(n) && NormalValue(n) && TextValue(n) == t
  {
    hide IsWs, IsValueText, StarText;
    var (lead, r) := Cut(IsWs, t);
    StarTextBehind(lead, r);
    assert forall c <- r :: c in t;
    if r != "" {
      var (body, tail) := CutEnd(IsWs, r);
      assert forall c <- body :: c in r;
      if tail != "" {
        WsNoAtom(tail);
      }
      StarTextFront(body, tail);
      NoStarIsValue(body);
      assert body != "" ==> body[0] == r[0];
    }
    ParseValueSound(t);
    n := ParseValue(t).value;
  }

  lemma WsNoAtom(w: string)
    requires AllWs(w) && w != ""
    ensures !IsHex(w[0]) && w[0] != '\\'
  {
    assert w[0] in w;
  }

  lemma TightWsIsEmpty(s: string, t: string)
    requires TightEnds(IsWs, s) && AllWs(t) && forall c <- s :: c in t
    ensures s == ""
  {
  }

  lemma ValueForm(v: ValueD) returns (n: ValueD)
    requires WfValue(v)
    ensures WfValue(n) && NormalValue(n) && TextValue(n) == TextValue(v)
    ensures TransformValue(v).Some? ==> TransformValue(n).Some?
  {
    hide IsWs, IsSpace, IsValueText, StarText, TransformValue, Cut, CutEnd;
    var t := TextValue(v);
    ValueIsStarText(v.body);
    WsStarText(v.lead);
    WsStarText(v.tail);
    StarTextConcat(v.lead, v.body);
    StarTextConcat(v.lead + v.body, v.tail);
    ValueNoStar(v);
    n := TextForm(t);
    AcceptedValue(v);
    AcceptedValue(n);
    if v.body == "" {
      AllConcat(IsWs, v.lead, v.tail);
      assert t == v.lead + v.tail;
      TightWsIsEmpty(n.body, t);
    } else if Shows(v.body) {
      var c :| c in v.body && !IsSpace(c);
      WsHides(n.lead);
      WsHides(n.tail);
      assert c in n.lead + n.body + n.tail;
    }
  }

  // ----- comparisons -----

  lemma CmpForm(d: CmpD) returns (n: CmpD)
    requires WfCmp(d)
    ensures WfCmp(n) && NormalCmp(n) && TextCmp(n) == TextCmp(d) && SameCmp(d, n)
  {
    hide IsAttr, WfValue, NormalValue, TextValue, TransformValue;
    match d
    case PresenceD(_) => n := d;
    case ValueCmpD(attr, kind, value) =>
      var v := ValueForm(value);
      n := ValueCmpD(attr, kind, v);
      if TransformValue(value).Some? {
        SettledPrefixed(kind, attr, value, v);
      }
    case SubstringD(attr, parts) => n := SubstringForm(attr, parts);
    case ExtD(attr, dn, rule, value) =>
      var v := ValueForm(value);
      if dn == "" && IsDnWord(rule) && attr != "" {
        n := ExtD(attr, rule, "", v);
        assert attr + Colon("") + Colon(rule) == attr + Colon(rule) + Colon("");
      } else {
        n := ExtD(attr, dn, rule, v);
      }
      if TransformValue(value).Some? {
        SettledPrefixed(Extensible(dn, rule), attr, value, v);
      }
  }

  lemma SubstringForm(attr: string, parts: seq<PartD>) returns (n: CmpD)
    requires IsAttr(attr) && WfParts(parts) && parts != []
    ensures WfCmp(n) && NormalCmp(n) && TextCmp(n) == TextCmp(SubstringD(attr, parts))
    ensures SameCmp(SubstringD(attr, parts), n)
  {
    hide IsAttr, NormalValue, WfParts, WfValue, TransformValue, StarText, HasDoubleStar, IsSpace, NormalParts,
      TextParts, SplitStars, ParseValue, TextValue, SettledCmp, StarCmp, Strip;
    var v := TextParts(parts);
    PartsAreStarText(parts);
    n := StarForm(attr, v);
    if '*' !in v {
      NoStarForm(v);
    }
    if TransformCmp(SubstringD(attr, parts)).Some? {
      SettledStars(attr, parts);
    }
  }

  lemma NoStarForm(v: string)
    requires StarText(v) && '*' !in v
    ensures ParseValue(v).Some?
    ensures TransformValue(ValueD("", v, "")).Some? ==> TransformValue(ParseValue(v).value).Some?
  {
    hide StarText, TransformValue, ParseValue, IsValueText, IsWs;
    NoStarIsValue(v);
    var d := ValueD("", v, "");
    var m := ValueForm(d);
    assert TextValue(d) == v;
    ValueComplete(m);
  }

  /** The derivation the parser makes of a text behind an equality sign. */
  lemma StarForm(attr: string, v: string) returns (n: CmpD)
    requires IsAttr(attr) && StarText(v)
    ensures WfCmp(n) && NormalCmp(n) && TextCmp(n) == attr + "=" + v
    ensures n == if v == "*" then PresenceD(attr) else if '*' in v then SubstringD(attr, SplitStars(v))
                 else if ParseValue(v).Some? then ValueCmpD(attr, Equality, ParseValue(v).value) else n
    ensures '*' in v && v != "*" ==> TextParts(SplitStars(v)) == v
    ensures '*' !in v ==> ParseValue(v).Some?
    ensures TransformCmp(n).Some? ==> SettledCmp(TransformCmp(n).value) == StarCmp(attr, Strip(v))
  {
    hide IsAttr, WfValue, NormalValue, WfParts, StarText, NormalParts, TransformValue, Strip, SettledCmp, StarCmp;
    if v == "*" {
      n := PresenceD(attr);
      SettledStar(attr);
      assert attr + "=*" == attr + "=" + "*";
    } else if '*' in v {
      n := SubstringD(attr, SplitStars(v));
      SplitStarsSound(v);
      SplitStarsNormal(v);
      StarTextSplits(v);
      OneStar();
      if TransformCmp(n).Some? {
        SettledStars(attr, SplitStars(v));
      }
    } else {
      var m := TextForm(v);
      n := ValueCmpD(attr, Equality, m);
      if TransformValue(m).Some? {
        SettledEquality(attr, m);
      }
    }
  }

  /** The same with the whitespace at its end split off. */
  lemma CmpTrimmed(d: CmpD) returns (n: CmpD, w: string)
    requires WfCmp(d)
    ensures WfCmp(n) && NormalCmp(n) && AllWs(w) && TextCmp(n) + w == TextCmp(d)
    ensures TextCmp(n) != "" && !IsWs(TextCmp(n)[|TextCmp(n)| - 1]) && SameCmp(d, n)
  {
    hide IsAttr, IsWs, IsDnWord, TransformCmp, TextValue, WfValue, NormalValue, TextParts, WfParts, NormalParts,
      HasDoubleStar, Symbol, Colon, SettledCmp;
    var m := CmpForm(d);
    match m
    case PresenceD(attr) =>
      n, w := m, "";
      NoWsSigns();
      assert TextCmp(n) + "" == TextCmp(n) == attr + "=*";
    case ValueCmpD(_, _, _) => n, w := ValueCmpTrimmed(m);
    case SubstringD(attr, parts) => n, w := SubstringTrimmed(attr, parts);
    case ExtD(_, _, _, _) => n, w := ExtTrimmed(m);
  }

  lemma ValueCmpTrimmed(d: CmpD) returns (n: CmpD, w: string)
    requires WfCmp(d) && NormalCmp(d) && d.ValueCmpD?
    ensures WfCmp(n) && NormalCmp(n) && AllWs(w) && TextCmp(n) + w == TextCmp(d)
    ensures TextCmp(n) != "" && !IsWs(TextCmp(n)[|TextCmp(n)| - 1]) && SameCmp(d, n)
  {
    hide IsAttr, IsWs, TransformValue, TextValue, WfValue, NormalValue, Symbol, IsDnWord;
    SymbolEnd(d.kind);
    var v;
    v, w := ValueTrimmed(d.attr + Symbol(d.kind), d.value);
    n := ValueCmpD(d.attr, d.kind, v);
  }

  lemma ExtTrimmed(d: CmpD) returns (n: CmpD, w: string)
    requires WfCmp(d) && NormalCmp(d) && d.ExtD?
    ensures WfCmp(n) && NormalCmp(n) && AllWs(w) && TextCmp(n) + w == TextCmp(d)
    ensures TextCmp(n) != "" && !IsWs(TextCmp(n)[|TextCmp(n)| - 1]) && SameCmp(d, n)
  {
    hide IsAttr, IsWs, TransformValue, TextValue, WfValue, NormalValue, Colon, IsDnWord;
    var v;
    v, w := ValueTrimmed(d.attr + Colon(d.dn) + Colon(d.rule) + ":=", d.value);
    n := ExtD(d.attr, d.dn, d.rule, v);
  }

  lemma SymbolEnd(kind: Kind)
    requires kind != Presence
    ensures Symbol(kind) != "" && Symbol(kind)[|Symbol(kind)| - 1] == '='
  {
  }

  lemma NoWsSigns()
    ensures !IsWs('*') && !IsWs('=')
  {
  }

  lemma ValueTrimmed(head: string, v: ValueD) returns (n: ValueD, w: string)
    requires WfValue(v) && NormalValue(v) && head != "" && head[|head| - 1] == '='
    ensures WfValue(n) && NormalValue(n) && AllWs(w) && head + TextValue(n) + w == head + TextValue(v)
    ensures !IsWs((head + TextValue(n))[|head + TextValue(n)| - 1])
    ensures TransformValue(v).Some? ==>
              TransformValue(n).Some? && TransformValue(n).value.val == TransformValue(v).value.val
  {
    hide IsWs, IsValueText, TransformValue, Strip;
    NoWsSigns();
    AcceptedValue(v);
    if v.body == "" {
      n, w := ValueD("", "", ""), v.lead;
      assert head + "" + w == head + w;
      assert TextValue(n) == "" && TextValue(v) == v.lead;
      assert head + TextValue(n) == head;
    } else {
      n, w := ValueD(v.lead, v.body, ""), v.tail;
      var t := v.lead + v.body;
      assert TextValue(n) == t;
      Assoc(head, t, w);
      assert (head + t)[|head + t| - 1] == v.body[|v.body| - 1];
    }
    AcceptedValue(n);
    if TransformValue(v).Some? {
      ValueIsStripped(v);
      ValueIsStripped(n);
      StripBehind(TextValue(n), w);
      assert TextValue(v) == TextValue(n) + w;
    }
  }

  lemma SubstringTrimmed(attr: string, parts: seq<PartD>) returns (n: CmpD, w: string)
    requires WfCmp(SubstringD(attr, parts)) && NormalCmp(SubstringD(attr, parts))
    ensures WfCmp(n) && NormalCmp(n) && AllWs(w) && TextCmp(n) + w == TextCmp(SubstringD(attr, parts))
    ensures TextCmp(n) != "" && !IsWs(TextCmp(n)[|TextCmp(n)| - 1]) && SameCmp(SubstringD(attr, parts), n)
  {
    hide IsAttr, IsWs, StarText, WfParts, NormalParts, TransformValue, HasDoubleStar, Shows, TextParts, SplitStars,
      ParseValue, CutEnd, SettledCmp, StarCmp, Strip;
    var v := TextParts(parts);
    var m;
    m, w := TrimmedStars(parts);
    n := StarForm(attr, m);
    Assoc(attr + "=", m, w);
    LastOf(attr + "=", m);
    if m != "*" {
      NoDoubleStar(m, w);
      ShowsStar(m);
      AcceptedValue(ValueD("", m, ""));
    }
    if TransformCmp(SubstringD(attr, parts)).Some? {
      SettledStars(attr, parts);
      StripBehind(m, w);
    }
  }

  lemma LastOf(a: string, b: string)
    requires b != ""
    ensures (a + b)[|a + b| - 1] == b[|b| - 1]
  {
  }

  lemma TrimmedStars(parts: seq<PartD>) returns (m: string, w: string)
    requires WfParts(parts) && NormalParts(parts) && Star in parts
    ensures m + w == TextParts(parts) && AllWs(w) && StarText(m) && '*' in m
    ensures m != "" && !IsWs(m[|m| - 1])
  {
    hide IsWs, IsHex, StarText, WfParts, NormalParts, TextParts, SplitStars;
    PartsComplete(parts);
    PartsAreStarText(parts);
    var (front, tail) := CutEnd(IsWs, TextParts(parts));
    m, w := front, tail;
    StarStays(m, w);
    if w != "" {
      WsNoAtom(w);
    }
    StarTextFront(m, w);
  }

  lemma StarStays(m: string, w: string)
    requires AllWs(w) && '*' in m + w
    ensures '*' in m && m != ""
  {
    NoWsSigns();
  }

  lemma NoDoubleStar(m: string, w: string)
    ensures HasDoubleStar(m) ==> HasDoubleStar(m + w)
  {
    if i :| 0 <= i < |m| - 1 && m[i] == '*' && m[i + 1] == '*' {
      assert (m + w)[i] == '*' && (m + w)[i + 1] == '*';
    }
  }

  lemma ShowsStar(m: string)
    ensures '*' in m ==> Shows(m)
  {
  }

  // ----- items, groups and whole filters -----

  /** Every item has a normal derivation of the same text. */
  lemma {:induction false} ItemForm(d: ItemD) returns (n: ItemD)
    requires WfItem(d)
    ensures WfItem(n) && NormalItem(n) && TextItem(n) == TextItem(d) && SameItem(d, n)
    decreases d, 0
  {
    hide WfCmp, NormalCmp, TextCmp, TransformCmp, IsWs, Cls.Operator, Cls.Sign;
    match d
    case ExprD(ld, cmp, tr) =>
      var c, w := CmpTrimmed(cmp);
      n := ExprD(ld, c, w + tr);
      AllConcat(IsWs, w, tr);
      InBrackets(ld, TextCmp(c), w, tr);
      SameLeaf(ld, cmp, tr, c, w + tr);
    case OpD(cls, sep, ld, groups, tr) =>
      var lead, gs, tail := GroupsForm(groups, ld, tr);
      n := OpD(cls, sep, lead, gs, tail);
      AroundGroups("(" + sep + cls.Sign(), ld + TextGroups(groups) + tr, lead, TextGroups(gs), tail);
      AroundGroups("(" + sep + cls.Sign(), ld + TextGroups(groups) + tr, ld, TextGroups(groups), tr);
      SameNode(d, n);
  }

  lemma SameLeaf(ld: string, cmp: CmpD, tr: string, c: CmpD, tr': string)
    requires SameCmp(cmp, c)
    ensures SameItem(ExprD(ld, cmp, tr), ExprD(ld, c, tr'))
  {
    hide TransformCmp;
  }

  lemma SameNode(d: ItemD, n: ItemD)
    requires d.OpD? && n.OpD? && d.cls == n.cls && SameGroups(d.groups, n.groups)
    requires TransformItem(d).Some? ==> TransformItem(n).Some?
    ensures SameItem(d, n)
  {
    if TransformItem(d).Some? {
      SettledSurrounded(d.ld, TransformGroups(d.groups).value, d.tr);
      SettledSurrounded(n.ld, TransformGroups(n.groups).value, n.tr);
    }
  }

  lemma InBrackets(ld: string, c: string, w: string, tr: string)
    ensures "(" + ld + c + (w + tr) + ")" == "(" + ld + (c + w) + tr + ")"
  {
  }

  lemma AroundGroups(head: string, whole: string, a: string, b: string, c: string)
    requires whole == a + b + c
    ensures head + a + b + c + ")" == head + whole + ")"
  {
  }

  /** Whitespace between items moves to the front of the next one; around all of them it leaves the list. */
  lemma {:induction false} GroupsForm(gs: seq<GroupD>, ld: string, tr: string)
    returns (lead: string, ns: seq<GroupD>, tail: string)
    requires WfGroups(gs) && AllWs(ld) && AllWs(tr)
    ensures WfGroups(ns) && NormalGroups(ns) && AllWs(lead) && AllWs(tail) && |ns| == |gs|
    ensures lead + TextGroups(ns) + tail == ld + TextGroups(gs) + tr
    ensures if ns == [] then tail == "" else ns[0].ws1 == ""
    ensures SameGroups(gs, ns)
    decreases gs, 0
  {
    hide IsWs, All, WfItem, NormalItem, TextItem, TextGroups, SameItem, SameGroups;
    NoneIsWs();
    NoText();
    if gs == [] {
      SameSelf(gs);
      lead, ns, tail := ld + tr, [], "";
      AllConcat(IsWs, ld, tr);
      assert lead + "" + tail == ld + "" + tr;
    } else {
      var g := gs[0];
      var item := ItemForm(g.item);
      var l, rest, t := GroupsForm(gs[1..], g.ws2, tr);
      AllConcat(IsWs, ld, g.ws1);
      lead := ld + g.ws1;
      var more := if rest == [] then [] else [rest[0].(ws1 := l)] + rest[1..];
      tail := if rest == [] then l else t;
      ns := [GroupD("", item, "")] + more;
      Spaced(rest, l);
      Fronted(item, more);
      FirstText(gs);
      if rest == [] {
        Ends(l);
      }
      Shifted(ld, g.ws1, TextItem(item), l + TextGroups(rest) + t, g.ws2, TextGroups(gs[1..]), tr);
      Regrouped(lead, TextItem(item), TextGroups(more), tail);
      SameChain(gs[1..], rest, more);
      SameFirst(gs, ns);
    }
  }

  lemma NoText()
    ensures TextGroups([]) == ""
  {
  }

  lemma Ends(l: string)
    ensures "" + "" + l == l + "" + ""
  {
  }

  lemma FirstText(gs: seq<GroupD>)
    requires gs != []
    ensures TextGroups(gs) == (gs[0].ws1 + TextItem(gs[0].item) + gs[0].ws2) + TextGroups(gs[1..])
  {
  }

  lemma Fronted(item: ItemD, more: seq<GroupD>)
    requires WfItem(item) && NormalItem(item) && WfGroups(more) && NormalGroups(more)
    ensures var ns := [GroupD("", item, "")] + more;
            ns[1..] == more && WfGroups(ns) && NormalGroups(ns) && TextGroups(ns) == TextItem(item) + TextGroups(more)
  {
    hide WfItem, NormalItem, TextItem;
    var ns := [GroupD("", item, "")] + more;
    assert ns[1..] == more;
    FirstText(ns);
    assert "" + TextItem(item) + "" == TextItem(item);
  }

  /** Whitespace in front of the first item. */
  lemma Spaced(gs: seq<GroupD>, l: string)
    requires WfGroups(gs) && NormalGroups(gs) && AllWs(l)
    requires gs != [] ==> gs[0].ws1 == ""
    ensures var more := if gs == [] then [] else [gs[0].(ws1 := l)] + gs[1..];
            && WfGroups(more) && NormalGroups(more)
            && TextGroups(more) == (if gs == [] then "" else l) + TextGroups(gs)
            && SameGroups(gs, more)
  {
    hide IsWs, WfItem, NormalItem, TextItem, SameItem, SameGroups;
    SameSelf(gs);
    if gs != [] {
      var more := [gs[0].(ws1 := l)] + gs[1..];
      assert more[1..] == gs[1..];
      Spacing(l, TextItem(gs[0].item), TextGroups(gs[1..]));
      SameFirst(gs, more);
    }
  }

  lemma SameSelf(gs: seq<GroupD>)
    ensures SameGroups(gs, gs) && (gs != [] ==> SameItem(gs[0].item, gs[0].item) && SameGroups(gs[1..], gs[1..]))
  {
  }

  lemma SameChain(a: seq<GroupD>, b: seq<GroupD>, c: seq<GroupD>)
    requires SameGroups(a, b) && SameGroups(b, c)
    ensures SameGroups(a, c)
  {
  }

  lemma SameFirst(gs: seq<GroupD>, ns: seq<GroupD>)
    requires gs != [] && ns != [] && SameItem(gs[0].item, ns[0].item) && SameGroups(gs[1..], ns[1..])
    ensures SameGroups(gs, ns)
  {
    hide TransformItem, Settled;
    if TransformGroups(gs).Some? {
      assert TransformGroups(ns).Some?;
      SettledFirst(gs);
      SettledFirst(ns);
      ItemIsNoToken(gs[0].item);
      ItemIsNoToken(ns[0].item);
    }
  }

  lemma ItemIsNoToken(d: ItemD)
    requires TransformItem(d).Some?
    ensures !TransformItem(d).value.Tok?
  {
    hide TransformCmp, TransformGroups;
  }

  /** Where the whitespace around an item goes makes no difference. */
  lemma SettledFirst(gs: seq<GroupD>)
    requires gs != [] && TransformGroups(gs).Some?
    ensures TransformItem(gs[0].item).Some? && TransformGroups(gs[1..]).Some?
    ensures SettledItems(TransformGroups(gs).value) ==
            (var e := TransformItem(gs[0].item).value; if e.Tok? then [] else [Settled(e)]) +
            SettledItems(TransformGroups(gs[1..]).value)
  {
    hide TransformItem, Settled;
    var e, es := TransformItem(gs[0].item).value, TransformGroups(gs[1..]).value;
    SettledSurrounded(gs[0].ws1, [e], gs[0].ws2);
    SettledConcat(Toks(gs[0].ws1) + [e] + Toks(gs[0].ws2), es);
    assert [e][1..] == [];
  }

  lemma Spacing(l: string, item: string, rest: string)
    ensures l + item + "" + rest == l + ("" + item + "" + rest)
  {
  }

  lemma Regrouped(lead: string, item: string, more: string, tail: string)
    ensures lead + (item + more) + tail == lead + item + (more + tail)
  {
  }

  lemma Shifted(ld: string, ws1: string, item: string, moved: string, ws2: string, rest: string, tr: string)
    requires moved == ws2 + rest + tr
    ensures ld + ws1 + item + moved == ld + ((ws1 + item + ws2) + rest) + tr
  {
  }

  lemma StartForm(d: StartD) returns (n: StartD)
    requires WfStart(d) && (d.TopD? ==> d.group.ws1 == "" && d.group.ws2 == "")
    ensures WfStart(n) && NormalStart(n) && TextStart(n) == TextStart(d) && SameStart(d, n)
  {
    hide WfCmp, NormalCmp, TextCmp, TransformCmp, WfItem, NormalItem, TextItem, TransformItem;
    match d
    case TopD(g) =>
      var item := ItemForm(g.item);
      n := TopD(GroupD("", item, ""));
      SameTop(g.item, item);
    case BareD(cmp) =>
      var c := CmpForm(cmp);
      n := BareD(c);
      SameBare(cmp, c);
  }

  lemma SettledOne(cls: Cls, e: Expr)
    requires !e.Tok?
    ensures Settled(Node(cls, "", [e])) == Node(cls, "", [Settled(e)])
  {
    hide Settled;
    assert [e][1..] == [];
    assert SettledItems([e]) == [Settled(e)];
    SettledNode(cls, [e]);
  }

  lemma SettledNode(cls: Cls, items: seq<Expr>)
    ensures Settled(Node(cls, "", items)) == Node(cls, "", SettledItems(items))
  {
  }

  lemma SameTop(d: ItemD, n: ItemD)
    requires SameItem(d, n)
    ensures SameStart(TopD(GroupD("", d, "")), TopD(GroupD("", n, "")))
  {
    hide TransformItem;
    if TransformItem(d).Some? {
      ItemIsNoToken(d);
      ItemIsNoToken(n);
      SettledRoot(TransformItem(d).value);
      SettledRoot(TransformItem(n).value);
    }
  }

  lemma SettledRoot(e: Expr)
    requires !e.Tok?
    ensures var root := if e.Leaf? then Node(Bracketed, "", [e]) else e;
            Settled(Node(Plain, "", [root])) ==
            Node(Plain, "", [if Settled(e).Leaf? then Node(Bracketed, "", [Settled(e)]) else Settled(e)])
  {
    SettledOne(Bracketed, e);
    SettledOne(Plain, if e.Leaf? then Node(Bracketed, "", [e]) else e);
  }

  lemma SameBare(d: CmpD, n: CmpD)
    requires SameCmp(d, n)
    ensures SameStart(BareD(d), BareD(n))
  {
    hide TransformCmp, SettledCmp;
    if TransformCmp(d).Some? {
      var a, b := Leaf(TransformCmp(d).value), Leaf(TransformCmp(n).value);
      SettledOne(Plain, a);
      SettledOne(Plain, b);
      SettledOne(Plain, Node(Plain, "", [a]));
      SettledOne(Plain, Node(Plain, "", [b]));
    }
  }

  /** A derivation without whitespace around the outermost brackets, which the transformer never accepts. */
  predicate Enclosed(d: StartD) { d.TopD? ==> d.group.ws1 == "" && d.group.ws2 == "" }

  /** The parser accepts exactly the texts of such derivations. */
  lemma ParsesLanguage(s: string)
    ensures ParseStart(s).Some? <==> exists d :: WfStart(d) && Enclosed(d) && TextStart(d) == s
  {
    hide WfStart, TextStart, ParseStart, NormalStart, TransformStart;
    if ParseStart(s).Some? {
      ParseSound(s);
      ParsedIsEnclosed(s);
    }
    if d :| WfStart(d) && Enclosed(d) && TextStart(d) == s {
      var n := StartForm(d);
      ParseComplete(n);
    }
  }

  lemma ParsedIsEnclosed(s: string)
    requires ParseStart(s).Some?
    ensures Enclosed(ParseStart(s).value)
  {
    hide ParseItem, ParseCmp;
  }

  /** With the transformer behind it, it accepts exactly the texts of which some derivation is accepted. */
  lemma AcceptsLanguage(s: string)
    ensures (exists e :: ParseStart(s) == Some(e) && TransformStart(e).Some?)
            <==> exists d :: WfStart(d) && TextStart(d) == s && TransformStart(d).Some?
  {
    hide WfStart, TextStart, ParseStart, NormalStart;
    if ParseStart(s).Some? {
      ParseSound(s);
    }
    if d :| WfStart(d) && TextStart(d) == s && TransformStart(d).Some? {
      AcceptedIsEnclosed(d);
      var n := StartForm(d);
      ParseComplete(n);
    }
  }

  lemma AcceptedIsEnclosed(d: StartD)
    requires TransformStart(d).Some?
    ensures Enclosed(d)
  {
    hide TransformItem, TransformCmp;
  }
}
