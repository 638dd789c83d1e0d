/**
 The derivations the parser produces, and the converse of its soundness: on the text of any such
 derivation the parser returns that derivation.
 */
module FilterNormal {
  import opened Options
  import opened Text
  import opened Escaping
  import opened FilterTree
  import opened FilterGrammar
  import opened FilterParser

  predicate NormalValue(v: ValueD) {
    TightEnds(IsWs, v.body) && (v.body == "" ==> v.tail == "")
  }

  predicate NormalParts(parts: seq<PartD>) {
    forall i :: 0 <= i < |parts| - 1 ==> parts[i].Star? || parts[i + 1].Star?
  }

  predicate NormalCmp(d: CmpD) {
    match d
    case PresenceD(_) => true
    case ValueCmpD(_, _, value) => NormalValue(value)
    case SubstringD(_, parts) => NormalParts(parts) && Star in parts && parts != [Star]
    case ExtD(attr, dn, rule, value) =>
      NormalValue(value) && (dn == "" && IsDnWord(rule) ==> attr == "")
  }

  predicate NormalItem(d: ItemD) {
    match d
    case ExprD(_, cmp, _) =>
      NormalCmp(cmp) && TextCmp(cmp) != "" && !IsWs(TextCmp(cmp)[|TextCmp(cmp)| - 1])
    case OpD(_, _, _, groups, tr) =>
      NormalGroups(groups) && if groups == [] then tr == "" else groups[0].ws1 == ""
  }

  predicate NormalGroups(gs: seq<GroupD>) {
    gs == [] || (gs[0].ws2 == "" && NormalItem(gs[0].item) && NormalGroups(gs[1..]))
  }

  predicate NormalStart(d: StartD) {
    match d
    case TopD(g) => g.ws1 == g.ws2 == "" && NormalItem(g.item)
    case BareD(cmp) => NormalCmp(cmp)
  }

  lemma AttrCut(attr: string, rest: string)
    requires attr == "" || IsAttr(attr)
    requires rest == "" || !IsNameChar(rest[0])
    ensures Cut(IsNameChar, attr + rest) == (attr, rest)
  {
    CutIs(IsNameChar, attr, rest);
  }

  lemma NotStarts(r: string, prefix: string)
    requires r != "" && prefix != "" && r[0] != prefix[0]
    ensures !Starts(r, prefix)
  {
    if |prefix| <= |r| {
      assert r[..|prefix|][0] == r[0];
    }
  }

  lemma NotSecond(r: string)
    requires |r| >= 2 && r[1] != '='
    ensures !Starts(r, ":=")
  {
    assert r[..2][1] == r[1];
  }

  lemma ValueComplete(v: ValueD)
    requires WfValue(v) && NormalValue(v)
    ensures ParseValue(TextValue(v)) == Some(v)
  {
    hide IsWs, IsValueText, Cut, CutEnd;
    var r := v.body + v.tail;
    assert TextValue(v) == v.lead + r;
    CutIs(IsWs, v.lead, r);
    CutEndIs(IsWs, v.body, v.tail);
  }

  lemma ValueNoStar(v: ValueD)
    requires WfValue(v)
    ensures forall c <- TextValue(v) :: c != '*' && c != ')'
    ensures '*' !in TextValue(v) && TextValue(v) != "*"
  {
    ValueHasNoDelimiter(v.body);
    if TextValue(v) != "" {
      assert TextValue(v)[0] in TextValue(v);
    }
  }

  lemma {:induction false} PartsComplete(parts: seq<PartD>)
    requires WfParts(parts) && NormalParts(parts)
    ensures SplitStars(TextParts(parts)) == parts
    ensures Star in parts ==> '*' in TextParts(parts)
    ensures TextParts(parts) == "*" ==> parts == [Star]
    ensures parts != [] ==> TextParts(parts) != ""
    ensures forall c <- TextParts(parts) :: c != ')'
  {
    if parts != [] {
      var p, ps := parts[0], parts[1..];
      PartsComplete(ps);
      var rest := TextParts(ps);
      if p.Chunk? {
        ValueHasNoDelimiter(p.text);
        assert ps != [] ==> ps[0].Star? && rest[0] == '*';
        CutIs(NotStar, p.text, rest);
        assert (p.text + rest)[0] == p.text[0];
      } else {
        assert ("*" + rest)[1..] == rest;
        assert "*" + rest == "*" ==> rest == "";
      }
      assert parts == [p] + ps;
    }
  }

  lemma ExtComplete(attr: string, dn: string, rule: string, value: ValueD)
    requires WfCmp(ExtD(attr, dn, rule, value)) && NormalCmp(ExtD(attr, dn, rule, value))
    requires dn != "" || rule != ""
    ensures ParseNames(attr, Names(dn, rule) + (":=" + TextValue(value)))
            == Some(ExtD(attr, dn, rule, value))
  {
    hide Cut, IsNameChar, ParseValue, TextValue, WfValue, NormalValue, Starts, After;
    ValueComplete(value);
    var v := ":=" + TextValue(value);
    NotNames();
    StartsIs(":=", TextValue(value));
    if dn == "" {
      AttrCut(rule, v);
    } else {
      DnIsAttr(dn);
      if rule == "" {
        AttrCut(dn, v);
      } else {
        AttrCut(dn, ":" + rule + v);
        AttrCut(rule, v);
        Assoc(dn, ":" + rule, v);
        Assoc(":", rule, v);
        StartsIs(":", rule + v);
        OneColon(rule, v);
      }
    }
  }

  lemma OneColon(rule: string, v: string)
    requires IsAttr(rule)
    ensures !Starts(":" + rule + v, ":=")
  {
    assert (":" + rule + v)[1] == rule[0];
    NotSecond(":" + rule + v);
  }

  lemma NotNames()
    ensures !IsNameChar(':') && !IsNameChar('=') && !IsNameChar('<') && !IsNameChar('>') && !IsNameChar('~')
  {
  }

  lemma DnIsAttr(dn: string)
    requires IsDnWord(dn)
    ensures IsAttr(dn)
  {
  }

  /** The text after the attribute. */
  function Tail(d: CmpD): string {
    match d
    case PresenceD(_) => "=" + "*"
    case ValueCmpD(_, kind, value) => Symbol(kind) + TextValue(value)
    case SubstringD(_, parts) => "=" + TextParts(parts)
    case ExtD(_, dn, rule, value) =>
      if dn == "" && rule == "" then ":=" + TextValue(value)
      else ":" + (Names(dn, rule) + (":=" + TextValue(value)))
  }

  /** The extensible flags and rule, without the first colon. */
  function Names(dn: string, rule: string): string {
    if dn == "" then rule else if rule == "" then dn else dn + (":" + rule)
  }

  lemma ColonNames(attr: string, dn: string, rule: string, v: string)
    requires dn != "" || rule != ""
    ensures attr + Colon(dn) + Colon(rule) + ":=" + v == attr + (":" + (Names(dn, rule) + (":=" + v)))
  {
    var a, b := Colon(dn), Colon(rule);
    assert a + b == ":" + Names(dn, rule);
    assert attr + a + b == attr + (a + b);
    Respaced(attr, a + b, ":", Names(dn, rule), v);
  }

  lemma Respaced(attr: string, ab: string, colon: string, names: string, v: string)
    requires ab == colon + names
    ensures attr + ab + ":=" + v == attr + (colon + (names + (":=" + v)))
  {
  }

  lemma TailText(d: CmpD)
    ensures TextCmp(d) == d.attr + Tail(d)
  {
    hide TextValue, TextParts;
    if d.ExtD? {
      if d.dn == "" && d.rule == "" {
        assert d.attr + "" + "" == d.attr;
      } else {
        ColonNames(d.attr, d.dn, d.rule, TextValue(d.value));
      }
    }
  }

  lemma TailStart(d: CmpD)
    requires WfCmp(d)
    ensures Tail(d) != "" && Tail(d)[0] in ":=<>~"
    ensures d.ExtD? <==> Tail(d)[0] == ':'
  {
  }

  lemma CmpComplete(d: CmpD)
    requires WfCmp(d) && NormalCmp(d)
    ensures ParseCmp(TextCmp(d)) == Some(d)
  {
    hide Cut, IsNameChar, IsAttr, ParseValue, TextValue, WfValue, NormalValue, Starts, After, ParseNames, SplitStars,
      TextParts, NormalParts, WfParts;
    TailText(d);
    TailStart(d);
    NotNames();
    AttrCut(d.attr, Tail(d));
    if !d.ExtD? {
      AttrNotEmpty(d.attr);
    }
    match d
    case PresenceD(attr) => OneSign(Tail(d), "=", "*");
    case ValueCmpD(attr, kind, value) =>
      ValueComplete(value);
      ValueNoStar(value);
      OneSign(Tail(d), Symbol(kind), TextValue(value));
      if kind == Equality {
        assert ParseEquals(attr, TextValue(value)) == Some(d);
      } else {
        assert ParseOrdered(attr, kind, TextValue(value)) == Some(d);
      }
    case SubstringD(attr, parts) =>
      PartsComplete(parts);
      OneSign(Tail(d), "=", TextParts(parts));
    case ExtD(attr, dn, rule, value) => ExtCmpComplete(attr, dn, rule, value);
  }

  /** Of the signs, the tail starts with one only. */
  lemma OneSign(r: string, sign: string, v: string)
    requires r == sign + v && sign in ["=", ">=", "<=", "~="]
    ensures Starts(r, sign) && After(r, sign) == v
    ensures !Starts(r, ":=") && !Starts(r, ":")
    ensures sign != "=" ==> !Starts(r, "=")
    ensures sign != ">=" ==> !Starts(r, ">=")
    ensures sign != "<=" ==> !Starts(r, "<=")
    ensures sign != "~=" ==> !Starts(r, "~=")
  {
    StartsIs(sign, v);
    assert r[0] == sign[0];
    NotStarts(r, ":=");
    NotStarts(r, ":");
    if sign != "=" { NotStarts(r, "="); }
    if sign != ">=" { NotStarts(r, ">="); }
    if sign != "<=" { NotStarts(r, "<="); }
    if sign != "~=" { NotStarts(r, "~="); }
  }

  lemma ExtCmpComplete(attr: string, dn: string, rule: string, value: ValueD)
    requires WfCmp(ExtD(attr, dn, rule, value)) && NormalCmp(ExtD(attr, dn, rule, value))
    ensures var d := ExtD(attr, dn, rule, value); ParseCmp(attr + Tail(d)) == Some(d)
  {
    hide Cut, IsNameChar, IsAttr, ParseValue, TextValue, WfValue, NormalValue, Starts, After, ParseNames;
    var d := ExtD(attr, dn, rule, value);
    NotNames();
    AttrCut(attr, Tail(d));
    ValueComplete(value);
    if dn == "" && rule == "" {
      StartsIs(":=", TextValue(value));
    } else {
      ExtComplete(attr, dn, rule, value);
      var names := Names(dn, rule) + (":=" + TextValue(value));
      StartsIs(":", names);
      NameFirst(dn, rule, names);
    }
  }

  lemma NameFirst(dn: string, rule: string, names: string)
    requires dn == "" || IsDnWord(dn)
    requires rule == "" || IsAttr(rule)
    requires dn != "" || rule != ""
    requires names != "" && names[0] == if dn == "" then rule[0] else dn[0]
    ensures !Starts(":" + names, ":=")
  {
    assert (":" + names)[1] == names[0];
    NotSecond(":" + names);
  }

  lemma AllConcat(p: char -> bool, a: string, b: string)
    requires All(p, a) && All(p, b)
    ensures All(p, a + b)
  {
  }

  lemma AttrNoClose(attr: string)
    requires attr == "" || IsAttr(attr)
    ensures All(NotClose, attr) && All(NotClose, Colon(attr))
  {
    AllConcat(NotClose, ":", attr);
  }

  lemma CmpNoClose(d: CmpD)
    requires WfCmp(d) && NormalCmp(d)
    ensures All(NotClose, TextCmp(d))
  {
    hide All, IsAttr, IsValueText, IsWs;
    SymbolsNoClose();
    AttrNoClose(d.attr);
    match d
    case PresenceD(attr) => AllConcat(NotClose, attr, "=*");
    case ValueCmpD(attr, kind, value) =>
      ValueNoClose(value);
      AllConcat(NotClose, attr, Symbol(kind));
      AllConcat(NotClose, attr + Symbol(kind), TextValue(value));
    case SubstringD(attr, parts) =>
      PartsNoClose(parts);
      AllConcat(NotClose, attr, "=");
      AllConcat(NotClose, attr + "=", TextParts(parts));
    case ExtD(attr, dn, rule, value) =>
      if dn != "" { DnIsAttr(dn); }
      AttrNoClose(dn);
      AttrNoClose(rule);
      ValueNoClose(value);
      AllConcat(NotClose, attr, Colon(dn));
      AllConcat(NotClose, attr + Colon(dn), Colon(rule));
      AllConcat(NotClose, attr + Colon(dn) + Colon(rule), ":=");
      AllConcat(NotClose, attr + Colon(dn) + Colon(rule) + ":=", TextValue(value));
  }

  lemma SymbolsNoClose()
    ensures forall s <- ["=*", "=", ">=", "<=", "~=", ":="] :: All(NotClose, s)
  {
  }

  lemma ValueNoClose(v: ValueD)
    requires WfValue(v)
    ensures All(NotClose, TextValue(v))
  {
    ValueNoStar(v);
  }

  lemma PartsNoClose(parts: seq<PartD>)
    requires WfParts(parts) && NormalParts(parts)
    ensures All(NotClose, TextParts(parts))
  {
    PartsComplete(parts);
  }

  lemma CmpFirst(d: CmpD)
    requires WfCmp(d)
    ensures TextCmp(d) != "" && !IsWs(TextCmp(d)[0]) && !ClassOf(TextCmp(d)[0]).Operator()
  {
    hide TextCmp, Tail, IsWs, ClassOf, Cls.Operator;
    TailText(d);
    TailStart(d);
    FirstOf(d.attr, Tail(d));
    NotSign(TextCmp(d)[0]);
  }

  lemma FirstOf(a: string, b: string)
    requires b != ""
    ensures (a + b)[0] == if a == "" then b[0] else a[0]
  {
  }

  lemma NotSign(c: char)
    requires IsLetter(c) || IsDigit(c) || c == ':'
    ensures !IsWs(c) && !ClassOf(c).Operator()
  {
  }

  lemma {:induction false} ItemComplete(d: ItemD, rest: string)
    requires WfItem(d) && NormalItem(d)
    ensures ParseItem(TextItem(d) + rest) == Some((d, rest))
    ensures TextItem(d) != "" && TextItem(d)[0] == '('
    decreases d, 0
  {
    hide Cut, CutEnd, Starts, After, IsWs, ClassOf, ParseCmp, ParseGroups, TextCmp, TextGroups;
    match d
    case ExprD(ld, cmp, tr) =>
      var c := TextCmp(cmp);
      CmpNoClose(cmp);
      CmpFirst(cmp);
      CmpComplete(cmp);
      WsNotClose(tr);
      var r := c + tr + (")" + rest);
      CutIs(IsWs, ld, r);
      CutIs(NotClose, c + tr, ")" + rest);
      CutEndIs(IsWs, c, tr);
      StartsIs("(", ld + r);
      assert TextItem(d) + rest == "(" + (ld + r);
    case OpD(cls, sep, ld, groups, tr) =>
      var q := TextGroups(groups) + tr + ")" + rest;
      SignsAreNot(cls);
      GroupsComplete(groups, tr, rest);
      var sign := cls.Sign();
      CutIs(IsWs, ld, q);
      CutIs(IsWs, sep, sign + (ld + q));
      assert (sign + (ld + q))[1..] == ld + q;
      StartsIs("(", sep + (sign + (ld + q)));
      OperatorShape(sep, sign, ld, TextGroups(groups), tr, rest);
      assert TextItem(d) + rest == "(" + (sep + (sign + (ld + q)));
  }

  lemma OperatorShape(sep: string, sign: string, ld: string, inner: string, tr: string, rest: string)
    ensures "(" + sep + sign + ld + inner + tr + ")" + rest == "(" + (sep + (sign + (ld + (inner + tr + ")" + rest))))
  {
  }

  lemma SignsAreNot(cls: Cls)
    requires cls.Operator()
    ensures |cls.Sign()| == 1 && !IsWs(cls.Sign()[0]) && ClassOf(cls.Sign()[0]) == cls
    ensures cls.Sign()[0] == '!' <==> cls.Not?
  {
  }

  lemma WsNotClose(w: string)
    requires AllWs(w)
    ensures All(NotClose, w)
  {
  }

  /** Groups are read up to the closing bracket; the first character after the leading space is no space. */
  lemma {:induction false} GroupsComplete(gs: seq<GroupD>, tr: string, rest: string)
    requires WfGroups(gs) && NormalGroups(gs) && AllWs(tr)
    ensures ParseGroups(TextGroups(gs) + tr + ")" + rest) == Some((gs, tr, rest))
    ensures (if gs == [] then tr == "" else gs[0].ws1 == "") ==> !IsWs((TextGroups(gs) + tr + ")" + rest)[0])
    decreases gs, 0
  {
    hide Cut, IsWs, ParseItem, TextItem, WfItem, NormalItem;
    NoWs();
    if gs == [] {
      CutIs(IsWs, tr, ")" + rest);
      assert TextGroups(gs) + tr + ")" + rest == tr + (")" + rest);
    } else {
      var g, after := gs[0], TextGroups(gs[1..]) + tr + ")" + rest;
      GroupsComplete(gs[1..], tr, rest);
      ItemComplete(g.item, after);
      var r := TextItem(g.item) + after;
      CutIs(IsWs, g.ws1, r);
      GroupText(g.ws1, TextItem(g.item), TextGroups(gs[1..]), tr, rest);
      assert g == GroupD(g.ws1, g.item, "") && gs == [g] + gs[1..];
    }
  }

  lemma NoWs()
    ensures !IsWs('(') && !IsWs(')')
  {
  }

  /** On the text of a normal derivation the parser returns that derivation. */
  lemma ParseComplete(d: StartD)
    requires WfStart(d) && NormalStart(d)
    ensures ParseStart(TextStart(d)) == Some(d)
  {
    hide ParseItem, ParseCmp, WfItem, WfCmp, NormalItem, NormalCmp, TextItem, TextCmp, IsWs, Starts, IsAttr;
    match d
    case TopD(g) =>
      ItemComplete(g.item, "");
      assert TextGroup(g) == TextItem(g.item) == TextItem(g.item) + "";
      StartsIs("(", TextItem(g.item)[1..]);
      assert TextItem(g.item) == "(" + TextItem(g.item)[1..];
    case BareD(cmp) =>
      CmpComplete(cmp);
      BareNotBracket(cmp);
  }

  lemma BareNotBracket(d: CmpD)
    requires WfCmp(d)
    ensures !Starts(TextCmp(d), "(")
  {
    TailText(d);
    TailStart(d);
    assert TextCmp(d)[0] != '(';
    NotStarts(TextCmp(d), "(");
  }
}
