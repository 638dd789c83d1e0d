/**
 Parsing undoes printing, in the compact form and in the indented form. Both forms are the text of
 one derivation of the tree, laid out with or without whitespace, on which the parser is complete.
 */
module FilterRoundTrip {
  import opened Options
  import opened Text
  import opened Escaping
  import opened FilterTree
  import opened FilterGrammar
  import opened FilterParser
  import opened FilterNormal

  /** The constructor of Filter: the empty text and one space have no tree below the root. */
  function ParseFilter(s: string): Option<Expr> {
    if s == "" || s == " " then Some(Node(Plain, "", []))
    else
      var d :- ParseStart(s);
      TransformStart(d)
  }

  // ----- the trees that have a string form -----

  /** A value that needs no slot and no other class of comparison to be read back. */
  predicate Readable(c: Cmp) {
    c.escaped ==> IsValueText(c.raw) && Stripped(c.raw)
  }

  predicate WellFormed(c: Cmp) {
    c.Bare() &&
    match c.kind
    case Presence => IsAttr(c.attr) && c.raw == ""
    case Substring =>
      IsAttr(c.attr) && c.escaped && Stripped(c.raw) && '*' in c.raw && c.raw != "*" &&
      !HasDoubleStar(c.raw) && WfParts(SplitStars(c.raw))
    case Extensible(dn, rule) =>
      (c.attr == "" || IsAttr(c.attr)) && (dn == "" || IsDnWord(dn)) && (rule == "" || IsAttr(rule)) &&
      (c.attr == "" ==> rule != "") && !(dn == "" && IsDnWord(rule)) && Readable(c)
    case _ => IsAttr(c.attr) && Readable(c)
  }

  function Visible(items: seq<Expr>): seq<Expr> {
    if items == [] then []
    else (if items[0].Tok? then [] else [items[0]]) + Visible(items[1..])
  }

  /** Operators over well-formed comparisons; whitespace tokens may stand between the children. */
  predicate WfExpr(e: Expr) {
    match e
    case Leaf(c) => WellFormed(c)
    case Tok(_) => true
    case Node(cls, _, items) => cls.Operator() && WfExprs(items) && (cls.Not? ==> |Visible(items)| == 1)
  }

  predicate WfExprs(items: seq<Expr>) {
    items == [] || (WfExpr(items[0]) && WfExprs(items[1..]))
  }

  predicate NoSpace(e: Expr) {
    match e
    case Leaf(_) => true
    case Tok(_) => false
    case Node(_, sep, items) => sep == "" && NoSpaces(items)
  }

  predicate NoSpaces(items: seq<Expr>) {
    items == [] || (NoSpace(items[0]) && NoSpaces(items[1..]))
  }

  predicate WfRoot(root: Expr) {
    match root
    case Node(cls, sep, items) =>
      if cls.Operator() then WfExpr(root)
      else sep == "" && |items| == 1 && items[0].Leaf? && WellFormed(items[0].cmp)
    case _ => false
  }

  // ----- what reading back gives -----

  function CanonCmp(c: Cmp): Cmp { Cmp(c.kind, c.attr, c.EscapedText(), true) }

  /** The tree with every value in escaped form and without optional whitespace. */
  function Canon(e: Expr): Expr
    decreases e, 0
  {
    match e
    case Leaf(c) => Leaf(CanonCmp(c))
    case Tok(_) => e
    case Node(cls, _, items) => Node(cls, "", CanonItems(items))
  }

  function CanonItems(items: seq<Expr>): seq<Expr>
    decreases items, 0
  {
    if items == [] then []
    else (if items[0].Tok? then [] else [Canon(items[0])]) + CanonItems(items[1..])
  }

  /** The same tree without whitespace tokens. */
  function DropSpace(e: Expr): Expr
    decreases e, 0
  {
    if e.Node? then Node(e.cls, "", DropSpaces(e.items)) else e
  }

  function DropSpaces(items: seq<Expr>): seq<Expr>
    decreases items, 0
  {
    if items == [] then []
    else (if items[0].Tok? then [] else [DropSpace(items[0])]) + DropSpaces(items[1..])
  }

  // ----- derivations of comparisons -----

  function CmpDeriv(c: Cmp): CmpD {
    match c.kind
    case Presence => PresenceD(c.attr)
    case Substring => SubstringD(c.attr, SplitStars(c.raw))
    case Extensible(dn, rule) => ExtD(c.attr, dn, rule, ValueD("", c.EscapedText(), ""))
    case _ => ValueCmpD(c.attr, c.kind, ValueD("", c.EscapedText(), ""))
  }

  lemma EscapedReadable(c: Cmp)
    requires Readable(c)
    ensures IsValueText(c.EscapedText()) && Stripped(c.EscapedText())
  {
    hide IsValueText, Stripped, Escape;
    if !c.escaped {
      EscapeIsValue(c.raw, Special);
      EscapeIsValue(c.raw, Restricted);
      EscapeValueTight(c.raw);
    }
  }

  lemma WsIsSpace(c: char)
    ensures IsWs(c) ==> IsSpace(c)
  {
  }

  lemma StrippedIsTight(s: string)
    requires Stripped(s)
    ensures TightEnds(IsWs, s)
    ensures s != "" ==> !IsWs(s[|s| - 1])
  {
    hide IsWs, IsSpace, StripBy;
    StripEnds(IsSpace, s);
    if s != "" {
      WsIsSpace(s[0]);
      WsIsSpace(s[|s| - 1]);
    }
  }

  lemma ValueDeriv(text: string)
    requires IsValueText(text) && Stripped(text)
    ensures var v := ValueD("", text, "");
            WfValue(v) && NormalValue(v) && TextValue(v) == text && TransformValue(v) == Some(Padded("", text, ""))
  {
    StrippedIsTight(text);
  }

  lemma {:induction false} SplitStarsNormal(v: string)
    ensures NormalParts(SplitStars(v))
    ensures '*' in v ==> Star in SplitStars(v)
    ensures v != "" && v[0] == '*' ==> SplitStars(v)[0] == Star
    decreases |v|
  {
    hide Cut;
    if v != "" {
      if v[0] == '*' {
        SplitStarsNormal(v[1..]);
        assert SplitStars(v) == [Star] + SplitStars(v[1..]);
      } else {
        var (text, r) := Cut(NotStar, v);
        SplitStarsNormal(r);
        assert SplitStars(v) == [Chunk(text)] + SplitStars(r);
        assert r != "" ==> r[0] == '*';
        assert '*' in v ==> '*' in r;
      }
    }
  }

  lemma OneStar()
    ensures TextParts([Star]) == "*"
  {
    assert [Star][1..] == [];
  }

  lemma SubstringDeriv(c: Cmp)
    requires WellFormed(c) && c.kind == Substring
    ensures var d := CmpDeriv(c);
            WfCmp(d) && NormalCmp(d) && TextCmp(d) == c.Print() && TransformCmp(d) == Some(CanonCmp(c))
    ensures !IsWs(c.raw[|c.raw| - 1])
  {
    hide IsAttr, IsWs, IsSpace, StripBy, HasDoubleStar, WfParts, SplitStars, NormalParts, IsValueText, TextParts;
    SplitStarsSound(c.raw);
    SplitStarsNormal(c.raw);
    StrippedIsTight(c.raw);
    OneStar();
    PrintPrefixed(Substring, c.attr, Padded("", c.raw, ""));
    NoExtra(c.attr, c.raw);
    assert PaddedText(Padded("", c.raw, "")) == c.raw;
    assert Prefixed(Substring, c.attr, Padded("", c.raw, "")) == c;
  }

  lemma PrintCanon(c: Cmp)
    requires c.Bare()
    ensures c.Print() == c.attr + Extra(c.kind) + Symbol(c.kind) + c.EscapedText()
  {
    hide Cmp.EscapedText, Extra, Symbol;
    assert c.Print() == c.Inner();
  }

  lemma CmpDerivation(c: Cmp)
    requires WellFormed(c)
    ensures var d := CmpDeriv(c);
            WfCmp(d) && NormalCmp(d) && TextCmp(d) == c.Print() && TransformCmp(d) == Some(CanonCmp(c))
  {
    hide IsAttr, IsWs, IsSpace, StripBy, HasDoubleStar, SplitStars, IsValueText, EscapeValue, WfValue, NormalValue,
      TextValue, TransformValue, Cmp.Print;
    match c.kind
    case Presence =>
      PrintCanon(c);
      assert c.EscapedText() == "" by { EmptyEscapes(); }
      assert c.attr + "" + "=*" + "" == c.attr + "=*";
    case Substring => SubstringDeriv(c);
    case Extensible(dn, rule) =>
      EscapedReadable(c);
      ValueDeriv(c.EscapedText());
      PrintCanon(c);
      assert c.attr + Colon(dn) + Colon(rule) == c.attr + Extra(c.kind);
    case _ =>
      EscapedReadable(c);
      ValueDeriv(c.EscapedText());
      PrintCanon(c);
      assert c.attr + "" == c.attr;
  }

  lemma EmptyEscapes()
    ensures EscapeValue("") == ""
  {
  }

  lemma CmpEndsVisibly(c: Cmp)
    requires WellFormed(c)
    ensures c.Print() != "" && !IsWs(c.Print()[|c.Print()| - 1])
  {
    hide IsAttr, IsWs, IsSpace, StripBy, HasDoubleStar, SplitStars, IsValueText, EscapeValue, Extra;
    PrintCanon(c);
    var text := c.EscapedText();
    SymbolVisible(c.kind);
    assert text == "" ==> c.Print() == c.attr + Extra(c.kind) + Symbol(c.kind);
    match c.kind
    case Presence =>
      EmptyEscapes();
      assert text == "";
    case Substring => StrippedIsTight(text);
    case _ =>
      EscapedReadable(c);
      StrippedIsTight(text);
  }

  lemma SymbolVisible(k: Kind)
    ensures Symbol(k) != "" && !IsWs(Symbol(k)[|Symbol(k)| - 1])
  {
  }

  // ----- derivations of trees -----

  /** Compact is the form of str; Indented(n) the form of pretty at level n. */
  datatype Layout = Compact | Indented(level: nat) {
    function Below(cls: Cls): Layout {
      if Compact? then Compact else if cls.Not? then Indented(0) else Indented(level + 1)
    }

    /** Whitespace in front of a child, and of the closing bracket. */
    function Before(cls: Cls): string {
      if Compact? || cls.Not? then "" else "\n" + Pad(level + 1)
    }

    function Closing(cls: Cls): string {
      if Compact? || cls.Not? then "" else "\n" + Pad(level)
    }
  }

  function Pad(n: nat): (s: string)
    ensures |s| == 2 * n && forall c <- s :: c == ' '
  {
    if n == 0 then "" else "  " + Pad(n - 1)
  }

  function Deriv(e: Expr, lay: Layout): ItemD
    requires !e.Tok?
    decreases e, 0
  {
    match e
    case Leaf(c) => ExprD("", CmpDeriv(c), "")
    case Node(cls, _, items) =>
      var gs := Groups(items, "", lay.Before(cls), lay.Below(cls));
      if gs == [] then OpD(cls, "", (if lay.Compact? || cls.Not? then "" else "\n") + lay.Closing(cls), gs, "")
      else OpD(cls, "", lay.Before(cls), gs, lay.Closing(cls))
  }

  /** One group per visible child; the first one follows ws, the later ones next. */
  function Groups(items: seq<Expr>, ws: string, next: string, lay: Layout): seq<GroupD>
    decreases items, 0
  {
    if items == [] then []
    else if items[0].Tok? then Groups(items[1..], ws, next, lay)
    else [GroupD(ws, Deriv(items[0], lay), "")] + Groups(items[1..], next, next, lay)
  }

  lemma {:induction false} PadIsWs(n: nat)
    ensures AllWs(Pad(n)) && AllWs("\n" + Pad(n)) && AllWs("\n" + ("\n" + Pad(n)))
  {
    if n > 0 {
      PadIsWs(n - 1);
    }
  }

  lemma LayoutIsWs(lay: Layout, cls: Cls)
    ensures AllWs(lay.Before(cls)) && AllWs(lay.Closing(cls)) && AllWs("\n" + lay.Closing(cls))
    ensures AllWs("" + lay.Closing(cls))
  {
    assert "" + lay.Closing(cls) == lay.Closing(cls);
    if lay.Indented? {
      PadIsWs(lay.level);
      PadIsWs(lay.level + 1);
    }
  }

  lemma {:induction false} GroupsCount(items: seq<Expr>, ws: string, next: string, lay: Layout)
    ensures |Groups(items, ws, next, lay)| == |Visible(items)|
    ensures Groups(items, ws, next, lay) != [] ==> Groups(items, ws, next, lay)[0].ws1 == ws
  {
    if items != [] {
      GroupsCount(items[1..], if items[0].Tok? then ws else next, next, lay);
    }
  }

  lemma {:induction false} DerivNormal(e: Expr, lay: Layout)
    requires WfExpr(e) && !e.Tok?
    ensures WfItem(Deriv(e, lay)) && NormalItem(Deriv(e, lay))
    decreases e, 0
  {
    hide AllWs, WfCmp, NormalCmp, TextCmp, WfGroups, NormalGroups, WellFormed, CmpDeriv, Visible, Layout.Before,
      Layout.Closing, Layout.Below, Groups, IsWs, Canon, TransformCmp, Cmp.Print;
    NoneIsWs();
    match e
    case Leaf(c) =>
      CmpDerivation(c);
      CmpEndsVisibly(c);
    case Node(cls, _, items) =>
      LayoutIsWs(lay, cls);
      GroupsCount(items, "", lay.Before(cls), lay.Below(cls));
      GroupsNormal(items, "", lay.Before(cls), lay.Below(cls));
  }

  lemma NoneIsWs()
    ensures AllWs("") && "" + "" == ""
  {
  }

  lemma {:induction false} GroupsNormal(items: seq<Expr>, ws: string, next: string, lay: Layout)
    requires WfExprs(items) && AllWs(ws) && AllWs(next)
    ensures WfGroups(Groups(items, ws, next, lay)) && NormalGroups(Groups(items, ws, next, lay))
    decreases items, 0
  {
    hide AllWs, WfItem, NormalItem;
    NoneIsWs();
    if items != [] {
      if items[0].Tok? {
        GroupsNormal(items[1..], ws, next, lay);
      } else {
        DerivNormal(items[0], lay);
        GroupsNormal(items[1..], next, next, lay);
        var gs := Groups(items[1..], next, next, lay);
        assert Groups(items, ws, next, lay)[1..] == gs;
      }
    }
  }

  // ----- what the transformer makes of them -----

  lemma {:induction false} DropSpacesConcat(a: seq<Expr>, b: seq<Expr>)
    ensures DropSpaces(a + b) == DropSpaces(a) + DropSpaces(b)
  {
    hide DropSpace;
    if a == [] {
      assert a + b == b;
    } else {
      assert (a + b)[1..] == a[1..] + b;
      DropSpacesConcat(a[1..], b);
    }
  }

  lemma DropToks(ws: string)
    ensures DropSpaces(Toks(ws)) == []
  {
    assert ws != "" ==> Toks(ws)[1..] == [];
  }

  lemma DropSurrounded(a: string, items: seq<Expr>, b: string)
    ensures DropSpaces(Toks(a) + items + Toks(b)) == DropSpaces(items)
  {
    DropToks(a);
    DropToks(b);
    DropSpacesConcat(Toks(a), items);
    DropSpacesConcat(Toks(a) + items, Toks(b));
  }

  lemma {:induction false} DerivTransforms(e: Expr, lay: Layout)
    requires WfExpr(e) && !e.Tok?
    ensures TransformItem(Deriv(e, lay)).Some?
    ensures var t := TransformItem(Deriv(e, lay)).value;
            && DropSpace(t) == Canon(e) && t.Leaf? == e.Leaf? && t.Tok? == e.Tok?
            && (lay == Compact ==> t == Canon(e))
    decreases e, 0
  {
    hide WellFormed, CmpDeriv, TransformCmp, TransformGroups, Toks, WfExprs, Groups, Visible;
    match e
    case Leaf(c) => CmpDerivation(c);
    case Node(cls, sep, items) =>
      GroupsCount(items, "", lay.Before(cls), lay.Below(cls));
      GroupsTransform(items, "", lay.Before(cls), lay.Below(cls));
      NoTrailing(items, "", lay.Before(cls), lay.Below(cls));
      NodeTransforms(cls, sep, items, lay);
  }

  lemma NodeTransforms(cls: Cls, sep: string, items: seq<Expr>, lay: Layout)
    requires cls.Operator()
    requires var gs := Groups(items, "", lay.Before(cls), lay.Below(cls));
             && (cls.Not? ==> forall g <- gs :: g.ws1 == "" && g.ws2 == "")
             && TransformGroups(gs).Some? && DropSpaces(TransformGroups(gs).value) == CanonItems(items)
             && (lay == Compact ==> TransformGroups(gs).value == CanonItems(items))
    ensures var e := Node(cls, sep, items); var t := TransformItem(Deriv(e, lay));
            && t.Some? && DropSpace(t.value) == Canon(e) && t.value.Node? && (lay == Compact ==> t.value == Canon(e))
  {
    hide TransformGroups, Toks, Groups, CanonItems, DropSpaces, Layout.Before, Layout.Below;
    var d := Deriv(Node(cls, sep, items), lay);
    DropSurrounded(d.ld, TransformGroups(d.groups).value, d.tr);
    if lay == Compact {
      CompactDeriv(cls, sep, items);
      NoToks();
      assert [] + CanonItems(items) + [] == CanonItems(items);
    }
  }

  lemma CompactDeriv(cls: Cls, sep: string, items: seq<Expr>)
    ensures Deriv(Node(cls, sep, items), Compact) == OpD(cls, "", "", Groups(items, "", "", Compact), "")
  {
  }

  lemma NoToks()
    ensures Toks("") == []
  {
  }

  lemma {:induction false} NoTrailing(items: seq<Expr>, ws: string, next: string, lay: Layout)
    ensures forall g <- Groups(items, ws, next, lay) :: g.ws2 == "" && (g.ws1 == ws || g.ws1 == next)
  {
    if items != [] {
      NoTrailing(items[1..], if items[0].Tok? then ws else next, next, lay);
    }
  }

  lemma {:induction false} GroupsTransform(items: seq<Expr>, ws: string, next: string, lay: Layout)
    requires WfExprs(items)
    ensures TransformGroups(Groups(items, ws, next, lay)).Some?
    ensures var es := TransformGroups(Groups(items, ws, next, lay)).value;
            && DropSpaces(es) == CanonItems(items)
            && (lay == Compact && ws == next == "" ==> es == CanonItems(items))
    decreases items, 0
  {
    hide Toks, WfExpr, TransformItem, Deriv, DropSpace, Canon;
    if items != [] {
      if items[0].Tok? {
        GroupsTransform(items[1..], ws, next, lay);
      } else {
        DerivTransforms(items[0], lay);
        GroupsTransform(items[1..], next, next, lay);
        var t, gs := TransformItem(Deriv(items[0], lay)).value, Groups(items[1..], next, next, lay);
        var es := TransformGroups(gs).value;
        assert Groups(items, ws, next, lay)[1..] == gs;
        DropSurrounded(ws, [t], "");
        DropSpacesConcat(Toks(ws) + [t] + Toks(""), es);
        assert DropSpaces([t]) == [DropSpace(t)] by { DropOne(t); }
        NoToks();
        assert [] + [t] + [] == [t];
      }
    }
  }

  lemma DropOne(t: Expr)
    requires !t.Tok?
    ensures DropSpaces([t]) == [DropSpace(t)]
  {
    assert [t][1..] == [];
  }

  // ----- the compact form -----

  lemma BracketedText(text: string)
    ensures "(" + "" + text + "" + ")" == "(" + text + ")"
    ensures "" + text + "" == text
  {
  }

  lemma SignedText(sign: string, inner: string)
    ensures "(" + "" + sign + "" + inner + "" + ")" == "(" + sign + "" + inner + ")"
  {
  }

  lemma {:induction false} CompactText(e: Expr)
    requires WfExpr(e) && NoSpace(e)
    ensures TextItem(Deriv(e, Compact)) == PrintItem(true, e)
    decreases e, 0
  {
    hide WellFormed, CmpDeriv, TextCmp, Cmp.Print, WfExprs, NoSpaces, Visible, Groups, PrintItems, TextGroups;
    match e
    case Leaf(c) =>
      CmpDerivation(c);
      BracketedText(c.Print());
    case Node(cls, sep, items) =>
      CompactDeriv(cls, sep, items);
      CompactGroups(items);
      SignedText(cls.Sign(), PrintItems(true, items));
  }

  lemma {:induction false} CompactGroups(items: seq<Expr>)
    requires WfExprs(items) && NoSpaces(items)
    ensures TextGroups(Groups(items, "", "", Compact)) == PrintItems(true, items)
    decreases items, 0
  {
    hide WfExpr, Deriv, TextItem, PrintItem;
    if items != [] {
      CompactText(items[0]);
      CompactGroups(items[1..]);
      var gs := Groups(items[1..], "", "", Compact);
      assert Groups(items, "", "", Compact)[1..] == gs;
      BracketedText(PrintItem(true, items[0]));
    }
  }

  /** The derivation of a whole filter in the given layout. */
  function StartDeriv(root: Expr, lay: Layout): StartD
    requires WfRoot(root)
  {
    if root.cls.Operator() then TopD(GroupD("", Deriv(root, lay), ""))
    else if root.cls == Bracketed || lay.Indented? then TopD(GroupD("", Deriv(root.items[0], lay), ""))
    else BareD(CmpDeriv(root.items[0].cmp))
  }

  /** Reading the text of a layout gives the canonical tree, up to the whitespace of the layout. */
  lemma ParseLayout(root: Expr, lay: Layout)
    requires WfRoot(root)
    ensures var text := TextStart(StartDeriv(root, lay)); var f := ParseFilter(text);
            && f.Some? && f.value.Node? && f.value.cls == Plain && |f.value.items| == 1
            && var r := f.value.items[0];
               && DropSpace(r) ==
                  (if lay.Indented? && root.cls == Plain then Canon(root).(cls := Bracketed) else Canon(root))
               && (lay == Compact ==> r == Canon(root))
  {
    hide WellFormed, CmpDeriv, WfExpr, Deriv, TransformItem, TextItem, WfItem, NormalItem, ParseStart;
    var d := StartDeriv(root, lay);
    if d.TopD? {
      var e := if root.cls.Operator() then root else root.items[0];
      if !root.cls.Operator() { LeafIsExpr(e); }
      DerivNormal(e, lay);
      DerivTransforms(e, lay);
      ParseComplete(d);
      TextNotBlank(d);
      NoneIsWs();
      if !root.cls.Operator() {
        DropOne(e);
        assert CanonItems([e]) == [Canon(e)] by { CanonOne(e); }
        assert root.items == [e];
        var t := TransformItem(Deriv(e, lay)).value;
        DropOne(t);
      }
    } else {
      var c := root.items[0].cmp;
      CmpDerivation(c);
      ParseComplete(d);
      TextNotBlank(d);
      assert root.items == [Leaf(c)];
      CanonOne(Leaf(c));
      DropOne(Leaf(CanonCmp(c)));
    }
  }

  lemma LeafIsExpr(e: Expr)
    requires e.Leaf? && WellFormed(e.cmp)
    ensures WfExpr(e)
  {
  }

  lemma CanonOne(e: Expr)
    requires !e.Tok?
    ensures CanonItems([e]) == [Canon(e)]
  {
    assert [e][1..] == [];
  }

  lemma TextNotBlank(d: StartD)
    requires WfStart(d) && NormalStart(d)
    ensures TextStart(d) != "" && TextStart(d) != " "
  {
    hide WfItem, NormalItem, TextItem, WfCmp, NormalCmp, TextCmp, IsWs;
    match d
    case TopD(g) =>
      ItemComplete(g.item, "");
      Around("", TextItem(g.item), "");
    case BareD(cmp) =>
      CmpFirst(cmp);
      SpaceIsWs();
  }

  lemma Around(a: string, s: string, b: string)
    requires a == b == ""
    ensures a + s + b == s
  {
  }

  lemma SpaceIsWs()
    ensures IsWs(' ')
  {
  }

  lemma CompactStart(root: Expr)
    requires WfRoot(root) && NoSpace(root)
    ensures TextStart(StartDeriv(root, Compact)) == Print(Node(Plain, "", [root]))
  {
    hide WellFormed, CmpDeriv, WfExpr, Deriv, TextItem, TextCmp, Cmp.Print;
    PrintOnly(false, root);
    if root.cls.Operator() {
      CompactText(root);
      BracketedText(TextItem(Deriv(root, Compact)));
    } else {
      var e := root.items[0];
      assert root.items == [e];
      LeafIsExpr(e);
      if root.cls == Bracketed {
        CompactText(e);
        PrintOnly(true, e);
        BracketedText(TextItem(Deriv(e, Compact)));
      } else {
        CmpDerivation(e.cmp);
        PrintOnly(false, e);
      }
    }
  }

  // ----- decoded values -----

  /** Same shape, classes, attributes and decoded values. */
  predicate Alike(e: Expr, f: Expr)
    decreases e, 0
  {
    match e
    case Leaf(c) => f.Leaf? && c.kind == f.cmp.kind && c.attr == f.cmp.attr && c.Value() == f.cmp.Value()
    case Tok(_) => false
    case Node(cls, _, items) => f.Node? && f.cls == cls && AllAlike(items, f.items)
  }

  predicate AllAlike(a: seq<Expr>, b: seq<Expr>)
    decreases a, 0
  {
    |a| == |b| && (a == [] || (Alike(a[0], b[0]) && AllAlike(a[1..], b[1..])))
  }

  /** No value with whitespace at an end and a character outside ASCII. */
  predicate Recovers(e: Expr) {
    match e
    case Leaf(c) => c.escaped || Stripped(c.raw) || IsAscii(c.raw)
    case Tok(_) => true
    case Node(_, _, items) => AllRecover(items)
  }

  predicate AllRecover(items: seq<Expr>) {
    items == [] || (Recovers(items[0]) && AllRecover(items[1..]))
  }

  lemma CanonCmpValue(c: Cmp)
    ensures CanonCmp(c).Value() == c.Value() <==> c.escaped || Stripped(c.raw) || IsAscii(c.raw)
  {
    hide Stripped, IsAscii, Escape, Unescape, EscapeValue;
    EscapeValueRoundTrip(c.raw);
  }

  lemma {:induction false} CanonAlike(e: Expr)
    requires NoSpace(e)
    ensures Alike(e, Canon(e)) <==> Recovers(e)
    decreases e, 0
  {
    hide Stripped, IsAscii, Cmp.Value, CanonCmp, AllAlike, NoSpaces, CanonItems, AllRecover;
    match e
    case Leaf(c) =>
      CanonCmpValue(c);
      CanonCmpKeeps(c);
    case Node(_, _, items) => CanonItemsAlike(items);
  }

  lemma CanonCmpKeeps(c: Cmp)
    ensures CanonCmp(c).kind == c.kind && CanonCmp(c).attr == c.attr
  {
  }

  lemma {:induction false} CanonItemsAlike(items: seq<Expr>)
    requires NoSpaces(items)
    ensures AllAlike(items, CanonItems(items)) <==> AllRecover(items)
    ensures |CanonItems(items)| == |items|
    decreases items, 0
  {
    hide Alike, Canon, Recovers;
    if items != [] {
      CanonAlike(items[0]);
      CanonItemsAlike(items[1..]);
      assert CanonItems(items)[1..] == CanonItems(items[1..]);
    }
  }

  /**
   Parsing undoes printing: the parser reads the string form of a tree without optional whitespace
   as a tree of the same shape, and every decoded value is recovered exactly when no value has
   whitespace at an end together with a character outside ASCII.
   */
  lemma ParsePrint(root: Expr)
    requires WfRoot(root) && NoSpace(root)
    ensures var f := ParseFilter(Print(Node(Plain, "", [root])));
            && f == Some(Node(Plain, "", [Canon(root)]))
            && (Alike(root, f.value.items[0]) <==> Recovers(root))
  {
    hide WfRoot, NoSpace, ParseFilter, Print, StartDeriv, TextStart, Canon, Alike, Recovers;
    CompactStart(root);
    ParseLayout(root, Compact);
    CanonAlike(root);
    var f := ParseFilter(Print(Node(Plain, "", [root]))).value;
    assert f.items == [f.items[0]];
    PlainSep(Print(Node(Plain, "", [root])));
  }

  lemma PlainSep(s: string)
    ensures ParseFilter(s).Some? ==> ParseFilter(s).value == Node(Plain, "", ParseFilter(s).value.items)
  {
    hide ParseStart, TransformItem, TransformCmp;
  }

  /** str(Filter(s)): the text itself where there is no tree, and else the printed tree. */
  function FilterText(s: string): Option<string> {
    if s == "" || s == " " then Some(s)
    else
      var e :- ParseFilter(s);
      Some(Print(e))
  }

  /** Parsing and printing give an accepted text back exactly when its derivation loses no character. */
  lemma PrintParse(s: string)
    requires ParseFilter(s).Some?
    ensures FilterText(s) == Some(s) <==> s == "" || s == " " || Faithful(ParseStart(s).value)
  {
    hide ParseStart, Faithful, TransformStart, WfStart, TextStart;
    if s != "" && s != " " {
      ParseSound(s);
      Lossless(ParseStart(s).value);
    }
  }
}
