/** The indented form of a filter, and why nothing but whitespace distinguishes it from the compact one. */
module FilterPretty {
  import opened Options
  import opened Text
  import opened FilterTree
  import opened FilterGrammar
  import opened FilterRoundTrip

  function Join(sep: string, ss: seq<string>): string {
    if ss == [] then "" else if |ss| == 1 then ss[0] else ss[0] + sep + Join(sep, ss[1..])
  }

  function Pretty(e: Expr, level: nat): string
    decreases e, 0
  {
    match e
    case Leaf(c) => Pad(level) + "(" + c.Print() + ")"
    case Tok(_) => "" // never reached: tokens are skipped
    case Node(cls, _, items) =>
      match cls
      case Not => Pad(level) + "(" + cls.Sign() + Join("", PrettyItems(items, 0)) + ")"
      case And =>
        Pad(level) + "(" + cls.Sign() + "\n" + Join("\n", PrettyItems(items, level + 1)) + "\n" + Pad(level) + ")"
      case Or =>
        Pad(level) + "(" + cls.Sign() + "\n" + Join("\n", PrettyItems(items, level + 1)) + "\n" + Pad(level) + ")"
      case _ => Join("\n", PrettyItems(items, level))
  }

  function PrettyItems(items: seq<Expr>, level: nat): seq<string>
    decreases items, 0
  {
    if items == [] then []
    else (if items[0].Tok? then [] else [Pretty(items[0], level)]) + PrettyItems(items[1..], level)
  }

  /** Two spaces for each level, and then an opening bracket. */
  predicate AtLevel(s: string, level: nat) {
    |s| > 2 * level && (forall i :: 0 <= i < 2 * level ==> s[i] == ' ') && s[2 * level] == '('
  }

  predicate Shown(e: Expr) { e.Leaf? || (e.Node? && e.cls.Operator()) }

  /** Each comparison and each operator starts at its level. */
  lemma PrettyAtLevel(e: Expr, level: nat)
    requires Shown(e)
    ensures AtLevel(Pretty(e, level), level)
  {
    hide PrettyItems, Join, Cmp.Print;
    var pad, s := Pad(level), Pretty(e, level);
    assert s[..2 * level + 1] == pad + "(";
    assert forall i :: 0 <= i < 2 * level ==> s[i] == pad[i] && pad[i] in pad;
    assert s[2 * level] == (pad + "(")[2 * level];
  }

  /** The visible children of an operator, one text for each, start at the children's level. */
  lemma {:induction false} ChildrenAtLevel(items: seq<Expr>, level: nat)
    ensures |PrettyItems(items, level)| == |Visible(items)|
    ensures forall k :: 0 <= k < |Visible(items)| && Shown(Visible(items)[k]) ==>
              AtLevel(PrettyItems(items, level)[k], level)
  {
    hide AtLevel, Pretty;
    if items != [] {
      ChildrenAtLevel(items[1..], level);
      if Shown(items[0]) {
        PrettyAtLevel(items[0], level);
      }
    }
  }

  function JoinTail(sep: string, ss: seq<string>): string {
    if ss == [] then "" else sep + ss[0] + JoinTail(sep, ss[1..])
  }

  lemma {:induction false} JoinAsTail(sep: string, ss: seq<string>)
    requires ss != []
    ensures Join(sep, ss) == ss[0] + JoinTail(sep, ss[1..])
  {
    if |ss| > 1 {
      JoinAsTail(sep, ss[1..]);
      assert ss[0] + (sep + ss[1] + JoinTail(sep, ss[1..][1..])) == ss[0] + sep + (ss[1] + JoinTail(sep, ss[1..][1..]));
    } else {
      assert ss[1..] == [];
      assert ss[0] + "" == ss[0];
    }
  }

  lemma PaddedLeaf(pad: string, text: string)
    ensures pad + "(" + text + ")" == pad + ("(" + "" + text + "" + ")")
  {
  }

  lemma PaddedNot(pad: string, sign: string, inner: string)
    ensures pad + "(" + sign + inner + ")" == pad + ("(" + "" + sign + "" + inner + "" + ")")
  {
  }

  lemma PaddedBlock(pad: string, sign: string, before: string, joined: string, inner: string, inside: string)
    requires before == "\n" + inside && inside + inner == joined
    ensures pad + "(" + sign + "\n" + joined + "\n" + pad + ")" ==
              pad + ("(" + "" + sign + before + inner + ("\n" + pad) + ")")
  {
    assert "\n" + joined == before + inner;
    assert pad + "(" + sign + "\n" + joined == pad + ("(" + sign + ("\n" + joined));
    Shuffle(pad, sign, before + inner);
    assert "" + sign == sign && "(" + "" + sign == "(" + sign;
    assert "(" + sign + before + inner == "(" + sign + (before + inner);
  }

  lemma Shuffle(pad: string, sign: string, text: string)
    ensures pad + ("(" + sign + text) + "\n" + pad + ")" == pad + ("(" + sign + text + ("\n" + pad) + ")")
  {
  }

  lemma PaddedEmpty(pad: string, sign: string)
    ensures pad + "(" + sign + "\n" + "" + "\n" + pad + ")" ==
              pad + ("(" + "" + sign + ("\n" + ("\n" + pad)) + "" + "" + ")")
  {
  }

  lemma {:induction false} PrettyText(e: Expr, level: nat)
    requires WfExpr(e) && !e.Tok?
    ensures Pretty(e, level) == Pad(level) + TextItem(Deriv(e, Indented(level)))
    decreases e, 0
  {
    hide WellFormed, CmpDeriv, TextCmp, Cmp.Print, Groups, TextGroups, PrettyItems, Pad, Join, Visible, WfExprs;
    match e
    case Leaf(c) =>
      CmpDerivation(c);
      PaddedLeaf(Pad(level), c.Print());
    case Node(cls, _, items) =>
      var lay := Indented(level);
      var gs := Groups(items, "", lay.Before(cls), lay.Below(cls));
      GroupsCount(items, "", lay.Before(cls), lay.Below(cls));
      if cls.Not? {
        PadZero();
        assert "" + Pad(0) == "" == lay.Before(cls);
        FirstJoined(items, "", 0);
        assert Pad(0) + TextGroups(gs) == TextGroups(gs);
        PaddedNot(Pad(level), cls.Sign(), TextGroups(gs));
      } else {
        var pad := Pad(level);
        FirstJoined(items, "\n", level + 1);
        if gs == [] {
          PaddedEmpty(pad, cls.Sign());
          EmptyGroups();
        } else {
          PaddedBlock(pad, cls.Sign(), lay.Before(cls), Join("\n", PrettyItems(items, level + 1)), TextGroups(gs),
            Pad(level + 1));
        }
      }
  }

  lemma PadZero()
    ensures Pad(0) == ""
  {
  }

  lemma EmptyGroups()
    ensures TextGroups([]) == ""
  {
  }

  lemma TextOfGroups(ws: string, d: ItemD, gs: seq<GroupD>)
    ensures TextGroups([GroupD(ws, d, "")] + gs) == ws + TextItem(d) + TextGroups(gs)
  {
    hide TextItem;
    assert ([GroupD(ws, d, "")] + gs)[1..] == gs;
    assert ws + TextItem(d) + "" == ws + TextItem(d);
  }

  lemma TailOf(sep: string, s: string, ss: seq<string>)
    ensures JoinTail(sep, [s] + ss) == sep + s + JoinTail(sep, ss)
  {
    assert ([s] + ss)[1..] == ss;
  }

  /** The children behind the first one: each on a line of its own. */
  lemma {:induction false} RestJoined(items: seq<Expr>, sep: string, level: nat)
    requires WfExprs(items)
    ensures TextGroups(Groups(items, sep + Pad(level), sep + Pad(level), Indented(level))) ==
              JoinTail(sep, PrettyItems(items, level))
    decreases items, 0
  {
    hide WfExpr, Deriv, TextItem, Pretty, Pad;
    if items != [] {
      RestJoined(items[1..], sep, level);
      if items[0].Tok? {
        assert PrettyItems(items, level) == PrettyItems(items[1..], level);
      } else {
        PrettyText(items[0], level);
        var ws, d := sep + Pad(level), Deriv(items[0], Indented(level));
        var gs := Groups(items[1..], sep + Pad(level), sep + Pad(level), Indented(level));
        TextOfGroups(ws, d, gs);
        TailOf(sep, Pretty(items[0], level), PrettyItems(items[1..], level));
        assert sep + Pad(level) + TextItem(d) == sep + (Pad(level) + TextItem(d));
      }
    }
  }

  /** All children: the first one follows the padding of its line. */
  lemma {:induction false} FirstJoined(items: seq<Expr>, sep: string, level: nat)
    requires WfExprs(items)
    ensures var next := sep + Pad(level); var gs := Groups(items, "", next, Indented(level));
            if gs == [] then PrettyItems(items, level) == [] && Join(sep, PrettyItems(items, level)) == ""
            else Pad(level) + TextGroups(gs) == Join(sep, PrettyItems(items, level))
    decreases items, 1
  {
    hide WfExpr, Deriv, TextItem, Pretty, Pad, JoinTail, Join;
    JoinNothing(sep);
    if items != [] {
      if items[0].Tok? {
        FirstJoined(items[1..], sep, level);
        assert PrettyItems(items, level) == PrettyItems(items[1..], level);
      } else {
        PrettyText(items[0], level);
        RestJoined(items[1..], sep, level);
        JoinAsTail(sep, PrettyItems(items, level));
        var pad, d := Pad(level), Deriv(items[0], Indented(level));
        var gs := Groups(items[1..], sep + Pad(level), sep + Pad(level), Indented(level));
        TextOfGroups("", d, gs);
        assert PrettyItems(items, level)[1..] == PrettyItems(items[1..], level);
        assert pad + ("" + TextItem(d) + TextGroups(gs)) == pad + TextItem(d) + TextGroups(gs);
      }
    }
  }

  lemma JoinNothing(sep: string)
    ensures Join(sep, []) == ""
  {
  }

  /**
   Parsing the indented form after its leading padding gives, up to whitespace tokens, the tree that
   parsing the compact form gives; a comparison without brackets gains them.
   */
  lemma PrettyFaithful(root: Expr, indent: nat)
    requires WfRoot(root)
    ensures Starts(Pretty(root, indent), Pad(indent))
    ensures var f := ParseFilter(After(Pretty(root, indent), Pad(indent)));
            && f.Some? && f.value.Node? && f.value.cls == Plain && |f.value.items| == 1
            && DropSpace(f.value.items[0]) == if root.cls == Plain then Canon(root).(cls := Bracketed) else Canon(root)
  {
    hide WellFormed, WfExpr, Deriv, TextItem, ParseFilter, Pad, Starts, After, DropSpace, Canon;
    var lay := Indented(indent);
    ParseLayout(root, lay);
    var e := if root.cls.Operator() then root else root.items[0];
    if !root.cls.Operator() {
      LeafIsExpr(e);
      OnlyOne(root.items, indent);
    }
    PrettyText(e, indent);
    BracketedText(TextItem(Deriv(e, lay)));
    StartsIs(Pad(indent), TextItem(Deriv(e, lay)));
  }

  lemma OnlyOne(items: seq<Expr>, level: nat)
    requires |items| == 1 && !items[0].Tok?
    ensures Join("\n", PrettyItems(items, level)) == Pretty(items[0], level)
  {
    assert items[1..] == [];
  }
}
