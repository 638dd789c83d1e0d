/**
 Derivations of the filter grammar as concrete syntax trees, the text each one derives, and the
 transformer that turns a derivation into an expression tree. An absent optional part is the
 empty text. The grammar is ambiguous; what is proved here holds for every derivation.
 */
module FilterGrammar {
  import opened Options
  import opened Text
  import opened Escaping
  import opened FilterTree

  datatype ValueD = ValueD(lead: string, body: string, tail: string)

  datatype PartD = Star | Chunk(text: string)

  datatype CmpD =
    | PresenceD(attr: string)
    | ValueCmpD(attr: string, kind: Kind, value: ValueD)
    | SubstringD(attr: string, parts: seq<PartD>)
    | ExtD(attr: string, dn: string, rule: string, value: ValueD)

  datatype ItemD =
    | ExprD(ld: string, cmp: CmpD, tr: string)
    | OpD(cls: Cls, sep: string, ld: string, groups: seq<GroupD>, tr: string)

  datatype GroupD = GroupD(ws1: string, item: ItemD, ws2: string)

  datatype StartD = TopD(group: GroupD) | BareD(cmp: CmpD)

  // ----- what the grammar admits -----

  predicate IsAttrChar(c: char) { IsLetter(c) || IsDigit(c) || c == '-' || c == ';' }

  predicate IsOidChar(c: char) { IsDigit(c) || c == '.' }

  predicate IsAttr(a: string) {
    a != "" && ((IsLetter(a[0]) && All(IsAttrChar, a)) || (IsDigit(a[0]) && All(IsOidChar, a)))
  }

  predicate IsDnWord(s: string) {
    |s| == 2 && (s[0] == 'd' || s[0] == 'D') && (s[1] == 'n' || s[1] == 'N')
  }

  predicate WfValue(v: ValueD) { AllWs(v.lead) && IsValueText(v.body) && AllWs(v.tail) }

  predicate WfParts(parts: seq<PartD>) {
    forall p <- parts :: p.Chunk? ==> p.text != "" && IsValueText(p.text)
  }

  predicate WfCmp(d: CmpD) {
    match d
    case PresenceD(attr) => IsAttr(attr)
    case ValueCmpD(attr, kind, value) =>
      IsAttr(attr) && WfValue(value) && (kind.Equality? || kind.GreaterEq? || kind.LessEq? || kind.Approx?)
    case SubstringD(attr, parts) => IsAttr(attr) && parts != [] && WfParts(parts)
    case ExtD(attr, dn, rule, value) =>
      (attr == "" || IsAttr(attr)) && (dn == "" || IsDnWord(dn)) && (rule == "" || IsAttr(rule)) &&
      (attr == "" ==> rule != "") && WfValue(value)
  }

  predicate WfItem(d: ItemD) {
    match d
    case ExprD(ld, cmp, tr) => AllWs(ld) && WfCmp(cmp) && AllWs(tr)
    case OpD(cls, sep, ld, groups, tr) =>
      cls.Operator() && AllWs(sep) && AllWs(ld) && AllWs(tr) && WfGroups(groups) && (cls.Not? ==> |groups| == 1)
  }

  predicate WfGroups(gs: seq<GroupD>) {
    gs == [] || (WfGroup(gs[0]) && WfGroups(gs[1..]))
  }

  predicate WfGroup(g: GroupD) { AllWs(g.ws1) && WfItem(g.item) && AllWs(g.ws2) }

  predicate WfStart(d: StartD) {
    match d
    case TopD(g) => WfGroup(g)
    case BareD(cmp) => WfCmp(cmp)
  }

  // ----- the text a derivation derives -----

  function TextValue(v: ValueD): string { v.lead + v.body + v.tail }

  function TextParts(parts: seq<PartD>): string {
    if parts == [] then "" else (if parts[0].Star? then "*" else parts[0].text) + TextParts(parts[1..])
  }

  function TextCmp(d: CmpD): string {
    match d
    case PresenceD(attr) => attr + "=*"
    case ValueCmpD(attr, kind, value) => attr + Symbol(kind) + TextValue(value)
    case SubstringD(attr, parts) => attr + "=" + TextParts(parts)
    case ExtD(attr, dn, rule, value) => attr + Colon(dn) + Colon(rule) + ":=" + TextValue(value)
  }

  function TextItem(d: ItemD): string {
    match d
    case ExprD(ld, cmp, tr) => "(" + ld + TextCmp(cmp) + tr + ")"
    case OpD(cls, sep, ld, groups, tr) => "(" + sep + cls.Sign() + ld + TextGroups(groups) + tr + ")"
  }

  function TextGroups(gs: seq<GroupD>): string {
    if gs == [] then "" else TextGroup(gs[0]) + TextGroups(gs[1..])
  }

  function TextGroup(g: GroupD): string { g.ws1 + TextItem(g.item) + g.ws2 }

  function TextStart(d: StartD): string {
    match d
    case TopD(g) => TextGroup(g)
    case BareD(cmp) => TextCmp(cmp)
  }

  // ----- the transformer; None stands for an exception inside a callback -----

  datatype Padded = Padded(prefix: string, val: string, suffix: string)

  /** Moves whitespace at the ends of the value to the slots around it, unless a slot is taken. */
  function TransformValue(v: ValueD): Option<Padded> {
    if Stripped(v.body) then Some(Padded(v.lead, v.body, v.tail))
    else if Strip(v.body) == "" then None // partition('') raises ValueError
    else
      var (l, m, t) := Partition(v.body, Strip(v.body));
      Some(Padded(if v.lead != "" then v.lead else l, m, if v.tail != "" then v.tail else t))
  }

  function Prefixed(kind: Kind, attr: string, p: Padded): Cmp {
    Cmp(kind, attr, p.val, true, mid := p.prefix, end := p.suffix)
  }

  predicate HasDoubleStar(s: string) {
    exists i :: 0 <= i < |s| - 1 && s[i] == '*' && s[i + 1] == '*'
  }

  function TransformCmp(d: CmpD): Option<Cmp> {
    match d
    case PresenceD(attr) => Some(Cmp(Presence, attr, "", true))
    case ValueCmpD(attr, kind, value) =>
      var p :- TransformValue(value);
      Some(Prefixed(kind, attr, p))
    case SubstringD(attr, parts) =>
      var joined := TextParts(parts);
      if HasDoubleStar(joined) then None
      else
        var p :- TransformValue(ValueD("", joined, ""));
        if p.val == "*" then Some(Cmp(Presence, attr, "", true))
        else Some(Prefixed(Substring, attr, p))
    case ExtD(attr, dn, rule, value) =>
      if attr == "" && dn == "" && IsDnWord(rule) then None
      else
        var p :- TransformValue(value);
        Some(Prefixed(Extensible(dn, rule), attr, p))
  }

  function Toks(ws: string): seq<Expr> { if ws == "" then [] else [Tok(ws)] }

  function TransformItem(d: ItemD): Option<Expr> {
    match d
    case ExprD(ld, cmp, tr) =>
      var c :- TransformCmp(cmp);
      Some(Leaf(c.(lead := ld, trail := tr)))
    case OpD(cls, sep, ld, groups, tr) =>
      if cls.Not? && exists g <- groups :: g.ws1 != "" || g.ws2 != "" then None // too many arguments
      else
        var items :- TransformGroups(groups);
        Some(Node(cls, sep, Toks(ld) + items + Toks(tr)))
  }

  function TransformGroups(gs: seq<GroupD>): Option<seq<Expr>> {
    if gs == [] then Some([])
    else
      var e :- TransformItem(gs[0].item);
      var es :- TransformGroups(gs[1..]);
      Some(Toks(gs[0].ws1) + [e] + Toks(gs[0].ws2) + es)
  }

  /** The root container; whitespace around the outermost bracket is one argument too many. */
  function TransformStart(d: StartD): Option<Expr> {
    match d
    case TopD(GroupD(ws1, item, ws2)) =>
      if ws1 != "" || ws2 != "" then None
      else
        var e :- TransformItem(item);
        var root := if e.Leaf? then Node(Bracketed, "", [e]) else e;
        Some(Node(Plain, "", [root]))
    case BareD(cmp) =>
      var c :- TransformCmp(cmp);
      Some(Node(Plain, "", [Node(Plain, "", [Leaf(c)])]))
  }

  // ----- no character is lost, exactly when -----

  /** Not padded twice on one side. */
  predicate KeepsValue(v: ValueD) {
    v.body != "" ==>
      (v.lead != "" ==> !IsSpace(v.body[0])) && (v.tail != "" ==> !IsSpace(v.body[|v.body| - 1]))
  }

  /** No value padded twice, and no lone star with whitespace. */
  predicate KeepsCmp(d: CmpD) {
    match d
    case PresenceD(_) => true
    case ValueCmpD(_, _, value) => KeepsValue(value)
    case SubstringD(_, parts) => Strip(TextParts(parts)) == "*" ==> TextParts(parts) == "*"
    case ExtD(_, _, _, value) => KeepsValue(value)
  }

  predicate KeepsItem(d: ItemD) {
    match d
    case ExprD(_, cmp, _) => KeepsCmp(cmp)
    case OpD(_, _, _, groups, _) => KeepsGroups(groups)
  }

  predicate KeepsGroups(gs: seq<GroupD>) {
    gs == [] || (KeepsItem(gs[0].item) && KeepsGroups(gs[1..]))
  }

  /** No whitespace in front of an operator sign. */
  predicate OrderedItem(d: ItemD) {
    d.OpD? ==> d.sep == "" && OrderedGroups(d.groups)
  }

  predicate OrderedGroups(gs: seq<GroupD>) {
    gs == [] || (OrderedItem(gs[0].item) && OrderedGroups(gs[1..]))
  }

  predicate Faithful(d: StartD) {
    match d
    case TopD(g) => KeepsItem(g.item) && OrderedItem(g.item)
    case BareD(cmp) => KeepsCmp(cmp)
  }

  /** Same lengths allow comparing concatenations piece by piece. */
  lemma ConcatEqual(a: string, b: string, c: string, d: string)
    requires |a| == |c|
    ensures a + b == c + d <==> a == c && b == d
  {
    assert (a + b)[..|a|] == a && (a + b)[|a|..] == b;
    assert (c + d)[..|c|] == c && (c + d)[|c|..] == d;
  }

  /** The relation between a printed and a derived text that composes along the tree. */
  predicate Related(printed: string, text: string, keeps: bool, ordered: bool) {
    && |printed| <= |text|
    && (|printed| == |text| <==> keeps)
    && (keeps ==> (printed == text <==> ordered))
  }

  lemma RelatedConcat(p1: string, t1: string, k1: bool, o1: bool, p2: string, t2: string, k2: bool, o2: bool)
    requires Related(p1, t1, k1, o1) && Related(p2, t2, k2, o2)
    ensures Related(p1 + p2, t1 + t2, k1 && k2, o1 && o2)
  {
    if k1 && k2 {
      ConcatEqual(p1, p2, t1, t2);
    }
  }

  function PaddedText(p: Padded): string { p.prefix + p.val + p.suffix }

  lemma LosslessValue(v: ValueD)
    requires TransformValue(v).Some?
    ensures Related(PaddedText(TransformValue(v).value), TextValue(v), KeepsValue(v), true)
  {
    StripEnds(IsSpace, v.body);
    if !Stripped(v.body) {
      PartitionAtStrip(IsSpace, v.body);
      var (l, m, t) := Partition(v.body, Strip(v.body));
      PaddedLengths(v.lead, l, m, t, v.tail);
    }
  }

  /** Taking a slot's own text in place of the text moved into it drops the latter. */
  lemma PaddedLengths(lead: string, l: string, m: string, t: string, tail: string)
    ensures var kept := (if lead != "" then lead else l) + m + (if tail != "" then tail else t);
            var all := lead + (l + m + t) + tail;
            var keeps := (lead != "" ==> l == "") && (tail != "" ==> t == "");
            |kept| <= |all| && (|kept| == |all| <==> keeps) && (keeps ==> kept == all)
  {
  }

  lemma PrintPrefixed(kind: Kind, attr: string, p: Padded)
    ensures Prefixed(kind, attr, p).Print() == attr + Extra(kind) + Symbol(kind) + PaddedText(p)
  {
    var c := Prefixed(kind, attr, p);
    assert c.EscapedText() == p.val;
    assert c.Print() == c.Inner();
  }

  lemma LosslessPrefixed(kind: Kind, attr: string, v: ValueD)
    requires TransformValue(v).Some?
    ensures Related(Prefixed(kind, attr, TransformValue(v).value).Print(),
                    attr + Extra(kind) + Symbol(kind) + TextValue(v), KeepsValue(v), true)
  {
    var p, head := TransformValue(v).value, attr + Extra(kind) + Symbol(kind);
    LosslessValue(v);
    PrintPrefixed(kind, attr, p);
    RelatedConcat(head, head, true, true, PaddedText(p), TextValue(v), KeepsValue(v), true);
  }

  lemma LosslessCmp(d: CmpD)
    requires WfCmp(d) && TransformCmp(d).Some?
    ensures var c := TransformCmp(d).value;
            c.lead == c.trail == "" && Related(c.Print(), TextCmp(d), KeepsCmp(d), true)
  {
    hide Strip, StripBy, Lead, Trail, IsSpace, Partition, Find, HasDoubleStar, TextParts, IsAttr, IsValueText, AllWs;
    match d
    case PresenceD(attr) =>
      PrintPrefixed(Presence, attr, Padded("", "", ""));
    case ValueCmpD(attr, kind, value) =>
      assert Extra(kind) == "" && attr + "" == attr;
      LosslessPrefixed(kind, attr, value);
    case SubstringD(attr, parts) =>
      LosslessSubstring(attr, parts);
    case ExtD(attr, dn, rule, value) =>
      var kind := Extensible(dn, rule);
      assert attr + Colon(dn) + Colon(rule) == attr + Extra(kind);
      LosslessPrefixed(kind, attr, value);
  }

  /** The value handed to substring has no slots of its own, so nothing is dropped yet. */
  lemma SubstringPadding(joined: string)
    requires TransformValue(ValueD("", joined, "")).Some?
    ensures var p := TransformValue(ValueD("", joined, "")).value;
            PaddedText(p) == joined && p.val == Strip(joined)
  {
    if !Stripped(joined) {
      PartitionAtStrip(IsSpace, joined);
    }
  }

  lemma PrintPresence(attr: string)
    ensures Cmp(Presence, attr, "", true).Print() == attr + "=*"
  {
    PrintPrefixed(Presence, attr, Padded("", "", ""));
    assert attr + "" + "=*" + "" == attr + "=*";
  }

  lemma LoneStar(attr: string, p: Padded, joined: string)
    requires p.val == "*" && PaddedText(p) == joined
    ensures Related(attr + "=*", attr + "=" + joined, joined == "*", true)
  {
    assert |joined| == |p.prefix| + 1 + |p.suffix|;
    assert attr + "=*" == attr + "=" + "*";
    ConcatEqual(attr + "=", "*", attr + "=", joined);
  }

  lemma LosslessSubstring(attr: string, parts: seq<PartD>)
    requires TransformCmp(SubstringD(attr, parts)).Some?
    ensures var d := SubstringD(attr, parts); var c := TransformCmp(d).value;
            c.lead == c.trail == "" && Related(c.Print(), TextCmp(d), KeepsCmp(d), true)
  {
    hide Strip, Partition, TransformValue, HasDoubleStar, TextParts, Cmp.Print, PaddedText, Extra, Symbol;
    var joined := TextParts(parts);
    var p := TransformValue(ValueD("", joined, "")).value;
    SubstringPadding(joined);
    if p.val == "*" {
      PrintPresence(attr);
      LoneStar(attr, p, joined);
    } else {
      PrintPrefixed(Substring, attr, p);
      NoExtra(attr, joined);
    }
  }

  lemma NoExtra(attr: string, text: string)
    ensures attr + Extra(Substring) + Symbol(Substring) + text == attr + "=" + text
  {
    assert attr + "" == attr;
  }

  lemma PrintToks(ws: string)
    ensures PrintItems(true, Toks(ws)) == ws
  {
    if ws != "" {
      assert Toks(ws)[1..] == [];
      assert PrintItems(true, Toks(ws)) == Print(Tok(ws)) + "";
    }
  }

  /** The opening of an operator: whitespace before the sign is printed after it. */
  lemma RelatedOpening(sign: string, sep: string, ld: string)
    requires |sign| == 1 && !IsWs(sign[0]) && AllWs(sep)
    ensures Related("(" + sign + sep + ld, "(" + sep + sign + ld, true, sep == "")
  {
    if sep != "" {
      assert ("(" + sign + sep + ld)[1] == sign[0];
      assert ("(" + sep + sign + ld)[1] == sep[0] && sep[0] in sep;
    }
  }

  lemma PrintSurrounded(ld: string, items: seq<Expr>, tr: string)
    ensures PrintItems(true, Toks(ld) + items + Toks(tr)) == ld + PrintItems(true, items) + tr
  {
    PrintToks(ld);
    PrintToks(tr);
    PrintItemsConcat(true, Toks(ld), items);
    PrintItemsConcat(true, Toks(ld) + items, Toks(tr));
  }

  lemma PrintOperator(cls: Cls, sep: string, ld: string, items: seq<Expr>, tr: string)
    requires cls.Operator()
    ensures PrintItem(true, Node(cls, sep, Toks(ld) + items + Toks(tr)))
            == "(" + cls.Sign() + sep + ld + PrintItems(true, items) + (tr + ")")
  {
    PrintSurrounded(ld, items, tr);
    Regroup("(" + cls.Sign() + sep, ld, PrintItems(true, items), tr, ")");
  }

  lemma Regroup(a: string, b: string, c: string, d: string, e: string)
    ensures a + (b + c + d) + e == a + b + c + (d + e)
  {
  }

  lemma {:induction false} LosslessItem(d: ItemD)
    requires WfItem(d) && TransformItem(d).Some?
    ensures !TransformItem(d).value.Tok?
    ensures Related(PrintItem(true, TransformItem(d).value), TextItem(d), KeepsItem(d), OrderedItem(d))
  {
    match d
    case ExprD(ld, cmp, tr) =>
      LosslessCmp(cmp);
      PrintPadded(TransformCmp(cmp).value, ld, tr);
      var p, t, k := TransformCmp(cmp).value.Print(), TextCmp(cmp), KeepsCmp(cmp);
      RelatedConcat("(" + ld, "(" + ld, true, true, p, t, k, true);
      RelatedConcat("(" + ld + p, "(" + ld + t, k, true, tr + ")", tr + ")", true, true);
      BracketsApart(ld, p, tr);
    case OpD(cls, sep, ld, groups, tr) =>
      LosslessGroups(groups);
      var items := TransformGroups(groups).value;
      PrintOperator(cls, sep, ld, items, tr);
      RelatedOpening(cls.Sign(), sep, ld);
      var p0, t0 := "(" + cls.Sign() + sep + ld, "(" + sep + cls.Sign() + ld;
      var p1, t1 := PrintItems(true, items), TextGroups(groups);
      var k, o := KeepsGroups(groups), OrderedGroups(groups);
      RelatedConcat(p0, t0, true, sep == "", p1, t1, k, o);
      RelatedConcat(p0 + p1, t0 + t1, k, sep == "" && o, tr + ")", tr + ")", true, true);
      assert TextItem(d) == t0 + t1 + (tr + ")");
  }

  lemma PrintPadded(c: Cmp, ld: string, tr: string)
    requires c.lead == c.trail == ""
    ensures PrintItem(true, Leaf(c.(lead := ld, trail := tr))) == "(" + ld + c.Print() + tr + ")"
  {
    hide EscapeValue, Extra, Symbol;
    var padded := c.(lead := ld, trail := tr);
    assert padded.Inner() == c.Inner() == c.Print();
    BracketsApart(ld, c.Inner(), tr);
  }

  lemma BracketsApart(a: string, b: string, c: string)
    ensures "(" + (a + b + c) + ")" == "(" + a + b + c + ")"
  {
  }

  lemma {:induction false} LosslessGroups(gs: seq<GroupD>)
    requires WfGroups(gs) && TransformGroups(gs).Some?
    ensures Related(PrintItems(true, TransformGroups(gs).value), TextGroups(gs), KeepsGroups(gs), OrderedGroups(gs))
  {
    if gs != [] {
      var g, e, es := gs[0], TransformItem(gs[0].item).value, TransformGroups(gs[1..]).value;
      LosslessItem(g.item);
      LosslessGroups(gs[1..]);
      PrintToks(g.ws1);
      PrintToks(g.ws2);
      PrintItemsConcat(true, Toks(g.ws1), [e]);
      PrintItemsConcat(true, Toks(g.ws1) + [e], Toks(g.ws2));
      PrintItemsConcat(true, Toks(g.ws1) + [e] + Toks(g.ws2), es);
      var p, t := PrintItem(true, e), TextItem(g.item);
      assert PrintItems(true, [e]) == p;
      RelatedConcat(g.ws1, g.ws1, true, true, p, t, KeepsItem(g.item), OrderedItem(g.item));
      RelatedConcat(g.ws1 + p, g.ws1 + t, KeepsItem(g.item), OrderedItem(g.item), g.ws2, g.ws2, true, true);
      RelatedConcat(g.ws1 + p + g.ws2, g.ws1 + t + g.ws2, KeepsItem(g.item), OrderedItem(g.item),
                    PrintItems(true, es), TextGroups(gs[1..]), KeepsGroups(gs[1..]), OrderedGroups(gs[1..]));
    }
  }

  /**
   For every derivation the transformer accepts, printing gives back the derived text exactly when
   nothing is padded twice, no lone star carries whitespace and no sign is preceded by whitespace.
   */
  lemma Lossless(d: StartD)
    requires WfStart(d) && TransformStart(d).Some?
    ensures Print(TransformStart(d).value) == TextStart(d) <==> Faithful(d)
  {
    match d
    case TopD(g) =>
      LosslessItem(g.item);
      var e := TransformItem(g.item).value;
      PrintOnly(true, e);
      PrintOnly(false, TransformStart(d).value.items[0]);
      assert TextGroup(g) == "" + TextItem(g.item) + "" == TextItem(g.item);
    case BareD(cmp) =>
      LosslessCmp(cmp);
      var e := Leaf(TransformCmp(cmp).value);
      PrintOnly(false, e);
      PrintOnly(false, Node(Plain, "", [e]));
  }

  lemma PrintOnly(brackets: bool, e: Expr)
    ensures PrintItems(brackets, [e]) == PrintItem(brackets, e)
  {
    assert [e][1..] == [];
  }
}
