/**
 A deterministic parser for the filter grammar. It builds one derivation: whitespace goes to the
 earliest optional slot, a value holding a star is a substring, a lone star is a presence test, and
 a single extensible name that reads dn is the dn flag.
 */
module FilterParser {
  import opened Options
  import opened Text
  import opened Escaping
  import opened FilterTree
  import opened FilterGrammar

  predicate IsNameChar(c: char) { IsAttrChar(c) || c == '.' }

  predicate NotClose(c: char) { c != ')' }

  predicate NotStar(c: char) { c != '*' }

  function ParseValue(v: string): Option<ValueD> {
    var (lead, r) := Cut(IsWs, v);
    if r == "" then Some(ValueD(lead, "", ""))
    else
      var (body, tail) := CutEnd(IsWs, r);
      if IsValueText(body) then Some(ValueD(lead, body, tail)) else None
  }

  function SplitStars(v: string): seq<PartD>
    decreases |v|
  {
    if v == "" then []
    else if v[0] == '*' then [Star] + SplitStars(v[1..])
    else
      var (text, r) := Cut(NotStar, v);
      [Chunk(text)] + SplitStars(r)
  }

  function ParseEquals(attr: string, v: string): Option<CmpD> {
    if v == "*" then Some(PresenceD(attr))
    else if '*' in v then
      var parts := SplitStars(v);
      if WfParts(parts) then Some(SubstringD(attr, parts)) else None
    else
      var value :- ParseValue(v);
      Some(ValueCmpD(attr, Equality, value))
  }

  function ParseExt(attr: string, dn: string, rule: string, v: string): Option<CmpD> {
    var value :- ParseValue(v);
    Some(ExtD(attr, dn, rule, value))
  }

  /** An extensible match after the attribute and the first colon. */
  function ParseNames(attr: string, r: string): Option<CmpD> {
    var (name, q) := Cut(IsNameChar, r);
    if Starts(q, ":=") then
      if attr != "" && IsDnWord(name) then ParseExt(attr, name, "", After(q, ":="))
      else if IsAttr(name) then ParseExt(attr, "", name, After(q, ":="))
      else None
    else if Starts(q, ":") && IsDnWord(name) then
      var (rule, u) := Cut(IsNameChar, After(q, ":"));
      if Starts(u, ":=") && IsAttr(rule) then ParseExt(attr, name, rule, After(u, ":=")) else None
    else None
  }

  function ParseOrdered(attr: string, kind: Kind, v: string): Option<CmpD> {
    var value :- ParseValue(v);
    Some(ValueCmpD(attr, kind, value))
  }

  function ParseCmp(c: string): Option<CmpD> {
    var (attr, r) := Cut(IsNameChar, c);
    if attr != "" && !IsAttr(attr) then None
    else if Starts(r, ":=") then
      if attr == "" then None else ParseExt(attr, "", "", After(r, ":="))
    else if Starts(r, ":") then ParseNames(attr, After(r, ":"))
    else if attr == "" then None
    else if Starts(r, "=") then ParseEquals(attr, After(r, "="))
    else if Starts(r, ">=") then ParseOrdered(attr, GreaterEq, After(r, ">="))
    else if Starts(r, "<=") then ParseOrdered(attr, LessEq, After(r, "<="))
    else if Starts(r, "~=") then ParseOrdered(attr, Approx, After(r, "~="))
    else None
  }

  function ClassOf(sign: char): Cls {
    if sign == '&' then And else if sign == '|' then Or else if sign == '!' then Not else Plain
  }

  /** One bracketed item at the front of s, and what follows it. */
  function ParseItem(s: string): (r: Option<(ItemD, string)>)
    ensures r.Some? ==> |r.value.1| < |s|
    decreases |s|, 0
  {
    if !Starts(s, "(") then None
    else
      var (w, r) := Cut(IsWs, After(s, "("));
      if r == "" then None
      else if ClassOf(r[0]).Operator() then
        var (ld, q) := Cut(IsWs, r[1..]);
        var (gs, tr, rest) :- ParseGroups(q);
        if r[0] == '!' && |gs| != 1 then None else Some((OpD(ClassOf(r[0]), w, ld, gs, tr), rest))
      else
        var (content, close) := Cut(NotClose, r);
        if close == "" then None
        else
          var (c, tr) := CutEnd(IsWs, content);
          var cmp :- ParseCmp(c);
          Some((ExprD(w, cmp, tr), close[1..]))
  }

  /** Items up to the closing bracket: the items, the whitespace before the bracket, the rest. */
  function ParseGroups(q: string): (r: Option<(seq<GroupD>, string, string)>)
    ensures r.Some? ==> |r.value.2| < |q|
    decreases |q|, 1
  {
    var (w, r) := Cut(IsWs, q);
    if r == "" then None
    else if r[0] == ')' then Some(([], w, r[1..]))
    else
      var (item, p) :- ParseItem(r);
      var (gs, tr, rest) :- ParseGroups(p);
      Some(([GroupD(w, item, "")] + gs, tr, rest))
  }

  function ParseStart(s: string): Option<StartD> {
    if Starts(s, "(") then
      var (item, rest) :- ParseItem(s);
      if rest == "" then Some(TopD(GroupD("", item, ""))) else None
    else
      var cmp :- ParseCmp(s);
      Some(BareD(cmp))
  }

  // ----- soundness: whatever is parsed is a derivation of the input -----

  lemma ParseValueSound(v: string)
    requires ParseValue(v).Some?
    ensures WfValue(ParseValue(v).value) && TextValue(ParseValue(v).value) == v
  {
    hide Cut, CutEnd, IsWs;
  }

  lemma {:induction false} SplitStarsSound(v: string)
    ensures TextParts(SplitStars(v)) == v
    ensures v != "" ==> SplitStars(v) != []
    decreases |v|
  {
    if v != "" {
      if v[0] == '*' {
        SplitStarsSound(v[1..]);
        assert ([Star] + SplitStars(v[1..]))[1..] == SplitStars(v[1..]);
      } else {
        var (text, r) := Cut(NotStar, v);
        SplitStarsSound(r);
        assert ([Chunk(text)] + SplitStars(r))[1..] == SplitStars(r);
      }
    }
  }

  lemma ParseExtSound(attr: string, dn: string, rule: string, v: string)
    requires ParseExt(attr, dn, rule, v).Some?
    ensures var d := ParseExt(attr, dn, rule, v).value;
            && d.ExtD? && (d.attr, d.dn, d.rule) == (attr, dn, rule) && WfValue(d.value)
            && TextCmp(d) == attr + (Colon(dn) + Colon(rule) + (":=" + v))
  {
    hide ParseValue, WfValue, TextValue;
    ParseValueSound(v);
    Assoc(attr + Colon(dn), Colon(rule), ":=" + v);
    Assoc(attr, Colon(dn), Colon(rule) + (":=" + v));
    Assoc(Colon(dn), Colon(rule), ":=" + v);
    Assoc(attr + Colon(dn) + Colon(rule), ":=", v);
  }

  lemma AttrNotEmpty(a: string)
    requires IsAttr(a)
    ensures a != ""
  {
  }

  lemma ParseNamesSound(attr: string, r: string)
    requires attr == "" || IsAttr(attr)
    requires ParseNames(attr, r).Some?
    ensures var d := ParseNames(attr, r).value; WfCmp(d) && TextCmp(d) == attr + (":" + r)
  {
    hide Cut, After, Starts, ParseExt, TextCmp, IsAttr, IsNameChar, WfValue;
    var (name, q) := Cut(IsNameChar, r);
    if Starts(q, ":=") {
      var v := After(q, ":=");
      if attr != "" && IsDnWord(name) {
        ParseExtSound(attr, name, "", v);
      } else {
        AttrNotEmpty(name);
        ParseExtSound(attr, "", name, v);
      }
    } else {
      var u := Cut(IsNameChar, After(q, ":"));
      var v := After(u.1, ":=");
      AttrNotEmpty(u.0);
      ParseExtSound(attr, name, u.0, v);
      Assoc(":" + name, ":" + u.0, ":=" + v);
      Assoc(":", u.0, ":=" + v);
      Assoc(":", name, q);
    }
  }

  lemma ParseCmpSound(c: string)
    requires ParseCmp(c).Some?
    ensures WfCmp(ParseCmp(c).value) && TextCmp(ParseCmp(c).value) == c
  {
    hide Cut, After, Starts, ParseValue, ParseExt, ParseNames, IsAttr, IsNameChar, WfValue, TextValue, SplitStars;
    var (attr, r) := Cut(IsNameChar, c);
    if Starts(r, ":=") {
      ParseExtSound(attr, "", "", After(r, ":="));
      assert "" + "" + (":=" + After(r, ":=")) == r;
    } else if Starts(r, ":") {
      ParseNamesSound(attr, After(r, ":"));
    } else if Starts(r, "=") {
      var v := After(r, "=");
      assert attr + "=" + v == c;
      if v == "*" {
        assert attr + "=*" == attr + "=" + "*";
      } else if '*' in v {
        SplitStarsSound(v);
      } else {
        ParseValueSound(v);
      }
    } else {
      var sign := if Starts(r, ">=") then ">=" else if Starts(r, "<=") then "<=" else "~=";
      ParseValueSound(After(r, sign));
      assert attr + sign + After(r, sign) == c;
    }
  }

  lemma SignOf(c: char)
    requires ClassOf(c).Operator()
    ensures ClassOf(c).Sign() == [c]
    ensures ClassOf(c).Not? <==> c == '!'
  {
  }

  lemma {:induction false} ParseItemSound(s: string)
    requires ParseItem(s).Some?
    ensures var (d, rest) := ParseItem(s).value; WfItem(d) && TextItem(d) + rest == s
    decreases |s|, 0
  {
    hide Cut, CutEnd, After, Starts, IsWs, ParseCmp, ParseGroups, WfCmp, WfGroups, TextCmp, TextGroups, ClassOf,
      Cls.Sign;
    var (w, r) := Cut(IsWs, After(s, "("));
    if ClassOf(r[0]).Operator() {
      SignOf(r[0]);
      var (ld, q) := Cut(IsWs, r[1..]);
      ParseGroupsSound(q);
      var (gs, tr, rest) := ParseGroups(q).value;
      OperatorText(s, w, r, ld, TextGroups(gs), tr, rest);
    } else {
      var (content, close) := Cut(NotClose, r);
      var (c, tr) := CutEnd(IsWs, content);
      ParseCmpSound(c);
      ComparisonText(s, w, c, tr, close);
    }
  }

  lemma OperatorText(s: string, w: string, r: string, ld: string, inner: string, tr: string, rest: string)
    requires r != "" && s == "(" + (w + r) && r[1..] == ld + (inner + tr + ")" + rest)
    ensures "(" + w + [r[0]] + ld + inner + tr + ")" + rest == s
  {
    assert r == [r[0]] + r[1..];
  }

  lemma ComparisonText(s: string, w: string, c: string, tr: string, close: string)
    requires close != "" && close[0] == ')' && s == "(" + (w + (c + tr + close))
    ensures "(" + w + c + tr + ")" + close[1..] == s
  {
    assert close == ")" + close[1..];
  }

  lemma {:induction false} ParseGroupsSound(q: string)
    requires ParseGroups(q).Some?
    ensures var (gs, tr, rest) := ParseGroups(q).value;
            WfGroups(gs) && AllWs(tr) && TextGroups(gs) + tr + ")" + rest == q
    decreases |q|, 1
  {
    hide Cut, IsWs, ParseItem, WfItem, TextItem;
    var (w, r) := Cut(IsWs, q);
    if r[0] == ')' {
      assert r == ")" + r[1..];
    } else {
      ParseItemSound(r);
      var (item, p) := ParseItem(r).value;
      ParseGroupsSound(p);
      var (gs, tr, rest) := ParseGroups(p).value;
      assert ([GroupD(w, item, "")] + gs)[1..] == gs;
      GroupText(w, TextItem(item), TextGroups(gs), tr, rest);
    }
  }

  lemma GroupText(w: string, item: string, inner: string, tr: string, rest: string)
    ensures w + item + "" + inner + tr + ")" + rest == w + (item + (inner + tr + ")" + rest))
  {
  }

  /** The parser accepts only texts the grammar derives, and returns a derivation of the text. */
  lemma ParseSound(s: string)
    requires ParseStart(s).Some?
    ensures WfStart(ParseStart(s).value) && TextStart(ParseStart(s).value) == s
  {
    hide ParseItem, ParseCmp, WfItem, WfCmp, TextItem, TextCmp, IsWs;
    if Starts(s, "(") {
      ParseItemSound(s);
      var item := ParseItem(s).value.0;
      assert TextItem(item) + "" == TextItem(item) == "" + TextItem(item) + "";
    } else {
      ParseCmpSound(s);
    }
  }
}
