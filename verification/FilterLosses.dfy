/** Each of the three ways to lose a character, on a derivation that the transformer accepts. */
module FilterLosses {
  import opened Options
  import opened Text
  import opened Escaping
  import opened FilterTree
  import opened FilterGrammar

  /** What a filter of one bracketed comparison prints. */
  lemma PrintBracketed(cmp: CmpD)
    requires WfCmp(cmp) && TransformCmp(cmp).Some?
    ensures var d := TopD(GroupD("", ExprD("", cmp, ""), ""));
            && WfStart(d) && TransformStart(d).Some? && TextStart(d) == "(" + TextCmp(cmp) + ")"
            && Print(TransformStart(d).value) == "(" + TransformCmp(cmp).value.(lead := "", trail := "").Print() + ")"
  {
    hide TransformCmp, TextCmp, WfCmp, Cmp.Print;
    var d := TopD(GroupD("", ExprD("", cmp, ""), ""));
    var e := Leaf(TransformCmp(cmp).value.(lead := "", trail := ""));
    PrintOnly(true, e);
    PrintOnly(false, Node(Bracketed, "", [e]));
    assert TransformStart(d) == Some(Node(Plain, "", [Node(Bracketed, "", [e])]));
    assert "(" + "" == "(" && "(" + TextCmp(cmp) + "" == "(" + TextCmp(cmp);
    assert WfItem(d.group.item) && WfGroup(d.group);
    assert TextItem(d.group.item) == "(" + TextCmp(cmp) + ")";
    assert TextStart(d) == TextGroup(d.group) == "" + TextItem(d.group.item) + "";
  }

  lemma StripFront(lead: string, body: string)
    requires All(IsSpace, lead) && body != "" && TightEnds(IsSpace, body)
    ensures Strip(lead + body) == body && Partition(lead + body, body) == (lead, body, "")
  {
    hide IsSpace, Partition;
    var s := lead + body;
    LeadIs(IsSpace, lead, body);
    TrailIs(IsSpace, s, "");
    assert s + "" == s && s[|s| - 1] == body[|body| - 1];
    PartitionAtStrip(IsSpace, s);
    assert Partition(s, body).0 + body == s;
  }

  /** "( &(a=b))" is printed as "(& (a=b))". */
  lemma SignLosesOrder()
    ensures var d := TopD(GroupD("", OpD(And, " ", "", [GroupD("", AEqualsB(), "")], ""), ""));
            && WfStart(d) && TextStart(d) == "( &(a=b))"
            && TransformStart(d).Some? && Print(TransformStart(d).value) == "(& (a=b))"
  {
    hide TransformItem, TextItem, WfItem, Print, IsWs;
    var gs := [GroupD("", AEqualsB(), "")];
    var d := OpD(And, " ", "", gs, "");
    AEqualsBText();
    SoleGroup(gs, AEqualsBTree());
    SignText(gs);
    SignTree(gs, AEqualsBTree());
    PrintRoot(Node(And, " ", [AEqualsBTree()]));
    assert TextGroup(GroupD("", d, "")) == TextItem(d) == "( &(a=b))";
    assert WfItem(d) by { SignWf(gs); }
  }

  lemma PrintRoot(op: Expr)
    requires op.Node?
    ensures Print(Node(Plain, "", [op])) == Print(op)
  {
    PrintOnly(false, op);
  }

  function AEqualsB(): ItemD { ExprD("", ValueCmpD("a", Equality, ValueD("", "b", "")), "") }

  function AEqualsBTree(): Expr { Leaf(Cmp(Equality, "a", "b", true)) }

  lemma AEqualsBText()
    ensures WfItem(AEqualsB()) && TextItem(AEqualsB()) == "(a=b)" && TransformItem(AEqualsB()) == Some(AEqualsBTree())
    ensures AllWs("") && AllWs(" ") && Print(AEqualsBTree()) == "a=b"
  {
    hide Strip, Partition, IsSpace;
    StarIsNoSpace();
    StripFront("", "b");
    assert "" + "b" == "b";
    assert AEqualsBTree().cmp.Print() == "a=b";
  }

  lemma SignWf(gs: seq<GroupD>)
    requires |gs| == 1 && WfItem(gs[0].item) && gs[0].ws1 == gs[0].ws2 == ""
    ensures WfItem(OpD(And, " ", "", gs, ""))
  {
    hide WfCmp;
    assert WfGroups(gs[1..]);
    assert WfGroup(gs[0]);
    assert All(Text.IsWs, " ");
  }

  lemma SignText(gs: seq<GroupD>)
    ensures TextItem(OpD(And, " ", "", gs, "")) == "( &" + TextGroups(gs) + ")"
  {
    hide TextGroups;
    Spelled("( &", TextGroups(gs));
    assert "(" + " " + "&" == "( &";
  }

  lemma Spelled(head: string, inner: string)
    ensures head + "" + inner + "" + ")" == head + inner + ")"
  {
  }

  /** Whitespace before the sign goes into the slot that is printed behind it. */
  lemma SignTree(gs: seq<GroupD>, e: Expr)
    requires TransformGroups(gs) == Some([e]) && e.Leaf?
    ensures TransformItem(OpD(And, " ", "", gs, "")) == Some(Node(And, " ", [e]))
    ensures Print(Node(And, " ", [e])) == "(& " + ("(" + Print(e) + ")") + ")"
  {
    hide TransformGroups, Cmp.Print;
    assert Toks("") + [e] + Toks("") == [e];
    PrintOnly(true, e);
    assert "(" + "&" + " " == "(& ";
  }

  lemma {:induction false} SoleGroup(gs: seq<GroupD>, e: Expr)
    requires |gs| == 1 && gs[0].ws1 == "" && gs[0].ws2 == "" && TransformItem(gs[0].item) == Some(e)
    ensures TransformGroups(gs) == Some([e]) && TextGroups(gs) == TextItem(gs[0].item)
  {
    hide TransformItem, TextItem;
    assert TransformGroups(gs[1..]) == Some([]) && TextGroups(gs[1..]) == "";
    assert Toks("") + [e] + Toks("") + [] == [e];
    assert "" + TextItem(gs[0].item) + "" + "" == TextItem(gs[0].item);
  }

  /** "(a= *)" is printed as "(a=*)". */
  lemma LoneStarLosesSpace()
    ensures var d := TopD(GroupD("", ExprD("", SubstringD("a", [Chunk(" "), Star]), ""), ""));
            && WfStart(d) && TextStart(d) == "(a= *)"
            && TransformStart(d).Some? && Print(TransformStart(d).value) == "(a=*)"
  {
    hide WfStart, TextStart, TransformStart, WfCmp, TextCmp, TransformCmp, Cmp.Print;
    SpaceStarCmp();
    PrintBracketed(SubstringD("a", [Chunk(" "), Star]));
  }

  lemma SpaceStarCmp()
    ensures var d, c := SubstringD("a", [Chunk(" "), Star]), Cmp(Presence, "a", "", true);
            && WfCmp(d) && TextCmp(d) == "a= *" && TransformCmp(d) == Some(c)
            && c.(lead := "", trail := "") == c && c.Print() == "a=*"
  {
    hide TransformValue, HasDoubleStar;
    SpaceStar();
  }

  lemma SpaceStar()
    ensures TextParts([Chunk(" "), Star]) == " *" && !HasDoubleStar(" *")
    ensures TransformValue(ValueD("", " *", "")) == Some(Padded(" ", "*", ""))
  {
    hide Strip, Partition, IsSpace;
    assert [Chunk(" "), Star][1..] == [Star] && [Star][1..] == [];
    assert TextParts([Star]) == "*";
    StarIsNoSpace();
    StripFront(" ", "*");
    assert " " + "*" == " *";
  }

  lemma StarIsNoSpace()
    ensures All(IsSpace, " ") && All(IsSpace, "\U{A0}") && TightEnds(IsSpace, "*") && TightEnds(IsSpace, "b")
  {
  }

  /** Space in the slot and a no-break space in the value: the second one is lost. */
  lemma PaddedTwiceLosesOne()
    ensures var d := TopD(GroupD("", ExprD("", ValueCmpD("a", Equality, ValueD(" ", "\U{A0}b", "")), ""), ""));
            && WfStart(d) && TextStart(d) == "(a= \U{A0}b)"
            && TransformStart(d).Some? && Print(TransformStart(d).value) == "(a= b)"
  {
    hide WfStart, TextStart, TransformStart, WfCmp, TextCmp, TransformCmp, Cmp.Print;
    NoBreakCmp();
    PrintBracketed(ValueCmpD("a", Equality, ValueD(" ", "\U{A0}b", "")));
  }

  lemma NoBreakCmp()
    ensures var d, c := ValueCmpD("a", Equality, ValueD(" ", "\U{A0}b", "")), Cmp(Equality, "a", "b", true, mid := " ");
            && WfCmp(d) && TextCmp(d) == "a= \U{A0}b" && TransformCmp(d) == Some(c)
            && c.(lead := "", trail := "") == c && c.Print() == "a= b"
  {
    hide TransformValue, IsSpace;
    NoBreakValue();
  }

  lemma NoBreakValue()
    ensures TransformValue(ValueD(" ", "\U{A0}b", "")) == Some(Padded(" ", "b", ""))
  {
    hide Strip, Partition, IsSpace;
    StarIsNoSpace();
    StripFront("\U{A0}", "b");
    assert "\U{A0}" + "b" == "\U{A0}b";
  }
}
