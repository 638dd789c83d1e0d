/** The expression tree of a filter and its string form, whitespace slots included. */
module FilterTree {
  import opened Text
  import opened Escaping

  /** The comparison classes; an absent :dn or matching rule is the empty text, as in the source. */
  datatype Kind =
    | Equality
    | GreaterEq
    | LessEq
    | Approx
    | Substring
    | Presence
    | Extensible(dn: string, rule: string)

  datatype Cmp = Cmp(
    kind: Kind, attr: string, raw: string, escaped: bool,
    lead: string := "", mid: string := "", end: string := "", trail: string := "")
  {
    /** The value in decoded form. */
    function Value(): string {
      if escaped then Unescape(raw) else raw
    }

    /** The value as it is printed. */
    function EscapedText(): string {
      if escaped then raw else EscapeValue(raw)
    }

    /** What Python's == compares: neither the matching rule nor the class is part of it. */
    predicate SameAs(other: Cmp) {
      Symbol(kind) == Symbol(other.kind) && attr == other.attr && Value() == other.Value()
    }

    /** The comparison itself, with the whitespace around its value. */
    function Inner(): string {
      attr + Extra(kind) + Symbol(kind) + (mid + EscapedText() + end)
    }

    function Print(): string { lead + Inner() + trail }

    predicate Bare() { lead == mid == end == trail == "" }
  }

  function Symbol(k: Kind): string {
    match k
    case Equality => "="
    case GreaterEq => ">="
    case LessEq => "<="
    case Approx => "~="
    case Substring => "="
    case Presence => "=*"
    case Extensible(_, _) => ":="
  }

  function Colon(name: string): string { if name == "" then "" else ":" + name }

  function Extra(k: Kind): string {
    if k.Extensible? then Colon(k.dn) + Colon(k.rule) else ""
  }

  /** Plain is the source's Container, Bracketed its Group; the others are the operators. */
  datatype Cls = Plain | Bracketed | And | Or | Not {
    predicate Operator() { And? || Or? || Not? }

    function Sign(): string {
      match this
      case And => "&"
      case Or => "|"
      case Not => "!"
      case _ => ""
    }
  }

  datatype Expr =
    | Leaf(cmp: Cmp)
    | Tok(ws: string)
    | Node(cls: Cls, sep: string, items: seq<Expr>)

  function Print(e: Expr): string
    decreases e, 0
  {
    match e
    case Leaf(c) => c.Print()
    case Tok(ws) => ws
    case Node(cls, sep, items) =>
      var inner := PrintItems(cls != Plain, items);
      if cls.Operator() then "(" + cls.Sign() + sep + inner + ")" else inner
  }

  /** The children in order; every class but Container puts brackets around a comparison. */
  function PrintItems(brackets: bool, items: seq<Expr>): string
    decreases items, 0
  {
    if items == [] then ""
    else PrintItem(brackets, items[0]) + PrintItems(brackets, items[1..])
  }

  function PrintItem(brackets: bool, e: Expr): string
    decreases e, 1
  {
    if e.Leaf? && brackets then "(" + Print(e) + ")" else Print(e)
  }

  lemma {:induction false} PrintItemsConcat(brackets: bool, a: seq<Expr>, b: seq<Expr>)
    ensures PrintItems(brackets, a + b) == PrintItems(brackets, a) + PrintItems(brackets, b)
  {
    if a == [] {
      assert a + b == b;
    } else {
      assert (a + b)[1..] == a[1..] + b;
      PrintItemsConcat(brackets, a[1..], b);
    }
  }
}
