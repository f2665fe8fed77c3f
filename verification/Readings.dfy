/**
 * What given texts are read as (parser/lexer.go, parser/parser.go): each operator, and which of two
 * takes its operands first, spaces, capitals, numbers, parentheses and keywords, in literal text.
 */
module Readings {
  import opened Bytes
  import opened Grammars
  import opened Printing

  // ------------------------------------------------------------ operators

  lemma Operator(op: Op, text: string, l: nat, a: Node, b: Node)
    requires Printable(a) && Printable(b) && text == " " + Text(op) + " " && l == Level(op)
    ensures Parse(OR, Print(a, l) + text + Print(b, l - 1)) == Res(Bin(op, a, b), "", true)
  {
    hide Parse, Print, Text, Printable;
    var e := Bin(op, a, b);
    ExpressionRoundTrip(e) by { PrintableBin(op, a, b); }
    PrintedBin(op, a, b);
    assert Print(a, l) + text + Print(b, l - 1) == Print(a, l) + " " + Text(op) + " " + Print(b, l - 1);
  }

  lemma PrintableBin(op: Op, a: Node, b: Node)
    requires Printable(a) && Printable(b)
    ensures Printable(Bin(op, a, b))
  {
  }

  lemma PrintedBin(op: Op, a: Node, b: Node)
    ensures forall l :: Level(op) <= l ==>
      Print(Bin(op, a, b), l) == Print(a, Level(op)) + " " + Text(op) + " " + Print(b, Level(op) - 1)
  {
  }

  lemma Spelling(op: Op)
    ensures op == Or ==> Level(op) == 6 && " " + Text(op) + " " == " or "
    ensures op == And ==> Level(op) == 5 && " " + Text(op) + " " == " and "
    ensures op == Le ==> Level(op) == 4 && " " + Text(op) + " " == " <= "
    ensures op == Ge ==> Level(op) == 4 && " " + Text(op) + " " == " >= "
    ensures op == Eq ==> Level(op) == 4 && " " + Text(op) + " " == " == "
    ensures op == Lt ==> Level(op) == 4 && " " + Text(op) + " " == " < "
    ensures op == Gt ==> Level(op) == 4 && " " + Text(op) + " " == " > "
    ensures op == Add ==> Level(op) == 3 && " " + Text(op) + " " == " + "
    ensures op == Sub ==> Level(op) == 3 && " " + Text(op) + " " == " - "
    ensures op == Mul ==> Level(op) == 2 && " " + Text(op) + " " == " * "
    ensures op == Div ==> Level(op) == 2 && " " + Text(op) + " " == " / "
    ensures op == Mod ==> Level(op) == 2 && " " + Text(op) + " " == " % "
  {
    match op
    case Or => assert " " + "or" + " " == " or ";
    case And => assert " " + "and" + " " == " and ";
    case Le => assert " " + "<=" + " " == " <= ";
    case Ge => assert " " + ">=" + " " == " >= ";
    case Eq => assert " " + "==" + " " == " == ";
    case Lt => assert " " + "<" + " " == " < ";
    case Gt => assert " " + ">" + " " == " > ";
    case Add => assert " " + "+" + " " == " + ";
    case Sub => assert " " + "-" + " " == " - ";
    case Mul => assert " " + "*" + " " == " * ";
    case Div => assert " " + "/" + " " == " / ";
    case Mod => assert " " + "%" + " " == " % ";
  }

  /** `or` and `and`, between operands that are put in parentheses where they have a weaker operator. */
  lemma LogicRead(a: Node, b: Node)
    requires Printable(a) && Printable(b)
    ensures Parse(OR, Print(a, 6) + " or " + Print(b, 5)) == Res(Bin(Or, a, b), "", true)
    ensures Parse(OR, Print(a, 5) + " and " + Print(b, 4)) == Res(Bin(And, a, b), "", true)
  {
    hide Parse, Print, Printable, Text, Level;
    Spelling(Or);
    Operator(Or, " or ", 6, a, b);
    Spelling(And);
    Operator(And, " and ", 5, a, b);
  }

  /** The comparisons. */
  lemma ComparisonsRead(a: Node, b: Node)
    requires Printable(a) && Printable(b)
    ensures Parse(OR, Print(a, 4) + " <= " + Print(b, 3)) == Res(Bin(Le, a, b), "", true)
    ensures Parse(OR, Print(a, 4) + " >= " + Print(b, 3)) == Res(Bin(Ge, a, b), "", true)
    ensures Parse(OR, Print(a, 4) + " == " + Print(b, 3)) == Res(Bin(Eq, a, b), "", true)
    ensures Parse(OR, Print(a, 4) + " < " + Print(b, 3)) == Res(Bin(Lt, a, b), "", true)
    ensures Parse(OR, Print(a, 4) + " > " + Print(b, 3)) == Res(Bin(Gt, a, b), "", true)
  {
    hide Parse, Print, Printable, Text, Level;
    Spelling(Le);
    Operator(Le, " <= ", 4, a, b);
    Spelling(Ge);
    Operator(Ge, " >= ", 4, a, b);
    Spelling(Eq);
    Operator(Eq, " == ", 4, a, b);
    Spelling(Lt);
    Operator(Lt, " < ", 4, a, b);
    Spelling(Gt);
    Operator(Gt, " > ", 4, a, b);
  }

  /** The arithmetic operators. */
  lemma ArithmeticRead(a: Node, b: Node)
    requires Printable(a) && Printable(b)
    ensures Parse(OR, Print(a, 3) + " + " + Print(b, 2)) == Res(Bin(Add, a, b), "", true)
    ensures Parse(OR, Print(a, 3) + " - " + Print(b, 2)) == Res(Bin(Sub, a, b), "", true)
    ensures Parse(OR, Print(a, 2) + " * " + Print(b, 1)) == Res(Bin(Mul, a, b), "", true)
    ensures Parse(OR, Print(a, 2) + " / " + Print(b, 1)) == Res(Bin(Div, a, b), "", true)
    ensures Parse(OR, Print(a, 2) + " % " + Print(b, 1)) == Res(Bin(Mod, a, b), "", true)
  {
    hide Parse, Print, Printable, Text, Level;
    Spelling(Add);
    Operator(Add, " + ", 3, a, b);
    Spelling(Sub);
    Operator(Sub, " - ", 3, a, b);
    Spelling(Mul);
    Operator(Mul, " * ", 2, a, b);
    Spelling(Div);
    Operator(Div, " / ", 2, a, b);
    Spelling(Mod);
    Operator(Mod, " % ", 2, a, b);
  }

  // ------------------------------------------------------------ two operators

  /** A word, a number, a symbol or a tuple, as it is in a text. */
  predicate Atom(e: Node, x: string) { Printable(e) && !e.Bin? && !e.Neg? && x == Print(e, 0) }

  lemma Chain(o: Op, p: Op, s: string, t: string, a: Node, b: Node, c: Node, x: string, y: string, z: string)
    requires Atom(a, x) && Atom(b, y) && Atom(c, z) && s == " " + Text(o) + " " && t == " " + Text(p) + " "
    ensures Parse(OR, x + s + y + t + z) == Res(if Level(p) < Level(o) then Bin(o, a, Bin(p, b, c)) else Bin(p, Bin(o, a, b), c), "", true)
  {
    hide Parse, Text, Level, Print, Printable;
    AtomPrinted(a);
    AtomPrinted(b);
    AtomPrinted(c);
    PrintableBin(o, a, b);
    PrintableBin(p, b, c);
    if Level(p) < Level(o) {
      Operator(o, s, Level(o), a, Bin(p, b, c)) by { LevelsOf(o); }
      PrintedBin(p, b, c);
      assert x + s + (y + " " + Text(p) + " " + z) == x + s + y + t + z by { Glued(x + s, y, " ", Text(p), " ", z); }
    } else {
      Operator(p, t, Level(p), Bin(o, a, b), c) by { LevelsOf(p); }
      PrintedBin(o, a, b);
      assert (x + " " + Text(o) + " " + y) + t + z == x + s + y + t + z by { Glued(x, " ", Text(o), " ", "", ""); }
    }
  }

  lemma Glued(a: string, b: string, c: string, d: string, e: string, f: string)
    ensures a + (b + c + d + e + f) == a + b + (c + d + e) + f
    ensures a + b + c + d == a + (b + c + d)
  {
  }

  lemma AtomPrinted(e: Node)
    requires !e.Bin? && !e.Neg?
    ensures forall l: nat :: Print(e, l) == Print(e, 0)
  {
  }

  lemma LevelsOf(o: Op)
    ensures 2 <= Level(o) <= OR
  {
  }

  /** `or` and `and`: `and` first, each from the left. */
  lemma OrAnd(a: Node, b: Node, c: Node, x: string, y: string, z: string)
    requires Atom(a, x) && Atom(b, y) && Atom(c, z)
    ensures Parse(OR, x + " or " + y + " and " + z) == Res(Bin(Or, a, Bin(And, b, c)), "", true)
    ensures Parse(OR, x + " and " + y + " or " + z) == Res(Bin(Or, Bin(And, a, b), c), "", true)
    ensures Parse(OR, x + " or " + y + " or " + z) == Res(Bin(Or, Bin(Or, a, b), c), "", true)
    ensures Parse(OR, x + " and " + y + " and " + z) == Res(Bin(And, Bin(And, a, b), c), "", true)
  {
    hide Parse, Atom, Text, Level;
    Spelling(Or);
    Spelling(And);
    Chain(Or, And, " or ", " and ", a, b, c, x, y, z);
    Chain(And, Or, " and ", " or ", a, b, c, x, y, z);
    Chain(Or, Or, " or ", " or ", a, b, c, x, y, z);
    Chain(And, And, " and ", " and ", a, b, c, x, y, z);
  }

  /** `and` and comparisons: these first. */
  lemma AndCompare(a: Node, b: Node, c: Node, x: string, y: string, z: string)
    requires Atom(a, x) && Atom(b, y) && Atom(c, z)
    ensures Parse(OR, x + " and " + y + " <= " + z) == Res(Bin(And, a, Bin(Le, b, c)), "", true)
    ensures Parse(OR, x + " <= " + y + " and " + z) == Res(Bin(And, Bin(Le, a, b), c), "", true)
    ensures Parse(OR, x + " and " + y + " >= " + z) == Res(Bin(And, a, Bin(Ge, b, c)), "", true)
    ensures Parse(OR, x + " >= " + y + " and " + z) == Res(Bin(And, Bin(Ge, a, b), c), "", true)
    ensures Parse(OR, x + " and " + y + " == " + z) == Res(Bin(And, a, Bin(Eq, b, c)), "", true)
    ensures Parse(OR, x + " == " + y + " and " + z) == Res(Bin(And, Bin(Eq, a, b), c), "", true)
    ensures Parse(OR, x + " and " + y + " < " + z) == Res(Bin(And, a, Bin(Lt, b, c)), "", true)
    ensures Parse(OR, x + " < " + y + " and " + z) == Res(Bin(And, Bin(Lt, a, b), c), "", true)
    ensures Parse(OR, x + " and " + y + " > " + z) == Res(Bin(And, a, Bin(Gt, b, c)), "", true)
    ensures Parse(OR, x + " > " + y + " and " + z) == Res(Bin(And, Bin(Gt, a, b), c), "", true)
  {
    hide Parse, Atom, Text, Level;
    Spelling(And);
    Spelling(Le);
    Spelling(Ge);
    Spelling(Eq);
    Spelling(Lt);
    Spelling(Gt);
    Chain(And, Le, " and ", " <= ", a, b, c, x, y, z);
    Chain(Le, And, " <= ", " and ", a, b, c, x, y, z);
    Chain(And, Ge, " and ", " >= ", a, b, c, x, y, z);
    Chain(Ge, And, " >= ", " and ", a, b, c, x, y, z);
    Chain(And, Eq, " and ", " == ", a, b, c, x, y, z);
    Chain(Eq, And, " == ", " and ", a, b, c, x, y, z);
    Chain(And, Lt, " and ", " < ", a, b, c, x, y, z);
    Chain(Lt, And, " < ", " and ", a, b, c, x, y, z);
    Chain(And, Gt, " and ", " > ", a, b, c, x, y, z);
    Chain(Gt, And, " > ", " and ", a, b, c, x, y, z);
  }

  /** Comparisons among themselves, from the left. */
  lemma CompareCompare(a: Node, b: Node, c: Node, x: string, y: string, z: string)
    requires Atom(a, x) && Atom(b, y) && Atom(c, z)
    ensures Parse(OR, x + " < " + y + " <= " + z) == Res(Bin(Le, Bin(Lt, a, b), c), "", true)
    ensures Parse(OR, x + " < " + y + " >= " + z) == Res(Bin(Ge, Bin(Lt, a, b), c), "", true)
    ensures Parse(OR, x + " < " + y + " == " + z) == Res(Bin(Eq, Bin(Lt, a, b), c), "", true)
    ensures Parse(OR, x + " < " + y + " < " + z) == Res(Bin(Lt, Bin(Lt, a, b), c), "", true)
    ensures Parse(OR, x + " < " + y + " > " + z) == Res(Bin(Gt, Bin(Lt, a, b), c), "", true)
    ensures Parse(OR, x + " <= " + y + " < " + z) == Res(Bin(Lt, Bin(Le, a, b), c), "", true)
    ensures Parse(OR, x + " >= " + y + " < " + z) == Res(Bin(Lt, Bin(Ge, a, b), c), "", true)
    ensures Parse(OR, x + " == " + y + " < " + z) == Res(Bin(Lt, Bin(Eq, a, b), c), "", true)
    ensures Parse(OR, x + " > " + y + " < " + z) == Res(Bin(Lt, Bin(Gt, a, b), c), "", true)
  {
    hide Parse, Atom, Text, Level;
    Spelling(Le);
    Spelling(Ge);
    Spelling(Eq);
    Spelling(Lt);
    Spelling(Gt);
    Chain(Lt, Le, " < ", " <= ", a, b, c, x, y, z);
    Chain(Lt, Ge, " < ", " >= ", a, b, c, x, y, z);
    Chain(Lt, Eq, " < ", " == ", a, b, c, x, y, z);
    Chain(Lt, Lt, " < ", " < ", a, b, c, x, y, z);
    Chain(Lt, Gt, " < ", " > ", a, b, c, x, y, z);
    Chain(Le, Lt, " <= ", " < ", a, b, c, x, y, z);
    Chain(Ge, Lt, " >= ", " < ", a, b, c, x, y, z);
    Chain(Eq, Lt, " == ", " < ", a, b, c, x, y, z);
    Chain(Gt, Lt, " > ", " < ", a, b, c, x, y, z);
  }

  /** Comparisons and sums: these first. */
  lemma CompareAdd(a: Node, b: Node, c: Node, x: string, y: string, z: string)
    requires Atom(a, x) && Atom(b, y) && Atom(c, z)
    ensures Parse(OR, x + " < " + y + " + " + z) == Res(Bin(Lt, a, Bin(Add, b, c)), "", true)
    ensures Parse(OR, x + " + " + y + " < " + z) == Res(Bin(Lt, Bin(Add, a, b), c), "", true)
    ensures Parse(OR, x + " < " + y + " - " + z) == Res(Bin(Lt, a, Bin(Sub, b, c)), "", true)
    ensures Parse(OR, x + " - " + y + " < " + z) == Res(Bin(Lt, Bin(Sub, a, b), c), "", true)
  {
    hide Parse, Atom, Text, Level;
    Spelling(Lt);
    Spelling(Add);
    Spelling(Sub);
    Chain(Lt, Add, " < ", " + ", a, b, c, x, y, z);
    Chain(Add, Lt, " + ", " < ", a, b, c, x, y, z);
    Chain(Lt, Sub, " < ", " - ", a, b, c, x, y, z);
    Chain(Sub, Lt, " - ", " < ", a, b, c, x, y, z);
  }

  /** Sums and differences, from the left. */
  lemma AddAdd(a: Node, b: Node, c: Node, x: string, y: string, z: string)
    requires Atom(a, x) && Atom(b, y) && Atom(c, z)
    ensures Parse(OR, x + " + " + y + " + " + z) == Res(Bin(Add, Bin(Add, a, b), c), "", true)
    ensures Parse(OR, x + " + " + y + " - " + z) == Res(Bin(Sub, Bin(Add, a, b), c), "", true)
    ensures Parse(OR, x + " - " + y + " + " + z) == Res(Bin(Add, Bin(Sub, a, b), c), "", true)
    ensures Parse(OR, x + " - " + y + " - " + z) == Res(Bin(Sub, Bin(Sub, a, b), c), "", true)
  {
    hide Parse, Atom, Text, Level;
    Spelling(Add);
    Spelling(Sub);
    Chain(Add, Add, " + ", " + ", a, b, c, x, y, z);
    Chain(Add, Sub, " + ", " - ", a, b, c, x, y, z);
    Chain(Sub, Add, " - ", " + ", a, b, c, x, y, z);
    Chain(Sub, Sub, " - ", " - ", a, b, c, x, y, z);
  }

  /** Sums and products: these first. */
  lemma AddMul(a: Node, b: Node, c: Node, x: string, y: string, z: string)
    requires Atom(a, x) && Atom(b, y) && Atom(c, z)
    ensures Parse(OR, x + " + " + y + " * " + z) == Res(Bin(Add, a, Bin(Mul, b, c)), "", true)
    ensures Parse(OR, x + " * " + y + " + " + z) == Res(Bin(Add, Bin(Mul, a, b), c), "", true)
    ensures Parse(OR, x + " + " + y + " / " + z) == Res(Bin(Add, a, Bin(Div, b, c)), "", true)
    ensures Parse(OR, x + " / " + y + " + " + z) == Res(Bin(Add, Bin(Div, a, b), c), "", true)
    ensures Parse(OR, x + " + " + y + " % " + z) == Res(Bin(Add, a, Bin(Mod, b, c)), "", true)
    ensures Parse(OR, x + " % " + y + " + " + z) == Res(Bin(Add, Bin(Mod, a, b), c), "", true)
  {
    hide Parse, Atom, Text, Level;
    Spelling(Add);
    Spelling(Mul);
    Spelling(Div);
    Spelling(Mod);
    Chain(Add, Mul, " + ", " * ", a, b, c, x, y, z);
    Chain(Mul, Add, " * ", " + ", a, b, c, x, y, z);
    Chain(Add, Div, " + ", " / ", a, b, c, x, y, z);
    Chain(Div, Add, " / ", " + ", a, b, c, x, y, z);
    Chain(Add, Mod, " + ", " % ", a, b, c, x, y, z);
    Chain(Mod, Add, " % ", " + ", a, b, c, x, y, z);
  }

  /** Products, quotients and remainders, from the left. */
  lemma MulMul(a: Node, b: Node, c: Node, x: string, y: string, z: string)
    requires Atom(a, x) && Atom(b, y) && Atom(c, z)
    ensures Parse(OR, x + " * " + y + " * " + z) == Res(Bin(Mul, Bin(Mul, a, b), c), "", true)
    ensures Parse(OR, x + " * " + y + " / " + z) == Res(Bin(Div, Bin(Mul, a, b), c), "", true)
    ensures Parse(OR, x + " / " + y + " * " + z) == Res(Bin(Mul, Bin(Div, a, b), c), "", true)
    ensures Parse(OR, x + " / " + y + " / " + z) == Res(Bin(Div, Bin(Div, a, b), c), "", true)
    ensures Parse(OR, x + " * " + y + " % " + z) == Res(Bin(Mod, Bin(Mul, a, b), c), "", true)
    ensures Parse(OR, x + " % " + y + " * " + z) == Res(Bin(Mul, Bin(Mod, a, b), c), "", true)
    ensures Parse(OR, x + " % " + y + " % " + z) == Res(Bin(Mod, Bin(Mod, a, b), c), "", true)
  {
    hide Parse, Atom, Text, Level;
    Spelling(Mul);
    Spelling(Div);
    Spelling(Mod);
    Chain(Mul, Mul, " * ", " * ", a, b, c, x, y, z);
    Chain(Mul, Div, " * ", " / ", a, b, c, x, y, z);
    Chain(Div, Mul, " / ", " * ", a, b, c, x, y, z);
    Chain(Div, Div, " / ", " / ", a, b, c, x, y, z);
    Chain(Mul, Mod, " * ", " % ", a, b, c, x, y, z);
    Chain(Mod, Mul, " % ", " * ", a, b, c, x, y, z);
    Chain(Mod, Mod, " % ", " % ", a, b, c, x, y, z);
  }

  /** The minus sign: in front of one operand, before anything else. */
  lemma MinusRead(a: Node, b: Node, x: string, y: string)
    requires Atom(a, x) && Atom(b, y)
    ensures Parse(OR, "-" + x) == Res(Neg(a), "", true)
    ensures Parse(OR, "-" + x + " * " + y) == Res(Bin(Mul, Neg(a), b), "", true)
    ensures Parse(OR, x + " * " + ("-" + y)) == Res(Bin(Mul, a, Neg(b)), "", true)
    ensures Parse(OR, x + " - " + ("-" + y)) == Res(Bin(Sub, a, Neg(b)), "", true)
    ensures Parse(OR, "-" + x + " + " + y) == Res(Bin(Add, Neg(a), b), "", true)
  {
    hide Parse, Text, Level;
    AtomPrinted(a);
    AtomPrinted(b);
    ExpressionRoundTrip(Neg(a));
    MinusPrinted(a);
    MinusPrinted(b);
    Spelling(Mul);
    Spelling(Sub);
    Spelling(Add);
    Operator(Mul, " * ", 2, Neg(a), b);
    Operator(Mul, " * ", 2, a, Neg(b));
    Operator(Sub, " - ", 3, a, Neg(b));
    Operator(Add, " + ", 3, Neg(a), b);
  }

  lemma MinusPrinted(e: Node)
    ensures forall l: nat :: l >= 1 ==> Print(Neg(e), l) == "-" + Print(e, 0)
  {
  }

  // ------------------------------------------------------------ parentheses

  /** Parentheses that nothing asks for. */
  lemma ParenthesesRead(e: Node)
    requires Printable(e)
    ensures Parse(OR, "(" + Print(e, OR) + ")") == Res(e, "", true)
  {
    hide Parse, ParseAtom, Bare, Printable, Keyword;
    var t := "(" + Print(e, OR) + ")";
    GroupParsed(e, "", "");
    assert Print(e, OR) == Bare(e);
    assert "" + ("(" + Bare(e) + ")" + "") == t;
    AtomUp(t, e, "", true, OR);
  }

  /** Parentheses that are not closed: the expression, and an error. */
  lemma UnclosedRead(e: Node)
    requires Printable(e)
    ensures Parse(OR, "(" + Print(e, OR)) == Res(e, "", false)
  {
    hide Parse, Print, Printable, Keyword, IsKeyword, Loop, Commas;
    var t := "(" + Print(e, OR);
    Known();
    KeywordHit("", "(", Print(e, OR));
    assert "" + t == t;
    ExpressionRoundTrip(e);
    CommasNone([e]);
    KeywordMiss("", "", ")");
    assert ParseAtom(t) == Res(e, "", false);
    AtomUp(t, e, "", false, OR);
  }

  lemma CommasNone(kids: seq<Node>)
    requires |kids| == 1
    ensures Commas(kids, "", true) == Res(kids[0], "", true)
  {
    hide Keyword;
    KeywordMiss("", "", ",");
  }

  /** An atom in parentheses alone in a text is what every level reads. */
  lemma {:induction false} AtomUp(t: string, e: Node, rest: string, ok: bool, l: nat)
    requires l <= OR && ParseAtom(t) == Res(e, rest, ok) && rest == "" && t != "" && t[0] == '('
    ensures Parse(l, t) == Res(e, rest, ok)
    decreases l
  {
    hide ParseAtom, Keyword, FirstOp;
    if l == 1 {
      KeywordMiss("", t, "-");
      assert "" + t == t;
    } else if l > 1 {
      AtomUp(t, e, rest, ok, l - 1);
      NothingQuiet();
    }
  }

  // ------------------------------------------------------------ spaces and capitals

  /** Space, tab, line feed, vertical tab, form feed, carriage return, next line and no-break space are skipped; nothing else is. */
  lemma SpacesRead(c: char, t: string, l: nat, ops: seq<Op>)
    requires c as int in {9, 10, 11, 12, 13, 32, 0x85, 0xA0}
    ensures Parse(l, [c] + t) == Parse(l, t) && FirstOp(ops, [c] + t) == FirstOp(ops, t)
    decreases l
  {
    hide Trim, IsKeyword, Text;
    SpaceTrimmed(c, t);
    OpsSkip(c, t, ops);
    assert forall kw :: Keyword([c] + t, kw) == Keyword(t, kw);
    if l > 1 { SpacesRead(c, t, l - 1, ops); }
  }

  lemma SpaceTrimmed(c: char, t: string)
    ensures c as int in {9, 10, 11, 12, 13, 32, 0x85, 0xA0} ==> Trim([c] + t) == Trim(t)
    ensures c as int !in {9, 10, 11, 12, 13, 32, 0x85, 0xA0} ==> Trim([c] + t) == [c] + t
  {
    assert ([c] + t)[1..] == t;
  }

  lemma {:induction false} OpsSkip(c: char, t: string, ops: seq<Op>)
    requires Trim([c] + t) == Trim(t)
    ensures FirstOp(ops, [c] + t) == FirstOp(ops, t)
    decreases |ops|
  {
    hide Trim, IsKeyword, Text;
    if ops != [] { OpsSkip(c, t, ops[1..]); }
  }

  /** An operator that is a word, in any capitals. */
  lemma {:induction false} Capitals(op: Op, w: string, l: nat, a: Node, b: Node)
    requires Printable(a) && Printable(b) && (op == Or || op == And) && EqualFold(w, Text(op)) && l == Level(op)
    ensures Parse(OR, Print(a, l) + (" " + w + " ") + Print(b, l - 1)) == Res(Bin(op, a, b), "", true)
  {
    hide Parse, Print, Printable, Keyword, IsKeyword, FirstOp, Text, Loop;
    var y := Print(b, l - 1);
    var t := " " + (w + (" " + y));
    assert Print(a, l) + (" " + w + " ") + y == Print(a, l) + t;
    CapitalRead(op, w, y);
    NothingQuiet();
    QuietLess("", OR);
    PrintParsed(a, l, "", t);
    assert "" + (Print(a, l) + t) == Print(a, l) + t;
    PrintParsed(b, l - 1, " ", "");
    assert " " + (y + "") == " " + y;
    LoopEnds(l - 1, Res(b, "", true));
    var r := Res(Bin(op, a, b), "", true);
    LoopEnds(l, r);
    LoopOnce(l, a, b, op, t, " " + y);
    if op == And {
      LoopEnds(6, r);
      ParseUp(Print(a, l) + t, r);
    }
  }

  lemma LoopOnce(l: nat, a: Node, b: Node, op: Op, t: string, y: string)
    requires 2 < l && FirstOp(Ops(l), t) == Some((op, y)) && Parse(l - 1, y) == Res(b, "", true)
    requires Loop(l, Res(Bin(op, a, b), "", true)) == Res(Bin(op, a, b), "", true)
    ensures Loop(l, Res(a, t, true)) == Res(Bin(op, a, b), "", true)
  {
    hide FirstOp;
  }

  lemma ParseUp(t: string, r: Res)
    requires Parse(5, t) == r && Loop(6, r) == r
    ensures Parse(6, t) == r
  {
    hide FirstOp;
  }

  /** It is read on its own level, and no other operator on a lower one. */
  lemma CapitalRead(op: Op, w: string, y: string)
    requires (op == Or || op == And) && EqualFold(w, Text(op))
    ensures var t := " " + (w + (" " + y));
      FirstOp(Ops(Level(op)), t) == Some((op, " " + y)) && Quiet(t, Level(op) - 1) && Boundary(t)
  {
    hide IsKeyword, FirstOp, Keyword;
    var s := w + (" " + y);
    var t := " " + s;
    WordStarts(op, w);
    KnownOp(op);
    FoldedHit(Text(op), w, " " + y);
    assert Ops(Level(op)) == [op];
    FirstOpHit(Ops(Level(op)), 0, t, " " + y);
    forall m | 2 <= m <= Level(op) - 1 ensures FirstOp(Ops(m), t) == None {
      forall j | 0 <= j < |Ops(m)| ensures Keyword(t, Text(Ops(m)[j])) == None {
        OtherStart(op, Ops(m)[j]);
        KeywordMiss(" ", s, Text(Ops(m)[j]));
      }
      FirstOpMiss(Ops(m), t);
    }
  }

  lemma WordStarts(op: Op, w: string)
    requires (op == Or || op == And) && EqualFold(w, Text(op))
    ensures w != "" && Fold(w[0]) == Text(op)[0] && !IsSpace(w[0])
  {
  }

  lemma OtherStart(op: Op, other: Op)
    requires (op == Or || op == And) && other != op
    ensures Text(other) != "" && Fold(Text(other)[0]) != Text(op)[0] && Fold(Text(op)[0]) == Text(op)[0]
  {
  }

  lemma FoldedHit(kw: string, w: string, r: string)
    requires kw != "" && EqualFold(w, kw) && !IsSpace(w[0]) && IsKeyword(kw)
    ensures Keyword(" " + (w + r), kw) == Some(r)
  {
    hide IsKeyword;
    TrimGap(" ", w + r);
    assert (w + r)[..|kw|] == w && (w + r)[|kw|..] == r;
  }

  lemma CapitalsRead(a: Node, b: Node)
    requires Printable(a) && Printable(b)
    ensures Parse(OR, Print(a, 6) + " OR " + Print(b, 5)) == Res(Bin(Or, a, b), "", true)
    ensures Parse(OR, Print(a, 6) + " Or " + Print(b, 5)) == Res(Bin(Or, a, b), "", true)
    ensures Parse(OR, Print(a, 5) + " AND " + Print(b, 4)) == Res(Bin(And, a, b), "", true)
    ensures Parse(OR, Print(a, 5) + " aNd " + Print(b, 4)) == Res(Bin(And, a, b), "", true)
  {
    hide Parse, Print, Printable;
    Spelling(Or);
    Spelling(And);
    Capitals(Or, "OR", 6, a, b);
    Capitals(Or, "Or", 6, a, b);
    Capitals(And, "AND", 5, a, b);
    Capitals(And, "aNd", 5, a, b);
    assert " " + "OR" + " " == " OR " && " " + "Or" + " " == " Or ";
    assert " " + "AND" + " " == " AND " && " " + "aNd" + " " == " aNd ";
  }

  // ------------------------------------------------------------ numbers, words and characters

  /** The value of decimal digits. */
  lemma DigitsRead(s: string, c: char)
    requires '0' <= c <= '9'
    ensures Digits("") == 0 && Digits(s + [c]) == 10 * Digits(s) + (c as int - 48)
  {
    assert (s + [c])[..|s|] == s;
  }

  /** Digits are a number up to 9223372036854775807, and from there on a word. */
  lemma NumbersRead(s: string)
    requires s != "" && forall i :: 0 <= i < |s| ==> '0' <= s[i] <= '9'
    ensures ParseAtom(s) == if Digits(s) <= 9223372036854775807 then Res(Num(Digits(s)), "", true) else Res(Word(s), "", true)
  {
    hide Keyword, IsKeyword, Digits, SymToken;
    TrimGap("", s);
    assert "" + s == s && s + "" == s;
    KeywordMiss("", s, "(");
    NoSymbol("", s);
    NumLenOf(s, "");
    StrLenOf(s, "");
    assert s[..|s|] == s && s[|s|..] == "";
    NoKeyword(s);
  }

  /** No keyword begins with a digit. */
  lemma NoKeyword(s: string)
    requires s != "" && '0' <= s[0] <= '9'
    ensures !IsKeyword(s)
  {
    assert forall i :: 0 <= i < |KEYWORDS| ==> KEYWORDS[i] != "" && Fold(KEYWORDS[i][0]) != Fold(s[0]);
  }

  /** The letters a word may have without being read as a keyword: all but these words, in any capitals. */
  lemma WordsRead(s: string)
    requires s != "" && forall i :: 0 <= i < |s| ==> 'a' <= s[i] <= 'z'
    ensures WordToken(s) ==
            if s in {"create", "table", "select", "index", "by", "upsert", "insert", "filter", "into", "delete", "from", "update", "as", "or", "and", "offset", "limit", "primary", "key", "values", "set"}
            then (None, s) else (Some(Word(s)), "")
  {
    hide IsKeyword, KEYWORDS;
    TrimGap("", s);
    assert "" + s == s && s + "" == s;
    StrLenOf(s, "");
    assert s[..|s|] == s && s[|s|..] == "";
    LowerKeyword(s);
    ListedWords(s);
  }

  lemma LowerKeyword(s: string)
    requires s != "" && forall i :: 0 <= i < |s| ==> 'a' <= s[i] <= 'z'
    ensures IsKeyword(s) <==> s in KEYWORDS
  {
    hide KEYWORDS;
    forall i | 0 <= i < |KEYWORDS| && EqualFold(s, KEYWORDS[i]) ensures s == KEYWORDS[i] { InLower(i); }
    if s in KEYWORDS {
      var i :| 0 <= i < |KEYWORDS| && KEYWORDS[i] == s;
      Listed(i, s);
    }
  }

  lemma InLower(i: nat)
    requires i < |KEYWORDS|
    ensures forall j :: 0 <= j < |KEYWORDS[i]| ==> Fold(KEYWORDS[i][j]) == KEYWORDS[i][j]
  {
  }

  lemma ListedWords(s: string)
    requires s != "" && 'a' <= s[0] <= 'z'
    ensures s in KEYWORDS <==> s in {"create", "table", "select", "index", "by", "upsert", "insert", "filter", "into", "delete", "from", "update", "as", "or", "and", "offset", "limit", "primary", "key", "values", "set"}
  {
  }

  /** At the end of the text an operand is missing. */
  lemma EndRead()
    ensures ParseAtom("") == Res(Bad, "", false)
  {
    hide Keyword, IsKeyword;
    KeywordMiss("", "", "(");
    assert "" + "" == "";
  }

  /** So it is where a keyword stands. */
  lemma KeywordRead(s: string)
    requires s in KEYWORDS && s != "" && forall i :: 0 <= i < |s| ==> 'a' <= s[i] <= 'z'
    ensures ParseAtom(s) == Res(Bad, s, false)
  {
    hide Keyword, IsKeyword, KEYWORDS;
    KeywordMiss("", s, "(");
    assert "" + s == s;
    WordStart(s);
    LowerKeyword(s);
  }

  /** Any other character of ASCII that no operand begins with is left, behind an empty word. */
  lemma OtherRead(c: char, t: string)
    requires 33 <= c as int <= 126 && !IsStr(c) && c != '(' && c != '@'
    ensures ParseAtom([c] + t) == Res(Word(""), [c] + t, true)
  {
    hide Keyword, IsKeyword;
    var s := [c] + t;
    KeywordMiss("", s, "(");
    assert "" + s == s && s[..0] == "" && s[0..] == s;
    EmptyNoKeyword();
  }

  lemma WordStart(s: string)
    requires s != "" && forall i :: 0 <= i < |s| ==> 'a' <= s[i] <= 'z'
    ensures Trim(s) == s && NumLen(s) == 0 && StrLen(s) == |s| && s[..|s|] == s && s[..0] == ""
  {
    TrimGap("", s);
    assert "" + s == s && s + "" == s;
    StrLenOf(s, "");
  }

  lemma EmptyNoKeyword()
    ensures !IsKeyword("")
  {
  }

  /** The classes of characters, by their codes. */
  lemma CharactersRead(c: char)
    ensures NumLen([c]) == 1 <==> 48 <= c as int <= 57 || c as int in {0xB2, 0xB3, 0xB9, 0xBC, 0xBD, 0xBE}
    ensures StrLen([c]) == 1 <==>
      (NumLen([c]) == 1 || 65 <= c as int <= 90 || 97 <= c as int <= 122 || c as int in {0xAA, 0xB5, 0xBA}
       || (0xC0 <= c as int <= 0xFF && c as int !in {0xD7, 0xF7}))
    ensures SymLen([c]) == 1 <==> StrLen([c]) == 1 || c as int == 95
  {
    assert [c][1..] == "";
  }
}
