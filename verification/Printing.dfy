/** Printing an expression and parsing the text gives the expression back (parser/parser.go). */
module Printing {
  import opened Bytes
  import opened Grammars

  // ------------------------------------------------------------ tokens in a text

  /** A token does not go on here. */
  predicate Boundary(t: string) { t == "" || !IsSym(t[0]) }

  predicate Gap(sp: string) { sp == "" || sp == " " }

  lemma TrimGap(sp: string, s: string)
    requires Gap(sp) && (s == "" || !IsSpace(s[0]))
    ensures Trim(sp + s) == s
  {
    if sp == "" { assert sp + s == s; } else { assert (sp + s)[1..] == s; }
  }

  lemma {:induction false} NumLenOf(s: string, t: string)
    requires (forall i :: 0 <= i < |s| ==> IsNum(s[i])) && (t == "" || !IsNum(t[0]))
    ensures NumLen(s + t) == |s|
  {
    if s == "" { assert s + t == t; } else { assert (s + t)[1..] == s[1..] + t; NumLenOf(s[1..], t); }
  }

  lemma {:induction false} StrLenOf(s: string, t: string)
    requires (forall i :: 0 <= i < |s| ==> IsStr(s[i])) && (t == "" || !IsStr(t[0]))
    ensures StrLen(s + t) == |s|
  {
    if s == "" { assert s + t == t; } else { assert (s + t)[1..] == s[1..] + t; StrLenOf(s[1..], t); }
  }

  lemma {:induction false} SymLenOf(s: string, t: string)
    requires (forall i :: 0 <= i < |s| ==> IsSym(s[i])) && Boundary(t)
    ensures SymLen(s + t) == |s|
  {
    if s == "" { assert s + t == t; } else { assert (s + t)[1..] == s[1..] + t; SymLenOf(s[1..], t); }
  }

  lemma {:induction false} DecDigits(n: nat)
    ensures forall i :: 0 <= i < |Dec(n)| ==> '0' <= Dec(n)[i] <= '9'
    ensures Digits(Dec(n)) == n
  {
    if n >= 10 {
      DecDigits(n / 10);
      assert Dec(n)[..|Dec(n)| - 1] == Dec(n / 10);
    } else {
      assert Dec(n)[..0] == "";
    }
  }

  /** A keyword that starts differently is not read here. */
  lemma KeywordMiss(sp: string, s: string, kw: string)
    requires Gap(sp) && kw != "" && (s == "" || (!IsSpace(s[0]) && Fold(s[0]) != Fold(kw[0])))
    ensures Keyword(sp + s, kw) == None
  {
    hide IsKeyword;
    TrimGap(sp, s);
    if s != "" && |kw| <= |s| { assert s[..|kw|][0] == s[0]; }
  }

  lemma KeywordHit(sp: string, kw: string, t: string)
    requires Gap(sp) && kw != "" && !IsSpace(kw[0]) && IsKeyword(kw)
    ensures Keyword(sp + (kw + t), kw) == Some(t)
  {
    hide IsKeyword;
    TrimGap(sp, kw + t);
    assert (kw + t)[..|kw|] == kw && (kw + t)[|kw|..] == t;
  }

  lemma Listed(i: nat, kw: string)
    requires i < |KEYWORDS| && KEYWORDS[i] == kw
    ensures IsKeyword(kw)
  {
    hide KEYWORDS;
    assert EqualFold(kw, KEYWORDS[i]);
  }

  lemma Known()
    ensures IsKeyword("(") && IsKeyword(")") && IsKeyword(",") && IsKeyword("-")
  {
    hide IsKeyword;
    Listed(12, ",");
    Listed(13, "(");
    Listed(14, ")");
    Listed(15, "-");
  }

  lemma KnownOp(op: Op)
    ensures IsKeyword(Text(op)) && !IsSpace(Text(op)[0])
  {
    hide IsKeyword;
    match op
    case Or => Listed(17, "or");
    case And => Listed(18, "and");
    case Le => Listed(25, "<=");
    case Ge => Listed(24, ">=");
    case Eq => Listed(26, "==");
    case Lt => Listed(29, "<");
    case Gt => Listed(28, ">");
    case Add => Listed(19, "+");
    case Sub => Listed(15, "-");
    case Mul => Listed(20, "*");
    case Div => Listed(21, "/");
    case Mod => Listed(22, "%");
  }

  // ------------------------------------------------------------ operators in a text

  /** No operator of the levels 2 to n is read here. */
  predicate Quiet(t: string, n: nat) { forall m :: 2 <= m <= n ==> FirstOp(Ops(m), t) == None }

  lemma {:induction false} FirstOpMiss(ops: seq<Op>, t: string)
    requires forall i :: 0 <= i < |ops| ==> Keyword(t, Text(ops[i])) == None
    ensures FirstOp(ops, t) == None
  {
    if ops != [] { FirstOpMiss(ops[1..], t); }
  }

  lemma {:induction false} FirstOpHit(ops: seq<Op>, i: nat, t: string, r: string)
    requires i < |ops| && Keyword(t, Text(ops[i])) == Some(r)
    requires forall j :: 0 <= j < i ==> Keyword(t, Text(ops[j])) == None
    ensures FirstOp(ops, t) == Some((ops[i], r))
  {
    hide Keyword, Text;
    if i > 0 { FirstOpHit(ops[1..], i - 1, t, r); }
  }

  /** Another operator is not read, unless it is a prefix of the one in the text. */
  lemma OtherOp(op: Op, other: Op, y: string)
    requires op != other && !(op == Le && other == Lt) && !(op == Ge && other == Gt)
    ensures Keyword(" " + (Text(op) + (" " + y)), Text(other)) == None
  {
    hide IsKeyword;
    var t := Text(op) + (" " + y);
    TrimGap(" ", t);
    var k := Text(other);
    if |k| <= |t| {
      assert t[..|k|][0] == t[0] == Text(op)[0];
      if |k| > 1 { assert t[..|k|][1] == t[1]; }
    }
  }

  lemma OpRead(op: Op, y: string)
    ensures FirstOp(Ops(Level(op)), " " + (Text(op) + (" " + y))) == Some((op, " " + y))
    ensures Quiet(" " + (Text(op) + (" " + y)), Level(op) - 1)
  {
    hide Keyword, IsKeyword, FirstOp, Text, IsSpace;
    var t := " " + (Text(op) + (" " + y));
    KnownOp(op);
    KeywordHit(" ", Text(op), " " + y);
    var i := Place(op);
    var ops := Ops(Level(op));
    forall j | 0 <= j < i ensures Keyword(t, Text(ops[j])) == None {
      Earlier(op, j);
      OtherOp(op, ops[j], y);
    }
    FirstOpHit(ops, i, t, " " + y);
    forall m | 2 <= m <= Level(op) - 1 ensures FirstOp(Ops(m), t) == None {
      forall j | 0 <= j < |Ops(m)| ensures Keyword(t, Text(Ops(m)[j])) == None {
        LowerLevel(op, m, j);
        OtherOp(op, Ops(m)[j], y);
      }
      FirstOpMiss(Ops(m), t);
    }
  }

  /** Where an operator stands in its level. */
  function Place(op: Op): (i: nat)
    ensures i < |Ops(Level(op))| && Ops(Level(op))[i] == op
  {
    match op
    case Ge => 1 case Sub => 1 case Div => 1 case Eq => 2 case Mod => 2 case Lt => 3 case Gt => 4
    case _ => 0
  }

  lemma Earlier(op: Op, j: nat)
    requires j < Place(op)
    ensures var o := Ops(Level(op))[j]; o != op && !(op == Le && o == Lt) && !(op == Ge && o == Gt)
  {
  }

  lemma LowerLevel(op: Op, m: nat, j: nat)
    requires 2 <= m < Level(op) && j < |Ops(m)|
    ensures var o := Ops(m)[j]; o != op && !(op == Le && o == Lt) && !(op == Ge && o == Gt)
  {
  }

  /** Behind an expression in parentheses or between commas, no operator is read. */
  lemma EndQuiet(c: char, t: string)
    requires c == ')' || c == ','
    ensures Quiet([c] + t, OR) && Boundary([c] + t)
  {
    hide Keyword, IsKeyword, FirstOp;
    forall m | 2 <= m <= OR ensures FirstOp(Ops(m), [c] + t) == None {
      forall i | 0 <= i < |Ops(m)| ensures Keyword([c] + t, Text(Ops(m)[i])) == None {
        KeywordMiss("", [c] + t, Text(Ops(m)[i]));
        assert "" + ([c] + t) == [c] + t;
      }
      FirstOpMiss(Ops(m), [c] + t);
    }
  }

  lemma NothingQuiet()
    ensures Quiet("", OR) && Boundary("")
  {
    hide Keyword, IsKeyword, FirstOp;
    forall m | 2 <= m <= OR ensures FirstOp(Ops(m), "") == None {
      forall i | 0 <= i < |Ops(m)| ensures Keyword("", Text(Ops(m)[i])) == None { KeywordMiss("", "", Text(Ops(m)[i])); }
      FirstOpMiss(Ops(m), "");
    }
  }

  // ------------------------------------------------------------ expressions in a text

  /** How a printed expression begins. */
  predicate Opening(c: char) { c == '(' || c == '@' || '0' <= c <= '9' || IsLetter(c) }

  lemma {:induction false} DecOpens(n: nat)
    ensures '0' <= Dec(n)[0] <= '9'
  {
    if n >= 10 { DecOpens(n / 10); }
  }

  lemma {:induction false} Opens(e: Node, l: nat)
    requires Printable(e)
    ensures Print(e, l) != "" && (Opening(Print(e, l)[0]) || (e.Neg? && l >= 1 && Print(e, l)[0] == '-') || (e.Bin? && l >= Prec(e) && Print(e, l)[0] == '-'))
    decreases e
  {
    match e
    case Num(n) => DecOpens(n);
    case Bin(op, a, b) => Opens(a, Level(op));
    case _ =>
  }

  lemma WordParsed(s: string, sp: string, tail: string)
    requires Printable(Word(s)) && Gap(sp) && Boundary(tail)
    ensures ParseAtom(sp + (s + tail)) == Res(Word(s), tail, true)
  {
    hide IsKeyword, Keyword;
    var t := s + tail;
    TrimGap(sp, t);
    TrimGap("", t);
    assert "" + t == t;
    KeywordMiss(sp, t, "(");
    StrLenOf(s, tail);
    assert t[..|s|] == s && t[|s|..] == tail;
    assert NumLen(t) == 0 && t[..0] == "";
  }

  lemma SymParsed(s: string, sp: string, tail: string)
    requires Printable(Sym(s)) && Gap(sp) && Boundary(tail)
    ensures ParseAtom(sp + ("@" + s + tail)) == Res(Sym(s), tail, true)
  {
    hide IsKeyword, Keyword;
    var t := "@" + s + tail;
    TrimGap(sp, t);
    KeywordMiss(sp, t, "(");
    SymLenOf(s, tail);
    assert t[1..] == s + tail;
    assert t[1..][..|s|] == s && t[1..][|s|..] == tail;
  }

  lemma NumParsed(n: nat, sp: string, tail: string)
    requires n <= MAX_INT64 && Gap(sp) && Boundary(tail)
    ensures ParseAtom(sp + (Dec(n) + tail)) == Res(Num(n), tail, true)
  {
    hide IsKeyword, Keyword, NumToken, SymToken, WordToken, Dec;
    var t := Dec(n) + tail;
    DecDigits(n);
    KeywordMiss(sp, t, "(");
    NoSymbol(sp, t);
    NumRead(n, tail);
  }

  /** What begins with a digit is no symbol. */
  lemma NoSymbol(sp: string, t: string)
    requires Gap(sp) && t != "" && IsNum(t[0])
    ensures SymToken(sp + t) == (None, t)
  {
    TrimGap(sp, t);
  }

  lemma NumRead(n: nat, tail: string)
    requires n <= MAX_INT64 && Boundary(tail)
    ensures NumToken(Dec(n) + tail) == (Some(Num(n)), tail)
  {
    hide Dec;
    var s := Dec(n);
    var t := s + tail;
    DecDigits(n);
    TrimGap("", t);
    assert "" + t == t;
    NumLenOf(s, tail);
    assert t[..|s|] == s && t[|s|..] == tail;
  }

  /** What parsing a printed expression yields, with tail behind it. */
  function Parsed(e: Node, l: nat, tail: string): Res { if l >= 2 then Loop(l, Res(e, tail, true)) else Res(e, tail, true) }

  /** An expression in parentheses. */
  lemma {:induction false} GroupParsed(e: Node, sp: string, tail: string)
    requires Printable(e) && Gap(sp)
    ensures ParseAtom(sp + ("(" + Bare(e) + ")" + tail)) == Res(e, tail, true)
    decreases e, 101
  {
    hide Keyword, IsKeyword, Bare, Parse, Loop, Commas, FirstOp;
    Known();
    var r := Bare(e) + (")" + tail);
    assert "(" + Bare(e) + ")" + tail == "(" + r;
    KeywordHit(sp, "(", r);
    EndQuiet(')', tail);
    assert [')'] + tail == ")" + tail;
    PrintParsed(e, OR, "", ")" + tail);
    assert "" + (Print(e, OR) + (")" + tail)) == r;
    LoopEnds(OR, Res(e, ")" + tail, true));
    CommasEnd([e], ")" + tail);
    CloseRead(tail);
  }

  lemma LoopEnds(l: nat, r: Res)
    requires 2 <= l <= OR && Quiet(r.rest, l)
    ensures Loop(l, r) == r
  {
    hide FirstOp;
  }

  lemma CommasEnd(kids: seq<Node>, t: string)
    requires kids != [] && t != "" && t[0] == ')'
    ensures Commas(kids, t, true) == Res(if |kids| > 1 then Tup(kids) else kids[0], t, true)
  {
    hide Keyword;
    KeywordMiss("", t, ",");
    assert "" + t == t;
  }

  lemma CloseRead(tail: string)
    ensures Keyword(")" + tail, ")") == Some(tail)
  {
    hide Keyword, IsKeyword;
    Known();
    KeywordHit("", ")", tail);
    assert "" + (")" + tail) == ")" + tail;
  }

  /** The kids of a tuple from the i-th on. */
  lemma {:induction false} KidsParsed(e: Node, i: nat, sp: string, tail: string)
    requires e.Tup? && Printable(e) && 0 < i < |e.kids|
    ensures Commas(e.kids[..i], ", " + (Join(e.kids[i..]) + (")" + tail)), true) == Res(e, ")" + tail, true)
    decreases e, 0, |e.kids| - i
  {
    hide Keyword, IsKeyword, Parse, Loop, FirstOp, Print, Printable;
    Known();
    var kids := e.kids;
    PrintableKid(e, i);
    var k, rest := kids[i], if i + 1 < |kids| then ", " + (Join(kids[i + 1..]) + (")" + tail)) else ")" + tail;
    JoinFrom(kids, i, tail, rest);
    KeywordHit("", ",", " " + (Print(k, OR) + rest));
    assert "" + ("," + (" " + (Print(k, OR) + rest))) == ", " + (Join(kids[i..]) + (")" + tail));
    EndQuiet(rest[0], rest[1..]);
    assert [rest[0]] + rest[1..] == rest;
    PrintParsed(k, OR, " ", rest);
    LoopEnds(OR, Res(k, rest, true));
    assert kids[..i] + [k] == kids[..i + 1];
    if i + 1 < |kids| {
      KidsParsed(e, i + 1, "", tail);
    } else {
      CommasEnd(kids, rest);
    }
  }

  lemma PrintableKid(e: Node, i: nat)
    requires e.Tup? && Printable(e) && i < |e.kids|
    ensures Printable(e.kids[i])
  {
  }

  lemma JoinFrom(kids: seq<Node>, i: nat, tail: string, rest: string)
    requires i < |kids| && rest == if i + 1 < |kids| then ", " + (Join(kids[i + 1..]) + (")" + tail)) else ")" + tail
    ensures Join(kids[i..]) + (")" + tail) == Print(kids[i], OR) + rest
  {
    hide Print;
    var s := kids[i..];
    assert s[0] == kids[i] && s[1..] == kids[i + 1..];
  }

  /** A tuple. */
  lemma {:induction false} TupParsed(e: Node, sp: string, tail: string)
    requires e.Tup? && Printable(e) && Gap(sp)
    ensures ParseAtom(sp + (Bare(e) + tail)) == Res(e, tail, true)
    decreases e, 1
  {
    hide Keyword, IsKeyword, Parse, Loop, FirstOp, Print, Commas, Printable;
    Known();
    var kids := e.kids;
    TupKids(e);
    PrintableKid(e, 0);
    var rest := ", " + (Join(kids[1..]) + (")" + tail));
    JoinFrom(kids, 0, tail, rest);
    assert kids[0..] == kids;
    var r := Print(kids[0], OR) + rest;
    assert Bare(e) + tail == "(" + r;
    KeywordHit(sp, "(", r);
    EndQuiet(',', rest[1..]);
    assert [','] + rest[1..] == rest;
    PrintParsed(kids[0], OR, "", rest);
    assert "" + (Print(kids[0], OR) + rest) == r;
    LoopEnds(OR, Res(kids[0], rest, true));
    KidsParsed(e, 1, "", tail);
    assert kids[..1] == [kids[0]];
    CloseRead(tail);
  }

  lemma TupKids(e: Node)
    requires e.Tup? && Printable(e)
    ensures |e.kids| > 1
  {
  }

  /** An operator's left operand has been parsed as far as it goes on its own level; the operator and the right operand follow. */
  lemma {:induction false} BinParsed(e: Node, sp: string, tail: string)
    requires e.Bin? && Printable(e) && Gap(sp) && Boundary(tail) && Quiet(tail, Level(e.op) - 1)
    ensures Parse(Level(e.op), sp + (Bare(e) + tail)) == Loop(Level(e.op), Res(e, tail, true))
    decreases e, 3
  {
    hide Keyword, IsKeyword, Parse, FirstOp, Print, Printable, Quiet, Text;
    var m, a, b := Level(e.op), e.left, e.right;
    BinKids(e);
    var y := Print(b, m - 1) + tail;
    var t := " " + (Text(e.op) + (" " + y));
    assert Bare(e) + tail == Print(a, m) + t;
    OpRead(e.op, y);
    QuietLess(tail, m - 1);
    PrintParsed(a, m, sp, t);
    PrintParsed(b, m - 1, " ", tail);
    if m - 1 >= 2 { LoopEnds(m - 1, Res(b, tail, true)); }
    assert Parsed(a, m, t) == Loop(m, Res(a, t, true));
    assert Parse(m - 1, " " + y) == Res(b, tail, true);
  }

  lemma BinKids(e: Node)
    requires e.Bin? && Printable(e)
    ensures Printable(e.left) && Printable(e.right)
  {
  }

  lemma QuietLess(t: string, n: nat)
    requires Quiet(t, n)
    ensures forall m: nat :: m <= n ==> Quiet(t, m)
  {
    hide FirstOp;
  }

  /**
   * Any printable expression, at any level, behind at most a space and in front of text that neither
   * goes on with a token nor with an operator of a lower level: it is parsed back.
   */
  lemma {:induction false} PrintParsed(e: Node, l: nat, sp: string, tail: string)
    requires Printable(e) && l <= OR && Gap(sp) && Boundary(tail) && Quiet(tail, if l == 0 then 0 else l - 1)
    ensures Parse(l, sp + (Print(e, l) + tail)) == Parsed(e, l, tail)
    decreases e, (if Prec(e) > l then 105 else 5) + 10 * l
  {
    hide Keyword, IsKeyword, FirstOp, Bare, Printable, Quiet, Loop, ParseAtom;
    if l == 0 {
      AtomParsed(e, sp, tail);
    } else if l == 1 {
      UnaryParsed(e, sp, tail);
    } else if e.Bin? && Level(e.op) == l {
      BinParsed(e, sp, tail);
    } else {
      QuietLess(tail, l - 1);
      PrintParsed(e, l - 1, sp, tail);
      assert Print(e, l) == Print(e, l - 1);
      if l - 1 >= 2 { LoopEnds(l - 1, Res(e, tail, true)); }
    }
  }

  lemma {:induction false} AtomParsed(e: Node, sp: string, tail: string)
    requires Printable(e) && Gap(sp) && Boundary(tail)
    ensures ParseAtom(sp + (Print(e, 0) + tail)) == Res(e, tail, true)
    decreases e, if Prec(e) > 0 then 102 else 2
  {
    hide Keyword, IsKeyword, ParseAtom;
    match e
    case Word(s) => WordParsed(s, sp, tail);
    case Num(n) => NumParsed(n, sp, tail);
    case Sym(s) => SymParsed(s, sp, tail);
    case Tup(_) => TupParsed(e, sp, tail);
    case Neg(_) => GroupParsed(e, sp, tail);
    case Bin(_, _, _) => GroupParsed(e, sp, tail);
  }

  lemma {:induction false} UnaryParsed(e: Node, sp: string, tail: string)
    requires Printable(e) && Gap(sp) && Boundary(tail)
    ensures Parse(1, sp + (Print(e, 1) + tail)) == Res(e, tail, true)
    decreases e, if Prec(e) > 1 then 112 else 12
  {
    hide Keyword, IsKeyword, ParseAtom, Printable;
    if e.Neg? {
      Known();
      NegKid(e);
      var r := Print(e.kid, 0) + tail;
      assert Print(e, 1) + tail == "-" + r;
      KeywordHit(sp, "-", r);
      AtomParsed(e.kid, "", tail);
      assert "" + r == r;
    } else {
      Opens(e, 1);
      KeywordMiss(sp, Print(e, 1) + tail, "-");
      AtomParsed(e, sp, tail);
      assert Print(e, 1) == Print(e, 0);
    }
  }

  lemma NegKid(e: Node)
    requires e.Neg? && Printable(e)
    ensures Printable(e.kid)
  {
  }

  /** Parsing undoes printing, and consumes exactly the text. */
  lemma ExpressionRoundTrip(e: Node)
    requires Printable(e)
    ensures Parse(OR, Print(e, OR)) == Res(e, "", true)
  {
    hide Parse, Print, Loop;
    NothingQuiet();
    QuietLess("", OR);
    PrintParsed(e, OR, "", "");
    LoopEnds(OR, Res(e, "", true));
    assert "" + (Print(e, OR) + "") == Print(e, OR);
  }

  /** So no two expressions have the same text. */
  lemma PrintInjective(a: Node, b: Node)
    requires Printable(a) && Printable(b) && Print(a, OR) == Print(b, OR)
    ensures a == b
  {
    ExpressionRoundTrip(a);
    ExpressionRoundTrip(b);
  }
}
