/**
 * The expression grammar of parser/parser.go and the tokens of parser/lexer.go, as functions from the
 * text that is left. A character stands for a byte of the input, read as a Latin-1 character.
 */
module Grammars {
  import opened Bytes

  // ------------------------------------------------------------ characters

  predicate IsSpace(c: char) { c == ' ' || '\t' <= c <= '\r' || c as int == 0x85 || c as int == 0xA0 }

  predicate IsLetter(c: char) {
    'a' <= c <= 'z' || 'A' <= c <= 'Z' || c as int in {0xAA, 0xB5, 0xBA}
    || (0xC0 <= c as int <= 0xFF && c as int !in {0xD7, 0xF7})
  }

  predicate IsNum(c: char) { '0' <= c <= '9' || c as int in {0xB2, 0xB3, 0xB9, 0xBC, 0xBD, 0xBE} }

  predicate IsStr(c: char) { IsLetter(c) || IsNum(c) }

  predicate IsSym(c: char) { IsLetter(c) || IsNum(c) || c == '_' }

  function Fold(c: char): char { if 'A' <= c <= 'Z' then ((c as int) + 32) as char else c }

  predicate EqualFold(a: string, b: string) { |a| == |b| && forall i :: 0 <= i < |a| ==> Fold(a[i]) == Fold(b[i]) }

  const KEYWORDS: seq<string> := [
    "create", "table", "select", "index", "by", "upsert",
    "insert", "filter", "into", "delete", "from", "update", ",",
    "(", ")", "-", "as", "or", "and", "+", "*", "/", "%", ";",
    ">=", "<=", "==", "=", ">", "<", "offset", "limit", "primary", "key",
    "values", "set"]

  predicate IsKeyword(s: string) { exists i :: 0 <= i < |KEYWORDS| && EqualFold(s, KEYWORDS[i]) }

  // ------------------------------------------------------------ tokens

  function Trim(s: string): (r: string)
    ensures |r| <= |s|
    ensures r != [] ==> !IsSpace(r[0])
  {
    if s != [] && IsSpace(s[0]) then Trim(s[1..]) else s
  }

  /** How many characters at the beginning are of a class. */
  function NumLen(s: string): (n: nat)
    ensures n <= |s|
  {
    if s != [] && IsNum(s[0]) then 1 + NumLen(s[1..]) else 0
  }

  function StrLen(s: string): (n: nat)
    ensures n <= |s|
  {
    if s != [] && IsStr(s[0]) then 1 + StrLen(s[1..]) else 0
  }

  function SymLen(s: string): (n: nat)
    ensures n <= |s|
  {
    if s != [] && IsSym(s[0]) then 1 + SymLen(s[1..]) else 0
  }

  /** The text behind a keyword, which need not end where a word ends. */
  function Keyword(s: string, kw: string): (r: Option<string>)
    ensures r.Some? ==> |r.value| + |kw| <= |s|
  {
    var t := Trim(s);
    if |kw| <= |t| && EqualFold(t[..|kw|], kw) && IsKeyword(kw) then Some(t[|kw|..]) else None
  }

  function Keywords(s: string, kws: seq<string>): Option<string>
    decreases |kws|
  {
    if kws == [] then Some(s)
    else match Keyword(s, kws[0]) case None => None case Some(r) => Keywords(r, kws[1..])
  }

  const MAX_INT64 := 0x7fff_ffff_ffff_ffff

  function Digits(s: string): nat {
    if s == [] then 0 else 10 * Digits(s[..|s| - 1]) + Digit(s[|s| - 1])
  }

  function Digit(c: char): nat { if '0' <= c <= '9' then c as int - '0' as int else 0 }

  /** strconv.Atoi on characters of class Num; None is an error. */
  function Atoi(s: string): Option<nat> {
    if s == [] || Digits(s) > MAX_INT64 || exists i :: 0 <= i < |s| && !('0' <= s[i] <= '9') then None else Some(Digits(s))
  }

  datatype Op = Or | And | Le | Ge | Eq | Lt | Gt | Add | Sub | Mul | Div | Mod

  datatype Node = Word(s: string) | Num(n: nat) | Sym(s: string) | Neg(kid: Node) | Bin(op: Op, left: Node, right: Node) | Tup(kids: seq<Node>) | Bad

  /** A token, or none, and what is left in either case: spaces, and an @ in front of a keyword, are gone. */
  function SymToken(s: string): (r: (Option<Node>, string))
    ensures |r.1| <= |s|
  {
    var t := Trim(s);
    if t == [] || t[0] != '@' then (None, t) else
    var n := SymLen(t[1..]);
    if IsKeyword(t[1..][..n]) then (None, t[1..]) else (Some(Sym(t[1..][..n])), t[1..][n..])
  }

  function NumToken(s: string): (r: (Option<Node>, string))
    ensures |r.1| <= |s|
  {
    var t := Trim(s);
    match Atoi(t[..NumLen(t)]) case None => (None, t) case Some(n) => (Some(Num(n)), t[NumLen(t)..])
  }

  function WordToken(s: string): (r: (Option<Node>, string))
    ensures |r.1| <= |s|
  {
    var t := Trim(s);
    if t == [] || IsKeyword(t[..StrLen(t)]) then (None, t) else (Some(Word(t[..StrLen(t)])), t[StrLen(t)..])
  }

  // ------------------------------------------------------------ expressions

  function Text(op: Op): (s: string)
    ensures s != []
  {
    match op
    case Or => "or" case And => "and" case Le => "<=" case Ge => ">=" case Eq => "==" case Lt => "<" case Gt => ">"
    case Add => "+" case Sub => "-" case Mul => "*" case Div => "/" case Mod => "%"
  }

  const OR := 6

  /** The operators of a level, from pExprOr (6) down to pExprMul (2); 1 is pExprUnOp and 0 pExprAtom. */
  function Ops(l: nat): seq<Op> {
    match l
    case 6 => [Or] case 5 => [And] case 4 => [Le, Ge, Eq, Lt, Gt] case 3 => [Add, Sub] case 2 => [Mul, Div, Mod]
    case _ => []
  }

  /** The first operator of the list that the text begins with. */
  function FirstOp(ops: seq<Op>, s: string): (r: Option<(Op, string)>)
    ensures r.Some? ==> |r.value.1| < |s|
  {
    if ops == [] then None
    else match Keyword(s, Text(ops[0])) case Some(r) => Some((ops[0], r)) case None => FirstOp(ops[1..], s)
  }

  /** What is parsed, what is left, and whether there has been no error. */
  datatype Res = Res(node: Node, rest: string, ok: bool)

  function Parse(l: nat, s: string): (r: Res)
    ensures |r.rest| <= |s|
    decreases |s|, l, 1
  {
    if l == 0 then ParseAtom(s)
    else if l == 1 then
      match Keyword(s, "-")
      case Some(r) => (var a := ParseAtom(r); Res(Neg(a.node), a.rest, a.ok))
      case None => ParseAtom(s)
    else Loop(l, Parse(l - 1, s))
  }

  /** pExprBinOp's loop, behind the left operand. */
  function Loop(l: nat, left: Res): (r: Res)
    requires l >= 2
    ensures |r.rest| <= |left.rest|
    decreases |left.rest|, l, 0
  {
    match FirstOp(Ops(l), left.rest)
    case None => left
    case Some((op, r)) =>
      var right := Parse(l - 1, r);
      Loop(l, Res(Bin(op, left.node, right.node), right.rest, left.ok && right.ok))
  }

  function ParseAtom(s: string): (r: Res)
    ensures |r.rest| <= |s|
    decreases |s|, 0, 0
  {
    match Keyword(s, "(")
    case Some(r) =>
      var t := ParseTuple(r);
      (match Keyword(t.rest, ")") case Some(q) => Res(t.node, q, t.ok) case None => Res(t.node, t.rest, false))
    case None =>
      var a := SymToken(s);
      if a.0.Some? then Res(a.0.value, a.1, true) else
      var b := NumToken(a.1);
      if b.0.Some? then Res(b.0.value, b.1, true) else
      var c := WordToken(b.1);
      if c.0.Some? then Res(c.0.value, c.1, true) else Res(Bad, c.1, false)
  }

  function ParseTuple(s: string): (r: Res)
    ensures |r.rest| <= |s|
    decreases |s|, OR + 1, 1
  {
    var k := Parse(OR, s);
    Commas([k.node], k.rest, k.ok)
  }

  /** pExprTuple's loop, behind its first kids. */
  function Commas(kids: seq<Node>, s: string, ok: bool): (r: Res)
    requires kids != []
    ensures |r.rest| <= |s|
    decreases |s|, OR + 1, 0
  {
    match Keyword(s, ",")
    case None => Res(if |kids| > 1 then Tup(kids) else kids[0], s, ok)
    case Some(q) => (var k := Parse(OR, q); Commas(kids + [k.node], k.rest, ok && k.ok))
  }

  // ------------------------------------------------------------ printing

  function Level(op: Op): (l: nat)
    ensures 2 <= l <= OR && op in Ops(l)
  {
    match op
    case Or => 6 case And => 5 case Add => 3 case Sub => 3 case Mul => 2 case Div => 2 case Mod => 2
    case _ => 4
  }

  /** The lowest level that the expression belongs to. */
  function Prec(e: Node): (l: nat)
    ensures l <= OR
  {
    match e case Bin(op, _, _) => Level(op) case Neg(_) => 1 case _ => 0
  }

  function Dec(n: nat): (s: string)
    ensures s != []
  {
    if n < 10 then [('0' as int + n) as char] else Dec(n / 10) + [('0' as int + n % 10) as char]
  }

  /** With parentheses only where the level or the left-to-right order of operators asks for them. */
  function Print(e: Node, l: nat): string
    decreases e, 1
  {
    if Prec(e) > l then "(" + Bare(e) + ")" else Bare(e)
  }

  function Bare(e: Node): string
    decreases e, 0
  {
    match e
    case Word(s) => s
    case Num(n) => Dec(n)
    case Sym(s) => "@" + s
    case Neg(k) => "-" + Print(k, 0)
    case Bin(op, a, b) => Print(a, Level(op)) + " " + Text(op) + " " + Print(b, Level(op) - 1)
    case Tup(kids) => "(" + Join(kids) + ")"
    case Bad => ""
  }

  function Join(kids: seq<Node>): string
    decreases kids
  {
    if kids == [] then ""
    else if |kids| == 1 then Print(kids[0], OR)
    else Print(kids[0], OR) + ", " + Join(kids[1..])
  }

  /** Words and symbols that are no keywords, numbers of an int64, and tuples of two or more. */
  predicate Printable(e: Node) {
    match e
    case Word(s) => s != [] && IsLetter(s[0]) && (forall i :: 0 <= i < |s| ==> IsStr(s[i])) && !IsKeyword(s)
    case Num(n) => n <= MAX_INT64
    case Sym(s) => (forall i :: 0 <= i < |s| ==> IsSym(s[i])) && !IsKeyword(s)
    case Neg(k) => Printable(k)
    case Bin(_, a, b) => Printable(a) && Printable(b)
    case Tup(kids) => |kids| > 1 && forall i :: 0 <= i < |kids| ==> Printable(kids[i])
    case Bad => false
  }
}
