/** Parser (parser/parser.go, parser/lexer.go): recursive descent that moves idx through the input. */
module Parsers {
  import opened Bytes
  import opened Grammars

  class Parser {
    const input: string
    var idx: nat
    var err: bool  // whether pErr has been called

    constructor (input: string)
      ensures this.input == input && idx == 0 && !err
    {
      this.input, idx, err := input, 0, false;
    }

    ghost predicate Valid()
      reads this
    {
      idx <= |input|
    }

    /** The text that is left. */
    ghost function Rest(): string
      requires Valid()
      reads this
    {
      input[idx..]
    }

    method SkipSpace()
      requires Valid()
      modifies this`idx
      ensures Valid() && Rest() == Trim(old(Rest())) && idx >= old(idx)
    {
      while idx < |input| && IsSpace(input[idx])
        invariant Valid() && Trim(Rest()) == Trim(old(Rest())) && idx >= old(idx)
      {
        assert Rest()[1..] == input[idx + 1..];
        idx := idx + 1;
      }
    }

    method IsValidKeyword(s: string) returns (b: bool)
      ensures b == IsKeyword(s)
    {
      hide KEYWORDS;
      for i := 0 to |KEYWORDS|
        invariant forall j :: 0 <= j < i ==> !EqualFold(s, KEYWORDS[j])
      {
        if EqualFold(s, KEYWORDS[i]) { return true; }
      }
      return false;
    }

    /** pkeyword: all of the keywords, or nothing. */
    method PKeyword(kwds: seq<string>) returns (ok: bool)
      requires Valid()
      modifies this`idx
      ensures Valid() && (ok <==> Keywords(old(Rest()), kwds).Some?)
      ensures if ok then Keywords(old(Rest()), kwds) == Some(Rest()) else idx == old(idx)
    {
      hide Keyword, IsKeyword;
      var save := idx;
      assert kwds[0..] == kwds;
      for i := 0 to |kwds|
        invariant Valid() && Keywords(old(Rest()), kwds) == Keywords(Rest(), kwds[i..])
      {
        var kw := kwds[i];
        ghost var s := Rest();
        assert kwds[i..][0] == kw && kwds[i..][1..] == kwds[i + 1..];
        SkipSpace();
        var start, end := idx, idx + |kw|;
        KeywordFrom(s, Rest(), kw);
        if end > |input| {
          idx := save;
          return false;
        }
        assert input[start..end] == Rest()[..|kw|] && input[end..] == Rest()[|kw|..];
        var same := EqualFold(input[start..end], kw);
        var sym := IsValidKeyword(kw);
        if !same || !sym {
          idx := save;
          return false;
        }
        idx := end;
      }
      return true;
    }

    /** pSym's loop. */
    method SymEnd() returns (ptr: nat)
      requires Valid()
      ensures idx <= ptr <= |input| && ptr - idx == SymLen(Rest())
      ensures input[idx..ptr] == Rest()[..ptr - idx] && input[ptr..] == Rest()[ptr - idx..]
    {
      ptr := idx;
      while ptr < |input| && IsSym(input[ptr])
        invariant idx <= ptr <= |input|
        invariant SymLen(Rest()) == ptr - idx + SymLen(input[ptr..])
      {
        assert input[ptr..][1..] == input[ptr + 1..];
        ptr := ptr + 1;
      }
    }

    /** pSym, pNum and pStr: a token, or the place where the attempt ended. */
    method PSym() returns (ok: bool, node: Node)
      requires Valid()
      modifies this`idx
      ensures Valid() && Rest() == SymToken(old(Rest())).1
      ensures SymToken(old(Rest())).0 == if ok then Some(node) else None
    {
      hide IsKeyword, Trim, SymLen, IsSym;
      SkipSpace();
      ghost var t := Rest();
      if idx >= |input| || input[idx] != '@' { return false, Bad; }
      idx := idx + 1;
      assert t[1..] == Rest();
      var ptr := SymEnd();
      var reserved := IsValidKeyword(input[idx..ptr]);
      if reserved { return false, Bad; }
      node := Sym(input[idx..ptr]);
      idx := ptr;
      return true, node;
    }

    method PNum() returns (ok: bool, node: Node)
      requires Valid()
      modifies this`idx
      ensures Valid() && Rest() == NumToken(old(Rest())).1
      ensures NumToken(old(Rest())).0 == if ok then Some(node) else None
    {
      hide Atoi, Trim;
      SkipSpace();
      var ptr := idx;
      if ptr >= |input| {
        NoNumber();
        assert Rest()[..0] == "";
        return false, Bad;
      }
      while ptr < |input| && IsNum(input[ptr])
        invariant idx <= ptr <= |input|
        invariant NumLen(Rest()) == ptr - idx + NumLen(input[ptr..])
      {
        assert input[ptr..][1..] == input[ptr + 1..];
        ptr := ptr + 1;
      }
      assert input[idx..ptr] == Rest()[..ptr - idx];
      var num := Atoi(input[idx..ptr]);
      if num.None? { return false, Bad; }
      assert input[ptr..] == Rest()[ptr - idx..];
      idx := ptr;
      return true, Num(num.value);
    }

    method PStr() returns (ok: bool, node: Node)
      requires Valid()
      modifies this`idx
      ensures Valid() && Rest() == WordToken(old(Rest())).1
      ensures WordToken(old(Rest())).0 == if ok then Some(node) else None
    {
      hide IsKeyword, Trim;
      SkipSpace();
      var ptr := idx;
      if ptr >= |input| { return false, Bad; }
      while ptr < |input| && IsStr(input[ptr])
        invariant idx <= ptr <= |input|
        invariant StrLen(Rest()) == ptr - idx + StrLen(input[ptr..])
      {
        assert input[ptr..][1..] == input[ptr + 1..];
        ptr := ptr + 1;
      }
      assert input[idx..ptr] == Rest()[..ptr - idx];
      var reserved := IsValidKeyword(input[idx..ptr]);
      if reserved { return false, Bad; }
      node := Word(input[idx..ptr]);
      assert input[ptr..] == Rest()[ptr - idx..];
      idx := ptr;
      return true, node;
    }

    /** r is what has been parsed. */
    twostate predicate Did(r: Res, node: Node)
      reads this
    {
      old(Valid()) && Valid() && r.node == node && r.rest == Rest() && err == (old(err) || !r.ok)
    }

    /** pExprBinOp, on the operators of a level. */
    method PExprBinOp(l: nat) returns (node: Node)
      requires Valid() && 2 <= l <= OR
      modifies this`idx, this`err
      ensures Did(Parse(l, old(Rest())), node)
      decreases |input| - idx, l, 1
    {
      hide Parse, FirstOp, Keyword;
      ghost var s0, e0 := Rest(), err;
      var left := PExpr(l - 1);
      ParseStep(l, s0);
      ghost var ok := Parse(l - 1, s0).ok;
      var ops, more := Ops(l), true;
      while more
        invariant Valid() && idx >= old(idx) && err == (e0 || !ok)
        invariant Parse(l, s0) == if more then Loop(l, Res(left, Rest(), ok)) else Res(left, Rest(), ok)
        decreases |input| - idx, more
      {
        more := false;
        ghost var s := Rest();
        var i := FindOp(ops);
        if i < |ops| {
          var right := PExpr(l - 1);
          ok := ok && Parse(l - 1, FirstOp(ops, s).value.1).ok;
          left := Bin(ops[i], left, right);
          more := true;
        }
      }
      node := left;
    }

    /** pExprBinOp's loop over the operators. */
    method FindOp(ops: seq<Op>) returns (i: nat)
      requires Valid()
      modifies this`idx
      ensures Valid() && i <= |ops|
      ensures i < |ops| ==> FirstOp(ops, old(Rest())) == Some((ops[i], Rest())) && idx > old(idx)
      ensures i == |ops| ==> FirstOp(ops, old(Rest())) == None && idx == old(idx)
    {
      hide Keyword;
      assert ops[0..] == ops;
      for j := 0 to |ops|
        invariant idx == old(idx) && FirstOp(ops, Rest()) == FirstOp(ops[j..], Rest())
      {
        assert ops[j..][0] == ops[j] && ops[j..][1..] == ops[j + 1..];
        OneKeyword(Rest(), Text(ops[j]));
        var found := PKeyword([Text(ops[j])]);
        if found { return j; }
      }
      return |ops|;
    }

    /** pExprOr, pExprAnd, pExprCmp, pExprAdd, pExprMul, pExprUnOp and pExprAtom, from level 6 down to 0. */
    method PExpr(l: nat) returns (node: Node)
      requires Valid() && l <= OR
      modifies this`idx, this`err
      ensures Did(Parse(l, old(Rest())), node)
      decreases |input| - idx, l, 2
    {
      hide Parse, ParseAtom;
      if l >= 2 {
        node := PExprBinOp(l);
      } else if l == 1 {
        node := PExprUnOp();
      } else {
        ParseZero(Rest());
        node := PExprAtom();
      }
    }

    method PExprUnOp() returns (node: Node)
      requires Valid()
      modifies this`idx, this`err
      ensures Did(Parse(1, old(Rest())), node)
      decreases |input| - idx, 1, 1
    {
      hide Keyword, ParseAtom;
      OneKeyword(Rest(), "-");
      var minus := PKeyword(["-"]);
      if minus {
        var kid := PExprAtom();
        node := Neg(kid);
      } else {
        node := PExprAtom();
      }
    }

    method PExprAtom() returns (node: Node)
      requires Valid()
      modifies this`idx, this`err
      ensures Did(ParseAtom(old(Rest())), node)
      decreases |input| - idx, 0, 1
    {
      hide Keyword, ParseTuple, SymToken, NumToken, WordToken;
      OneKeyword(Rest(), "(");
      var open := PKeyword(["("]);
      if open {
        node := PExprTuple();
        OneKeyword(Rest(), ")");
        var close := PKeyword([")"]);
        if !close { err := true; }
        return node;
      }
      var ok;
      ok, node := PSym();
      if ok { return node; }
      ok, node := PNum();
      if ok { return node; }
      ok, node := PStr();
      if ok { return node; }
      err := true;
      return Bad;
    }

    method PExprTuple() returns (node: Node)
      requires Valid()
      modifies this`idx, this`err
      ensures Did(ParseTuple(old(Rest())), node)
      decreases |input| - idx, OR + 1, 1
    {
      hide Keyword, Parse;
      ghost var s0, e0 := Rest(), err;
      var first := PExpr(OR);
      var kids := [first];
      ghost var ok := Parse(OR, s0).ok;
      OneKeyword(Rest(), ",");
      ghost var s := Rest();
      var comma := PKeyword([","]);
      while comma
        invariant Valid() && idx >= old(idx) && (comma ==> idx > old(idx)) && kids != [] && err == (e0 || !ok)
        invariant ParseTuple(s0) == Commas(kids, s, ok)
        invariant Keyword(s, ",") == if comma then Some(Rest()) else None
        invariant !comma ==> s == Rest()
        decreases |input| - idx, comma
      {
        ok := ok && Parse(OR, Rest()).ok;
        var kid := PExpr(OR);
        kids := kids + [kid];
        s := Rest();
        OneKeyword(s, ",");
        comma := PKeyword([","]);
      }
      node := if |kids| > 1 then Tup(kids) else kids[0];
    }
  }

  lemma KeywordFrom(s: string, t: string, kw: string)
    requires t == Trim(s)
    ensures Keyword(s, kw) == if |kw| <= |t| && EqualFold(t[..|kw|], kw) && IsKeyword(kw) then Some(t[|kw|..]) else None
  {
  }

  lemma OneKeyword(s: string, kw: string)
    ensures Keywords(s, [kw]) == Keyword(s, kw)
    ensures Keyword(s, kw).Some? && kw != "" ==> |Keyword(s, kw).value| < |s|
  {
    hide Keyword;
    assert [kw][1..] == [];
  }

  lemma ParseStep(l: nat, s: string)
    ensures l >= 2 ==> Parse(l, s) == Loop(l, Parse(l - 1, s))
  {
  }

  lemma ParseZero(s: string)
    ensures Parse(0, s) == ParseAtom(s)
  {
  }

  lemma NoNumber()
    ensures Atoi("") == None && NumLen("") == 0
  {
  }
}
