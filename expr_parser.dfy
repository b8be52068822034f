/** The parser of shift expressions (src/expr.rs) as the source writes it:
    an object holding the input and a cursor, whose methods consume
    characters step by step. Each method is proved to do what the
    matching function of module `Expr` says. */
module ExprParser {
  import opened Wrappers
  import opened Strings
  import opened Expr

  /** The state of the loop in `parse_key_selection`: the fragment being
      read and, after the first operator, the fragments before it. */
  datatype SelectionState =
    | InLiteral(buf: string)
    | InPipe(buf: string, bufs: seq<string>)
    | InStars(buf: string, bufs: seq<string>)

  /** `st` is the state after reading `u`: the first operator of `u` picks
      the mode, and the fragments are `u` split on that operator. */
  predicate ReadInto(st: SelectionState, u: string)
  {
    match st
    case InLiteral(buf) => FirstOperator(u).None? && buf == u
    case InStars(buf, bufs) => FirstOperator(u) == Some('*') && bufs + [buf] == SplitOn(u, '*')
    case InPipe(buf, bufs) => FirstOperator(u) == Some('|') && bufs + [buf] == SplitOn(u, '|')
  }

  /** Entries parsed so far in front of the outcome of parsing the rest. */
  function Prepend(es: seq<RhsEntry>, r: Result<seq<RhsEntry>, ExprError>): Result<seq<RhsEntry>, ExprError>
  {
    match r
    case Ok(rest) => Ok(es + rest)
    case Err(e) => Err(e)
  }

  class Parser {
    const input: string
    var idx: nat

    ghost predicate Valid()
      reads this
    {
      idx <= |input|
    }

    constructor(s: string)
      ensures input == s && idx == 0 && Valid()
    {
      input := s;
      idx := 0;
    }

    /** Consumes the next character, which must be `expected`. */
    method AssertNext(expected: char) returns (r: Outcome<ExprError>)
      requires Valid()
      modifies this
      ensures Valid()
      ensures match Expect(input, old(idx), expected)
        case Ok(j) => r == Pass && idx == j
        case Err(e) => r == Fail(e)
    {
      if idx == |input| {
        return Fail(UnexpectedEof);
      }
      var got := input[idx];
      idx := idx + 1;
      if expected == got {
        return Pass;
      }
      return Fail(WrongCharacter(expected, got));
    }

    /** A run of digits read as a `usize`. */
    method ParseIndex() returns (r: Result<nat, ExprError>)
      requires Valid()
      modifies this
      ensures Valid() && Yields(IndexFrom(input, old(idx)), r, idx)
    {
      ghost var i0 := idx;
      var num := "";
      while idx < |input|
        invariant i0 <= idx <= |input| && num == input[i0..idx]
        invariant DigitsEnd(input, i0) == DigitsEnd(input, idx)
        decreases |input| - idx
      {
        var c := input[idx];
        if !IsDigit(c) {
          break;
        }
        var o := AssertNext(c);
        assert o.Pass?;
        num := num + [c];
      }
      if num == [] {
        return Err(EmptyNumber);
      }
      match ParseUsize(num) {
        case None => return Err(IndexTooLarge(num));
        case Some(n) => return Ok(n);
      }
    }

    /** What follows `&` or `$`: nothing, a number, or `(a,b)`. */
    method ParseAmpOrDs() returns (r: Result<(nat, nat), ExprError>)
      requires Valid()
      modifies this
      ensures Valid() && Yields(AmpOrDsFrom(input, old(idx)), r, idx)
    {
      if idx == |input| {
        return Ok((0, 0));
      }
      var c := input[idx];
      if IsDigit(c) {
        var n := ParseIndex();
        if n.Err? {
          return Err(n.error);
        }
        return Ok((n.value, 0));
      } else if c == '(' {
        var o := AssertNext('(');
        assert o.Pass?;
        var a := ParseIndex();
        if a.Err? {
          return Err(a.error);
        }
        o := AssertNext(',');
        if o.Fail? {
          return Err(o.error);
        }
        var b := ParseIndex();
        if b.Err? {
          return Err(b.error);
        }
        o := AssertNext(')');
        if o.Fail? {
          return Err(o.error);
        }
        return Ok((a.value, b.value));
      }
      return Err(UnexpectedCharacter(c));
    }

    method ParseAmp() returns (r: Result<(nat, nat), ExprError>)
      requires Valid()
      modifies this
      ensures Valid() && Yields(SigilArgsFrom(input, old(idx), '&'), r, idx)
    {
      var o := AssertNext('&');
      if o.Fail? {
        return Err(o.error);
      }
      r := ParseAmpOrDs();
    }

    method ParseDollarSign() returns (r: Result<(nat, nat), ExprError>)
      requires Valid()
      modifies this
      ensures Valid() && Yields(SigilArgsFrom(input, old(idx), '$'), r, idx)
    {
      var o := AssertNext('$');
      if o.Fail? {
        return Err(o.error);
      }
      r := ParseAmpOrDs();
    }

    /** `@` alone at the end of the input, or `@(n,key)`. */
    method ParseAt() returns (r: Result<Option<(nat, string)>, ExprError>)
      requires Valid()
      modifies this
      ensures Valid() && Yields(AtFrom(input, old(idx)), r, idx)
    {
      var o := AssertNext('@');
      if o.Fail? {
        return Err(o.error);
      }
      if idx == |input| {
        return Ok(None);
      }
      o := AssertNext('(');
      if o.Fail? {
        return Err(o.error);
      }
      var n := ParseIndex();
      if n.Err? {
        return Err(n.error);
      }
      o := AssertNext(',');
      if o.Fail? {
        return Err(o.error);
      }
      ghost var k0 := idx;
      var key := "";
      while true
        invariant k0 <= idx <= |input|
        invariant AtKeyFrom(input, k0, "") == AtKeyFrom(input, idx, key)
        decreases |input| - idx
      {
        if idx == |input| {
          return Err(UnexpectedEof);
        }
        var c := input[idx];
        idx := idx + 1;
        if c == ')' {
          break;
        }
        key := key + [c];
      }
      return Ok(Some((n.value, key)));
    }

    /** `#` and then the rest of the input verbatim. */
    method ParseSquareLhs() returns (r: Result<string, ExprError>)
      requires Valid()
      modifies this
      ensures Valid() && Yields(SquareLhsFrom(input, old(idx)), r, idx)
    {
      var o := AssertNext('#');
      if o.Fail? {
        return Err(o.error);
      }
      ghost var j := idx;
      var key := "";
      while idx < |input|
        invariant j <= idx <= |input| && key == input[j..idx]
        decreases |input| - idx
      {
        key := key + [input[idx]];
        idx := idx + 1;
      }
      assert input[j..idx] == input[j..];
      return Ok(key);
    }

    /** The rest of the input as a key selection: literal text, or
        fragments split on whichever of `*` and `|` comes first. */
    method ParseKeySelection() returns (r: Result<KeySelection, ExprError>)
      requires Valid()
      modifies this
      ensures Valid() && idx == |input|
      ensures r == Ok(SelectionOf(input[old(idx)..]))
    {
      ghost var i0 := idx;
      var state := InLiteral("");
      while idx < |input|
        invariant i0 <= idx <= |input|
        invariant ReadInto(state, input[i0..idx])
        decreases |input| - idx
      {
        ghost var u := input[i0..idx];
        var c := input[idx];
        idx := idx + 1;
        assert input[i0..idx] == u + [c];
        FirstOperatorSnoc(u, c);
        match state {
          case InLiteral(buf) =>
            if c == '*' {
              SplitOnFree(u, '*');
              SplitOnSnoc(u, c, '*');
              state := InStars("", [buf]);
            } else if c == '|' {
              SplitOnFree(u, '|');
              SplitOnSnoc(u, c, '|');
              state := InPipe("", [buf]);
            } else {
              state := InLiteral(buf + [c]);
            }
          case InPipe(buf, bufs) =>
            SplitOnSnoc(u, c, '|');
            if c == '|' {
              state := InPipe("", bufs + [buf]);
            } else {
              assert (bufs + [buf])[..|bufs|] == bufs;
              state := InPipe(buf + [c], bufs);
            }
          case InStars(buf, bufs) =>
            SplitOnSnoc(u, c, '*');
            if c == '*' {
              state := InStars("", bufs + [buf]);
            } else {
              assert (bufs + [buf])[..|bufs|] == bufs;
              state := InStars(buf + [c], bufs);
            }
        }
      }
      assert input[i0..idx] == input[i0..];
      match state {
        case InLiteral(buf) =>
          return Ok(KeySelection.Literal(buf));
        case InPipe(buf, bufs) =>
          return Ok(Pipe(bufs + [buf]));
        case InStars(buf, bufs) =>
          var fs := bufs + [buf];
          if |fs| == 2 && fs[0] == "" && fs[1] == "" {
            assert fs == ["", ""];
            return Ok(Star);
          }
          return Ok(Stars(fs));
      }
    }

    /** Key text up to the end of the input or the next `&`, `@`, `[`
        or `.`. */
    method ParseKey() returns (r: Result<string, ExprError>)
      requires Valid()
      modifies this
      ensures Valid() && idx == KeyEnd(input, old(idx))
      ensures r == Ok(input[old(idx)..idx])
    {
      ghost var i0 := idx;
      var key := "";
      while idx < |input|
        invariant i0 <= idx <= |input| && key == input[i0..idx]
        invariant KeyEnd(input, i0) == KeyEnd(input, idx)
        decreases |input| - idx
      {
        var c := input[idx];
        if IsKeyStop(c) {
          break;
        }
        var o := AssertNext(c);
        assert o.Pass?;
        key := key + [c];
      }
      return Ok(key);
    }

    /** `[#n]`, `[&...]` or `[n]`. */
    method ParseIndexOp() returns (r: Result<IndexOp, ExprError>)
      requires Valid()
      modifies this
      ensures Valid() && Yields(IndexOpFrom(input, old(idx)), r, idx)
    {
      var o := AssertNext('[');
      if o.Fail? {
        return Err(o.error);
      }
      if idx == |input| {
        return Err(UnexpectedEof);
      }
      ghost var j := idx;
      var c := input[idx];
      var op: IndexOp;
      if c == '#' {
        o := AssertNext('#');
        assert o.Pass?;
        var n := ParseIndex();
        if n.Err? {
          return Err(n.error);
        }
        op := IndexOp.Square(n.value);
      } else if c == '&' {
        var a := ParseAmp();
        if a.Err? {
          return Err(a.error);
        }
        op := IndexOp.Amp(a.value.0, a.value.1);
      } else if IsDigit(c) {
        var n := ParseIndex();
        if n.Err? {
          return Err(n.error);
        }
        op := IndexOp.Literal(n.value);
      } else {
        return Err(UnexpectedCharacter(c));
      }
      assert IndexOpBodyFrom(input, j) == Ok((op, idx));
      o := AssertNext(']');
      if o.Fail? {
        return Err(o.error);
      }
      return Ok(op);
    }

    /** One entry of a right-hand side (the body of `parse_rhs`'s loop):
        the next character picks the entry's form. */
    method ParseRhsEntry() returns (r: Result<RhsEntry, ExprError>)
      requires Valid() && idx < |input|
      modifies this
      ensures Valid() && Yields(RhsEntryFrom(input, old(idx)), r, idx)
    {
      var c := input[idx];
      if c == '&' {
        var a := ParseAmp();
        if a.Err? {
          return Err(a.error);
        }
        return Ok(RhsEntry.Amp(a.value.0, a.value.1));
      } else if c == '@' {
        var a := ParseAt();
        if a.Err? {
          return Err(a.error);
        }
        return Ok(RhsEntry.At(a.value));
      } else if c == '[' {
        var op := ParseIndexOp();
        if op.Err? {
          return Err(op.error);
        }
        return Ok(RhsEntry.Index(op.value));
      } else if c == '.' {
        var o := AssertNext('.');
        assert o.Pass?;
        return Ok(Dot);
      }
      var k := ParseKey();
      return Ok(RhsEntry.Key(k.value));
    }

    /** Entries up to the end of the input. */
    method ParseRhs() returns (r: Result<Rhs, ExprError>)
      requires Valid()
      modifies this
      ensures Valid()
      ensures match RhsEntriesFrom(input, old(idx))
        case Ok(es) => r == Ok(Rhs(es)) && idx == |input|
        case Err(e) => r == Err(e)
    {
      ghost var i0 := idx;
      var entries: seq<RhsEntry> := [];
      match RhsEntriesFrom(input, idx) {
        case Ok(rest) => assert [] + rest == rest;
        case Err(_) =>
      }
      while idx < |input|
        invariant i0 <= idx <= |input|
        invariant RhsEntriesFrom(input, i0) == Prepend(entries, RhsEntriesFrom(input, idx))
        decreases |input| - idx
      {
        var e := ParseRhsEntry();
        if e.Err? {
          return Err(e.error);
        }
        match RhsEntriesFrom(input, idx) {
          case Ok(rest) => assert (entries + [e.value]) + rest == entries + ([e.value] + rest);
          case Err(_) =>
        }
        entries := entries + [e.value];
      }
      assert entries + [] == entries;
      return Ok(Rhs(entries));
    }

    /** A left-hand side that must take the rest of the input. */
    method ParseLhs() returns (r: Result<Lhs, ExprError>)
      requires Valid()
      modifies this
      ensures Valid() && r == LhsFrom(input, old(idx))
    {
      if idx == |input| {
        return Err(EmptyExpr);
      }
      var c := input[idx];
      var res: Lhs;
      if c == '#' {
        var t := ParseSquareLhs();
        assert t.Ok?;
        res := Lhs.Square(t.value);
      } else if c == '@' {
        var a := ParseAt();
        if a.Err? {
          return Err(a.error);
        }
        res := Lhs.At(a.value);
      } else if c == '$' {
        var d := ParseDollarSign();
        if d.Err? {
          return Err(d.error);
        }
        res := DollarSign(d.value.0, d.value.1);
      } else if c == '&' {
        var a := ParseAmp();
        if a.Err? {
          return Err(a.error);
        }
        res := Lhs.Amp(a.value.0, a.value.1);
      } else {
        var k := ParseKeySelection();
        res := Lhs.Key(k.value);
      }
      if idx < |input| {
        var extra := input[idx];
        idx := idx + 1;
        return Err(UnexpectedCharacter(extra));
      }
      return Ok(res);
    }
  }

  /** `Lhs::parse`. */
  method ParseLhsText(s: string) returns (r: Result<Lhs, ExprError>)
    ensures r == LhsOf(s)
  {
    var p := new Parser(s);
    r := p.ParseLhs();
  }

  /** `Rhs::parse`. */
  method ParseRhsText(s: string) returns (r: Result<Rhs, ExprError>)
    ensures r == RhsOf(s)
  {
    var p := new Parser(s);
    r := p.ParseRhs();
  }
}
