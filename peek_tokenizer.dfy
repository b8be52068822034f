/** The peeking tokenizer (src/dsl/tokenizer.rs): an iterator over tokens
    that looks at the next character before consuming it and keeps the byte
    offset of the cursor. Each method is proved against the scanner of
    module `Lexical`, the same one the fluvio tokenizer follows. */
module PeekTokenizer {
  import opened Wrappers
  import opened Strings
  import opened Lexical

  /** `r` is what the scanner says the next item is, and `after` is where
      the cursor then stands. */
  predicate Reports(sc: Option<Result<(Token, nat), ParseError>>, r: Option<Result<Token, ParseError>>, after: nat)
  {
    match sc
    case None => r.None?
    case Some(Err(e)) => r == Some(Err(e))
    case Some(Ok((t, j))) => r == Some(Ok(t)) && after == j
  }

  class Tokenizer {
    const input: string
    /** Characters consumed so far. */
    var idx: nat
    var byteIdx: nat

    ghost predicate Valid()
      reads this
    {
      idx <= |input| && byteIdx == ByteLen(input[..idx])
    }

    constructor(s: string)
      ensures input == s && idx == 0 && Valid()
    {
      input := s;
      idx := 0;
      byteIdx := 0;
    }

    /** Consumes one character, moving the byte offset past it. */
    method Advance() returns (r: Option<char>)
      requires Valid()
      modifies this
      ensures Valid()
      ensures r == if old(idx) < |input| then Some(input[old(idx)]) else None
      ensures idx == old(idx) + (if r.Some? then 1 else 0)
    {
      if idx == |input| {
        return None;
      }
      var c := input[idx];
      ByteLenStep(input, idx);
      idx := idx + 1;
      byteIdx := byteIdx + Utf8Len(c);
      return Some(c);
    }

    /** A one-character token at the cursor; a character must be there. */
    method OutputSingleChar(kind: TokenKind) returns (t: Token)
      requires Valid() && idx < |input|
      modifies this
      ensures Valid() && idx == old(idx) + 1
      ensures t == Token(kind, ByteLen(input[..old(idx)]))
    {
      var pos := byteIdx;
      var c := Advance();
      return Token(kind, pos);
    }

    /** The character after a backslash, which must be special. */
    method Escape() returns (r: Result<char, ParseError>)
      requires Valid()
      modifies this
      ensures Valid()
      ensures r == EscapeAt(input, old(idx))
      ensures r.Ok? ==> idx == old(idx) + 1
    {
      var c := Advance();
      if c.None? {
        assert input[..idx] == input;
        return Err(ParseError(byteIdx, UnexpectedEndOfInput));
      }
      if !IsSpecial(c.value) {
        return Err(ParseError(byteIdx, UnexpectedChar(c.value)));
      }
      return Ok(c.value);
    }

    /** A key run from the cursor, stopping before the next unescaped special
        character or at the end of the input. */
    method Key() returns (r: Result<Token, ParseError>)
      requires Valid()
      modifies this
      ensures Valid()
      ensures KeyReports(ScanKey(input, old(idx), ""), ByteLen(input[..old(idx)]), r, idx)
    {
      ghost var i0 := idx;
      var start := byteIdx;
      var key := "";
      while true
        invariant Valid() && i0 <= idx
        invariant ScanKey(input, i0, "") == ScanKey(input, idx, key)
        decreases |input| - idx
      {
        if idx == |input| {
          ScanKeyStops(input, idx, key);
          break;
        }
        var c := input[idx];
        if c == '\\' {
          ScanKeyEscape(input, idx, key);
          var _ := Advance();
          var e := Escape();
          if e.Err? {
            return Err(e.error);
          }
          key := key + [e.value];
        } else if IsSpecial(c) {
          ScanKeyStops(input, idx, key);
          break;
        } else {
          ScanKeyPlain(input, idx, key);
          var d := Advance();
          key := key + [d.value];
        }
      }
      return Ok(Token(TokenKind.Key(key), start));
    }

    /** The next token, or `None` at the end of the input: an operator
        character is one token, anything else starts a key run. */
    method Next() returns (r: Option<Result<Token, ParseError>>)
      requires Valid()
      modifies this
      ensures Valid()
      ensures Reports(Scan(input, old(idx)), r, idx)
    {
      if idx == |input| {
        return None;
      }
      match OperatorKind(input[idx]) {
        case Some(k) =>
          var t := OutputSingleChar(k);
          return Some(Ok(t));
        case None =>
          var t := Key();
          return Some(t);
      }
    }
  }
}
