/** The fluvio tokenizer (fluvio-jolt/src/dsl/tokenizer.rs): tokens read
    one at a time from a `Chars` cursor, with a one-token put-back buffer
    for the parser. Each method is proved against the scanner of module
    `Lexical`. */
module FluvioTokenizer {
  import opened Wrappers
  import opened Strings
  import opened Lexical
  import opened CharCursor

  /** `r` is what the scanner says the next token is, and `after` is where
      the cursor then stands. */
  ghost predicate Reports(sc: Option<Result<(Token, nat), ParseError>>, r: Result<Option<Token>, ParseError>, after: nat)
  {
    match sc
    case None => r == Ok(None)
    case Some(Err(e)) => r == Err(e)
    case Some(Ok((t, j))) => r == Ok(Some(t)) && after == j
  }

  class Tokenizer {
    const chars: Chars
    var buf: Option<Token>

    ghost predicate Valid()
      reads this, chars
    {
      chars.Coherent()
    }

    constructor(input: string)
      ensures fresh(chars) && chars.input == input && buf.None?
      ensures Valid() && chars.Consumed() == 0
    {
      chars := new Chars(input);
      buf := None;
    }

    /** The byte offset of the cursor. */
    method Pos() returns (p: nat)
      requires Valid()
      ensures p == ByteLen(chars.input[..chars.Consumed()])
    {
      p := chars.Pos();
    }

    /** The character after a backslash, which must be special. */
    method Escape() returns (r: Result<char, ParseError>)
      requires Valid()
      modifies chars
      ensures Valid()
      ensures old(chars.Consumed()) <= |chars.input|
      ensures r == EscapeAt(chars.input, old(chars.Consumed()))
      ensures r.Ok? ==> chars.Consumed() == old(chars.Consumed()) + 1
    {
      var c := chars.Next();
      if c.None? {
        assert chars.input[..|chars.input|] == chars.input;
        var p := Pos();
        return Err(ParseError(p, UnexpectedEndOfInput));
      }
      if !IsSpecial(c.value) {
        var p := Pos();
        return Err(ParseError(p, UnexpectedChar(c.value)));
      }
      return Ok(c.value);
    }

    /** A key run from the cursor: characters up to the end of the input or
        the next unescaped special character, which is put back. */
    method Key() returns (r: Result<Token, ParseError>)
      requires Valid()
      modifies chars
      ensures Valid()
      ensures old(chars.Consumed()) <= |chars.input|
      ensures KeyReports(ScanKey(chars.input, old(chars.Consumed()), ""),
                         ByteLen(chars.input[..old(chars.Consumed())]), r, chars.Consumed())
    {
      ghost var s := chars.input;
      ghost var i0 := chars.Consumed();
      var start := Pos();
      var key := "";
      while true
        invariant chars.Coherent()
        invariant i0 <= chars.Consumed() <= |s|
        invariant ScanKey(s, i0, "") == ScanKey(s, chars.Consumed(), key)
        decreases |s| - chars.Consumed()
      {
        ghost var i := chars.Consumed();
        var c := chars.Next();
        if c.None? {
          ScanKeyStops(s, i, key);
          break;
        }
        if c.value == '\\' {
          var e := Escape();
          if e.Err? {
            ScanKeyEscape(s, i, key);
            return Err(e.error);
          }
          ScanKeyEscape(s, i, key);
          key := key + [e.value];
        } else if IsSpecial(c.value) {
          ScanKeyStops(s, i, key);
          ByteLenStep(s, i);
          var pb := chars.PutBack(c.value);
          assert pb.Pass?;
          break;
        } else {
          ScanKeyPlain(s, i, key);
          key := key + [c.value];
        }
      }
      return Ok(Token(TokenKind.Key(key), start));
    }

    /** Stores `t` so that the next call to `Next` returns it; the buffer
        holds one token. */
    method PutBack(t: Token) returns (r: Outcome<ParseError>)
      requires Valid()
      modifies this
      ensures Valid()
      ensures old(buf).Some? ==> r == Fail(ParseError(chars.pos, PutBackBufferFull)) && buf == old(buf)
      ensures old(buf).None? ==> r == Pass && buf == Some(t)
    {
      if buf.Some? {
        var p := Pos();
        return Fail(ParseError(p, PutBackBufferFull));
      }
      buf := Some(t);
      return Pass;
    }

    /** The put-back token if there is one, else the next token the scanner
        finds at the cursor: an operator character, or a key run. */
    method Next() returns (r: Result<Option<Token>, ParseError>)
      requires Valid()
      modifies this, chars
      ensures Valid() && buf.None?
      ensures old(chars.Consumed()) <= |chars.input|
      ensures old(buf).Some? ==> r == Ok(old(buf)) && chars.Consumed() == old(chars.Consumed())
      ensures old(buf).None? ==> Reports(Scan(chars.input, old(chars.Consumed())), r, chars.Consumed())
    {
      if buf.Some? {
        var t := buf.value;
        buf := None;
        return Ok(Some(t));
      }
      ghost var s := chars.input;
      ghost var i := chars.Consumed();
      var pos := Pos();
      var c := chars.Next();
      if c.None? {
        return Ok(None);
      }
      match OperatorKind(c.value) {
        case Some(k) =>
          return Ok(Some(Token(k, pos)));
        case None =>
          ByteLenStep(s, i);
          var pb := chars.PutBack(c.value);
          assert pb.Pass?;
          var t := Key();
          if t.Err? {
            return Err(t.error);
          }
          return Ok(Some(t.value));
      }
    }
  }
}
