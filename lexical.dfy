/** Tokens of the shift expression language (src/dsl/token.rs) and the
    scanning rules both tokenizers follow (fluvio-jolt/src/dsl/tokenizer.rs
    and src/dsl/tokenizer.rs): each of twelve operator characters is one
    token, and every other run of characters is a key, in which a backslash
    escapes any of the thirteen special characters. Positions are byte
    offsets into the UTF-8 input. */
module Lexical {
  import opened Wrappers
  import opened Strings

  datatype TokenKind =
    | DollarSign
    | Amp
    | At
    | Square
    | Star
    | Pipe
    | OpenBrkt
    | CloseBrkt
    | OpenPrnth
    | ClosePrnth
    | Dot
    | Comma
    | Key(text: string)

  datatype Token = Token(kind: TokenKind, pos: nat)

  datatype ParseErrorCause = UnexpectedEndOfInput | UnexpectedChar(c: char) | PutBackBufferFull

  datatype ParseError = ParseError(pos: nat, cause: ParseErrorCause)


  predicate IsSpecial(c: char)
  {
    || c == '$' || c == '&' || c == '@' || c == '#' || c == '*' || c == '|'
    || c == '[' || c == ']' || c == '(' || c == ')' || c == '.' || c == ',' || c == '\\'
  }

  /** The token kind of an operator character. */
  function OperatorKind(c: char): (r: Option<TokenKind>)
    ensures r.Some? <==> IsSpecial(c) && c != '\\'
    ensures r.Some? ==> !r.value.Key? && OperatorChar(r.value) == c
  {
    match c
    case '$' => Some(DollarSign)
    case '&' => Some(Amp)
    case '@' => Some(At)
    case '#' => Some(Square)
    case '*' => Some(Star)
    case '|' => Some(Pipe)
    case '[' => Some(OpenBrkt)
    case ']' => Some(CloseBrkt)
    case '(' => Some(OpenPrnth)
    case ')' => Some(ClosePrnth)
    case '.' => Some(Dot)
    case ',' => Some(Comma)
    case _ => None
  }

  predicate IsOperator(c: char) { OperatorKind(c).Some? }

  /** The character an operator token stands for. */
  function OperatorChar(k: TokenKind): char
    requires !k.Key?
  {
    match k
    case DollarSign => '$'
    case Amp => '&'
    case At => '@'
    case Square => '#'
    case Star => '*'
    case Pipe => '|'
    case OpenBrkt => '['
    case CloseBrkt => ']'
    case OpenPrnth => '('
    case ClosePrnth => ')'
    case Dot => '.'
    case Comma => ','
  }

  lemma OperatorCharKind(k: TokenKind)
    requires !k.Key?
    ensures OperatorKind(OperatorChar(k)) == Some(k)
  {
  }

  /** The character after a backslash at character index `i`: it must exist
      and be special. Errors are placed just after what was read. */
  function EscapeAt(s: string, i: nat): Result<char, ParseError>
    requires i <= |s|
  {
    if i == |s| then Err(ParseError(ByteLen(s), UnexpectedEndOfInput))
    else if !IsSpecial(s[i]) then Err(ParseError(ByteLen(s[..i + 1]), UnexpectedChar(s[i])))
    else Ok(s[i])
  }

  /** The rest of a key run from character index `i`, after the text `acc`
      already read: its text and the index where it stops, which is the end
      of the input or an operator character. */
  function ScanKey(s: string, i: nat, acc: string): (r: Result<(string, nat), ParseError>)
    requires i <= |s|
    ensures r.Ok? ==> i <= r.value.1 <= |s|
    decreases |s| - i
  {
    if i == |s| then Ok((acc, i))
    else if s[i] == '\\' then
      var c :- EscapeAt(s, i + 1);
      ScanKey(s, i + 2, acc + [c])
    else if IsSpecial(s[i]) then Ok((acc, i))
    else ScanKey(s, i + 1, acc + [s[i]])
  }

  /** A key run ends at the end of the input or at an operator character,
      and it is never empty when it starts at a character that is not an
      operator. */
  lemma {:induction false} ScanKeyEnds(s: string, i: nat, acc: string)
    requires i <= |s| && ScanKey(s, i, acc).Ok?
    ensures var (text, j) := ScanKey(s, i, acc).value;
      && |acc| <= |text|
      && (j == |s| || IsOperator(s[j]))
      && (i < |s| && !IsOperator(s[i]) ==> i < j && |acc| < |text|)
    decreases |s| - i
  {
    if i < |s| {
      if s[i] == '\\' {
        ScanKeyEnds(s, i + 2, acc + [s[i + 1]]);
      } else if !IsSpecial(s[i]) {
        ScanKeyEnds(s, i + 1, acc + [s[i]]);
      }
    }
  }

  /** The steps of a key run, one lemma per kind of character, as the
      tokenizers take them. */
  lemma ScanKeyStops(s: string, i: nat, acc: string)
    requires i <= |s| && (i == |s| || IsOperator(s[i]))
    ensures ScanKey(s, i, acc) == Ok((acc, i))
  {
  }

  lemma ScanKeyPlain(s: string, i: nat, acc: string)
    requires i < |s| && !IsSpecial(s[i])
    ensures ScanKey(s, i, acc) == ScanKey(s, i + 1, acc + [s[i]])
  {
  }

  lemma ScanKeyEscape(s: string, i: nat, acc: string)
    requires i < |s| && s[i] == '\\'
    ensures EscapeAt(s, i + 1).Err? ==> ScanKey(s, i, acc) == Err(EscapeAt(s, i + 1).error)
    ensures EscapeAt(s, i + 1).Ok? ==>
      i + 2 <= |s| && ScanKey(s, i, acc) == ScanKey(s, i + 2, acc + [EscapeAt(s, i + 1).value])
  {
  }

  /** The token starting at character index `i` and the index after it, or
      `None` at the end of the input. */
  function Scan(s: string, i: nat): (r: Option<Result<(Token, nat), ParseError>>)
    requires i <= |s|
    ensures r.None? <==> i == |s|
    ensures r.Some? && r.value.Ok? ==> i < r.value.value.1 <= |s| && r.value.value.0.pos == ByteLen(s[..i])
    ensures r.Some? && r.value.Ok? && r.value.value.0.kind.Key? ==>
      |r.value.value.0.kind.text| > 0 && (r.value.value.1 == |s| || IsOperator(s[r.value.value.1]))
    ensures r.Some? && r.value.Ok? && !r.value.value.0.kind.Key? ==>
      r.value.value.1 == i + 1 && OperatorChar(r.value.value.0.kind) == s[i]
  {
    if i == |s| then None
    else match OperatorKind(s[i])
      case Some(k) => Some(Ok((Token(k, ByteLen(s[..i])), i + 1)))
      case None =>
        match ScanKey(s, i, "")
        case Ok((text, j)) =>
          ScanKeyEnds(s, i, "");
          Some(Ok((Token(Key(text), ByteLen(s[..i])), j)))
        case Err(e) => Some(Err(e))
  }

  /** `r` is the key token a key run starting at byte offset `start`
      yields, and `after` is where the run stops. */
  predicate KeyReports(sk: Result<(string, nat), ParseError>, start: nat, r: Result<Token, ParseError>, after: nat)
  {
    match sk
    case Err(e) => r == Err(e)
    case Ok((text, j)) => r == Ok(Token(Key(text), start)) && after == j
  }

  /** All the tokens from character index `i`, or the first error. */
  function Lex(s: string, i: nat): Result<seq<Token>, ParseError>
    requires i <= |s|
    decreases |s| - i
  {
    match Scan(s, i)
    case None => Ok([])
    case Some(Err(e)) => Err(e)
    case Some(Ok((t, j))) =>
      var rest :- Lex(s, j);
      Ok([t] + rest)
  }

  // ---------------------------------------------------------------------
  // Rendering tokens back to text.

  function EscapeChar(c: char): string
  {
    if IsSpecial(c) then ['\\', c] else [c]
  }

  /** Key text as it is written: a backslash before every special character. */
  function Escaped(text: string): string
  {
    if text == [] then [] else Escaped(text[..|text| - 1]) + EscapeChar(text[|text| - 1])
  }

  function RenderToken(t: Token): string
  {
    if t.kind.Key? then Escaped(t.kind.text) else [OperatorChar(t.kind)]
  }

  function Render(ts: seq<Token>): string
  {
    if ts == [] then [] else RenderToken(ts[0]) + Render(ts[1..])
  }

  lemma EscapedSnoc(acc: string, c: char)
    ensures Escaped(acc + [c]) == Escaped(acc) + EscapeChar(c)
  {
    assert (acc + [c])[..|acc|] == acc;
  }

  /** Splitting off the first character of a slice. */
  lemma SliceCons(s: string, i: nat, j: nat)
    requires i < j <= |s|
    ensures s[i..j] == [s[i]] + s[i + 1..j]
  {
  }

  lemma {:induction false} ScanKeyRender(s: string, i: nat, acc: string)
    requires i <= |s| && ScanKey(s, i, acc).Ok?
    ensures Escaped(ScanKey(s, i, acc).value.0) == Escaped(acc) + s[i..ScanKey(s, i, acc).value.1]
    decreases |s| - i
  {
    if i < |s| {
      if s[i] == '\\' {
        ScanKeyEscape(s, i, acc);
        var c := s[i + 1];
        var j := ScanKey(s, i + 2, acc + [c]).value.1;
        ScanKeyRender(s, i + 2, acc + [c]);
        EscapedSnoc(acc, c);
        SliceCons(s, i, j);
        SliceCons(s, i + 1, j);
      } else if !IsSpecial(s[i]) {
        ScanKeyPlain(s, i, acc);
        var j := ScanKey(s, i + 1, acc + [s[i]]).value.1;
        ScanKeyRender(s, i + 1, acc + [s[i]]);
        EscapedSnoc(acc, s[i]);
        SliceCons(s, i, j);
      } else {
        ScanKeyStops(s, i, acc);
      }
    }
  }

  lemma ScanRender(s: string, i: nat)
    requires i <= |s| && Scan(s, i).Some? && Scan(s, i).value.Ok?
    ensures RenderToken(Scan(s, i).value.value.0) == s[i..Scan(s, i).value.value.1]
  {
    if OperatorKind(s[i]).None? {
      ScanKeyRender(s, i, "");
    }
  }

  /** Rendering the tokens of a successful scan reproduces the input. */
  lemma {:induction false} LexRender(s: string, i: nat)
    requires i <= |s| && Lex(s, i).Ok?
    ensures Render(Lex(s, i).value) == s[i..]
    decreases |s| - i
  {
    if i < |s| {
      var j := Scan(s, i).value.value.1;
      ScanRender(s, i);
      LexRender(s, j);
      var ts := Lex(s, i).value;
      assert ts[1..] == Lex(s, j).value;
      assert s[i..] == s[i..j] + s[j..];
    }
  }

  lemma RenderPrefix(t: Token, rest: seq<Token>, j: nat)
    requires 1 <= j <= |rest| + 1
    ensures Render(([t] + rest)[..j]) == RenderToken(t) + Render(rest[..j - 1])
  {
    var ts := ([t] + rest)[..j];
    assert ts[0] == t && ts[1..] == rest[..j - 1];
  }

  /** The input covered by a scanned token, in bytes. */
  lemma ScanBytes(s: string, i: nat)
    requires i < |s| && Scan(s, i).Some? && Scan(s, i).value.Ok?
    ensures ByteLen(s[..Scan(s, i).value.value.1]) == ByteLen(s[..i]) + ByteLen(RenderToken(Scan(s, i).value.value.0))
  {
    var k := Scan(s, i).value.value.1;
    ScanRender(s, i);
    assert s[..k] == s[..i] + s[i..k];
    ByteLenAppend(s[..i], s[i..k]);
  }

  /** Every token's position is the byte length of the input before it,
      which is the byte length of the tokens before it, rendered. */
  lemma {:induction false} LexPositions(s: string, i: nat)
    requires i <= |s| && Lex(s, i).Ok?
    ensures var ts := Lex(s, i).value;
      forall j :: 0 <= j < |ts| ==> ts[j].pos == ByteLen(s[..i]) + ByteLen(Render(ts[..j]))
    decreases |s| - i
  {
    if i < |s| {
      var t := Scan(s, i).value.value.0;
      var k := Scan(s, i).value.value.1;
      var rest := Lex(s, k).value;
      var ts := [t] + rest;
      assert Lex(s, i).value == ts;
      ScanBytes(s, i);
      LexPositions(s, k);
      var base := ByteLen(s[..i]);
      forall j | 0 <= j < |ts|
        ensures ts[j].pos == base + ByteLen(Render(ts[..j]))
      {
        if j == 0 {
          assert ts[..0] == [];
        } else {
          RenderPrefix(t, rest, j);
          ByteLenAppend(RenderToken(t), Render(rest[..j - 1]));
          assert ts[j] == rest[j - 1];
        }
      }
    }
  }

  /** Key tokens are never empty, and a key is never followed directly by
      another key. */
  lemma {:induction false} LexKeysWellFormed(s: string, i: nat)
    requires i <= |s| && Lex(s, i).Ok?
    ensures var ts := Lex(s, i).value;
      && (forall j :: 0 <= j < |ts| && ts[j].kind.Key? ==> |ts[j].kind.text| > 0)
      && (forall j :: 0 <= j < |ts| - 1 && ts[j].kind.Key? ==> !ts[j + 1].kind.Key?)
    decreases |s| - i
  {
    if i < |s| {
      var t := Scan(s, i).value.value.0;
      var k := Scan(s, i).value.value.1;
      LexKeysWellFormed(s, k);
      var ts := Lex(s, i).value;
      assert ts[1..] == Lex(s, k).value;
      if t.kind.Key? && k < |s| {
        assert Scan(s, k).value.value.0 == ts[1];
      }
    }
  }

  /** `\.` is a key holding a dot. */
  lemma EscapedOperatorIsKey()
    ensures Lex("\\.", 0) == Ok([Token(Key("."), 0)])
  {
    var s := "\\.";
    assert s[0] == '\\' && s[1] == '.' && s[..0] == [];
    assert EscapeAt(s, 1) == Ok('.');
    assert "" + ['.'] == ".";
    assert ScanKey(s, 2, ".") == Ok((".", 2));
    assert ScanKey(s, 0, "") == Ok((".", 2));
    assert Scan(s, 0) == Some(Ok((Token(Key("."), 0), 2)));
    assert Lex(s, 2) == Ok([]);
    assert [Token(Key("."), 0)] + [] == [Token(Key("."), 0)];
  }

  /** `\x` is an error placed just after the `x`; a trailing backslash is an
      error at the end of the input. */
  lemma EscapeErrors()
    ensures Lex("a\\x", 0) == Err(ParseError(3, UnexpectedChar('x')))
    ensures Lex("a\\", 0) == Err(ParseError(2, UnexpectedEndOfInput))
  {
    var s := "a\\x";
    assert s[..3] == s && s[2] == 'x' && !IsSpecial('x');
    assert s[..0] == [];
    ByteLenStep(s, 0);
    ByteLenStep(s, 1);
    ByteLenStep(s, 2);
    assert ByteLen(s) == 3;
    assert EscapeAt(s, 2) == Err(ParseError(3, UnexpectedChar('x')));
    assert ScanKey(s, 1, "a") == Err(ParseError(3, UnexpectedChar('x')));
    var t := "a\\";
    assert t[..0] == [] && t[..2] == t;
    ByteLenStep(t, 0);
    ByteLenStep(t, 1);
    assert ByteLen(t) == 2;
    assert ScanKey(t, 1, "a") == Err(ParseError(2, UnexpectedEndOfInput));
  }
}
