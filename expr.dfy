/** The character-level recursive-descent parser of shift expressions
    (src/expr.rs), as functions: each takes the input and the character
    index where the source's parser stands, and returns the value parsed
    with the index after it, or the error. The class in module `ExprParser`
    is proved against these. */
module Expr {
  import opened Wrappers
  import opened Strings

  datatype KeySelection =
    | Star
    | Stars(fragments: seq<string>)
    | Literal(text: string)
    | Pipe(branches: seq<string>)

  datatype IndexOp = Square(n: nat) | Amp(level: nat, index: nat) | Literal(n: nat)

  datatype RhsEntry =
    | Amp(level: nat, index: nat)
    | At(at: Option<(nat, string)>)
    | Index(op: IndexOp)
    | Key(text: string)
    | Dot

  datatype Rhs = Rhs(entries: seq<RhsEntry>)

  datatype Lhs =
    | DollarSign(level: nat, index: nat)
    | Amp(level: nat, index: nat)
    | At(at: Option<(nat, string)>)
    | Square(text: string)
    | Key(selection: KeySelection)

  /** The errors the parser reports. */
  datatype ExprError =
    | EmptyExpr
    | UnexpectedCharacter(c: char)
    | WrongCharacter(expected: char, got: char)
    | UnexpectedEof
    | EmptyNumber
    | IndexTooLarge(text: string)

  /** `r` is the value `spec` parses and `after` the index after it; or `r`
      is the error `spec` reports. */
  predicate Yields<T(==)>(spec: Result<(T, nat), ExprError>, r: Result<T, ExprError>, after: nat)
  {
    match spec
    case Err(e) => r == Err(e)
    case Ok((v, j)) => r == Ok(v) && after == j
  }

  /** `assert_next`: the next character must be `e`. */
  function Expect(s: string, i: nat, e: char): (r: Result<nat, ExprError>)
    requires i <= |s|
    ensures r.Ok? ==> r.value == i + 1 <= |s|
  {
    if i == |s| then Err(UnexpectedEof)
    else if s[i] != e then Err(WrongCharacter(e, s[i]))
    else Ok(i + 1)
  }

  /** `assert_next` succeeds exactly on the expected character; at the end
      of the input it reports `UnexpectedEof`. */
  lemma ExpectChar(s: string, i: nat, e: char)
    requires i <= |s|
    ensures Expect(s, i, e).Ok? <==> i < |s| && s[i] == e
    ensures i == |s| ==> Expect(s, i, e) == Err(UnexpectedEof)
    ensures i < |s| && s[i] != e ==> Expect(s, i, e) == Err(WrongCharacter(e, s[i]))
  {
  }

  /** The end of the run of ASCII digits starting at `i`. */
  function DigitsEnd(s: string, i: nat): (j: nat)
    requires i <= |s|
    ensures i <= j <= |s| && AllDigits(s[i..j]) && (j == |s| || !IsDigit(s[j]))
    decreases |s| - i
  {
    if i < |s| && IsDigit(s[i]) then
      var j := DigitsEnd(s, i + 1);
      assert forall k :: 0 < k < j - i ==> s[i..j][k] == s[i + 1..j][k - 1];
      j
    else i
  }

  /** `parse_index`: at least one digit, with a value that fits in `usize`. */
  function IndexFrom(s: string, i: nat): (r: Result<(nat, nat), ExprError>)
    requires i <= |s|
    ensures r.Ok? ==> i < r.value.1 <= |s| && r.value.0 <= USIZE_MAX
  {
    var j := DigitsEnd(s, i);
    if j == i then Err(EmptyNumber)
    else if DigitsValue(s[i..j]) > USIZE_MAX then Err(IndexTooLarge(s[i..j]))
    else Ok((DigitsValue(s[i..j]), j))
  }

  /** `parse_amp_or_ds`: nothing, a number `n`, or `(a,b)`. */
  function AmpOrDsFrom(s: string, i: nat): (r: Result<((nat, nat), nat), ExprError>)
    requires i <= |s|
    ensures r.Ok? ==> i <= r.value.1 <= |s|
  {
    if i == |s| then Ok(((0, 0), i))
    else if IsDigit(s[i]) then
      var n :- IndexFrom(s, i);
      Ok(((n.0, 0), n.1))
    else if s[i] == '(' then PairFrom(s, i + 1)
    else Err(UnexpectedCharacter(s[i]))
  }

  /** The `a,b)` after the `(` of `(a,b)`. */
  function PairFrom(s: string, k: nat): (r: Result<((nat, nat), nat), ExprError>)
    requires k <= |s|
    ensures r.Ok? ==> k < r.value.1 <= |s|
  {
    var a :- IndexFrom(s, k);
    var b :- PairTailFrom(s, a.1);
    Ok(((a.0, b.0), b.1))
  }

  /** The `,b)` of `(a,b)`. */
  function PairTailFrom(s: string, j: nat): (r: Result<(nat, nat), ExprError>)
    requires j <= |s|
    ensures r.Ok? ==> j < r.value.1 <= |s|
  {
    var k :- Expect(s, j, ',');
    var b :- IndexFrom(s, k);
    var l :- Expect(s, b.1, ')');
    Ok((b.0, l))
  }

  /** `parse_amp` and `parse_dollar_sign`: the sigil, then its arguments. */
  function SigilArgsFrom(s: string, i: nat, sigil: char): (r: Result<((nat, nat), nat), ExprError>)
    requires i <= |s|
    ensures r.Ok? ==> i < |s| && s[i] == sigil && i < r.value.1 <= |s|
  {
    var j :- Expect(s, i, sigil);
    AmpOrDsFrom(s, j)
  }

  /** The raw key of `@(n,key)`: everything up to the first `)`, which is
      consumed. */
  function AtKeyFrom(s: string, i: nat, acc: string): (r: Result<(string, nat), ExprError>)
    requires i <= |s|
    ensures r.Ok? ==> i < r.value.1 <= |s|
    decreases |s| - i
  {
    if i == |s| then Err(UnexpectedEof)
    else if s[i] == ')' then Ok((acc, i + 1))
    else AtKeyFrom(s, i + 1, acc + [s[i]])
  }

  /** `parse_at`: a bare `@` at the end of the input, or `@(n,key)`. */
  function AtFrom(s: string, i: nat): (r: Result<(Option<(nat, string)>, nat), ExprError>)
    requires i <= |s|
    ensures r.Ok? ==> i < r.value.1 <= |s|
  {
    var j :- Expect(s, i, '@');
    if j == |s| then Ok((None, j))
    else
      var k :- Expect(s, j, '(');
      var a :- AtArgsFrom(s, k);
      Ok((Some(a.0), a.1))
  }

  /** The `n,key)` after the `(` of `@(n,key)`. */
  function AtArgsFrom(s: string, k: nat): (r: Result<((nat, string), nat), ExprError>)
    requires k <= |s|
    ensures r.Ok? ==> k < r.value.1 <= |s|
  {
    var n :- IndexFrom(s, k);
    var l :- Expect(s, n.1, ',');
    var key :- AtKeyFrom(s, l, "");
    Ok(((n.0, key.0), key.1))
  }

  /** `parse_square_lhs`: `#` and then the rest of the input verbatim. */
  function SquareLhsFrom(s: string, i: nat): (r: Result<(string, nat), ExprError>)
    requires i <= |s|
    ensures r.Ok? ==> r.value.1 == |s| > i
  {
    var j :- Expect(s, i, '#');
    Ok((s[j..], |s|))
  }

  // ---------------------------------------------------------------------
  // Key selections.

  /** The first of `*` and `|` to occur in `t`, if either does. */
  function FirstOperator(t: string): (r: Option<char>)
    ensures r.None? <==> '*' !in t && '|' !in t
    ensures r.Some? ==> (r.value == '*' || r.value == '|') && r.value in t
  {
    if t == [] then None
    else if t[0] == '*' || t[0] == '|' then Some(t[0])
    else FirstOperator(t[1..])
  }

  /** Reading one more character: the first operator stays once found. */
  lemma {:induction false} FirstOperatorSnoc(u: string, c: char)
    ensures FirstOperator(u + [c]) ==
      if FirstOperator(u).Some? then FirstOperator(u)
      else if c == '*' || c == '|' then Some(c) else None
    decreases |u|
  {
    if u == [] {
      assert u + [c] == [c] && [c][1..] == [];
    } else {
      assert (u + [c])[1..] == u[1..] + [c];
      FirstOperatorSnoc(u[1..], c);
    }
  }

  /** The key selection `t` denotes: literal text without `*` or `|`; else
      the first of them decides, and the text is split on that one alone. */
  function SelectionOf(t: string): KeySelection
  {
    match FirstOperator(t)
    case None => KeySelection.Literal(t)
    case Some(op) =>
      if op == '*' then
        var fs := SplitOn(t, '*');
        if fs == ["", ""] then Star else Stars(fs)
      else Pipe(SplitOn(t, '|'))
  }

  // ---------------------------------------------------------------------
  // Right-hand sides.

  predicate IsKeyStop(c: char) { c == '&' || c == '@' || c == '[' || c == '.' }

  /** The end of the key text starting at `i`. */
  function KeyEnd(s: string, i: nat): (j: nat)
    requires i <= |s|
    ensures i <= j <= |s| && (j == |s| || IsKeyStop(s[j]))
    ensures forall k :: i <= k < j ==> !IsKeyStop(s[k])
    decreases |s| - i
  {
    if i == |s| || IsKeyStop(s[i]) then i else KeyEnd(s, i + 1)
  }

  /** The operator inside `[...]`, starting at its first character. (Where
      the source asserts a character it has just peeked, the model simply
      steps past it.) */
  function IndexOpBodyFrom(s: string, j: nat): (r: Result<(IndexOp, nat), ExprError>)
    requires j < |s|
    ensures r.Ok? ==> j < r.value.1 <= |s|
  {
    if s[j] == '#' then
      var n :- IndexFrom(s, j + 1);
      Ok((IndexOp.Square(n.0), n.1))
    else if s[j] == '&' then
      var a :- SigilArgsFrom(s, j, '&');
      Ok((IndexOp.Amp(a.0.0, a.0.1), a.1))
    else if IsDigit(s[j]) then
      var n :- IndexFrom(s, j);
      Ok((IndexOp.Literal(n.0), n.1))
    else Err(UnexpectedCharacter(s[j]))
  }

  /** `parse_index_op`: `[`, an operator, `]`. */
  function IndexOpFrom(s: string, i: nat): (r: Result<(IndexOp, nat), ExprError>)
    requires i <= |s|
    ensures r.Ok? ==> i < r.value.1 <= |s|
  {
    var j :- Expect(s, i, '[');
    if j == |s| then Err(UnexpectedEof)
    else
      var op :- IndexOpBodyFrom(s, j);
      var k :- Expect(s, op.1, ']');
      Ok((op.0, k))
  }

  /** One entry of a right-hand side; its first character decides which. */
  function RhsEntryFrom(s: string, i: nat): (r: Result<(RhsEntry, nat), ExprError>)
    requires i < |s|
    ensures r.Ok? ==> i < r.value.1 <= |s|
  {
    if s[i] == '&' then
      var a :- SigilArgsFrom(s, i, '&');
      Ok((RhsEntry.Amp(a.0.0, a.0.1), a.1))
    else if s[i] == '@' then
      var a :- AtFrom(s, i);
      Ok((RhsEntry.At(a.0), a.1))
    else if s[i] == '[' then
      var o :- IndexOpFrom(s, i);
      Ok((RhsEntry.Index(o.0), o.1))
    else if s[i] == '.' then Ok((Dot, i + 1))
    else
      var j := KeyEnd(s, i);
      Ok((RhsEntry.Key(s[i..j]), j))
  }

  /** The entries of a right-hand side from `i` to the end of the input. */
  function RhsEntriesFrom(s: string, i: nat): Result<seq<RhsEntry>, ExprError>
    requires i <= |s|
    decreases |s| - i
  {
    if i == |s| then Ok([])
    else
      var e :- RhsEntryFrom(s, i);
      var rest :- RhsEntriesFrom(s, e.1);
      Ok([e.0] + rest)
  }

  /** `Rhs::parse`. */
  function RhsOf(s: string): Result<Rhs, ExprError>
  {
    var es :- RhsEntriesFrom(s, 0);
    Ok(Rhs(es))
  }

  // ---------------------------------------------------------------------
  // Left-hand sides.

  /** The form of a left-hand side at `i`; its first character decides
      which. */
  function LhsFormFrom(s: string, i: nat): (r: Result<(Lhs, nat), ExprError>)
    requires i < |s|
    ensures r.Ok? ==> i < r.value.1 <= |s|
  {
    if s[i] == '#' then Ok((Lhs.Square(s[i + 1..]), |s|))
    else if s[i] == '@' then
      var a :- AtFrom(s, i);
      Ok((Lhs.At(a.0), a.1))
    else if s[i] == '$' then
      var d :- SigilArgsFrom(s, i, '$');
      Ok((DollarSign(d.0.0, d.0.1), d.1))
    else if s[i] == '&' then
      var a :- SigilArgsFrom(s, i, '&');
      Ok((Lhs.Amp(a.0.0, a.0.1), a.1))
    else Ok((Lhs.Key(SelectionOf(s[i..])), |s|))
  }

  /** `parse_lhs`: a form that must take the rest of the input. */
  function LhsFrom(s: string, i: nat): Result<Lhs, ExprError>
    requires i <= |s|
  {
    if i == |s| then Err(EmptyExpr)
    else
      var f :- LhsFormFrom(s, i);
      if f.1 < |s| then Err(UnexpectedCharacter(s[f.1])) else Ok(f.0)
  }

  /** `Lhs::parse`. */
  function LhsOf(s: string): Result<Lhs, ExprError>
  {
    LhsFrom(s, 0)
  }
}
