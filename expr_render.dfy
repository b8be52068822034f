/** A canonical printer for parsed expressions, and the two facts that tie
    it to the parser of module `Expr`: parsing a printed well-formed
    expression gives it back, and everything the parser returns is
    well-formed. Numbers print in decimal, and `&`/`$` print their full
    `(level,index)` form. */
module ExprRender {
  import opened Wrappers
  import opened Strings
  import opened Expr

  // ---------------------------------------------------------------------
  // Printing.

  function ArgsText(a: nat, b: nat): string
  {
    "(" + NatText(a) + "," + NatText(b) + ")"
  }

  function AtText(at: Option<(nat, string)>): string
  {
    match at
    case None => "@"
    case Some((n, key)) => "@(" + NatText(n) + "," + key + ")"
  }

  function SelectionText(sel: KeySelection): string
  {
    match sel
    case Star => "*"
    case Stars(fs) => Join(fs, "*")
    case Literal(t) => t
    case Pipe(bs) => Join(bs, "|")
  }

  function LhsText(l: Lhs): string
  {
    match l
    case DollarSign(a, b) => "$" + ArgsText(a, b)
    case Amp(a, b) => "&" + ArgsText(a, b)
    case At(at) => AtText(at)
    case Square(t) => "#" + t
    case Key(sel) => SelectionText(sel)
  }

  function IndexOpText(op: IndexOp): string
  {
    match op
    case Square(n) => "[#" + NatText(n) + "]"
    case Amp(a, b) => "[&" + ArgsText(a, b) + "]"
    case Literal(n) => "[" + NatText(n) + "]"
  }

  function EntryText(e: RhsEntry): string
  {
    match e
    case Amp(a, b) => "&" + ArgsText(a, b)
    case At(at) => AtText(at)
    case Index(op) => IndexOpText(op)
    case Key(t) => t
    case Dot => "."
  }

  function RhsText(es: seq<RhsEntry>): string
  {
    if es == [] then "" else EntryText(es[0]) + RhsText(es[1..])
  }

  // ---------------------------------------------------------------------
  // Well-formed expressions: those the printer and the parser agree on.

  predicate AtWellFormed(at: Option<(nat, string)>)
  {
    at.Some? ==> at.value.0 <= USIZE_MAX && ')' !in at.value.1
  }

  /** Fragments free of the mode's operator, the first free of both, at
      least two of them, and `Stars` never the two empty fragments that
      collapse to `Star`. */
  predicate SelectionWellFormed(sel: KeySelection)
  {
    match sel
    case Star => true
    case Literal(t) => '*' !in t && '|' !in t
    case Stars(fs) =>
      && |fs| >= 2 && fs != ["", ""] && '|' !in fs[0]
      && forall k :: 0 <= k < |fs| ==> '*' !in fs[k]
    case Pipe(bs) =>
      && |bs| >= 2 && '*' !in bs[0]
      && forall k :: 0 <= k < |bs| ==> '|' !in bs[k]
  }

  predicate IsSigil(c: char) { c == '#' || c == '@' || c == '$' || c == '&' }

  predicate LhsWellFormed(l: Lhs)
  {
    match l
    case DollarSign(a, b) => a <= USIZE_MAX && b <= USIZE_MAX
    case Amp(a, b) => a <= USIZE_MAX && b <= USIZE_MAX
    case At(at) => AtWellFormed(at)
    case Square(_) => true
    case Key(sel) =>
      && SelectionWellFormed(sel)
      && |SelectionText(sel)| > 0 && !IsSigil(SelectionText(sel)[0])
  }

  predicate EntryWellFormed(e: RhsEntry)
  {
    match e
    case Amp(a, b) => a <= USIZE_MAX && b <= USIZE_MAX
    case At(at) => AtWellFormed(at)
    case Index(op) =>
      (match op
       case Square(n) => n <= USIZE_MAX
       case Amp(a, b) => a <= USIZE_MAX && b <= USIZE_MAX
       case Literal(n) => n <= USIZE_MAX)
    case Key(t) => |t| > 0 && forall k :: 0 <= k < |t| ==> !IsKeyStop(t[k])
    case Dot => true
  }

  /** Entries well-formed, no key right after a key (the two would read as
      one), and a bare `@` only last (anything after it must be `(`). */
  predicate RhsWellFormed(es: seq<RhsEntry>)
  {
    && (forall k :: 0 <= k < |es| ==> EntryWellFormed(es[k]))
    && (forall k :: 0 <= k < |es| - 1 ==> es[k].Key? ==> !es[k + 1].Key?)
    && (forall k :: 0 <= k < |es| - 1 ==> es[k] != RhsEntry.At(None))
  }

  // ---------------------------------------------------------------------
  // Reading text at a position.

  /** `t` occurs in `s` at index `i`. */
  predicate TextAt(s: string, i: nat, t: string)
  {
    i + |t| <= |s| && forall k :: 0 <= k < |t| ==> s[i + k] == t[k]
  }

  lemma TextAtSplit(s: string, i: nat, t: string, u: string)
    requires TextAt(s, i, t + u)
    ensures TextAt(s, i, t) && TextAt(s, i + |t|, u)
  {
    assert forall k :: 0 <= k < |t| ==> (t + u)[k] == t[k];
    assert forall k :: 0 <= k < |u| ==> (t + u)[|t| + k] == u[k];
  }

  lemma CharAt(s: string, i: nat, c: char, u: string)
    requires TextAt(s, i, [c] + u)
    ensures i < |s| && s[i] == c && TextAt(s, i + 1, u)
  {
    assert ([c] + u)[0] == c;
    TextAtSplit(s, i, [c], u);
  }

  lemma TextAtSlice(s: string, i: nat, t: string)
    requires TextAt(s, i, t)
    ensures s[i..i + |t|] == t
  {
  }

  lemma FirstCharAt(s: string, i: nat, t: string)
    requires TextAt(s, i, t) && |t| > 0
    ensures s[i] == t[0] && TextAt(s, i + 1, t[1..])
  {
    assert s[i + 0] == t[0];
    assert forall k :: 0 <= k < |t| - 1 ==> t[1..][k] == t[k + 1];
  }

  lemma {:induction false} DigitsEndAt(s: string, i: nat, j: nat)
    requires i <= j <= |s| && AllDigits(s[i..j]) && (j == |s| || !IsDigit(s[j]))
    ensures DigitsEnd(s, i) == j
    decreases j - i
  {
    if i < j {
      assert s[i..j][0] == s[i];
      assert s[i + 1..j] == s[i..j][1..];
      DigitsEndAt(s, i + 1, j);
    }
  }

  /** A maximal run of digits reads back as its value, or as too large. */
  lemma DigitsAt(s: string, i: nat, t: string)
    requires TextAt(s, i, t) && |t| > 0 && AllDigits(t)
    requires i + |t| == |s| || !IsDigit(s[i + |t|])
    ensures IndexFrom(s, i) ==
      if DigitsValue(t) <= USIZE_MAX then Ok((DigitsValue(t), i + |t|)) else Err(IndexTooLarge(t))
  {
    TextAtSlice(s, i, t);
    DigitsEndAt(s, i, i + |t|);
  }

  /** A number printed in decimal reads back as itself, or as too large. */
  lemma IndexAt(s: string, i: nat, n: nat)
    requires TextAt(s, i, NatText(n))
    requires i + |NatText(n)| == |s| || !IsDigit(s[i + |NatText(n)|])
    ensures IndexFrom(s, i) ==
      if n <= USIZE_MAX then Ok((n, i + |NatText(n)|)) else Err(IndexTooLarge(NatText(n)))
  {
    DigitsAt(s, i, NatText(n));
    NatTextValue(n);
  }

  /** The same, for a number that fits. */
  lemma IndexValueAt(s: string, i: nat, n: nat)
    requires TextAt(s, i, NatText(n)) && n <= USIZE_MAX
    requires i + |NatText(n)| == |s| || !IsDigit(s[i + |NatText(n)|])
    ensures IndexFrom(s, i) == Ok((n, i + |NatText(n)|))
  {
    IndexAt(s, i, n);
  }

  // Single steps of the parser, stated on characters and sub-results only.

  lemma PairTailStep(s: string, j: nat, b: nat, l: nat)
    requires j < |s| && s[j] == ',' && IndexFrom(s, j + 1) == Ok((b, l))
    requires l < |s| && s[l] == ')'
    ensures PairTailFrom(s, j) == Ok((b, l + 1))
  {
    assert Expect(s, j, ',') == Ok(j + 1);
    assert Expect(s, l, ')') == Ok(l + 1);
  }

  /** `,b)` printed at `j` reads back. */
  lemma PairTailAt(s: string, j: nat, b: nat)
    requires j < |s| && s[j] == ',' && TextAt(s, j + 1, NatText(b)) && b <= USIZE_MAX
    requires j + 1 + |NatText(b)| < |s| && s[j + 1 + |NatText(b)|] == ')'
    ensures PairTailFrom(s, j) == Ok((b, j + 2 + |NatText(b)|))
  {
    IndexValueAt(s, j + 1, b);
    PairTailStep(s, j, b, j + 1 + |NatText(b)|);
  }

  lemma PairStep(s: string, k: nat, a: nat, j: nat, b: nat, l: nat)
    requires k <= |s| && IndexFrom(s, k) == Ok((a, j)) && PairTailFrom(s, j) == Ok((b, l))
    ensures PairFrom(s, k) == Ok(((a, b), l))
  {
  }

  lemma AmpOrDsPairStep(s: string, i: nat, a: nat, b: nat, l: nat)
    requires i < |s| && s[i] == '(' && PairFrom(s, i + 1) == Ok(((a, b), l))
    ensures AmpOrDsFrom(s, i) == Ok(((a, b), l))
  {
  }

  lemma AtArgsStep(s: string, k: nat, n: nat, j: nat, key: string, l: nat)
    requires k <= |s| && IndexFrom(s, k) == Ok((n, j))
    requires j < |s| && s[j] == ',' && AtKeyFrom(s, j + 1, "") == Ok((key, l))
    ensures AtArgsFrom(s, k) == Ok(((n, key), l))
  {
    assert Expect(s, j, ',') == Ok(j + 1);
  }

  lemma AtSomeStep(s: string, i: nat, n: nat, key: string, l: nat)
    requires i + 1 < |s| && s[i] == '@' && s[i + 1] == '(' && AtArgsFrom(s, i + 2) == Ok(((n, key), l))
    ensures AtFrom(s, i) == Ok((Some((n, key)), l))
  {
    assert Expect(s, i, '@') == Ok(i + 1);
    assert Expect(s, i + 1, '(') == Ok(i + 2);
  }

  lemma IndexOpStep(s: string, i: nat, op: IndexOp, j: nat)
    requires i + 1 < |s| && s[i] == '[' && IndexOpBodyFrom(s, i + 1) == Ok((op, j))
    requires j < |s| && s[j] == ']'
    ensures IndexOpFrom(s, i) == Ok((op, j + 1))
  {
    assert Expect(s, i, '[') == Ok(i + 1);
    assert Expect(s, j, ']') == Ok(j + 1);
  }

  lemma SquareBodyStep(s: string, i: nat, n: nat, j: nat)
    requires i < |s| && s[i] == '#' && IndexFrom(s, i + 1) == Ok((n, j))
    ensures IndexOpBodyFrom(s, i) == Ok((IndexOp.Square(n), j))
  {
  }

  lemma AmpBodyStep(s: string, i: nat, a: nat, b: nat, j: nat)
    requires i < |s| && s[i] == '&' && AmpOrDsFrom(s, i + 1) == Ok(((a, b), j))
    ensures IndexOpBodyFrom(s, i) == Ok((IndexOp.Amp(a, b), j))
  {
    assert Expect(s, i, '&') == Ok(i + 1);
    assert SigilArgsFrom(s, i, '&') == Ok(((a, b), j));
  }

  /** `&(a,b)` printed at `i` reads back as the body of an index. */
  lemma AmpArgsBodyAt(s: string, i: nat, a: nat, b: nat, j: nat)
    requires i < |s| && s[i] == '&' && TextAt(s, i + 1, ArgsText(a, b))
    requires a <= USIZE_MAX && b <= USIZE_MAX && j == i + 1 + |ArgsText(a, b)|
    ensures IndexOpBodyFrom(s, i) == Ok((IndexOp.Amp(a, b), j))
  {
    AmpOrDsArgsAt(s, i + 1, a, b);
    AmpBodyStep(s, i, a, b, j);
  }

  lemma LiteralBodyStep(s: string, i: nat, n: nat, j: nat)
    requires i < |s| && IsDigit(s[i]) && IndexFrom(s, i) == Ok((n, j))
    ensures IndexOpBodyFrom(s, i) == Ok((IndexOp.Literal(n), j))
  {
  }

  lemma AmpEntryStep(s: string, i: nat, a: nat, b: nat, j: nat)
    requires i < |s| && s[i] == '&' && AmpOrDsFrom(s, i + 1) == Ok(((a, b), j))
    ensures RhsEntryFrom(s, i) == Ok((RhsEntry.Amp(a, b), j))
  {
    assert Expect(s, i, '&') == Ok(i + 1);
    assert SigilArgsFrom(s, i, '&') == Ok(((a, b), j));
  }

  /** `&(a,b)` printed at `i` reads back as an entry. */
  lemma AmpArgsEntryAt(s: string, i: nat, a: nat, b: nat, j: nat)
    requires i < |s| && s[i] == '&' && TextAt(s, i + 1, ArgsText(a, b))
    requires a <= USIZE_MAX && b <= USIZE_MAX && j == i + 1 + |ArgsText(a, b)|
    ensures RhsEntryFrom(s, i) == Ok((RhsEntry.Amp(a, b), j))
  {
    AmpOrDsArgsAt(s, i + 1, a, b);
    AmpEntryStep(s, i, a, b, j);
  }

  lemma AtEntryStep(s: string, i: nat, at: Option<(nat, string)>, j: nat)
    requires i < |s| && s[i] == '@' && AtFrom(s, i) == Ok((at, j))
    ensures RhsEntryFrom(s, i) == Ok((RhsEntry.At(at), j))
  {
  }

  lemma IndexEntryStep(s: string, i: nat, op: IndexOp, j: nat)
    requires i < |s| && s[i] == '[' && IndexOpFrom(s, i) == Ok((op, j))
    ensures RhsEntryFrom(s, i) == Ok((RhsEntry.Index(op), j))
  {
  }

  lemma KeyEntryStep(s: string, i: nat, j: nat)
    requires i < |s| && !IsKeyStop(s[i]) && KeyEnd(s, i) == j
    ensures RhsEntryFrom(s, i) == Ok((RhsEntry.Key(s[i..j]), j))
  {
  }

  /** Where the pieces of `(x,y)` lie once it is printed at `i`. */
  lemma PairLayout(s: string, i: nat, x: string, y: string)
    requires TextAt(s, i, "(" + x + "," + y + ")")
    ensures i + 3 + |x| + |y| <= |s|
    ensures s[i] == '(' && TextAt(s, i + 1, x) && s[i + 1 + |x|] == ','
    ensures TextAt(s, i + 2 + |x|, y) && s[i + 2 + |x| + |y|] == ')'
  {
    var t := "(" + x + "," + y + ")";
    assert s[i + 0] == t[0];
    forall k | 0 <= k < |x|
      ensures s[i + 1 + k] == x[k]
    {
      assert s[i + (1 + k)] == t[1 + k];
    }
    assert s[i + (1 + |x|)] == t[1 + |x|];
    forall k | 0 <= k < |y|
      ensures s[i + 2 + |x| + k] == y[k]
    {
      assert s[i + (2 + |x| + k)] == t[2 + |x| + k];
    }
    assert s[i + (2 + |x| + |y|)] == t[2 + |x| + |y|];
  }

  lemma AmpOrDsArgsAt(s: string, i: nat, a: nat, b: nat)
    requires TextAt(s, i, ArgsText(a, b)) && a <= USIZE_MAX && b <= USIZE_MAX
    ensures AmpOrDsFrom(s, i) == Ok(((a, b), i + |ArgsText(a, b)|))
  {
    PairLayout(s, i, NatText(a), NatText(b));
    var j := i + 1 + |NatText(a)|;
    var l := j + 1 + |NatText(b)|;
    IndexValueAt(s, i + 1, a);
    PairTailAt(s, j, b);
    PairStep(s, i + 1, a, j, b, l + 1);
    AmpOrDsPairStep(s, i, a, b, l + 1);
  }

  lemma {:induction false} AtKeyAt(s: string, i: nat, acc: string, key: string)
    requires TextAt(s, i, key) && TextAt(s, i + |key|, ")") && ')' !in key
    ensures AtKeyFrom(s, i, acc) == Ok((acc + key, i + |key| + 1))
    decreases |key|
  {
    FirstCharAt(s, i + |key|, ")");
    if key == [] {
      assert acc + key == acc;
    } else {
      FirstCharAt(s, i, key);
      assert key[0] in key;
      AtKeyAt(s, i + 1, acc + [key[0]], key[1..]);
      assert acc + [key[0]] + key[1..] == acc + key;
    }
  }

  /** Where the pieces of `@(x,key)` lie once it is printed at `i`. */
  lemma AtLayout(s: string, i: nat, x: string, key: string)
    requires TextAt(s, i, "@(" + x + "," + key + ")")
    ensures i + 4 + |x| + |key| <= |s|
    ensures s[i] == '@' && s[i + 1] == '(' && TextAt(s, i + 2, x) && s[i + 2 + |x|] == ','
    ensures TextAt(s, i + 3 + |x|, key) && TextAt(s, i + 3 + |x| + |key|, ")")
  {
    var t := "@(" + x + "," + key + ")";
    assert s[i + 0] == t[0];
    assert s[i + 1] == t[1];
    forall k | 0 <= k < |x|
      ensures s[i + 2 + k] == x[k]
    {
      assert s[i + (2 + k)] == t[2 + k];
    }
    assert s[i + (2 + |x|)] == t[2 + |x|];
    forall k | 0 <= k < |key|
      ensures s[i + 3 + |x| + k] == key[k]
    {
      assert s[i + (3 + |x| + k)] == t[3 + |x| + k];
    }
    assert s[i + (3 + |x| + |key|)] == t[3 + |x| + |key|];
    assert s[i + 3 + |x| + |key| + 0] == ")"[0];
  }

  lemma AtSomeAt(s: string, i: nat, n: nat, key: string)
    requires TextAt(s, i, AtText(Some((n, key)))) && n <= USIZE_MAX && ')' !in key
    ensures AtFrom(s, i) == Ok((Some((n, key)), i + |AtText(Some((n, key)))|))
  {
    AtLayout(s, i, NatText(n), key);
    var j := i + 2 + |NatText(n)|;
    IndexValueAt(s, i + 2, n);
    AtKeyAt(s, j + 1, "", key);
    assert "" + key == key;
    AtArgsStep(s, i + 2, n, j, key, j + 2 + |key|);
    AtSomeStep(s, i, n, key, j + 2 + |key|);
  }

  lemma AtAt(s: string, i: nat, at: Option<(nat, string)>)
    requires TextAt(s, i, AtText(at)) && AtWellFormed(at)
    requires at.None? ==> i + 1 == |s|
    ensures AtFrom(s, i) == Ok((at, i + |AtText(at)|))
  {
    match at {
      case None =>
        FirstCharAt(s, i, "@");
      case Some((n, key)) =>
        AtSomeAt(s, i, n, key);
    }
  }

  // ---------------------------------------------------------------------
  // Key selections.

  lemma {:induction false} FirstOperatorAppend(a: string, b: string)
    requires '*' !in a && '|' !in a
    ensures FirstOperator(a + b) == FirstOperator(b)
    decreases |a|
  {
    if a != [] {
      assert a[0] in a;
      assert (a + b)[1..] == a[1..] + b;
      FirstOperatorAppend(a[1..], b);
    } else {
      assert a + b == b;
    }
  }

  /** The fragments joined with an operator start with that operator. */
  lemma JoinFirstOperator(parts: seq<string>, op: char)
    requires |parts| >= 2 && '*' !in parts[0] && '|' !in parts[0] && (op == '*' || op == '|')
    ensures FirstOperator(Join(parts, [op])) == Some(op)
  {
    var rest := Join(parts[1..], [op]);
    assert Join(parts, [op]) == parts[0] + ([op] + rest);
    FirstOperatorAppend(parts[0], [op] + rest);
  }

  /** Printing a well-formed key selection and reading it back gives it
      back. */
  lemma SelectionRoundTrip(sel: KeySelection)
    requires SelectionWellFormed(sel)
    ensures SelectionOf(SelectionText(sel)) == sel
  {
    match sel {
      case Star =>
        assert "*"[1..] == [];
        assert SplitOn("*", '*') == ["", ""];
      case Literal(t) =>
      case Stars(fs) =>
        JoinFirstOperator(fs, '*');
        SplitOnJoin(fs, '*');
      case Pipe(bs) =>
        JoinFirstOperator(bs, '|');
        SplitOnJoin(bs, '|');
    }
  }

  /** Reading a key selection loses nothing: printing it gives the text
      back. */
  lemma SelectionTextOf(t: string)
    ensures SelectionText(SelectionOf(t)) == t
  {
    match FirstOperator(t) {
      case None =>
      case Some(op) =>
        SplitJoin(t, op);
    }
  }

  /** `Star` comes from the text `*` and from nothing else. */
  lemma SelectionStar(t: string)
    ensures SelectionOf(t) == Star <==> t == "*"
  {
    SelectionTextOf(t);
    if t == "*" {
      SelectionRoundTrip(Star);
    }
  }

  /** The first fragment, before the first operator, holds neither
      operator. */
  lemma {:induction false} FirstFragmentFree(t: string, op: char)
    requires FirstOperator(t) == Some(op)
    ensures '*' !in SplitOn(t, op)[0] && '|' !in SplitOn(t, op)[0]
    decreases |t|
  {
    if t[0] != op {
      FirstFragmentFree(t[1..], op);
    }
  }

  /** Whatever text is read, the selection is well-formed. */
  lemma SelectionOfWellFormed(t: string)
    ensures SelectionWellFormed(SelectionOf(t))
  {
    match FirstOperator(t) {
      case None =>
      case Some(op) =>
        var fs := SplitOn(t, op);
        SplitPiecesFree(t, op);
        SplitJoin(t, op);
        FirstFragmentFree(t, op);
        assert forall k :: 0 <= k < |fs| ==> fs[k] in fs;
    }
  }

  // ---------------------------------------------------------------------
  // Left-hand sides.

  lemma TextAtWhole(s: string)
    ensures TextAt(s, 0, s)
  {
  }

  lemma DollarSignRoundTrip(a: nat, b: nat)
    requires a <= USIZE_MAX && b <= USIZE_MAX
    ensures LhsOf("$" + ArgsText(a, b)) == Ok(DollarSign(a, b))
  {
    var s := "$" + ArgsText(a, b);
    TextAtWhole(s);
    TextAtSplit(s, 0, "$", ArgsText(a, b));
    FirstCharAt(s, 0, "$");
    AmpOrDsArgsAt(s, 1, a, b);
  }

  lemma AmpRoundTrip(a: nat, b: nat)
    requires a <= USIZE_MAX && b <= USIZE_MAX
    ensures LhsOf("&" + ArgsText(a, b)) == Ok(Lhs.Amp(a, b))
  {
    var s := "&" + ArgsText(a, b);
    TextAtWhole(s);
    TextAtSplit(s, 0, "&", ArgsText(a, b));
    FirstCharAt(s, 0, "&");
    AmpOrDsArgsAt(s, 1, a, b);
  }

  lemma AtRoundTrip(at: Option<(nat, string)>)
    requires AtWellFormed(at)
    ensures LhsOf(AtText(at)) == Ok(Lhs.At(at))
  {
    var s := AtText(at);
    TextAtWhole(s);
    FirstCharAt(s, 0, s);
    AtAt(s, 0, at);
  }

  lemma KeyRoundTrip(sel: KeySelection)
    requires LhsWellFormed(Lhs.Key(sel))
    ensures LhsOf(SelectionText(sel)) == Ok(Lhs.Key(sel))
  {
    var s := SelectionText(sel);
    SelectionRoundTrip(sel);
    assert s[0..] == s;
  }

  /** Printing a well-formed left-hand side and parsing it gives it back. */
  lemma LhsRoundTrip(l: Lhs)
    requires LhsWellFormed(l)
    ensures LhsOf(LhsText(l)) == Ok(l)
  {
    match l {
      case DollarSign(a, b) => DollarSignRoundTrip(a, b);
      case Amp(a, b) => AmpRoundTrip(a, b);
      case At(at) => AtRoundTrip(at);
      case Square(t) =>
        var s := "#" + t;
        assert s[1..] == t;
      case Key(sel) => KeyRoundTrip(sel);
    }
  }

  lemma {:induction false} AtKeyFree(s: string, i: nat, acc: string)
    requires i <= |s| && ')' !in acc
    ensures AtKeyFrom(s, i, acc).Ok? ==> ')' !in AtKeyFrom(s, i, acc).value.0
    decreases |s| - i
  {
    if i < |s| && s[i] != ')' {
      AtKeyFree(s, i + 1, acc + [s[i]]);
    }
  }

  lemma AtWellFormedFrom(s: string, i: nat)
    requires i <= |s| && AtFrom(s, i).Ok?
    ensures AtWellFormed(AtFrom(s, i).value.0)
    ensures AtFrom(s, i).value.0.None? ==> AtFrom(s, i).value.1 == |s|
  {
    if i + 1 < |s| {
      var n := IndexFrom(s, i + 2);
      if n.Ok? && n.value.1 < |s| {
        AtKeyFree(s, n.value.1 + 1, "");
      }
    }
  }

  /** Everything `parse_lhs` returns is well-formed, so printing it and
      parsing again gives the same value. */
  lemma LhsOfWellFormed(s: string)
    requires LhsOf(s).Ok?
    ensures LhsWellFormed(LhsOf(s).value)
  {
    if s[0] == '@' {
      AtWellFormedFrom(s, 0);
    } else if !IsSigil(s[0]) {
      assert s[0..] == s;
      SelectionOfWellFormed(s);
      SelectionTextOf(s);
    }
  }

  // ---------------------------------------------------------------------
  // Right-hand sides.

  lemma {:induction false} KeyEndAt(s: string, i: nat, j: nat)
    requires i <= j <= |s| && (j == |s| || IsKeyStop(s[j]))
    requires forall m :: i <= m < j ==> !IsKeyStop(s[m])
    ensures KeyEnd(s, i) == j
    decreases j - i
  {
    if i < j {
      KeyEndAt(s, i + 1, j);
    }
  }

  /** `e` is printed at `i` in `s`, a printed key is not followed by key
      text, and a bare `@` ends the input. */
  predicate EntryFits(s: string, i: nat, e: RhsEntry)
  {
    && TextAt(s, i, EntryText(e)) && EntryWellFormed(e)
    && (e.Key? ==> i + |e.text| == |s| || IsKeyStop(s[i + |e.text|]))
    && (e == RhsEntry.At(None) ==> i + 1 == |s|)
  }

  lemma KeyEntryAt(s: string, i: nat, e: RhsEntry)
    requires e.Key? && EntryFits(s, i, e)
    ensures i < |s| && RhsEntryFrom(s, i) == Ok((e, i + |EntryText(e)|))
  {
    var k := e.text;
    TextAtSlice(s, i, k);
    forall m | i <= m < i + |k|
      ensures !IsKeyStop(s[m])
    {
      assert s[i + (m - i)] == k[m - i];
    }
    KeyEndAt(s, i, i + |k|);
    FirstCharAt(s, i, k);
    KeyEntryStep(s, i, i + |k|);
  }

  lemma AmpEntryAt(s: string, i: nat, e: RhsEntry)
    requires e.Amp? && EntryFits(s, i, e)
    ensures i < |s| && RhsEntryFrom(s, i) == Ok((e, i + |EntryText(e)|))
  {
    var a, b := e.level, e.index;
    var args := ArgsText(a, b);
    assert EntryText(e) == "&" + args;
    TextAtSplit(s, i, "&", args);
    assert s[i + 0] == "&"[0];
    AmpArgsEntryAt(s, i, a, b, i + 1 + |args|);
  }

  lemma AtEntryAt(s: string, i: nat, e: RhsEntry)
    requires e.At? && EntryFits(s, i, e)
    ensures i < |s| && RhsEntryFrom(s, i) == Ok((e, i + |EntryText(e)|))
  {
    var at := e.at;
    assert EntryText(e) == AtText(at);
    FirstCharAt(s, i, AtText(at));
    AtAt(s, i, at);
    AtEntryStep(s, i, at, i + |AtText(at)|);
  }

  lemma IndexEntryAt(s: string, i: nat, e: RhsEntry)
    requires e.Index? && EntryFits(s, i, e)
    ensures i < |s| && RhsEntryFrom(s, i) == Ok((e, i + |EntryText(e)|))
  {
    var op := e.op;
    assert EntryText(e) == IndexOpText(op);
    FirstCharAt(s, i, IndexOpText(op));
    IndexOpAt(s, i, op);
    IndexEntryStep(s, i, op, i + |IndexOpText(op)|);
  }

  lemma DotEntryAt(s: string, i: nat, e: RhsEntry)
    requires e.Dot? && EntryFits(s, i, e)
    ensures i < |s| && RhsEntryFrom(s, i) == Ok((e, i + |EntryText(e)|))
  {
    assert EntryText(e) == ".";
    FirstCharAt(s, i, ".");
  }

  /** Each printed entry reads back as itself, provided a key is not
      followed by key text and a bare `@` ends the input. */
  lemma EntryAt(s: string, i: nat, e: RhsEntry)
    requires EntryFits(s, i, e)
    ensures i < |s| && RhsEntryFrom(s, i) == Ok((e, i + |EntryText(e)|))
  {
    match e {
      case Amp(_, _) => AmpEntryAt(s, i, e);
      case At(_) => AtEntryAt(s, i, e);
      case Index(_) => IndexEntryAt(s, i, e);
      case Key(_) => KeyEntryAt(s, i, e);
      case Dot => DotEntryAt(s, i, e);
    }
  }

  /** Where the pieces of `h` + `x` + `]` lie once printed at `i`, for a
      head `h` of one or two characters. */
  lemma BracketLayout(s: string, i: nat, h: string, x: string)
    requires TextAt(s, i, h + x + "]") && 1 <= |h| <= 2
    ensures i + |h| + |x| + 1 <= |s|
    ensures s[i] == h[0] && (|h| == 2 ==> s[i + 1] == h[1])
    ensures TextAt(s, i + |h|, x) && s[i + |h| + |x|] == ']'
  {
    var t := h + x + "]";
    assert s[i + 0] == t[0];
    if |h| == 2 {
      assert s[i + 1] == t[1];
    }
    forall k | 0 <= k < |x|
      ensures s[i + |h| + k] == x[k]
    {
      assert s[i + (|h| + k)] == t[|h| + k];
    }
    assert s[i + (|h| + |x|)] == t[|h| + |x|];
  }

  /** `[#n]` laid out at `i` reads back as a square index. */
  lemma SquareIndexFrom(s: string, i: nat, n: nat)
    requires n <= USIZE_MAX && i + 3 + |NatText(n)| <= |s|
    requires s[i] == '[' && s[i + 1] == '#' && TextAt(s, i + 2, NatText(n))
    requires s[i + 2 + |NatText(n)|] == ']'
    ensures IndexOpFrom(s, i) == Ok((IndexOp.Square(n), i + 3 + |NatText(n)|))
  {
    var j := i + 2 + |NatText(n)|;
    IndexValueAt(s, i + 2, n);
    SquareBodyStep(s, i + 1, n, j);
    IndexOpStep(s, i, IndexOp.Square(n), j);
  }

  lemma IndexSquareAt(s: string, i: nat, op: IndexOp)
    requires op.Square? && TextAt(s, i, IndexOpText(op)) && EntryWellFormed(RhsEntry.Index(op))
    ensures IndexOpFrom(s, i) == Ok((op, i + |IndexOpText(op)|))
  {
    var x := NatText(op.n);
    assert IndexOpText(op) == "[#" + x + "]";
    BracketLayout(s, i, "[#", x);
    SquareIndexFrom(s, i, op.n);
    assert op == IndexOp.Square(op.n) && |IndexOpText(op)| == 3 + |x|;
  }

  /** `[&(a,b)]` laid out at `i` reads back as a back-reference index. */
  lemma AmpIndexFrom(s: string, i: nat, a: nat, b: nat)
    requires a <= USIZE_MAX && b <= USIZE_MAX && i + 3 + |ArgsText(a, b)| <= |s|
    requires s[i] == '[' && s[i + 1] == '&' && TextAt(s, i + 2, ArgsText(a, b))
    requires s[i + 2 + |ArgsText(a, b)|] == ']'
    ensures IndexOpFrom(s, i) == Ok((IndexOp.Amp(a, b), i + 3 + |ArgsText(a, b)|))
  {
    var j := i + 2 + |ArgsText(a, b)|;
    AmpArgsBodyAt(s, i + 1, a, b, j);
    IndexOpStep(s, i, IndexOp.Amp(a, b), j);
  }

  lemma IndexAmpAt(s: string, i: nat, op: IndexOp)
    requires op.Amp? && TextAt(s, i, IndexOpText(op)) && EntryWellFormed(RhsEntry.Index(op))
    ensures IndexOpFrom(s, i) == Ok((op, i + |IndexOpText(op)|))
  {
    var x := ArgsText(op.level, op.index);
    assert IndexOpText(op) == "[&" + x + "]";
    BracketLayout(s, i, "[&", x);
    AmpIndexFrom(s, i, op.level, op.index);
    assert op == IndexOp.Amp(op.level, op.index) && |IndexOpText(op)| == 3 + |x|;
  }

  /** `[n]` laid out at `i` reads back as a literal index. */
  lemma LiteralIndexFrom(s: string, i: nat, n: nat)
    requires n <= USIZE_MAX && i + 2 + |NatText(n)| <= |s|
    requires s[i] == '[' && TextAt(s, i + 1, NatText(n))
    requires s[i + 1 + |NatText(n)|] == ']'
    ensures IndexOpFrom(s, i) == Ok((IndexOp.Literal(n), i + 2 + |NatText(n)|))
  {
    var x := NatText(n);
    var j := i + 1 + |x|;
    FirstCharAt(s, i + 1, x);
    IndexValueAt(s, i + 1, n);
    LiteralBodyStep(s, i + 1, n, j);
    IndexOpStep(s, i, IndexOp.Literal(n), j);
  }

  lemma IndexLiteralAt(s: string, i: nat, op: IndexOp)
    requires op.Literal? && TextAt(s, i, IndexOpText(op)) && EntryWellFormed(RhsEntry.Index(op))
    ensures IndexOpFrom(s, i) == Ok((op, i + |IndexOpText(op)|))
  {
    var x := NatText(op.n);
    assert IndexOpText(op) == "[" + x + "]";
    BracketLayout(s, i, "[", x);
    LiteralIndexFrom(s, i, op.n);
    assert op == IndexOp.Literal(op.n) && |IndexOpText(op)| == 2 + |x|;
  }

  lemma IndexOpAt(s: string, i: nat, op: IndexOp)
    requires TextAt(s, i, IndexOpText(op)) && EntryWellFormed(RhsEntry.Index(op))
    ensures IndexOpFrom(s, i) == Ok((op, i + |IndexOpText(op)|))
  {
    match op {
      case Square(_) => IndexSquareAt(s, i, op);
      case Amp(_, _) => IndexAmpAt(s, i, op);
      case Literal(_) => IndexLiteralAt(s, i, op);
    }
  }

  /** Every entry but a key prints starting with a character that ends a
      key. */
  lemma EntryStartsWithStop(e: RhsEntry)
    requires !e.Key?
    ensures |EntryText(e)| > 0 && IsKeyStop(EntryText(e)[0])
  {
  }

  /** `es` is well-formed and printed at `i`, up to the end of `s`. */
  predicate PrintedAt(s: string, i: nat, es: seq<RhsEntry>)
  {
    TextAt(s, i, RhsText(es)) && i + |RhsText(es)| == |s| && RhsWellFormed(es)
  }

  /** A printed key is followed by the end of the input or by a character
      that ends it. */
  lemma KeyFollowedByStop(s: string, i: nat, es: seq<RhsEntry>)
    requires PrintedAt(s, i, es) && |es| > 0 && es[0].Key?
    ensures var j := i + |es[0].text|; j == |s| || IsKeyStop(s[j])
  {
    var t := es[0].text;
    TextAtSplit(s, i, t, RhsText(es[1..]));
    if |es| > 1 {
      assert es[1..][0] == es[1];
      NextEntryStops(s, i + |t|, es[1..]);
    }
  }

  /** Printed entries that do not start with a key start with a character
      that ends a key. */
  lemma NextEntryStops(s: string, j: nat, es: seq<RhsEntry>)
    requires TextAt(s, j, RhsText(es)) && |es| > 0 && !es[0].Key?
    ensures j < |s| && IsKeyStop(s[j])
  {
    var n := es[0];
    assert RhsText(es) == EntryText(n) + RhsText(es[1..]);
    TextAtSplit(s, j, EntryText(n), RhsText(es[1..]));
    EntryStartsWithStop(n);
    FirstCharAt(s, j, EntryText(n));
  }

  /** A bare `@` is the last entry, so it ends the input. */
  lemma AtNoneLast(s: string, i: nat, es: seq<RhsEntry>)
    requires PrintedAt(s, i, es) && |es| > 0 && es[0] == RhsEntry.At(None)
    ensures i + 1 == |s|
  {
    assert |es| == 1;
    assert RhsText(es[1..]) == "";
  }

  lemma RhsWellFormedTail(es: seq<RhsEntry>)
    requires RhsWellFormed(es) && |es| > 0
    ensures RhsWellFormed(es[1..])
  {
    assert forall k :: 0 <= k < |es| - 1 ==> es[1..][k] == es[k + 1];
  }

  /** After the first printed entry come the others. */
  lemma RhsTextTail(s: string, i: nat, es: seq<RhsEntry>)
    requires PrintedAt(s, i, es) && |es| > 0
    ensures PrintedAt(s, i + |EntryText(es[0])|, es[1..])
  {
    TextAtSplit(s, i, EntryText(es[0]), RhsText(es[1..]));
    RhsWellFormedTail(es);
  }

  /** The first printed entry fits where it is printed. */
  lemma RhsTextHead(s: string, i: nat, es: seq<RhsEntry>)
    requires PrintedAt(s, i, es) && |es| > 0
    ensures EntryFits(s, i, es[0])
  {
    TextAtSplit(s, i, EntryText(es[0]), RhsText(es[1..]));
    if es[0].Key? {
      KeyFollowedByStop(s, i, es);
    }
    if es[0] == RhsEntry.At(None) {
      AtNoneLast(s, i, es);
    }
  }

  /** The first printed entry reads back. */
  lemma RhsHeadReads(s: string, i: nat, es: seq<RhsEntry>, j: nat)
    requires PrintedAt(s, i, es) && |es| > 0 && j == i + |EntryText(es[0])|
    ensures i < |s| && RhsEntryFrom(s, i) == Ok((es[0], j))
  {
    RhsTextHead(s, i, es);
    EntryAt(s, i, es[0]);
  }

  lemma RhsEntriesStep(s: string, i: nat, e: RhsEntry, j: nat, rest: seq<RhsEntry>)
    requires i < |s| && RhsEntryFrom(s, i) == Ok((e, j)) && RhsEntriesFrom(s, j) == Ok(rest)
    ensures RhsEntriesFrom(s, i) == Ok([e] + rest)
  {
  }

  lemma {:induction false} RhsEntriesRoundTrip(s: string, i: nat, es: seq<RhsEntry>)
    requires PrintedAt(s, i, es)
    ensures RhsEntriesFrom(s, i) == Ok(es)
    decreases |es|
  {
    if es != [] {
      var j := i + |EntryText(es[0])|;
      RhsTextTail(s, i, es);
      RhsEntriesRoundTrip(s, j, es[1..]);
      RhsHeadReads(s, i, es, j);
      RhsEntriesStep(s, i, es[0], j, es[1..]);
      assert [es[0]] + es[1..] == es;
    }
  }

  /** Printing well-formed entries and parsing them gives them back. */
  lemma RhsRoundTrip(es: seq<RhsEntry>)
    requires RhsWellFormed(es)
    ensures RhsOf(RhsText(es)) == Ok(Rhs(es))
  {
    TextAtWhole(RhsText(es));
    RhsEntriesRoundTrip(RhsText(es), 0, es);
  }

  lemma EntryFromWellFormed(s: string, i: nat)
    requires i < |s| && RhsEntryFrom(s, i).Ok?
    ensures EntryWellFormed(RhsEntryFrom(s, i).value.0)
    ensures var (e, j) := RhsEntryFrom(s, i).value;
      && (e.Key? ==> j == |s| || IsKeyStop(s[j]))
      && (e == RhsEntry.At(None) ==> j == |s|)
      && (!e.Key? ==> IsKeyStop(s[i]))
  {
    if s[i] == '@' {
      AtWellFormedFrom(s, i);
    }
  }

  /** Everything `parse_rhs` returns is well-formed: key entries are
      non-empty, hold no `&`, `@`, `[` or `.`, and never follow each
      other, and a bare `@` comes only last. */
  lemma {:induction false} RhsEntriesWellFormed(s: string, i: nat)
    requires i <= |s| && RhsEntriesFrom(s, i).Ok?
    ensures RhsWellFormed(RhsEntriesFrom(s, i).value)
    ensures i < |s| && RhsEntriesFrom(s, i).value != [] && !RhsEntriesFrom(s, i).value[0].Key? ==> IsKeyStop(s[i])
    ensures RhsEntriesFrom(s, i).value == [] <==> i == |s|
    decreases |s| - i
  {
    if i < |s| {
      EntryFromWellFormed(s, i);
      var (e, j) := RhsEntryFrom(s, i).value;
      RhsEntriesWellFormed(s, j);
      var es := RhsEntriesFrom(s, i).value;
      assert es == [e] + RhsEntriesFrom(s, j).value;
      assert forall k :: 1 <= k < |es| ==> es[k] == RhsEntriesFrom(s, j).value[k - 1];
    }
  }

  lemma RhsOfWellFormed(s: string)
    requires RhsOf(s).Ok?
    ensures RhsWellFormed(RhsOf(s).value.entries)
  {
    RhsEntriesWellFormed(s, 0);
  }
}
