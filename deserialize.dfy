/** The specification compiler (src/dsl/deserialize.rs): every key of a spec
    object is parsed as a left-hand side and the entry is sorted into one of
    four buckets, so that the evaluator can try them in a fixed order.

    The fluvio-jolt parser that turns key and value strings into `Lhs` and
    `Rhs` is not part of this model; the compiler receives it as the pair of
    functions `Parsers`, and every property here holds for any parser. */
module Deserialize {
  import opened Wrappers
  import opened Ast

  /** Left-hand sides that match unconditionally and compute a value. */
  datatype InfallibleLhs =
    | DollarSign(level: nat, index: nat)
    | At(level: nat, rhs: Rhs)
    | Square(text: string)

  /** What a matched entry does: descend into a nested spec object, write the
      matched value to every listed path, or drop it. */
  datatype REntry =
    | Obj(obj: Object)
    | Rhs(paths: seq<Rhs>)
    | Thrash

  /** A compiled spec object: its entries by match kind, in key order. */
  datatype Object = Object(
    infallible: seq<(InfallibleLhs, seq<Rhs>)>,
    literal: seq<(string, REntry)>,
    amp: seq<((nat, nat), REntry)>,
    pipes: seq<(seq<Stars>, REntry)>)

  /** `Object::default()`. */
  const EmptyObject := Object([], [], [], [])

  /** A spec value as the JSON document gives it: a nested object, one path,
      several paths, or `null` for "match and discard". */
  datatype SpecValue =
    | Nested(m: SpecMap)
    | Path(text: string)
    | Paths(texts: seq<string>)
    | Drop

  /** A spec object: its keys and values in the order they are read. */
  datatype SpecMap = SpecMap(entries: seq<(string, SpecValue)>)

  datatype CompileError =
    | DuplicateLhs(key: string)
    | BadLhs(key: string, message: string)
    | BadRhs(text: string, message: string)
      /** An infallible key whose value is not a path or a list of paths. */
    | ExpectedRhs(key: string)

  /** `Lhs::parse` and `Rhs::parse`, whose errors surface as messages. */
  datatype Parsers = Parsers(lhs: string -> Result<Lhs, string>, rhs: string -> Result<Rhs, string>)

  /** One entry after its key has been parsed, tagged with its bucket. */
  datatype Compiled =
    | CInfallible(lhs: InfallibleLhs, paths: seq<Rhs>)
    | CLiteral(text: string, entry: REntry)
    | CAmp(ref: (nat, nat), entry: REntry)
    | CPipes(branches: seq<Stars>, entry: REntry)

  function ParseOne(text: string, ps: Parsers): Result<Rhs, CompileError>
  {
    match ps.rhs(text)
    case Ok(r) => Ok(r)
    case Err(msg) => Err(BadRhs(text, msg))
  }

  /** Every text parsed in order; the first text that fails decides the
      error. */
  function ParsePaths(texts: seq<string>, ps: Parsers): (r: Result<seq<Rhs>, CompileError>)
    ensures r.Ok? ==> |r.value| == |texts|
    ensures r.Ok? ==> forall k :: 0 <= k < |texts| ==> ParseOne(texts[k], ps) == Ok(r.value[k])
    ensures r.Err? <==> exists k :: 0 <= k < |texts| && ParseOne(texts[k], ps).Err?
    ensures r.Err? ==> exists k :: 0 <= k < |texts| && ParseOne(texts[k], ps) == Err(r.error)
                                   && forall j :: 0 <= j < k ==> ParseOne(texts[j], ps).Ok?
  {
    if texts == [] then Ok([])
    else
      match ParseOne(texts[0], ps)
      case Err(e) => Err(e)
      case Ok(first) =>
        var rest := ParsePaths(texts[1..], ps);
        assert forall k :: 1 <= k < |texts| ==> texts[k] == texts[1..][k - 1];
        if rest.Err? then
          assert exists k :: 1 <= k < |texts| && ParseOne(texts[k], ps) == Err(rest.error)
                             && forall j :: 0 <= j < k ==> ParseOne(texts[j], ps).Ok?;
          Err(rest.error)
        else
          Ok([first] + rest.value)
  }

  /** The output paths of an infallible entry. */
  function RhsList(key: string, val: SpecValue, ps: Parsers): Result<seq<Rhs>, CompileError>
  {
    match val
    case Path(t) => var r :- ParseOne(t, ps); Ok([r])
    case Paths(ts) => ParsePaths(ts, ps)
    case _ => Err(ExpectedRhs(key))
  }

  function Compile(m: SpecMap, ps: Parsers): Result<Object, CompileError>
    decreases m, 3, 0
  {
    CompileFrom(m, 0, {}, EmptyObject, ps)
  }

  /** The work left once entries `0..i` have been read into `acc`, `seen`
      holding their key strings. */
  function CompileFrom(m: SpecMap, i: nat, seen: set<string>, acc: Object, ps: Parsers)
    : Result<Object, CompileError>
    decreases m, 2, |m.entries| - i
  {
    if i >= |m.entries| then Ok(acc)
    else
      var key := m.entries[i].0;
      if key in seen then Err(DuplicateLhs(key))
      else match ps.lhs(key)
        case Err(msg) => Err(BadLhs(key, msg))
        case Ok(lhs) =>
          assert m.entries[i] in m.entries;
          var c :- Classify(key, lhs, m.entries[i].1, ps);
          CompileFrom(m, i + 1, seen + {key}, AddToBucket(acc, c), ps)
  }

  /** Reads the value of a parsed key and tags the entry with its bucket. */
  function Classify(key: string, lhs: Lhs, val: SpecValue, ps: Parsers): Result<Compiled, CompileError>
    decreases val, 1, 0
  {
    match lhs
    case DollarSign(a, b) => var rs :- RhsList(key, val, ps); Ok(CInfallible(InfallibleLhs.DollarSign(a, b), rs))
    case Amp(a, b) => var e :- EntryOf(val, ps); Ok(CAmp((a, b), e))
    case At(l, r) => var rs :- RhsList(key, val, ps); Ok(CInfallible(InfallibleLhs.At(l, r), rs))
    case Square(t) => var rs :- RhsList(key, val, ps); Ok(CInfallible(InfallibleLhs.Square(t), rs))
    case Pipes(bs) => var e :- EntryOf(val, ps); Ok(CPipes(bs, e))
    case Literal(t) => var e :- EntryOf(val, ps); Ok(CLiteral(t, e))
  }

  /** The value of a fallible entry. */
  function EntryOf(val: SpecValue, ps: Parsers): Result<REntry, CompileError>
    decreases val, 0, 0
  {
    match val
    case Nested(m') => var o :- Compile(m', ps); Ok(REntry.Obj(o))
    case Path(t) => var r :- ParseOne(t, ps); Ok(REntry.Rhs([r]))
    case Paths(ts) => var rs :- ParsePaths(ts, ps); Ok(REntry.Rhs(rs))
    case Drop => Ok(Thrash)
  }

  function AddToBucket(acc: Object, c: Compiled): Object
  {
    match c
    case CInfallible(l, rs) => acc.(infallible := acc.infallible + [(l, rs)])
    case CLiteral(t, e) => acc.(literal := acc.literal + [(t, e)])
    case CAmp(ref, e) => acc.(amp := acc.amp + [(ref, e)])
    case CPipes(bs, e) => acc.(pipes := acc.pipes + [(bs, e)])
  }

  // ---------------------------------------------------------------------
  // The imperative compiler: `ObjectVisitor::visit_map`.

  method VisitMap(m: SpecMap, ps: Parsers) returns (r: Result<Object, CompileError>)
    ensures r == Compile(m, ps)
    decreases m, 3, 0
  {
    var infallible: seq<(InfallibleLhs, seq<Rhs>)> := [];
    var literal: seq<(string, REntry)> := [];
    var amp: seq<((nat, nat), REntry)> := [];
    var pipes: seq<(seq<Stars>, REntry)> := [];
    var keySet: set<string> := {};
    var i := 0;
    while i < |m.entries|
      invariant 0 <= i <= |m.entries|
      invariant Compile(m, ps) == CompileFrom(m, i, keySet, Object(infallible, literal, amp, pipes), ps)
    {
      var key := m.entries[i].0;
      var val := m.entries[i].1;
      assert m.entries[i] in m.entries;
      if key in keySet {
        return Err(DuplicateLhs(key));
      }
      keySet := keySet + {key};
      var parsed := ps.lhs(key);
      if parsed.Err? {
        return Err(BadLhs(key, parsed.error));
      }
      match parsed.value {
        case DollarSign(a, b) =>
          var rs := RhsList(key, val, ps);
          if rs.Err? { return Err(rs.error); }
          infallible := infallible + [(InfallibleLhs.DollarSign(a, b), rs.value)];
        case Amp(a, b) =>
          var e := NextEntry(val, ps);
          if e.Err? { return Err(e.error); }
          amp := amp + [((a, b), e.value)];
        case At(l, rhs) =>
          var rs := RhsList(key, val, ps);
          if rs.Err? { return Err(rs.error); }
          infallible := infallible + [(InfallibleLhs.At(l, rhs), rs.value)];
        case Square(t) =>
          var rs := RhsList(key, val, ps);
          if rs.Err? { return Err(rs.error); }
          infallible := infallible + [(InfallibleLhs.Square(t), rs.value)];
        case Pipes(bs) =>
          var e := NextEntry(val, ps);
          if e.Err? { return Err(e.error); }
          pipes := pipes + [(bs, e.value)];
        case Literal(t) =>
          var e := NextEntry(val, ps);
          if e.Err? { return Err(e.error); }
          literal := literal + [(t, e.value)];
      }
      i := i + 1;
    }
    return Ok(Object(infallible, literal, amp, pipes));
  }

  /** `map.next_value()` for a fallible entry: a nested object is compiled
      by a recursive `visit_map`. */
  method NextEntry(val: SpecValue, ps: Parsers) returns (r: Result<REntry, CompileError>)
    ensures r == EntryOf(val, ps)
    decreases val, 0, 0
  {
    match val {
      case Nested(m') =>
        var o := VisitMap(m', ps);
        if o.Err? { return Err(o.error); }
        return Ok(REntry.Obj(o.value));
      case Path(t) =>
        var p := ParseOne(t, ps);
        if p.Err? { return Err(p.error); }
        return Ok(REntry.Rhs([p.value]));
      case Paths(ts) =>
        var p := ParsePaths(ts, ps);
        if p.Err? { return Err(p.error); }
        return Ok(REntry.Rhs(p.value));
      case Drop =>
        return Ok(Thrash);
    }
  }

  // ---------------------------------------------------------------------
  // A reference definition: classify every entry, then filter by bucket.

  function ClassifyAll(m: SpecMap, i: nat, ps: Parsers): (r: Result<seq<Compiled>, CompileError>)
    ensures r.Ok? ==> |r.value| == |m.entries| - i || (i > |m.entries| && r.value == [])
    decreases |m.entries| - i
  {
    if i >= |m.entries| then Ok([])
    else
      var key := m.entries[i].0;
      match ps.lhs(key)
      case Err(msg) => Err(BadLhs(key, msg))
      case Ok(lhs) =>
        var c :- Classify(key, lhs, m.entries[i].1, ps);
        var rest :- ClassifyAll(m, i + 1, ps);
        Ok([c] + rest)
  }

  function InfalliblesOf(cs: seq<Compiled>): seq<(InfallibleLhs, seq<Rhs>)>
  {
    if cs == [] then []
    else (if cs[0].CInfallible? then [(cs[0].lhs, cs[0].paths)] else []) + InfalliblesOf(cs[1..])
  }

  function LiteralsOf(cs: seq<Compiled>): seq<(string, REntry)>
  {
    if cs == [] then []
    else (if cs[0].CLiteral? then [(cs[0].text, cs[0].entry)] else []) + LiteralsOf(cs[1..])
  }

  function AmpsOf(cs: seq<Compiled>): seq<((nat, nat), REntry)>
  {
    if cs == [] then []
    else (if cs[0].CAmp? then [(cs[0].ref, cs[0].entry)] else []) + AmpsOf(cs[1..])
  }

  function PipesOf(cs: seq<Compiled>): seq<(seq<Stars>, REntry)>
  {
    if cs == [] then []
    else (if cs[0].CPipes? then [(cs[0].branches, cs[0].entry)] else []) + PipesOf(cs[1..])
  }

  /** The four buckets, each keeping the order of its entries. */
  function Buckets(cs: seq<Compiled>): Object
  {
    Object(InfalliblesOf(cs), LiteralsOf(cs), AmpsOf(cs), PipesOf(cs))
  }

  function Concat(a: Object, b: Object): Object
  {
    Object(a.infallible + b.infallible, a.literal + b.literal, a.amp + b.amp, a.pipes + b.pipes)
  }

  predicate DistinctKeys(m: SpecMap)
  {
    forall i, j :: 0 <= i < j < |m.entries| ==> m.entries[i].0 != m.entries[j].0
  }

  /** The keys from `i` on are pairwise distinct and none is in `seen`. */
  predicate FreshKeys(m: SpecMap, i: nat, seen: set<string>)
  {
    && (forall j :: i <= j < |m.entries| ==> m.entries[j].0 !in seen)
    && (forall j, k :: i <= j < k < |m.entries| ==> m.entries[j].0 != m.entries[k].0)
  }

  /** A key not seen before is fresh from `i` exactly when the later keys
      are fresh once it is seen. */
  lemma FreshKeysStep(m: SpecMap, i: nat, seen: set<string>)
    requires i < |m.entries| && m.entries[i].0 !in seen
    ensures FreshKeys(m, i, seen) <==> FreshKeys(m, i + 1, seen + {m.entries[i].0})
  {
    var key := m.entries[i].0;
    if FreshKeys(m, i + 1, seen + {key}) {
      forall j, k | i <= j < k < |m.entries|
        ensures m.entries[j].0 != m.entries[k].0
      {
        if j == i { assert m.entries[k].0 !in seen + {key}; }
      }
    }
  }

  /** Adding one classified entry to the accumulator, then the rest, is
      adding all of them. */
  lemma BucketsCons(acc: Object, c: Compiled, rest: seq<Compiled>)
    ensures Concat(AddToBucket(acc, c), Buckets(rest)) == Concat(acc, Buckets([c] + rest))
  {
    assert ([c] + rest)[1..] == rest;
  }

  lemma {:induction false} CompileFromCharacterized(m: SpecMap, i: nat, seen: set<string>, acc: Object, ps: Parsers)
    requires i <= |m.entries|
    ensures CompileFrom(m, i, seen, acc, ps).Ok? <==> FreshKeys(m, i, seen) && ClassifyAll(m, i, ps).Ok?
    ensures CompileFrom(m, i, seen, acc, ps).Ok? ==>
      CompileFrom(m, i, seen, acc, ps).value == Concat(acc, Buckets(ClassifyAll(m, i, ps).value))
    decreases |m.entries| - i
  {
    if i == |m.entries| {
      assert acc == Concat(acc, Buckets([]));
    } else {
      var key := m.entries[i].0;
      if key in seen {
        assert !FreshKeys(m, i, seen);
      } else if ps.lhs(key).Ok? {
        var lhs := ps.lhs(key).value;
        var c := Classify(key, lhs, m.entries[i].1, ps);
        if c.Ok? {
          var acc' := AddToBucket(acc, c.value);
          CompileFromCharacterized(m, i + 1, seen + {key}, acc', ps);
          FreshKeysStep(m, i, seen);
          if ClassifyAll(m, i + 1, ps).Ok? {
            BucketsCons(acc, c.value, ClassifyAll(m, i + 1, ps).value);
          }
        }
      }
    }
  }

  /** A spec object compiles exactly when its keys are distinct strings and
      every entry parses and has a value of the right shape; the result is
      the entries split by bucket, each bucket in key order. */
  lemma CompileCharacterized(m: SpecMap, ps: Parsers)
    ensures Compile(m, ps).Ok? <==> DistinctKeys(m) && ClassifyAll(m, 0, ps).Ok?
    ensures Compile(m, ps).Ok? ==> Compile(m, ps).value == Buckets(ClassifyAll(m, 0, ps).value)
  {
    CompileFromCharacterized(m, 0, {}, EmptyObject, ps);
    assert FreshKeys(m, 0, {}) <==> DistinctKeys(m);
    if Compile(m, ps).Ok? {
      assert Concat(EmptyObject, Buckets(ClassifyAll(m, 0, ps).value)) == Buckets(ClassifyAll(m, 0, ps).value);
    }
  }

  lemma {:induction false} BucketSizes(cs: seq<Compiled>)
    ensures |InfalliblesOf(cs)| + |LiteralsOf(cs)| + |AmpsOf(cs)| + |PipesOf(cs)| == |cs|
  {
    if cs != [] {
      BucketSizes(cs[1..]);
    }
  }

  /** Every key lands in exactly one bucket. */
  lemma CompileKeepsEveryEntry(m: SpecMap, ps: Parsers)
    requires Compile(m, ps).Ok?
    ensures var o := Compile(m, ps).value;
      |o.infallible| + |o.literal| + |o.amp| + |o.pipes| == |m.entries|
  {
    CompileCharacterized(m, ps);
    BucketSizes(ClassifyAll(m, 0, ps).value);
  }

  /** A key string seen earlier in the same object is rejected before it is
      parsed: whatever the parser would say of it. */
  lemma DuplicateRejectedBeforeParse(m: SpecMap, i: nat, seen: set<string>, acc: Object, ps: Parsers)
    requires i < |m.entries| && m.entries[i].0 in seen
    ensures CompileFrom(m, i, seen, acc, ps) == Err(DuplicateLhs(m.entries[i].0))
  {
  }

  /** An empty spec object compiles to `Object::default()`. */
  lemma EmptyMapCompiles(ps: Parsers)
    ensures Compile(SpecMap([]), ps) == Ok(EmptyObject)
  {
  }
}
