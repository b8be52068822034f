/** The shift transform (fluvio-jolt/src/shift.rs): a compiled spec object
    walks the input tree, matching each child key against the spec's literal
    entries, then its back-reference entries, then its glob alternations,
    and writes matched values into a fresh output tree. A stack of capture
    frames records the matches made on the way down, for `&` and `@`. */
module Shift {
  import opened Wrappers
  import opened Strings
  import opened JsonValue
  import opened Ast
  import D = Deserialize
  import opened ShiftEval
  import opened ShiftInsert
  import opened StarMatch

  const ROOT_KEY: string := "root"

  /** The children a node is matched as: an object's entries, or one
      pseudo-child per array element (keyed by its index) or per scalar
      (keyed by its text, `null` by "null"). */
  function Children(v: Json): (r: seq<(string, Json)>)
    ensures v.Obj? ==> r == v.fields
    ensures v.Arr? ==> |r| == |v.items| && forall i :: 0 <= i < |r| ==> r[i] == (NatText(i), v.items[i])
    ensures v.Bool? ==> r == [(if v.b then "true" else "false", v)]
    ensures v.Num? ==> r == [(IntText(v.n), v)]
    ensures v.Str? ==> r == [(v.s, v)]
    ensures v.Null? ==> r == [("null", v)]
  {
    match v
    case Obj(fields) => fields
    case Arr(items) => seq(|items|, i requires 0 <= i < |items| => (NatText(i), items[i]))
    case Bool(b) => [(if b then "true" else "false", v)]
    case Num(n) => [(IntText(n), v)]
    case Str(s) => [(s, v)]
    case Null => [("null", v)]
  }

  /** The value an infallible entry writes. */
  function InfallibleValue(lhs: D.InfallibleLhs, path: seq<Frame>): Result<Json, Error>
  {
    match lhs
    case DollarSign(a, b) => var m :- GetMatch(a, b, path); Ok(Str(m))
    case At(l, rhs) => EvalAt(l, rhs, path)
    case Square(t) => Ok(Str(t))
  }

  /** `insert_val_to_rhs`: resolve the steps, then write. */
  function InsertSpec(rhs: Rhs, v: Json, path: seq<Frame>, out: Json): Result<Json, Error>
  {
    var steps :- ResolveSteps(rhs, 0, path, []);
    Ok(Put(out, steps, v))
  }

  /** Writes `v` to each output path from the `i`-th on, in order. */
  function InsertAll(rs: seq<Rhs>, i: nat, v: Json, path: seq<Frame>, out: Json): Result<Json, Error>
    decreases |rs| - i
  {
    if i >= |rs| then Ok(out)
    else
      var o :- InsertSpec(rs[i], v, path, out);
      InsertAll(rs, i + 1, v, path, o)
  }

  /** The infallible entries from the `i`-th on; each writes with a copy of
      the top frame `tip` pushed, so that `&0` names the node itself. */
  function RunInfallible(obj: D.Object, i: nat, path: seq<Frame>, tip: Frame, out: Json): Result<Json, Error>
    decreases |obj.infallible| - i
  {
    if i >= |obj.infallible| then Ok(out)
    else
      var v :- InfallibleValue(obj.infallible[i].0, path);
      var o :- InsertAll(obj.infallible[i].1, 0, v, path + [tip], out);
      RunInfallible(obj, i + 1, path, tip, o)
  }

  datatype Bucket = LiteralBucket | AmpBucket | PipesBucket

  /** The entry that matched a key: its bucket, its position there, and the
      captures its frame records. */
  datatype Hit = Hit(captures: seq<string>, bucket: Bucket, index: nat)

  predicate ValidHit(obj: D.Object, h: Hit)
  {
    match h.bucket
    case LiteralBucket => h.index < |obj.literal|
    case AmpBucket => h.index < |obj.amp|
    case PipesBucket => h.index < |obj.pipes|
  }

  function HitEntry(obj: D.Object, h: Hit): D.REntry
    requires ValidHit(obj, h)
  {
    match h.bucket
    case LiteralBucket => obj.literal[h.index].1
    case AmpBucket => obj.amp[h.index].1
    case PipesBucket => obj.pipes[h.index].1
  }

  /** The first entry matching `k`: literals first, then back-references,
      then alternations. */
  function SelectEntry(obj: D.Object, k: string, path: seq<Frame>): (r: Result<Option<Hit>, Error>)
    ensures r.Ok? && r.value.Some? ==> ValidHit(obj, r.value.value)
  {
    SelectLiteral(obj, k, path, 0)
  }

  function SelectLiteral(obj: D.Object, k: string, path: seq<Frame>, i: nat): (r: Result<Option<Hit>, Error>)
    ensures r.Ok? && r.value.Some? ==> ValidHit(obj, r.value.value)
    decreases |obj.literal| - i
  {
    if i >= |obj.literal| then SelectAmp(obj, k, path, 0)
    else if obj.literal[i].0 == k then Ok(Some(Hit([k], LiteralBucket, i)))
    else SelectLiteral(obj, k, path, i + 1)
  }

  /** Every back-reference is resolved in turn, and one that cannot be is an
      error even if a later entry would have matched. */
  function SelectAmp(obj: D.Object, k: string, path: seq<Frame>, i: nat): (r: Result<Option<Hit>, Error>)
    ensures r.Ok? && r.value.Some? ==> ValidHit(obj, r.value.value)
    decreases |obj.amp| - i
  {
    if i >= |obj.amp| then SelectPipes(obj, k, 0, 0)
    else
      var m :- GetMatch(obj.amp[i].0.0, obj.amp[i].0.1, path);
      if m == k then Ok(Some(Hit([m], AmpBucket, i)))
      else SelectAmp(obj, k, path, i + 1)
  }

  /** Alternations in order, and within one its branches in order. */
  function SelectPipes(obj: D.Object, k: string, p: nat, b: nat): (r: Result<Option<Hit>, Error>)
    ensures r.Ok?
    ensures r.value.Some? ==> ValidHit(obj, r.value.value)
    decreases |obj.pipes| - p, if p < |obj.pipes| then |obj.pipes[p].0| - b else 0
  {
    if p >= |obj.pipes| then Ok(None)
    else if b >= |obj.pipes[p].0| then SelectPipes(obj, k, p + 1, 0)
    else match MatchSpec(obj.pipes[p].0[b].fragments, k)
      case Some(m) => Ok(Some(Hit(m, PipesBucket, p)))
      case None => SelectPipes(obj, k, p, b + 1)
  }

  // The walk proper: each function decreases on the spec node it is given.

  /** `apply`: the output after applying `obj` to the node on top of the
      stack. */
  function ApplyObj(obj: D.Object, path: seq<Frame>, out: Json): Result<Json, Error>
    decreases obj, 3, 0
  {
    if path == [] then Err(ShiftEmptyPath)
    else
      var tip := path[|path| - 1];
      var o :- RunInfallible(obj, 0, path, tip, out);
      RunChildren(obj, Children(tip.value), 0, path, o)
  }

  function RunChildren(obj: D.Object, kids: seq<(string, Json)>, j: nat, path: seq<Frame>, out: Json)
    : Result<Json, Error>
    decreases obj, 2, |kids| - j
  {
    if j >= |kids| then Ok(out)
    else
      var o :- MatchKey(obj, kids[j].0, kids[j].1, path, out);
      RunChildren(obj, kids, j + 1, path, o)
  }

  /** `match_obj_and_key`: apply the first entry matching `k`, with a frame
      of its captures pushed; no match leaves the output as it is. */
  function MatchKey(obj: D.Object, k: string, v: Json, path: seq<Frame>, out: Json): Result<Json, Error>
    decreases obj, 1, 0
  {
    var hit :- SelectEntry(obj, k, path);
    if hit.None? then Ok(out)
    else
      var h := hit.value;
      var path' := path + [Frame(h.captures, v)];
      match h.bucket
      case LiteralBucket =>
        assert obj.literal[h.index] in obj.literal;
        ApplyEntry(v, obj.literal[h.index].1, path', out)
      case AmpBucket =>
        assert obj.amp[h.index] in obj.amp;
        ApplyEntry(v, obj.amp[h.index].1, path', out)
      case PipesBucket =>
        assert obj.pipes[h.index] in obj.pipes;
        ApplyEntry(v, obj.pipes[h.index].1, path', out)
  }

  /** `apply_match`: descend, write to every path, or drop. */
  function ApplyEntry(v: Json, entry: D.REntry, path: seq<Frame>, out: Json): Result<Json, Error>
    decreases entry, 0, 0
  {
    match entry
    case Obj(o) => ApplyObj(o, path, out)
    case Rhs(rs) => InsertAll(rs, 0, v, path, out)
    case Thrash => Ok(out)
  }

  /** `Transform::apply` for a shift: the walk starts from one frame named
      "root" holding the input, with output `null`. */
  function Transform(obj: D.Object, input: Json): Result<Json, Error>
  {
    ApplyObj(obj, [Frame([ROOT_KEY], input)], Null)
  }

  /** The check after the walk: popping the root frame must leave the stack
      empty. */
  function PopRoot(stack: seq<Frame>, out: Json): (r: Result<Json, Error>)
    ensures r.Ok? <==> |stack| == 1
    ensures r.Ok? ==> r.value == out
    ensures |stack| == 0 ==> r == Err(ShiftEmptyPath)
    ensures |stack| > 1 ==> r == Err(ShiftPathNotEmpty)
  {
    if |stack| == 0 then Err(ShiftEmptyPath)
    else if |stack| > 1 then Err(ShiftPathNotEmpty)
    else Ok(out)
  }

  // ---------------------------------------------------------------------
  // The imperative walker: the binding stack and the output are fields that
  // the methods push, pop and rewrite.

  class Walk {
    var path: seq<Frame>
    var out: Json

    constructor(input: Json)
      ensures path == [Frame([ROOT_KEY], input)] && out == Null
    {
      path := [Frame([ROOT_KEY], input)];
      out := Null;
    }

    /** On success the stack is back as it was and the output is the one the
        specification computes; on failure the error is the same. */
    predicate Reflects(res: Result<Json, Error>, r: Outcome<Error>, before: seq<Frame>)
      reads this
    {
      match res
      case Ok(o) => r.Pass? && path == before && out == o
      case Err(e) => r == Fail(e)
    }

    method Apply(obj: D.Object) returns (r: Outcome<Error>)
      modifies this
      ensures Reflects(ApplyObj(obj, old(path), old(out)), r, old(path))
      decreases obj, 3, 0
    {
      if |path| == 0 {
        return Fail(ShiftEmptyPath);
      }
      var tip := path[|path| - 1];
      var i := 0;
      while i < |obj.infallible|
        invariant 0 <= i <= |obj.infallible|
        invariant path == old(path)
        invariant RunInfallible(obj, 0, old(path), tip, old(out)) == RunInfallible(obj, i, old(path), tip, out)
      {
        var lhs := obj.infallible[i].0;
        var paths := obj.infallible[i].1;
        var v: Json;
        match lhs {
          case DollarSign(a, b) =>
            var m := GetMatch(a, b, path);
            if m.Err? {
              return Fail(m.error);
            }
            v := Str(m.value);
          case At(l, rhs) =>
            var x := EvalAt(l, rhs, path);
            if x.Err? {
              return Fail(x.error);
            }
            v := x.value;
          case Square(t) =>
            v := Str(t);
        }
        assert InfallibleValue(lhs, old(path)) == Ok(v);
        ghost var start := out;
        path := path + [tip];
        var j := 0;
        while j < |paths|
          invariant 0 <= j <= |paths|
          invariant path == old(path) + [tip]
          invariant RunInfallible(obj, 0, old(path), tip, old(out)) == RunInfallible(obj, i, old(path), tip, start)
          invariant InsertAll(paths, 0, v, path, start) == InsertAll(paths, j, v, path, out)
        {
          r := InsertValToRhs(paths[j], v);
          if r.Fail? {
            return;
          }
          j := j + 1;
        }
        path := path[..|path| - 1];
        assert path == old(path);
        i := i + 1;
      }
      var kids := Children(tip.value);
      var k := 0;
      while k < |kids|
        invariant 0 <= k <= |kids|
        invariant path == old(path)
        invariant ApplyObj(obj, old(path), old(out)) == RunChildren(obj, kids, k, path, out)
      {
        r := MatchObjAndKey(obj, kids[k].0, kids[k].1);
        if r.Fail? {
          return;
        }
        k := k + 1;
      }
      r := Pass;
    }

    method MatchObjAndKey(obj: D.Object, k: string, v: Json) returns (r: Outcome<Error>)
      modifies this
      ensures Reflects(MatchKey(obj, k, v, old(path), old(out)), r, old(path))
      decreases obj, 1, 0
    {
      var i := 0;
      while i < |obj.literal|
        invariant 0 <= i <= |obj.literal|
        invariant path == old(path) && out == old(out)
        invariant SelectEntry(obj, k, path) == SelectLiteral(obj, k, path, i)
      {
        if obj.literal[i].0 == k {
          assert obj.literal[i] in obj.literal;
          path := path + [Frame([k], v)];
          r := ApplyMatch(v, obj.literal[i].1);
          if r.Fail? {
            return;
          }
          path := path[..|path| - 1];
          assert path == old(path);
          return;
        }
        i := i + 1;
      }
      var a := 0;
      while a < |obj.amp|
        invariant 0 <= a <= |obj.amp|
        invariant path == old(path) && out == old(out)
        invariant SelectEntry(obj, k, path) == SelectAmp(obj, k, path, a)
      {
        var m := GetMatch(obj.amp[a].0.0, obj.amp[a].0.1, path);
        if m.Err? {
          return Fail(m.error);
        }
        if m.value == k {
          assert obj.amp[a] in obj.amp;
          path := path + [Frame([m.value], v)];
          r := ApplyMatch(v, obj.amp[a].1);
          if r.Fail? {
            return;
          }
          path := path[..|path| - 1];
          assert path == old(path);
          return;
        }
        a := a + 1;
      }
      var p := 0;
      while p < |obj.pipes|
        invariant 0 <= p <= |obj.pipes|
        invariant path == old(path) && out == old(out)
        invariant SelectEntry(obj, k, path) == SelectPipes(obj, k, p, 0)
      {
        var branches := obj.pipes[p].0;
        var b := 0;
        while b < |branches|
          invariant 0 <= b <= |branches|
          invariant path == old(path) && out == old(out)
          invariant SelectEntry(obj, k, path) == SelectPipes(obj, k, p, b)
        {
          var m := MatchStars(branches[b].fragments, k);
          if m.Some? {
            assert obj.pipes[p] in obj.pipes;
            path := path + [Frame(m.value, v)];
            r := ApplyMatch(v, obj.pipes[p].1);
            if r.Fail? {
              return;
            }
            path := path[..|path| - 1];
            assert path == old(path);
            return;
          }
          b := b + 1;
        }
        p := p + 1;
      }
      r := Pass;
    }

    method ApplyMatch(v: Json, entry: D.REntry) returns (r: Outcome<Error>)
      modifies this
      ensures Reflects(ApplyEntry(v, entry, old(path), old(out)), r, old(path))
      decreases entry, 0, 0
    {
      match entry {
        case Obj(o) =>
          r := Apply(o);
        case Rhs(rs) =>
          var i := 0;
          while i < |rs|
            invariant 0 <= i <= |rs|
            invariant path == old(path)
            invariant InsertAll(rs, 0, v, path, old(out)) == InsertAll(rs, i, v, path, out)
          {
            r := InsertValToRhs(rs[i], v);
            if r.Fail? {
              return;
            }
            i := i + 1;
          }
          r := Pass;
        case Thrash =>
          r := Pass;
      }
    }

    /** `insert_val_to_rhs`: the steps are resolved part by part (a composite
        key by appending the texts of its entries), then the value is written
        along them. */
    method InsertValToRhs(rhs: Rhs, v: Json) returns (r: Outcome<Error>)
      modifies this
      ensures path == old(path)
      ensures Reflects(InsertSpec(rhs, v, old(path), old(out)), r, old(path))
    {
      var steps: seq<Step> := [];
      var i := 0;
      while i < |rhs.parts|
        invariant 0 <= i <= |rhs.parts|
        invariant ResolveSteps(rhs, 0, path, []) == ResolveSteps(rhs, i, path, steps)
      {
        var step: Step;
        match rhs.parts[i] {
          case Index(op) =>
            var s := ResolveIndex(op, path);
            if s.Err? {
              return Fail(s.error);
            }
            step := IndexStep(s.value);
          case CompositeKey(entries) =>
            var key := "";
            var j := 0;
            while j < |entries|
              invariant 0 <= j <= |entries|
              invariant JoinKeys(rhs.parts[i], 0, path, "") == JoinKeys(rhs.parts[i], j, path, key)
            {
              var t := EntryText(entries[j], path);
              if t.Err? {
                return Fail(t.error);
              }
              key := key + t.value;
              j := j + 1;
            }
            step := KeyStep(key);
          case Key(e) =>
            var t := EntryText(e, path);
            if t.Err? {
              return Fail(t.error);
            }
            step := KeyStep(t.value);
        }
        steps := steps + [step];
        i := i + 1;
      }
      out := Put(out, steps, v);
      r := Pass;
    }
  }

  /** `Shift::apply`: run the walk from the root frame, then pop the root. */
  method ShiftApply(obj: D.Object, input: Json) returns (r: Result<Json, Error>)
    ensures r == Transform(obj, input)
  {
    var w := new Walk(input);
    var res := w.Apply(obj);
    if res.Fail? {
      return Err(res.error);
    }
    r := PopRoot(w.path, w.out);
  }

  // ---------------------------------------------------------------------
  // Which entry a key selects.

  lemma {:induction false} SelectLiteralFrom(obj: D.Object, k: string, path: seq<Frame>, s: nat, i: nat)
    requires s <= i < |obj.literal| && obj.literal[i].0 == k
    requires forall j :: s <= j < i ==> obj.literal[j].0 != k
    ensures SelectLiteral(obj, k, path, s) == Ok(Some(Hit([k], LiteralBucket, i)))
    decreases i - s
  {
    if s < i {
      SelectLiteralFrom(obj, k, path, s + 1, i);
    }
  }

  /** The first literal entry equal to the key wins, whatever the
      back-reference and alternation entries say. */
  lemma LiteralWins(obj: D.Object, k: string, path: seq<Frame>, i: nat)
    requires i < |obj.literal| && obj.literal[i].0 == k
    requires forall j :: 0 <= j < i ==> obj.literal[j].0 != k
    ensures SelectEntry(obj, k, path) == Ok(Some(Hit([k], LiteralBucket, i)))
  {
    SelectLiteralFrom(obj, k, path, 0, i);
  }

  lemma {:induction false} NoLiteralFrom(obj: D.Object, k: string, path: seq<Frame>, s: nat)
    requires forall j :: s <= j < |obj.literal| ==> obj.literal[j].0 != k
    ensures SelectLiteral(obj, k, path, s) == SelectAmp(obj, k, path, 0)
    decreases |obj.literal| - s
  {
    if s < |obj.literal| {
      NoLiteralFrom(obj, k, path, s + 1);
    }
  }

  /** With no equal literal, the back-references are tried next, and the
      first that cannot be resolved is an error. */
  lemma AmpAfterLiterals(obj: D.Object, k: string, path: seq<Frame>)
    requires forall j :: 0 <= j < |obj.literal| ==> obj.literal[j].0 != k
    ensures SelectEntry(obj, k, path) == SelectAmp(obj, k, path, 0)
    ensures |obj.amp| > 0 && GetMatch(obj.amp[0].0.0, obj.amp[0].0.1, path).Err? ==>
      SelectEntry(obj, k, path) == Err(GetMatch(obj.amp[0].0.0, obj.amp[0].0.1, path).error)
  {
    NoLiteralFrom(obj, k, path, 0);
  }

  lemma {:induction false} AmpHitFrom(obj: D.Object, k: string, path: seq<Frame>, s: nat, h: Hit)
    requires SelectAmp(obj, k, path, s) == Ok(Some(h)) && h.bucket == PipesBucket
    ensures forall a :: s <= a < |obj.amp| ==>
      GetMatch(obj.amp[a].0.0, obj.amp[a].0.1, path).Ok? &&
      GetMatch(obj.amp[a].0.0, obj.amp[a].0.1, path).value != k
    ensures SelectPipes(obj, k, 0, 0) == Ok(Some(h))
    decreases |obj.amp| - s
  {
    if s < |obj.amp| {
      AmpHitFrom(obj, k, path, s + 1, h);
    }
  }

  lemma {:induction false} LiteralHitFrom(obj: D.Object, k: string, path: seq<Frame>, s: nat, h: Hit)
    requires SelectLiteral(obj, k, path, s) == Ok(Some(h)) && h.bucket != LiteralBucket
    ensures forall j :: s <= j < |obj.literal| ==> obj.literal[j].0 != k
    decreases |obj.literal| - s
  {
    if s < |obj.literal| {
      LiteralHitFrom(obj, k, path, s + 1, h);
    }
  }

  lemma {:induction false} PipesHitFrom(obj: D.Object, k: string, p: nat, b: nat, h: Hit)
    requires SelectPipes(obj, k, p, b) == Ok(Some(h))
    ensures h.bucket == PipesBucket && p <= h.index < |obj.pipes|
    ensures exists c ::
      (0 <= c < |obj.pipes[h.index].0| && MatchSpec(obj.pipes[h.index].0[c].fragments, k) == Some(h.captures))
    decreases |obj.pipes| - p, if p < |obj.pipes| then |obj.pipes[p].0| - b else 0
  {
    if p < |obj.pipes| {
      if b >= |obj.pipes[p].0| {
        PipesHitFrom(obj, k, p + 1, 0, h);
      } else if MatchSpec(obj.pipes[p].0[b].fragments, k).None? {
        PipesHitFrom(obj, k, p, b + 1, h);
      }
    }
  }

  /** An alternation is applied only when no literal equals the key and
      every back-reference resolved to something else; its captures are
      those of one of its branches. */
  lemma PipesHitOrder(obj: D.Object, k: string, path: seq<Frame>, h: Hit)
    requires SelectEntry(obj, k, path) == Ok(Some(h)) && h.bucket == PipesBucket
    ensures forall j :: 0 <= j < |obj.literal| ==> obj.literal[j].0 != k
    ensures forall a :: 0 <= a < |obj.amp| ==>
      GetMatch(obj.amp[a].0.0, obj.amp[a].0.1, path).Ok? &&
      GetMatch(obj.amp[a].0.0, obj.amp[a].0.1, path).value != k
    ensures h.index < |obj.pipes|
    ensures exists c ::
      (0 <= c < |obj.pipes[h.index].0| && MatchSpec(obj.pipes[h.index].0[c].fragments, k) == Some(h.captures))
  {
    LiteralHitFrom(obj, k, path, 0, h);
    NoLiteralFrom(obj, k, path, 0);
    AmpHitFrom(obj, k, path, 0, h);
    PipesHitFrom(obj, k, 0, 0, h);
  }

  /** A key that matches nothing, or matches a drop entry, leaves the output
      as it was. */
  lemma UnmatchedOrDroppedWritesNothing(obj: D.Object, k: string, v: Json, path: seq<Frame>, out: Json)
    requires SelectEntry(obj, k, path).Ok?
    requires var hit := SelectEntry(obj, k, path).value;
      hit.None? || HitEntry(obj, hit.value).Thrash?
    ensures MatchKey(obj, k, v, path, out) == Ok(out)
  {
  }

  // ---------------------------------------------------------------------
  // Whole transforms.

  lemma {:induction false} NoEntriesNoWrites(kids: seq<(string, Json)>, j: nat, path: seq<Frame>, out: Json)
    ensures RunChildren(D.EmptyObject, kids, j, path, out) == Ok(out)
    decreases |kids| - j
  {
    if j < |kids| {
      NoEntriesNoWrites(kids, j + 1, path, out);
    }
  }

  /** The empty spec maps every input to `null`. */
  lemma EmptySpecGivesNull(input: Json)
    ensures Transform(D.EmptyObject, input) == Ok(Null)
  {
    NoEntriesNoWrites(Children(input), 0, [Frame([ROOT_KEY], input)], Null);
  }

  /** The spec `{"*": "&"}`: every child is written under its own key. */
  const IdentitySpec: D.Object :=
    D.Object([], [], [], [([Stars(["", ""])], D.REntry.Rhs([Rhs([RhsPart.Key(RhsEntry.Amp(0, 0))])]))])

  function Collected(kids: seq<(string, Json)>): Json
  {
    if kids == [] then Null else Obj(kids)
  }

  lemma IdentityMatch(k: string, x: Json, path: seq<Frame>, out: Json)
    ensures MatchKey(IdentitySpec, k, x, path, out) == Ok(Put(out, [KeyStep(k)], x))
  {
    StarMatchesAll(k);
    assert SelectEntry(IdentitySpec, k, path) == Ok(Some(Hit([k, k], PipesBucket, 0)));
    var rhs := Rhs([RhsPart.Key(RhsEntry.Amp(0, 0))]);
    var path' := path + [Frame([k, k], x)];
    GetMatchPush(path, Frame([k, k], x), 0, 0);
    assert ResolveSteps(rhs, 1, path', [KeyStep(k)]) == Ok([KeyStep(k)]);
    assert ResolveSteps(rhs, 0, path', []) == Ok([KeyStep(k)]);
  }

  lemma {:induction false} IdentityRun(kids: seq<(string, Json)>, j: nat, path: seq<Frame>)
    requires j <= |kids|
    requires forall a, b :: 0 <= a < b < |kids| ==> kids[a].0 != kids[b].0
    ensures RunChildren(IdentitySpec, kids, j, path, Collected(kids[..j])) == Ok(Collected(kids))
    decreases |kids| - j
  {
    if j == |kids| {
      assert kids[..j] == kids;
    } else {
      var k := kids[j].0;
      var out := Collected(kids[..j]);
      IdentityMatch(k, kids[j].1, path, out);
      assert KeyIndex(AsObject(out), k).None? by {
        forall a | 0 <= a < |AsObject(out)|
          ensures AsObject(out)[a].0 != k
        {
          assert AsObject(out)[a] == kids[a];
        }
      }
      assert kids[..j] + [(k, kids[j].1)] == kids[..j + 1];
      assert Put(out, [KeyStep(k)], kids[j].1) == Collected(kids[..j + 1]);
      IdentityRun(kids, j + 1, path);
    }
  }

  /** `{"*": "&"}` copies the children of the input into an object: an
      object with distinct keys comes out unchanged (or `null` if it is
      empty), and a scalar comes out as a one-entry object. */
  lemma IdentityCopiesChildren(input: Json)
    requires forall a, b :: 0 <= a < b < |Children(input)| ==> Children(input)[a].0 != Children(input)[b].0
    ensures Transform(IdentitySpec, input) == Ok(Collected(Children(input)))
  {
    var kids := Children(input);
    assert kids[..0] == [];
    IdentityRun(kids, 0, [Frame([ROOT_KEY], input)]);
  }

  /** Under `{"*": "&"}` an array becomes an object keyed by element index. */
  lemma IdentityOnArray(items: seq<Json>)
    ensures Transform(IdentitySpec, Arr(items)) == Ok(Collected(Children(Arr(items))))
  {
    var kids := Children(Arr(items));
    forall a, b | 0 <= a < b < |kids|
      ensures kids[a].0 != kids[b].0
    {
      if kids[a].0 == kids[b].0 {
        NatTextInjective(a, b);
      }
    }
    IdentityCopiesChildren(Arr(items));
  }

  /** `{"$": "name"}`: at the root, `$` is the root frame's name. */
  lemma DollarAtRoot(input: Json)
    ensures var spec := D.Object([(D.InfallibleLhs.DollarSign(0, 0), [Rhs([RhsPart.Key(RhsEntry.Key("name"))])])], [], [], []);
      Transform(spec, input) == Ok(Obj([("name", Str(ROOT_KEY))]))
  {
    var spec := D.Object([(D.InfallibleLhs.DollarSign(0, 0), [Rhs([RhsPart.Key(RhsEntry.Key("name"))])])], [], [], []);
    var path := [Frame([ROOT_KEY], input)];
    var rhs := Rhs([RhsPart.Key(RhsEntry.Key("name"))]);
    assert InfallibleValue(spec.infallible[0].0, path) == Ok(Str(ROOT_KEY));
    var out := Obj([("name", Str(ROOT_KEY))]);
    assert ResolveSteps(rhs, 0, path + [path[0]], []) == Ok([KeyStep("name")]);
    assert Put(Null, [KeyStep("name")], Str(ROOT_KEY)) == out;
    assert InsertSpec(rhs, Str(ROOT_KEY), path + [path[0]], Null) == Ok(out);
    assert InsertAll(spec.infallible[0].1, 1, Str(ROOT_KEY), path + [path[0]], out) == Ok(out);
    assert InsertAll(spec.infallible[0].1, 0, Str(ROOT_KEY), path + [path[0]], Null) == Ok(out);
    assert RunInfallible(spec, 1, path, path[0], out) == Ok(out);
    assert RunInfallible(spec, 0, path, path[0], Null) == Ok(Obj([("name", Str(ROOT_KEY))]));
    NoMatchEntries(spec, Children(input), 0, path, Obj([("name", Str(ROOT_KEY))]));
  }

  lemma {:induction false} NoMatchEntries(obj: D.Object, kids: seq<(string, Json)>, j: nat, path: seq<Frame>, out: Json)
    requires obj.literal == [] && obj.amp == [] && obj.pipes == []
    ensures RunChildren(obj, kids, j, path, out) == Ok(out)
    decreases |kids| - j
  {
    if j < |kids| {
      NoMatchEntries(obj, kids, j + 1, path, out);
    }
  }
}
