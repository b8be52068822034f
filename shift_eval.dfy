/** The read-only half of the shift evaluator (fluvio-jolt/src/shift.rs):
    the binding stack of capture frames, `&(level,index)` back-references,
    `@(level,rhs)` lookups into the input, and the resolution of output path
    steps. Every lookup fails with an error rather than defaulting. */
module ShiftEval {
  import opened Wrappers
  import opened Strings
  import opened JsonValue
  import opened Ast

  datatype Error =
    | PathIndexOutOfRange(idx: nat, len: nat)
    | MatchIndexOutOfRange(idx: nat, len: nat)
      /** A capture or string that is not a `usize`. */
    | InvalidIndex(text: string)
      /** A looked-up value that cannot serve as an array index. */
    | InvalidIndexVal(val: Json)
    | UnexpectedRhsEntry
    | ArrIndexOutOfRange(idx: nat, len: nat)
    | KeyNotFound(key: string)
    | EvalString
    | ShiftEmptyPath
    | ShiftPathNotEmpty

  /** One entry of the binding stack: the captures of a match and the input
      node it matched. */
  datatype Frame = Frame(captures: seq<string>, value: Json)

  /** The frame `level` steps below the top of the stack (the top is the last
      element of `path`). */
  function FrameAt(level: nat, path: seq<Frame>): Frame
    requires level < |path|
  {
    path[|path| - level - 1]
  }

  /** `get_match`: capture `index` of the frame `level` steps down. */
  function GetMatch(level: nat, index: nat, path: seq<Frame>): (r: Result<string, Error>)
    ensures level >= |path| <==> r == Err(PathIndexOutOfRange(level, |path|))
    ensures level < |path| ==>
      (index >= |FrameAt(level, path).captures| <==>
       r == Err(MatchIndexOutOfRange(index, |FrameAt(level, path).captures|)))
    ensures r.Ok? ==>
      (level < |path| && index < |FrameAt(level, path).captures| &&
       r.value == FrameAt(level, path).captures[index])
  {
    if level >= |path| then Err(PathIndexOutOfRange(level, |path|))
    else
      var caps := FrameAt(level, path).captures;
      if index >= |caps| then Err(MatchIndexOutOfRange(index, |caps|))
      else Ok(caps[index])
  }

  /** Level 0 is the most recently pushed frame, and pushing a frame moves
      every older frame one level down. */
  lemma GetMatchPush(path: seq<Frame>, f: Frame, level: nat, index: nat)
    ensures GetMatch(0, index, path + [f]) ==
      (if index < |f.captures| then Ok(f.captures[index])
       else Err(MatchIndexOutOfRange(index, |f.captures|)))
    ensures GetMatch(level + 1, index, path + [f]) ==
      (if level < |path| then GetMatch(level, index, path)
       else Err(PathIndexOutOfRange(level + 1, |path| + 1)))
  {
    if level < |path| {
      assert FrameAt(level + 1, path + [f]) == FrameAt(level, path);
    }
  }

  /** Where an index step lands: a definite position, or `[]`, a new slot. */
  datatype Slot = Position(n: nat) | Append

  /** One resolved step of an output path. */
  datatype Step = KeyStep(key: string) | IndexStep(slot: Slot)

  /** The number a looked-up value denotes as an index: a non-negative
      integer within `usize`, or a string that `usize::from_str` accepts. */
  function AsIndex(x: Json): (r: Result<nat, Error>)
    ensures r.Ok? ==> r.value <= USIZE_MAX
    ensures r.Ok? ==> x.Num? || x.Str?
    ensures x.Num? ==> (r.Ok? <==> 0 <= x.n <= USIZE_MAX)
    ensures x.Num? && r.Ok? ==> r.value == x.n
    ensures x.Str? ==> r == (if ParseUsize(x.s).Some? then Ok(ParseUsize(x.s).value) else Err(InvalidIndex(x.s)))
  {
    match x
    case Num(n) => if 0 <= n <= USIZE_MAX then Ok(n) else Err(InvalidIndexVal(x))
    case Str(s) =>
      (match ParseUsize(s)
       case Some(n) => Ok(n)
       case None => Err(InvalidIndex(s)))
    case _ => Err(InvalidIndexVal(x))
  }

  /** The text an `RhsEntry::At` value contributes to a key. */
  function KeyText(x: Json): (r: Result<string, Error>)
    ensures r.Err? <==> !(x.Str? || x.Num? || x.Bool?)
    ensures r.Err? ==> r.error == EvalString
    ensures x.Str? ==> r == Ok(x.s)
    ensures x.Num? ==> r == Ok(IntText(x.n))
    ensures x.Bool? ==> r == Ok(if x.b then "true" else "false")
  {
    match x
    case Str(s) => Ok(s)
    case Num(n) => Ok(IntText(n))
    case Bool(b) => Ok(if b then "true" else "false")
    case _ => Err(EvalString)
  }

  /** `key_into_object`. */
  function KeyIntoObject(v: Json, key: string): (r: Result<Json, Error>)
    ensures !v.Obj? ==> r == Err(UnexpectedRhsEntry)
    ensures v.Obj? && (forall j :: 0 <= j < |v.fields| ==> v.fields[j].0 != key) ==> r == Err(KeyNotFound(key))
    ensures r.Ok? ==> exists j :: 0 <= j < |v.fields| && v.fields[j] == (key, r.value)
  {
    if !v.Obj? then Err(UnexpectedRhsEntry)
    else match KeyIndex(v.fields, key)
      case None => Err(KeyNotFound(key))
      case Some(j) => Ok(v.fields[j].1)
  }

  // The evaluators below call one another through `At`, which nests a whole
  // `Rhs`; each decreases on the syntax node it is given.

  /** `eval_at`: evaluate `rhs` from the node of the frame `level` down. */
  function EvalAt(level: nat, rhs: Rhs, path: seq<Frame>): (r: Result<Json, Error>)
    ensures level >= |path| ==> r == Err(PathIndexOutOfRange(level, |path|))
    decreases rhs, 3, 0
  {
    if level >= |path| then Err(PathIndexOutOfRange(level, |path|))
    else EvalParts(rhs, 0, FrameAt(level, path).value, path)
  }

  /** `eval_rhs` from part `i` on, the cursor standing at `v`. */
  function EvalParts(rhs: Rhs, i: nat, v: Json, path: seq<Frame>): Result<Json, Error>
    decreases rhs, 2, |rhs.parts| - i
  {
    if i >= |rhs.parts| then Ok(v)
    else
      var part := rhs.parts[i];
      assert part in rhs.parts;
      match part
      case Index(op) =>
        if !v.Arr? then Err(UnexpectedRhsEntry)
        else
          var slot :- ResolveIndex(op, path);
          if slot.Append? then Err(UnexpectedRhsEntry)
          else if slot.n >= |v.items| then Err(ArrIndexOutOfRange(slot.n, |v.items|))
          else EvalParts(rhs, i + 1, v.items[slot.n], path)
      case CompositeKey(_) =>
        var key :- JoinKeys(part, 0, path, "");
        var next :- KeyIntoObject(v, key);
        EvalParts(rhs, i + 1, next, path)
      case Key(e) =>
        var key :- EntryText(e, path);
        var next :- KeyIntoObject(v, key);
        EvalParts(rhs, i + 1, next, path)
  }

  /** The index an `IndexOp` denotes (the `let idx = match idx_op` blocks). */
  function ResolveIndex(op: IndexOp, path: seq<Frame>): (r: Result<Slot, Error>)
    ensures r == Ok(Append) <==> op.Empty?
    ensures r.Ok? && r.value.Position? && !op.Literal? ==> r.value.n <= USIZE_MAX
    decreases op, 1, 0
  {
    match op
    case Amp(a, b) =>
      var m :- GetMatch(a, b, path);
      (match ParseUsize(m)
       case Some(n) => Ok(Position(n))
       case None => Err(InvalidIndex(m)))
    case Literal(n) => Ok(Position(n))
    case At(l, rhs) =>
      var x :- EvalAt(l, rhs, path);
      var n :- AsIndex(x);
      Ok(Position(n))
    case Empty => Ok(Append)
  }

  /** `rhs_entry_to_cow`: the text one key entry contributes. */
  function EntryText(e: RhsEntry, path: seq<Frame>): (r: Result<string, Error>)
    ensures e.Key? ==> r == Ok(e.text)
    ensures e.Amp? ==> r == GetMatch(e.level, e.index, path)
    decreases e, 1, 0
  {
    match e
    case Amp(a, b) => GetMatch(a, b, path)
    case At(l, rhs) =>
      var x :- EvalAt(l, rhs, path);
      KeyText(x)
    case Key(t) => Ok(t)
  }

  /** The composite key: the texts of the entries from `j` on, appended to
      `acc`, the key built so far. */
  function JoinKeys(part: RhsPart, j: nat, path: seq<Frame>, acc: string): Result<string, Error>
    requires part.CompositeKey?
    decreases part, 1, |part.entries| - j
  {
    if j >= |part.entries| then Ok(acc)
    else
      assert part.entries[j] in part.entries;
      var t :- EntryText(part.entries[j], path);
      JoinKeys(part, j + 1, path, acc + t)
  }

  /** The steps of an output path from part `i` on, after `acc`. Resolving
      reads only the stack, never the output, so the steps can be computed
      before the output is touched. */
  function ResolveSteps(rhs: Rhs, i: nat, path: seq<Frame>, acc: seq<Step>): (r: Result<seq<Step>, Error>)
    requires i <= |rhs.parts|
    ensures r.Ok? ==> |r.value| == |acc| + |rhs.parts| - i && r.value[..|acc|] == acc
    decreases |rhs.parts| - i
  {
    if i >= |rhs.parts| then Ok(acc)
    else
      var step :-
        match rhs.parts[i]
        case Index(op) => var s :- ResolveIndex(op, path); Ok(IndexStep(s))
        case CompositeKey(_) => var k :- JoinKeys(rhs.parts[i], 0, path, ""); Ok(KeyStep(k))
        case Key(e) => var k :- EntryText(e, path); Ok(KeyStep(k));
      ResolveSteps(rhs, i + 1, path, acc + [step])
  }

  // ---------------------------------------------------------------------
  // Lookups fail rather than default.

  /** An index step into anything but an array, `[]` when reading, or an
      index past the end of the array is an error. */
  lemma IndexStepErrors(rhs: Rhs, i: nat, v: Json, path: seq<Frame>)
    requires i < |rhs.parts| && rhs.parts[i].Index?
    ensures !v.Arr? ==> EvalParts(rhs, i, v, path) == Err(UnexpectedRhsEntry)
    ensures v.Arr? && rhs.parts[i].op.Empty? ==> EvalParts(rhs, i, v, path) == Err(UnexpectedRhsEntry)
    ensures v.Arr? && rhs.parts[i].op.Literal? && rhs.parts[i].op.n >= |v.items| ==>
      EvalParts(rhs, i, v, path) == Err(ArrIndexOutOfRange(rhs.parts[i].op.n, |v.items|))
    ensures v.Arr? && rhs.parts[i].op.Literal? && rhs.parts[i].op.n < |v.items| ==>
      EvalParts(rhs, i, v, path) == EvalParts(rhs, i + 1, v.items[rhs.parts[i].op.n], path)
  {
  }

  /** A key step into anything but an object, or to an absent key, is an
      error; a present key moves the cursor to its value. */
  lemma KeyStepErrors(rhs: Rhs, i: nat, v: Json, path: seq<Frame>)
    requires i < |rhs.parts| && rhs.parts[i].Key? && rhs.parts[i].entry.Key?
    ensures var k := rhs.parts[i].entry.text;
      && (!v.Obj? ==> EvalParts(rhs, i, v, path) == Err(UnexpectedRhsEntry))
      && (v.Obj? && KeyIndex(v.fields, k).None? ==> EvalParts(rhs, i, v, path) == Err(KeyNotFound(k)))
      && (v.Obj? && KeyIndex(v.fields, k).Some? ==>
            EvalParts(rhs, i, v, path) == EvalParts(rhs, i + 1, v.fields[KeyIndex(v.fields, k).value].1, path))
  {
  }

  /** The key under which an array element is matched, read back through an
      `[&0]` index, is that element's position. */
  lemma ArrayKeyIsIndex(path: seq<Frame>, j: nat, x: Json)
    requires j <= USIZE_MAX
    ensures ResolveIndex(IndexOp.Amp(0, 0), path + [Frame([NatText(j)], x)]) == Ok(Position(j))
  {
    GetMatchPush(path, Frame([NatText(j)], x), 0, 0);
    ParseNatText(j);
  }
}
