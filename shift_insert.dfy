/** The write half of the shift evaluator (`insert_val_to_rhs` in
    fluvio-jolt/src/shift.rs): following resolved steps into the output,
    creating arrays and objects on the way, and settling the value in the
    final slot. The source walks a mutable cursor down the tree; here the
    tree is rebuilt along the same path. */
module ShiftInsert {
  import opened Wrappers
  import opened JsonValue
  import opened ShiftEval

  /** The vector an index step works on: the array itself, `[]` for `null`,
      and `[v]` for any other value `v`. */
  function AsArray(out: Json): seq<Json>
  {
    if out.Arr? then out.items else if out.Null? then [] else [out]
  }

  /** The map a key step works on: any non-object is replaced by `{}`. */
  function AsObject(out: Json): seq<(string, Json)>
  {
    if out.Obj? then out.fields else []
  }

  /** `items` extended with `null` until it has at least `n` elements. */
  function Pad(items: seq<Json>, n: nat): (r: seq<Json>)
    ensures |r| == if |items| < n then n else |items|
    ensures r[..|items|] == items
    ensures forall j :: |items| <= j < |r| ==> r[j] == Null
    decreases n - |items|
  {
    if |items| >= n then items else Pad(items + [Null], n)
  }

  /** The final write into the slot the cursor reached. */
  function Settle(prior: Json, v: Json): Json
  {
    match prior
    case Null => v
    case Arr(items) => Arr(items + [v])
    case _ => Arr([prior, v])
  }

  /** The output after writing `v` at the end of `steps`. */
  function Put(out: Json, steps: seq<Step>, v: Json): Json
    decreases |steps|
  {
    if steps == [] then Settle(out, v)
    else match steps[0]
      case KeyStep(k) =>
        var fields := AsObject(out);
        (match KeyIndex(fields, k)
         case Some(j) => Obj(fields[j := (k, Put(fields[j].1, steps[1..], v))])
         case None => Obj(fields + [(k, Put(Null, steps[1..], v))]))
      case IndexStep(Append) =>
        Arr(AsArray(out) + [Put(Null, steps[1..], v)])
      case IndexStep(Position(n)) =>
        var items := Pad(AsArray(out), n + 1);
        Arr(items[n := Put(items[n], steps[1..], v)])
  }

  // ---------------------------------------------------------------------
  // Reading back: the reference definitions the writer is checked against.

  /** The node the cursor reaches by following `steps` through `out`,
      counting every slot the walk would create as `null`. */
  function Cur(out: Json, steps: seq<Step>): Json
    decreases |steps|
  {
    if steps == [] then out
    else match steps[0]
      case KeyStep(k) =>
        (match KeyIndex(AsObject(out), k)
         case Some(j) => Cur(AsObject(out)[j].1, steps[1..])
         case None => Cur(Null, steps[1..]))
      case IndexStep(Append) => Cur(Null, steps[1..])
      case IndexStep(Position(n)) =>
        var items := AsArray(out);
        if n < |items| then Cur(items[n], steps[1..]) else Cur(Null, steps[1..])
  }

  /** Read-only lookup along `steps`; `[]` reads the last element. */
  function Get(j: Json, steps: seq<Step>): Option<Json>
    decreases |steps|
  {
    if steps == [] then Some(j)
    else match steps[0]
      case KeyStep(k) =>
        if !j.Obj? then None
        else (match KeyIndex(j.fields, k)
              case Some(i) => Get(j.fields[i].1, steps[1..])
              case None => None)
      case IndexStep(Append) =>
        if j.Arr? && |j.items| > 0 then Get(j.items[|j.items| - 1], steps[1..]) else None
      case IndexStep(Position(n)) =>
        if j.Arr? && n < |j.items| then Get(j.items[n], steps[1..]) else None
  }

  /** The values a slot holds: none for `null`, the elements of an array, or
      the value itself. */
  function Held(j: Json): seq<Json>
  {
    if j.Null? then [] else if j.Arr? then j.items else [j]
  }

  lemma KeyIndexAt(fields: seq<(string, Json)>, k: string, j: nat)
    requires j < |fields| && fields[j].0 == k
    requires forall i :: 0 <= i < j ==> fields[i].0 != k
    ensures KeyIndex(fields, k) == Some(j)
  {
  }

  /** Writing a value that is neither `null` nor an array never loses what
      the slot held: afterwards it holds the old values, then the new one. */
  lemma SettleAccumulates(prior: Json, v: Json)
    requires !v.Null? && !v.Arr?
    ensures Held(Settle(prior, v)) == Held(prior) + [v]
  {
  }

  /** Read-after-write: following the same steps through the new output
      finds exactly the slot the cursor reached, settled with `v`. */
  lemma {:induction false} PutThenGet(out: Json, steps: seq<Step>, v: Json)
    ensures Get(Put(out, steps, v), steps) == Some(Settle(Cur(out, steps), v))
    decreases |steps|
  {
    if steps != [] {
      var rest := steps[1..];
      match steps[0]
      case KeyStep(k) =>
        var fields := AsObject(out);
        match KeyIndex(fields, k) {
          case Some(j) =>
            PutThenGet(fields[j].1, rest, v);
            var fs := fields[j := (k, Put(fields[j].1, rest, v))];
            KeyIndexAt(fs, k, j);
          case None =>
            PutThenGet(Null, rest, v);
            var fs := fields + [(k, Put(Null, rest, v))];
            KeyIndexAt(fs, k, |fields|);
        }
      case IndexStep(Append) =>
        PutThenGet(Null, rest, v);
      case IndexStep(Position(n)) =>
        var items := Pad(AsArray(out), n + 1);
        PutThenGet(items[n], rest, v);
        if n < |AsArray(out)| {
          assert items[n] == items[..|AsArray(out)|][n];
        }
    }
  }

  /** A key step leaves every other key of an object as it was. */
  lemma {:induction false} PutKeepsOtherKeys(out: Json, k: string, rest: seq<Step>, v: Json, other: string)
    requires out.Obj? && other != k
    ensures Get(Put(out, [KeyStep(k)] + rest, v), [KeyStep(other)]) == Get(out, [KeyStep(other)])
  {
    var steps := [KeyStep(k)] + rest;
    assert steps[0] == KeyStep(k) && steps[1..] == rest;
    var fields := out.fields;
    var fs := Put(out, steps, v).fields;
    assert forall i :: 0 <= i < |fields| ==> fs[i].0 == fields[i].0;
    assert forall i :: 0 <= i < |fields| && fields[i].0 != k ==> fs[i] == fields[i];
    assert forall i :: |fields| <= i < |fs| ==> fs[i].0 == k;
    match KeyIndex(fields, other)
    case Some(i) =>
      KeyIndexAt(fs, other, i);
    case None =>
      assert KeyIndex(fs, other).None?;
  }

  /** A key step replaces any non-object by `{}` before inserting. */
  lemma KeyStepOnNonObject(out: Json, k: string, rest: seq<Step>, v: Json)
    requires !out.Obj?
    ensures Put(out, [KeyStep(k)] + rest, v) == Obj([(k, Put(Null, rest, v))])
  {
    assert ([KeyStep(k)] + rest)[1..] == rest;
  }

  /** An index step turns `null` into `[]` and any other non-array `x` into
      `[x]`, pads with `null` up to the index, and changes only that slot. */
  lemma {:induction false} IndexStepShape(out: Json, n: nat, rest: seq<Step>, v: Json)
    ensures var r := Put(out, [IndexStep(Position(n))] + rest, v);
      var before := if out.Arr? then out.items else if out.Null? then [] else [out];
      && r.Arr?
      && |r.items| == (if n < |before| then |before| else n + 1)
      && (forall i :: 0 <= i < |r.items| && i != n ==>
            r.items[i] == (if i < |before| then before[i] else Null))
      && r.items[n] == Put(if n < |before| then before[n] else Null, rest, v)
  {
    var steps := [IndexStep(Position(n))] + rest;
    assert steps[0] == IndexStep(Position(n)) && steps[1..] == rest;
    var before := AsArray(out);
    var items := Pad(before, n + 1);
    forall i | 0 <= i < |before|
      ensures items[i] == before[i]
    {
      assert items[i] == items[..|before|][i];
    }
  }

  /** `[]` appends one fresh slot, after the vector the step works on. */
  lemma AppendStepShape(out: Json, rest: seq<Step>, v: Json)
    ensures Put(out, [IndexStep(Append)] + rest, v) ==
      Arr((if out.Arr? then out.items else if out.Null? then [] else [out]) + [Put(Null, rest, v)])
  {
    assert ([IndexStep(Append)] + rest)[1..] == rest;
  }
}
