/** `SpecIter` (src/spec.rs): the leaves of a spec's JSON tree, enumerated
    depth first with an explicit stack of `(value, next child, name)`
    frames, each with the pointer of names leading to it. */
module SpecIter {
  import opened Wrappers
  import opened Strings
  import opened JsonValue
  import opened Pointer

  // ---------------------------------------------------------------------
  // The reference definition: the leaves of a tree in document order.

  /** The scalars under `v` in depth-first order, each with its pointer:
      `at` followed by the names leading to it, the decimal index of an
      array element and the key of an object field. */
  function Leaves(v: Json, at: seq<string>): seq<(seq<string>, Json)>
    decreases v, 1
  {
    match v
    case Arr(items) => ItemLeaves(items, 0, at)
    case Obj(fields) => FieldLeaves(fields, 0, at)
    case _ => [(at, v)]
  }

  /** The leaves under the elements of `items` from the `k`-th on. */
  function ItemLeaves(items: seq<Json>, k: nat, at: seq<string>): seq<(seq<string>, Json)>
    decreases items, |items| - k
  {
    if k >= |items| then []
    else Leaves(items[k], at + [NatText(k)]) + ItemLeaves(items, k + 1, at)
  }

  /** The leaves under the fields of `fields` from the `k`-th on. */
  function FieldLeaves(fields: seq<(string, Json)>, k: nat, at: seq<string>): seq<(seq<string>, Json)>
    decreases fields, |fields| - k
  {
    if k >= |fields| then []
    else
      var field := fields[k];
      assert field in fields && field.1 < field;
      Leaves(field.1, at + [field.0]) + FieldLeaves(fields, k + 1, at)
  }

  // ---------------------------------------------------------------------
  // The iterator.

  /** One entry of the stack: a value, the index of the child to visit
      next, and the name the value has in its parent. */
  datatype Frame = Frame(value: Json, index: nat, name: string)

  /** The names of the frames, bottom first. */
  function Names(path: seq<Frame>): (r: seq<string>)
    ensures |r| == |path| && forall k :: 0 <= k < |path| ==> r[k] == path[k].name
  {
    seq(|path|, k requires 0 <= k < |path| => path[k].name)
  }

  /** What is left to yield from one frame, whose pointer is `at`: the
      leaves under its unvisited children, or the frame itself if it is a
      scalar. */
  function FramePending(f: Frame, at: seq<string>): seq<(seq<string>, Json)>
  {
    match f.value
    case Arr(items) => ItemLeaves(items, f.index, at)
    case Obj(fields) => FieldLeaves(fields, f.index, at)
    case _ => [(at, f.value)]
  }

  /** What is left to yield from a stack, top frame first. */
  function StackPending(path: seq<Frame>): seq<(seq<string>, Json)>
  {
    if path == [] then []
    else FramePending(path[|path| - 1], Names(path)) + StackPending(path[..|path| - 1])
  }

  /** The weight of a value: two more than its children's. */
  function Size(v: Json): nat
    decreases v, 1
  {
    2 + match v
        case Arr(items) => ItemsSize(items, 0)
        case Obj(fields) => FieldsSize(fields, 0)
        case _ => 0
  }

  function ItemsSize(items: seq<Json>, k: nat): nat
    decreases items, |items| - k
  {
    if k >= |items| then 0 else Size(items[k]) + ItemsSize(items, k + 1)
  }

  function FieldsSize(fields: seq<(string, Json)>, k: nat): nat
    decreases fields, |fields| - k
  {
    if k >= |fields| then 0
    else
      var field := fields[k];
      assert field in fields && field.1 < field;
      Size(field.1) + FieldsSize(fields, k + 1)
  }

  /** The weight of the work left in a frame. */
  function FrameSize(f: Frame): nat
  {
    1 + match f.value
        case Arr(items) => ItemsSize(items, f.index)
        case Obj(fields) => FieldsSize(fields, f.index)
        case _ => 0
  }

  /** The weight of the work left on the stack; each step of `next` lowers
      it. */
  function StackSize(path: seq<Frame>): nat
  {
    if path == [] then 0 else FrameSize(path[|path| - 1]) + StackSize(path[..|path| - 1])
  }

  class SpecIterator {
    var path: seq<Frame>

    /** The bottom frame is the root, whose name is empty. */
    ghost predicate Valid()
      reads this
    {
      path == [] || path[0].name == ""
    }

    /** The leaves still to be yielded, in order. */
    ghost function Pending(): seq<(seq<string>, Json)>
      reads this
    {
      StackPending(path)
    }

    /** `SpecIter::new`: one frame holding the root. */
    constructor(spec: Json)
      ensures Valid() && Pending() == Leaves(spec, [""])
    {
      path := [Frame(spec, 0, "")];
      new;
      FrameLeaves(spec, "", [""]);
      assert Names(path) == [""];
      assert path[..0] == [] && StackPending([]) == [];
    }

    /** `Iterator::next`: pops frames, pushing the next child of each
        container, until a scalar is on top; that scalar is yielded with
        the pointer of the names on the stack. The leaves come out in the
        order of `Leaves`, each once, and `None` once there are none left. */
    method Next() returns (r: Option<(JsonPointer, Json)>)
      requires Valid()
      modifies this
      ensures Valid()
      ensures r.None? <==> old(Pending()) == []
      ensures r.None? ==> path == []
      ensures r.Some? ==> fresh(r.value.0) && old(Pending()) != []
      ensures r.Some? ==> (r.value.0.entries, r.value.1) == old(Pending())[0] && Pending() == old(Pending())[1..]
    {
      while true
        invariant Valid() && Pending() == old(Pending())
        decreases StackSize(path)
      {
        if path == [] {
          return None;
        }
        ghost var before := path;
        var n := |path| - 1;
        var f := path[n];
        path := path[..n];
        ghost var below := path;
        assert before == below + [f];
        if f.value.Arr? {
          var items := f.value.items;
          if f.index < |items| {
            path := path + [Frame(f.value, f.index + 1, f.name), Frame(items[f.index], 0, NatText(f.index))];
            ItemStep(below, f, items);
          } else {
            PopDone(before);
          }
        } else if f.value.Obj? {
          var fields := f.value.fields;
          if f.index < |fields| {
            path := path + [Frame(f.value, f.index + 1, f.name), Frame(fields[f.index].1, 0, fields[f.index].0)];
            FieldStep(below, f, fields);
          } else {
            PopDone(before);
          }
        } else {
          var p := new JsonPointer(Names(path) + [f.name]);
          PopLeaf(before);
          return Some((p, f.value));
        }
      }
    }
  }

  // ---------------------------------------------------------------------
  // The steps of `next`.

  lemma NamesSnoc(path: seq<Frame>, f: Frame)
    ensures Names(path + [f]) == Names(path) + [f.name]
  {
  }

  /** A frame that has not visited any child yet has all the leaves of its
      value left. */
  lemma FrameLeaves(v: Json, name: string, at: seq<string>)
    ensures FramePending(Frame(v, 0, name), at) == Leaves(v, at)
    ensures FrameSize(Frame(v, 0, name)) + 1 == Size(v)
  {
  }

  /** Popping a container with no child left changes nothing that is
      pending, and lowers the weight. */
  lemma PopDone(path: seq<Frame>)
    requires path != []
    requires var f := path[|path| - 1]; (f.value.Arr? && f.index >= |f.value.items|) || (f.value.Obj? && f.index >= |f.value.fields|)
    ensures StackPending(path[..|path| - 1]) == StackPending(path)
    ensures StackSize(path[..|path| - 1]) < StackSize(path)
  {
  }

  /** Popping a scalar yields it with the pointer of the names on the
      stack. */
  lemma PopLeaf(path: seq<Frame>)
    requires path != [] && path[0].name == ""
    requires !IsContainer(path[|path| - 1].value)
    ensures var below := path[..|path| - 1];
      StackPending(path) == [(Rooted(Names(below) + [path[|path| - 1].name]), path[|path| - 1].value)] + StackPending(below)
  {
    var below := path[..|path| - 1];
    assert path == below + [path[|path| - 1]];
    NamesSnoc(below, path[|path| - 1]);
  }

  /** Replacing an array frame by the frame of its next element on top of
      the advanced array frame keeps what is pending, in order, and lowers
      the weight. */
  lemma ItemStep(below: seq<Frame>, f: Frame, items: seq<Json>)
    requires f.value == Arr(items) && f.index < |items|
    ensures var g := Frame(f.value, f.index + 1, f.name);
      var c := Frame(items[f.index], 0, NatText(f.index));
      && StackPending(below + [g, c]) == StackPending(below + [f])
      && StackSize(below + [g, c]) < StackSize(below + [f])
  {
    var g := Frame(f.value, f.index + 1, f.name);
    var c := Frame(items[f.index], 0, NatText(f.index));
    var at := Names(below) + [f.name];
    NamesSnoc(below, f);
    NamesSnoc(below, g);
    NamesSnoc(below + [g], c);
    assert below + [g, c] == (below + [g]) + [c];
    assert (below + [g, c])[..|below| + 1] == below + [g];
    assert (below + [f])[..|below|] == below;
    assert (below + [g])[..|below|] == below;
    FrameLeaves(items[f.index], NatText(f.index), at + [NatText(f.index)]);
  }

  /** The same for an object frame and its next field. */
  lemma FieldStep(below: seq<Frame>, f: Frame, fields: seq<(string, Json)>)
    requires f.value == Obj(fields) && f.index < |fields|
    ensures var g := Frame(f.value, f.index + 1, f.name);
      var c := Frame(fields[f.index].1, 0, fields[f.index].0);
      && StackPending(below + [g, c]) == StackPending(below + [f])
      && StackSize(below + [g, c]) < StackSize(below + [f])
  {
    var g := Frame(f.value, f.index + 1, f.name);
    var c := Frame(fields[f.index].1, 0, fields[f.index].0);
    var at := Names(below) + [f.name];
    NamesSnoc(below, f);
    NamesSnoc(below, g);
    NamesSnoc(below + [g], c);
    assert below + [g, c] == (below + [g]) + [c];
    assert (below + [g, c])[..|below| + 1] == below + [g];
    assert (below + [f])[..|below|] == below;
    assert (below + [g])[..|below|] == below;
    FrameLeaves(fields[f.index].1, fields[f.index].0, at + [fields[f.index].0]);
  }

  // ---------------------------------------------------------------------
  // What `Leaves` lists: every scalar of the tree, once, under its
  // pointer.

  /** `ns` leads from `v` to the scalar `x`: each name is the decimal
      index of an array element or the key of an object field. */
  ghost predicate LeafAt(v: Json, ns: seq<string>, x: Json)
    decreases v, 1
  {
    if ns == [] then v == x && !IsContainer(v)
    else match v
      case Arr(items) => exists k :: 0 <= k < |items| && ns[0] == NatText(k) && LeafAt(items[k], ns[1..], x)
      case Obj(fields) => exists k :: 0 <= k < |fields| && FieldLeafAt(fields, k, ns, x)
      case _ => false
  }

  /** `ns` leads through the `k`-th field to the scalar `x`. */
  ghost predicate FieldLeafAt(fields: seq<(string, Json)>, k: nat, ns: seq<string>, x: Json)
    requires k < |fields| && ns != []
    decreases fields, 0
  {
    var field := fields[k];
    assert field in fields && field.1 < field;
    ns[0] == field.0 && LeafAt(field.1, ns[1..], x)
  }

  /** `e` is listed under `at` and its pointer leads from `v` to its value. */
  ghost predicate Under(v: Json, at: seq<string>, e: (seq<string>, Json))
  {
    |e.0| >= |at| && e.0[..|at|] == at && LeafAt(v, e.0[|at|..], e.1)
  }

  /** `e` is listed under `at` below an element of `items` from the `k`-th
      on. */
  ghost predicate ItemUnder(items: seq<Json>, k: nat, at: seq<string>, e: (seq<string>, Json))
  {
    && |e.0| > |at| && e.0[..|at|] == at
    && exists j :: k <= j < |items| && e.0[|at|] == NatText(j) && LeafAt(items[j], e.0[|at| + 1..], e.1)
  }

  /** `e` is listed under `at` below a field of `fields` from the `k`-th
      on. */
  ghost predicate FieldUnder(fields: seq<(string, Json)>, k: nat, at: seq<string>, e: (seq<string>, Json))
  {
    && |e.0| > |at| && e.0[..|at|] == at
    && exists j :: k <= j < |fields| && FieldLeafAt(fields, j, e.0[|at|..], e.1)
  }

  /** Whatever `Leaves` lists is a scalar of the tree under its pointer. */
  lemma {:induction false} LeavesSound(v: Json, at: seq<string>)
    ensures forall e :: e in Leaves(v, at) ==> Under(v, at, e)
    decreases v, 1
  {
    match v
    case Arr(items) =>
      ItemLeavesSound(items, 0, at);
      forall e | e in Leaves(v, at)
        ensures Under(v, at, e)
      {
        var j :| 0 <= j < |items| && e.0[|at|] == NatText(j) && LeafAt(items[j], e.0[|at| + 1..], e.1);
        assert e.0[|at|..][1..] == e.0[|at| + 1..];
      }
    case Obj(fields) =>
      FieldLeavesSound(fields, 0, at);
    case _ =>
      assert at[|at|..] == [];
  }

  lemma {:induction false} ItemLeavesSound(items: seq<Json>, k: nat, at: seq<string>)
    ensures forall e :: e in ItemLeaves(items, k, at) ==> ItemUnder(items, k, at, e)
    decreases items, |items| - k
  {
    if k < |items| {
      var at' := at + [NatText(k)];
      LeavesSound(items[k], at');
      ItemLeavesSound(items, k + 1, at);
      forall e | e in Leaves(items[k], at')
        ensures ItemUnder(items, k, at, e)
      {
        assert e.0[..|at'|][..|at|] == at;
        assert e.0[|at|] == e.0[..|at'|][|at|];
      }
    }
  }

  lemma {:induction false} FieldLeavesSound(fields: seq<(string, Json)>, k: nat, at: seq<string>)
    ensures forall e :: e in FieldLeaves(fields, k, at) ==> FieldUnder(fields, k, at, e)
    decreases fields, |fields| - k
  {
    if k < |fields| {
      var field := fields[k];
      assert field in fields && field.1 < field;
      var at' := at + [field.0];
      LeavesSound(field.1, at');
      FieldLeavesSound(fields, k + 1, at);
      forall e | e in Leaves(field.1, at')
        ensures FieldUnder(fields, k, at, e)
      {
        assert e.0[..|at'|][..|at|] == at;
        assert e.0[|at|..][0] == e.0[..|at'|][|at|];
        assert e.0[|at|..][1..] == e.0[|at'|..];
        assert FieldLeafAt(fields, k, e.0[|at|..], e.1);
      }
    }
  }

  /** Every scalar of the tree is listed by `Leaves`, under its pointer. */
  lemma {:induction false} LeavesComplete(v: Json, at: seq<string>, ns: seq<string>, x: Json)
    requires LeafAt(v, ns, x)
    ensures (at + ns, x) in Leaves(v, at)
    decreases v, 1
  {
    if ns == [] {
      assert at + ns == at;
    } else {
      match v
      case Arr(items) =>
        var k :| 0 <= k < |items| && ns[0] == NatText(k) && LeafAt(items[k], ns[1..], x);
        LeavesComplete(items[k], at + [NatText(k)], ns[1..], x);
        assert at + [NatText(k)] + ns[1..] == at + ns;
        ItemLeavesInclude(items, 0, k, at);
      case Obj(fields) =>
        var k :| 0 <= k < |fields| && FieldLeafAt(fields, k, ns, x);
        var field := fields[k];
        assert field in fields && field.1 < field;
        LeavesComplete(field.1, at + [field.0], ns[1..], x);
        assert at + [field.0] + ns[1..] == at + ns;
        FieldLeavesInclude(fields, 0, k, at);
    }
  }

  /** The leaves under the `k`-th element are among those from the `j`-th
      on, for `j <= k`. */
  lemma {:induction false} ItemLeavesInclude(items: seq<Json>, j: nat, k: nat, at: seq<string>)
    requires j <= k < |items|
    ensures forall e :: e in Leaves(items[k], at + [NatText(k)]) ==> e in ItemLeaves(items, j, at)
    decreases k - j
  {
    if j < k {
      ItemLeavesInclude(items, j + 1, k, at);
    }
  }

  /** The leaves under the `k`-th field are among those from the `j`-th on,
      for `j <= k`. */
  lemma {:induction false} FieldLeavesInclude(fields: seq<(string, Json)>, j: nat, k: nat, at: seq<string>)
    requires j <= k < |fields|
    ensures forall e :: e in Leaves(fields[k].1, at + [fields[k].0]) ==> e in FieldLeaves(fields, j, at)
    decreases k - j
  {
    if j < k {
      FieldLeavesInclude(fields, j + 1, k, at);
    }
  }

  /** A JSON tree as serde builds it: no object repeats a key. */
  ghost predicate WellFormed(v: Json)
    decreases v, 1
  {
    match v
    case Arr(items) => ItemsWellFormed(items, 0)
    case Obj(fields) => DistinctKeys(fields) && FieldsWellFormed(fields, 0)
    case _ => true
  }

  ghost predicate ItemsWellFormed(items: seq<Json>, k: nat)
    decreases items, |items| - k
  {
    k >= |items| || (WellFormed(items[k]) && ItemsWellFormed(items, k + 1))
  }

  ghost predicate FieldsWellFormed(fields: seq<(string, Json)>, k: nat)
    decreases fields, |fields| - k
  {
    k >= |fields| ||
      var field := fields[k];
      assert field in fields && field.1 < field;
      WellFormed(field.1) && FieldsWellFormed(fields, k + 1)
  }

  /** No two listed leaves share a pointer. */
  ghost predicate DistinctPointers(ls: seq<(seq<string>, Json)>)
  {
    forall i, j :: 0 <= i < j < |ls| ==> ls[i].0 != ls[j].0
  }

  lemma DistinctConcat(a: seq<(seq<string>, Json)>, b: seq<(seq<string>, Json)>)
    requires DistinctPointers(a) && DistinctPointers(b)
    requires forall x, y :: x in a && y in b ==> x.0 != y.0
    ensures DistinctPointers(a + b)
  {
    forall i, j | 0 <= i < j < |a + b|
      ensures (a + b)[i].0 != (a + b)[j].0
    {
      if j < |a| {
        assert (a + b)[i] == a[i] && (a + b)[j] == a[j];
      } else if i < |a| {
        assert (a + b)[i] in a && (a + b)[j] in b;
      } else {
        assert (a + b)[i] == b[i - |a|] && (a + b)[j] == b[j - |a|];
      }
    }
  }

  /** In a well-formed tree every leaf is listed once: no two listed leaves
      share a pointer. */
  lemma {:induction false} LeavesDistinct(v: Json, at: seq<string>)
    requires WellFormed(v)
    ensures DistinctPointers(Leaves(v, at))
    decreases v, 1
  {
    match v
    case Arr(items) => ItemLeavesDistinct(items, 0, at);
    case Obj(fields) => FieldLeavesDistinct(fields, 0, at);
    case _ =>
  }

  lemma {:induction false} ItemLeavesDistinct(items: seq<Json>, k: nat, at: seq<string>)
    requires ItemsWellFormed(items, k)
    ensures DistinctPointers(ItemLeaves(items, k, at))
    decreases items, |items| - k
  {
    if k < |items| {
      var at' := at + [NatText(k)];
      var a := Leaves(items[k], at');
      var b := ItemLeaves(items, k + 1, at);
      LeavesDistinct(items[k], at');
      ItemLeavesDistinct(items, k + 1, at);
      LeavesSound(items[k], at');
      ItemLeavesSound(items, k + 1, at);
      forall x, y | x in a && y in b
        ensures x.0 != y.0
      {
        assert x.0[|at|] == x.0[..|at'|][|at|] == NatText(k);
        var j :| k + 1 <= j < |items| && y.0[|at|] == NatText(j) && LeafAt(items[j], y.0[|at| + 1..], y.1);
        NatTextInjective(k, j);
      }
      DistinctConcat(a, b);
    }
  }

  lemma {:induction false} FieldLeavesDistinct(fields: seq<(string, Json)>, k: nat, at: seq<string>)
    requires DistinctKeys(fields) && FieldsWellFormed(fields, k)
    ensures DistinctPointers(FieldLeaves(fields, k, at))
    decreases fields, |fields| - k
  {
    if k < |fields| {
      var field := fields[k];
      assert field in fields && field.1 < field;
      var at' := at + [field.0];
      var a := Leaves(field.1, at');
      var b := FieldLeaves(fields, k + 1, at);
      LeavesDistinct(field.1, at');
      FieldLeavesDistinct(fields, k + 1, at);
      LeavesSound(field.1, at');
      FieldLeavesSound(fields, k + 1, at);
      forall x, y | x in a && y in b
        ensures x.0 != y.0
      {
        assert x.0[|at|] == x.0[..|at'|][|at|] == field.0;
        var j :| k + 1 <= j < |fields| && FieldLeafAt(fields, j, y.0[|at|..], y.1);
        assert y.0[|at|] == y.0[|at|..][0] == fields[j].0;
      }
      DistinctConcat(a, b);
    }
  }

  /** Only scalars are listed. */
  lemma LeavesScalars(v: Json, at: seq<string>)
    ensures forall e :: e in Leaves(v, at) ==> !IsContainer(e.1)
  {
    LeavesSound(v, at);
    forall e | e in Leaves(v, at)
      ensures !IsContainer(e.1)
    {
      LeafAtScalar(v, e.0[|at|..], e.1);
    }
  }

  lemma {:induction false} LeafAtScalar(v: Json, ns: seq<string>, x: Json)
    requires LeafAt(v, ns, x)
    ensures !IsContainer(x)
    decreases v, 1
  {
    if ns != [] {
      match v
      case Arr(items) =>
        var k :| 0 <= k < |items| && ns[0] == NatText(k) && LeafAt(items[k], ns[1..], x);
        LeafAtScalar(items[k], ns[1..], x);
      case Obj(fields) =>
        var k :| 0 <= k < |fields| && FieldLeafAt(fields, k, ns, x);
        var field := fields[k];
        assert field in fields && field.1 < field;
        LeafAtScalar(field.1, ns[1..], x);
    }
  }

  /** A scalar root is its only leaf, under the root pointer; empty arrays
      and objects have none. */
  lemma LeavesBase(v: Json)
    ensures !IsContainer(v) ==> Leaves(v, [""]) == [([""], v)]
    ensures Leaves(Arr([]), [""]) == [] && Leaves(Obj([]), [""]) == []
  {
  }
}

/** A concrete enumeration in document order. */
module SpecIterTests {
  import opened Strings
  import opened JsonValue
  import opened SpecIter

  /** Nested objects and arrays come out depth first, fields in their
      order, array elements under their decimal index. */
  lemma DocumentOrder()
    ensures Leaves(Obj([("address", Obj([("city", Str("ext.city")), ("phones", Arr([Str("12345"), Str("00000")]))])),
                        ("*", Str("&0"))]), [""])
         == [(["", "address", "city"], Str("ext.city")),
             (["", "address", "phones", "0"], Str("12345")),
             (["", "address", "phones", "1"], Str("00000")),
             (["", "*"], Str("&0"))]
  {
    var phones := [Str("12345"), Str("00000")];
    var address := [("city", Str("ext.city")), ("phones", Arr(phones))];
    var root := [("address", Obj(address)), ("*", Str("&0"))];
    assert NatText(0) == "0" && NatText(1) == "1";
    var p := ["", "address", "phones"];
    assert ItemLeaves(phones, 2, p) == [];
    assert ItemLeaves(phones, 1, p) == [(p + ["1"], Str("00000"))];
    assert ItemLeaves(phones, 0, p) == [(p + ["0"], Str("12345")), (p + ["1"], Str("00000"))];
    var a := ["", "address"];
    assert a + ["phones"] == p && a + ["city"] == ["", "address", "city"];
    assert [""] + ["address"] == a && [""] + ["*"] == ["", "*"];
    assert address[1] == ("phones", Arr(phones)) && root[0] == ("address", Obj(address)) && root[1] == ("*", Str("&0"));
    assert FieldLeaves(address, 2, a) == [];
    assert FieldLeaves(address, 1, a) == Leaves(Arr(phones), p);
    assert FieldLeaves(address, 0, a) == [(a + ["city"], Str("ext.city"))] + Leaves(Arr(phones), p);
    assert FieldLeaves(root, 2, [""]) == [];
    assert FieldLeaves(root, 1, [""]) == [(["", "*"], Str("&0"))];
    assert FieldLeaves(root, 0, [""]) == Leaves(Obj(address), a) + [(["", "*"], Str("&0"))];
    assert Leaves(Arr(phones), p) == ItemLeaves(phones, 0, p);
    assert Leaves(Obj(address), a) == [(a + ["city"], Str("ext.city")), (p + ["0"], Str("12345")), (p + ["1"], Str("00000"))];
    assert p + ["0"] == ["", "address", "phones", "0"] && p + ["1"] == ["", "address", "phones", "1"];
  }
}
