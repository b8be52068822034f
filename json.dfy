/** The JSON tree the transformer reads and writes. Objects are association
    lists; nothing in the model depends on the order of their entries.
    Numbers are integers whose text is their decimal rendering. */
module JsonValue {
  import opened Wrappers

  datatype Json =
    | Null
    | Bool(b: bool)
    | Num(n: int)
    | Str(s: string)
    | Arr(items: seq<Json>)
    | Obj(fields: seq<(string, Json)>)

  predicate IsContainer(v: Json) { v.Arr? || v.Obj? }

  /** Position of the first entry named `key` (`Map::get` / `Map::entry`). */
  function KeyIndex(fields: seq<(string, Json)>, key: string): (r: Option<nat>)
    ensures r.Some? ==> r.value < |fields| && fields[r.value].0 == key
    ensures r.Some? ==> forall j :: 0 <= j < r.value ==> fields[j].0 != key
    ensures r.None? ==> forall j :: 0 <= j < |fields| ==> fields[j].0 != key
  {
    if |fields| == 0 then None
    else if fields[0].0 == key then Some(0)
    else match KeyIndex(fields[1..], key)
      case None => None
      case Some(j) => Some(j + 1)
  }

  /** Object keys are pairwise distinct, as in a JSON map. */
  predicate DistinctKeys(fields: seq<(string, Json)>)
  {
    forall i, j :: 0 <= i < j < |fields| ==> fields[i].0 != fields[j].0
  }
}
