/** Glob matching of one key against the fragments of a `*` pattern
    (`match_stars` in fluvio-jolt/src/shift.rs). Capture 0 is the whole key;
    each later fragment contributes one capture. The matcher behaves as
    written: a fragment's occurrence is searched for but the remainder is cut
    at the occurrence rather than after it, and the last fragment is not
    anchored at the end of the key. */
module StarMatch {
  import opened Wrappers

  predicate IsPrefix(p: string, s: string)
  {
    |p| <= |s| && s[..|p|] == p
  }

  predicate OccursAt(s: string, p: string, i: nat)
  {
    i + |p| <= |s| && s[i..i + |p|] == p
  }

  /** `str::find`: the first position at which `p` occurs in `s`. */
  function Find(s: string, p: string): (r: Option<nat>)
    ensures r.Some? ==> OccursAt(s, p, r.value)
    ensures r.Some? ==> forall j :: 0 <= j < r.value ==> !OccursAt(s, p, j)
    ensures r.None? ==> forall j :: 0 <= j <= |s| ==> !OccursAt(s, p, j)
  {
    FindFrom(s, p, 0)
  }

  function FindFrom(s: string, p: string, i: nat): (r: Option<nat>)
    requires i <= |s| + 1
    ensures r.Some? ==> i <= r.value && OccursAt(s, p, r.value)
    ensures r.Some? ==> forall j :: i <= j < r.value ==> !OccursAt(s, p, j)
    ensures r.None? ==> forall j :: i <= j <= |s| ==> !OccursAt(s, p, j)
    decreases |s| + 1 - i
  {
    if i > |s| then None
    else if OccursAt(s, p, i) then Some(i)
    else FindFrom(s, p, i + 1)
  }

  /** `m` followed by the captures in `o`, if there are any. */
  function Prepend(m: seq<string>, o: Option<seq<string>>): (r: Option<seq<string>>)
    ensures r.Some? <==> o.Some?
    ensures r.Some? ==> r.value == m + o.value
  {
    if o.None? then None else Some(m + o.value)
  }

  lemma PrependTwice(m: seq<string>, x: seq<string>, o: Option<seq<string>>)
    ensures Prepend(m, Prepend(x, o)) == Prepend(m + x, o)
  {
    if o.Some? {
      assert m + (x + o.value) == (m + x) + o.value;
    }
  }

  /** The captures of the fragments `pats` against the remainder `rest`. */
  function Captures(pats: seq<string>, rest: string): (r: Option<seq<string>>)
    ensures r.Some? ==> |r.value| == |pats|
  {
    if pats == [] then Some([])
    else if pats[0] == "" then Prepend([rest], Captures(pats[1..], rest))
    else match Find(rest, pats[0])
      case None => None
      case Some(idx) => Prepend([rest[..idx]], Captures(pats[1..], rest[idx..]))
  }

  /** An empty fragment alone captures the whole remainder. */
  lemma EmptyFragmentCaptures(rest: string)
    ensures Captures([""], rest) == Some([rest])
  {
    assert [""][1..] == [];
    assert Captures([], rest) == Some([]);
    assert [rest] + [] == [rest];
  }

  /** What `match_stars` returns for `key` and the fragments `stars`. */
  function MatchSpec(stars: seq<string>, key: string): (r: Option<seq<string>>)
    ensures |stars| == 0 ==> (r.Some? <==> key == "") && (r.Some? ==> r.value == [""])
    ensures |stars| == 1 ==> (r.Some? <==> key == stars[0]) && (r.Some? ==> r.value == [key])
    ensures |stars| >= 2 && r.Some? ==> IsPrefix(stars[0], key)
    ensures r.Some? && |stars| >= 1 ==> |r.value| == |stars| && r.value[0] == key
  {
    if |stars| == 0 then (if key == "" then Some([""]) else None)
    else if |stars| == 1 then (if key == stars[0] then Some([key]) else None)
    else if !IsPrefix(stars[0], key) then None
    else Prepend([key], Captures(stars[1..], key[|stars[0]|..]))
  }

  /** `match_stars`, looping over the fragments after the first. */
  method MatchStars(stars: seq<string>, key: string) returns (r: Option<seq<string>>)
    ensures r == MatchSpec(stars, key)
  {
    if |stars| == 0 {
      return if key == "" then Some([""]) else None;
    }
    if |stars| == 1 {
      return if key == stars[0] then Some([key]) else None;
    }
    var m := [key];
    var prefix := stars[0];
    var k := key;
    if prefix != "" {
      if !IsPrefix(prefix, k) {
        return None;
      }
      k := k[|prefix|..];
    }
    var j := 1;
    while j < |stars|
      invariant 1 <= j <= |stars|
      invariant MatchSpec(stars, key) == Prepend(m, Captures(stars[j..], k))
    {
      var pattern := stars[j];
      assert stars[j..][0] == pattern && stars[j..][1..] == stars[j + 1..];
      if pattern != "" {
        match Find(k, pattern) {
          case None =>
            return None;
          case Some(idx) =>
            PrependTwice(m, [k[..idx]], Captures(stars[j + 1..], k[idx..]));
            m := m + [k[..idx]];
            k := k[idx..];
        }
      } else {
        PrependTwice(m, [k], Captures(stars[j + 1..], k));
        m := m + [k];
      }
      j := j + 1;
    }
    assert stars[j..] == [] && m + [] == m;
    return Some(m);
  }

  // ---------------------------------------------------------------------

  /** `*` matches every key, capturing it twice. */
  lemma StarMatchesAll(key: string)
    ensures MatchSpec(["", ""], key) == Some([key, key])
  {
    assert ["", ""][1..] == [""] && [""][1..] == [];
    assert key[0..] == key;
    EmptyFragmentCaptures(key);
    assert [key] + [key] == [key, key];
  }

  /** A two-fragment glob `a*b` with `b` non-empty matches exactly the keys
      that start with `a` and contain `b` after it; the star captures the
      text before the first such `b`, and nothing is required after it. */
  lemma TwoFragments(a: string, b: string, key: string)
    requires b != ""
    ensures MatchSpec([a, b], key).Some? <==> IsPrefix(a, key) && Find(key[|a|..], b).Some?
    ensures MatchSpec([a, b], key).Some? ==>
      var rest := key[|a|..];
      var cs := MatchSpec([a, b], key).value;
      && cs[1] + b == rest[..|cs[1]| + |b|]
      && forall j :: 0 <= j < |cs[1]| ==> !OccursAt(rest, b, j)
  {
    assert [a, b][1..] == [b];
    if IsPrefix(a, key) {
      var rest := key[|a|..];
      if Find(rest, b).Some? {
        var idx := Find(rest, b).value;
        assert Captures([b], rest) == Prepend([rest[..idx]], Captures([], rest[idx..]));
        assert rest[..idx] + b == rest[..idx + |b|];
      }
    }
  }

  /** An empty fragment captures the whole remainder, so the remainder left
      by a non-empty fragment still starts with that fragment: the cut is
      at the occurrence, not after it. */
  lemma CutAtOccurrence(a: string, b: string, key: string)
    requires b != ""
    requires MatchSpec([a, b, ""], key).Some?
    ensures IsPrefix(b, MatchSpec([a, b, ""], key).value[2])
  {
    var rest := key[|a|..];
    assert [a, b, ""][1..] == [b, ""];
    var idx := Find(rest, b).value;
    assert [b, ""][1..] == [""] && [""][1..] == [];
    EmptyFragmentCaptures(rest[idx..]);
    assert rest[idx..][..|b|] == rest[idx..idx + |b|];
  }

  /** `a*b*c` against `a1b2c` captures `1` and then `b2`, the second star's
      capture starting with the `b` that ended the first. */
  lemma CutAtOccurrenceExample()
    ensures MatchSpec(["a", "b", "c"], "a1b2c") == Some(["a1b2c", "1", "b2"])
  {
    var key := "a1b2c";
    assert IsPrefix("a", key);
    var rest := key[1..];
    assert rest == "1b2c";
    assert rest[0..1] == "1";
    assert OccursAt(rest, "b", 1) && !OccursAt(rest, "b", 0);
    assert Find(rest, "b") == Some(1);
    assert rest[1..] == "b2c" && rest[..1] == "1";
    var rest2 := "b2c";
    assert rest2[0..1] == "b" && rest2[1..2] == "2";
    assert OccursAt(rest2, "c", 2) && !OccursAt(rest2, "c", 0) && !OccursAt(rest2, "c", 1);
    assert Find(rest2, "c") == Some(2);
    assert rest2[..2] == "b2" && rest2[2..] == "c";
    assert ["a", "b", "c"][1..] == ["b", "c"] && ["b", "c"][1..] == ["c"] && ["c"][1..] == [];
    assert Captures([], "c") == Some([]);
    assert ["b2"] + [] == ["b2"];
    assert Captures(["c"], rest2) == Some(["b2"]);
    assert ["1"] + ["b2"] == ["1", "b2"];
    assert Captures(["b", "c"], rest) == Some(["1", "b2"]);
    assert ["a1b2c"] + ["1", "b2"] == ["a1b2c", "1", "b2"];
  }

  /** `a*b` also matches `a1b2`: nothing ties the last fragment to the end of
      the key. */
  lemma LastFragmentUnanchored()
    ensures MatchSpec(["a", "b"], "a1b2") == Some(["a1b2", "1"])
  {
    var rest := "a1b2"[1..];
    assert rest == "1b2";
    assert rest[0..1] == "1";
    assert OccursAt(rest, "b", 1) && !OccursAt(rest, "b", 0);
    assert Find(rest, "b") == Some(1);
    assert rest[..1] == "1";
    assert ["a", "b"][1..] == ["b"] && ["b"][1..] == [];
    assert Captures([], rest[1..]) == Some([]);
    assert ["1"] + [] == ["1"];
    assert Captures(["b"], rest) == Some(["1"]);
    assert ["a1b2"] + ["1"] == ["a1b2", "1"];
  }
}
