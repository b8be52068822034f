/** `JsonPointer` (src/pointer.rs): a path into a JSON tree kept as a list
    of entry names whose first entry is the empty name of the root. */
module Pointer {
  import opened Wrappers
  import opened Strings

  /** What `JsonPointer::new` makes of a list of entries: it starts with
      the empty root entry, adding one only when there is none. */
  function Rooted(es: seq<string>): (r: seq<string>)
    ensures |r| >= 1 && r[0] == ""
    ensures |es| <= |r| <= |es| + 1 && r[|r| - |es|..] == es
  {
    if |es| > 0 && es[0] == "" then es else [""] + es
  }

  /** A list of entries that already starts at the root. */
  predicate IsRooted(es: seq<string>)
  {
    |es| >= 1 && es[0] == ""
  }

  /** The entries of `JsonPointer::from_dot_notation(path)`. */
  function DotEntries(path: string): (r: seq<string>)
    ensures IsRooted(r)
  {
    Rooted(SplitOn(path, '.'))
  }

  /** The entries of `parent()`: the last entry dropped, then rooted. */
  function ParentEntries(es: seq<string>): (r: seq<string>)
    ensures IsRooted(r)
  {
    Rooted(if |es| > 0 then es[..|es| - 1] else es)
  }

  /** `leaf_name`: the last entry, or the empty name when there is none. */
  function Leaf(es: seq<string>): string
  {
    if |es| > 0 then es[|es| - 1] else ""
  }

  /** The entries after the root, each preceded by a slash: the text of a
      pointer in the syntax of section 3 of RFC 6901, without its escapes. */
  function Slashed(es: seq<string>): (r: string)
    ensures |es| > 0 ==> |r| > 0 && r[0] == '/'
  {
    if es == [] then "" else "/" + es[0] + Slashed(es[1..])
  }

  /** The binding number of an entry `&N`, if it has that form and `N` is
      a `usize`. */
  function VarIndex(e: string): (r: Option<nat>)
    ensures r.Some? ==> |e| > 1 && e[0] == '&' && r.value <= USIZE_MAX
  {
    if |e| > 0 && e[0] == '&' then ParseUsize(e[1..]) else None
  }

  /** One entry after `substitute_vars`: `&N` becomes `bindings[N]` when
      there is one; every other entry stays. */
  function SubstEntry(e: string, bindings: seq<string>): (r: string)
  {
    match VarIndex(e)
    case Some(n) => if n < |bindings| then bindings[n] else e
    case None => e
  }

  /** Every entry after `substitute_vars`. */
  function Substituted(es: seq<string>, bindings: seq<string>): (r: seq<string>)
    ensures |r| == |es|
  {
    seq(|es|, k requires 0 <= k < |es| => SubstEntry(es[k], bindings))
  }

  class JsonPointer {
    var entries: seq<string>

    /** Every pointer starts at the root. */
    ghost predicate Valid()
      reads this
    {
      IsRooted(entries)
    }

    /** `JsonPointer::new`. */
    constructor(es: seq<string>)
      ensures entries == Rooted(es) && Valid()
    {
      if |es| > 0 && es[0] == "" {
        entries := es;
      } else {
        entries := [""] + es;
      }
    }

    /** `from_dot_notation`: the path split on `.`, then rooted. */
    static method FromDotNotation(path: string) returns (p: JsonPointer)
      ensures fresh(p) && p.entries == DotEntries(path) && p.Valid()
    {
      p := new JsonPointer(SplitOn(path, '.'));
    }

    /** `push`: one more entry at the end. */
    method Push(value: string)
      requires Valid()
      modifies this
      ensures Valid() && entries == old(entries) + [value]
      ensures LeafName() == value
    {
      entries := entries + [value];
    }

    /** `parent`: a new pointer without the last entry; the root is its own
        parent. */
    method Parent() returns (p: JsonPointer)
      ensures fresh(p) && p.entries == ParentEntries(entries) && p.Valid()
    {
      var es := entries;
      if |es| > 0 {
        es := es[..|es| - 1];
      }
      p := new JsonPointer(es);
    }

    /** `leaf_name`. */
    function LeafName(): (r: string)
      reads this
      ensures r == Leaf(entries)
    {
      if |entries| > 0 then entries[|entries| - 1] else ""
    }

    /** `join_rfc6901`: the entries joined with `/`; since the first entry
        is the empty root name, every other entry is preceded by a slash. */
    function JoinRfc6901(): (r: string)
      reads this
      ensures Valid() ==> r == Slashed(entries[1..])
    {
      JoinSlashed(entries);
      Join(entries, "/")
    }

    /** `substitute_vars`: each entry `&N` is replaced by `bindings[N]`
        where `N` parses and is in range; the number of entries and every
        other entry stay as they were. */
    method SubstituteVars(bindings: seq<string>)
      requires Valid()
      modifies this
      ensures Valid() && entries == Substituted(old(entries), bindings)
    {
      var i := 0;
      while i < |entries|
        invariant 0 <= i <= |entries| == |old(entries)|
        invariant forall k :: 0 <= k < i ==> entries[k] == SubstEntry(old(entries)[k], bindings)
        invariant forall k :: i <= k < |entries| ==> entries[k] == old(entries)[k]
      {
        var e := entries[i];
        if |e| > 0 && e[0] == '&' {
          var index := ParseUsize(e[1..]);
          if index.Some? && index.value < |bindings| {
            entries := entries[i := bindings[index.value]];
          }
        }
        i := i + 1;
      }
      RootKept(old(entries), bindings);
    }
  }

  // ---------------------------------------------------------------------
  // Properties of the pointer operations.

  /** Joining with `/` after the empty root name puts a slash before each
      later entry. */
  lemma {:induction false} JoinRooted(es: seq<string>)
    ensures Join([""] + es, "/") == Slashed(es)
    decreases |es|
  {
    if es != [] {
      JoinRooted(es[1..]);
      var t := [""] + es;
      assert t[1..] == es;
      if |es| == 1 {
        assert Slashed(es[1..]) == "";
        assert "/" + es[0] + "" == "" + "/" + es[0];
      } else {
        var u := [es[0]] + es[1..];
        assert es == u;
        assert Join(es, "/") == es[0] + "/" + Join(es[1..], "/");
        assert Join([""] + es[1..], "/") == "" + "/" + Join(es[1..], "/") by {
          assert ([""] + es[1..])[1..] == es[1..];
        }
        assert "" + "/" + (es[0] + "/" + Join(es[1..], "/")) == "/" + es[0] + ("" + "/" + Join(es[1..], "/"));
      }
    }
  }

  lemma JoinSlashed(es: seq<string>)
    ensures IsRooted(es) ==> Join(es, "/") == Slashed(es[1..])
  {
    if IsRooted(es) {
      JoinRooted(es[1..]);
      assert [""] + es[1..] == es;
    }
  }

  /** Rooting entries that are already rooted changes nothing, so `new` is
      idempotent. */
  lemma RootedKeeps(es: seq<string>)
    requires IsRooted(es)
    ensures Rooted(es) == es && Rooted(Rooted(es)) == es
  {
  }

  /** A leading separator adds an empty first piece. */
  lemma SplitLeadingSep(path: string, sep: char)
    ensures SplitOn([sep] + path, sep) == [""] + SplitOn(path, sep)
  {
    var t := [sep] + path;
    assert t[0] == sep && t[1..] == path;
  }

  /** Text that does not start with the separator has a non-empty first
      piece. */
  lemma SplitFirstPiece(path: string, sep: char)
    requires |path| > 0 && path[0] != sep
    ensures SplitOn(path, sep)[0] != ""
  {
    assert SplitOn(path, sep)[0] == [path[0]] + SplitOn(path[1..], sep)[0];
  }

  /** A dotted path not starting with a dot gives the same pointer with or
      without a leading dot: `"a.b"` and `".a.b"` both give `["", "a", "b"]`. */
  lemma DotLeadingDot(path: string)
    requires |path| > 0 && path[0] != '.'
    ensures DotEntries("." + path) == DotEntries(path) == [""] + SplitOn(path, '.')
  {
    assert "." + path == ['.'] + path;
    SplitLeadingSep(path, '.');
    SplitFirstPiece(path, '.');
  }

  /** The parent of a pointer one entry longer is the pointer itself, and
      the root is its own parent. */
  lemma ParentOfPush(es: seq<string>, v: string)
    requires IsRooted(es)
    ensures ParentEntries(es + [v]) == es
    ensures ParentEntries([""]) == [""]
  {
    assert (es + [v])[..|es|] == es;
  }

  /** A parent has one entry fewer, down to the root. */
  lemma ParentLength(es: seq<string>)
    requires IsRooted(es)
    ensures |ParentEntries(es)| == if |es| > 1 then |es| - 1 else 1
    ensures ParentEntries(es) == es[..|ParentEntries(es)|]
  {
    if |es| > 1 {
      assert es[..|es| - 1][0] == "";
    }
  }

  /** The parent of a pointer below the root drops its last entry. */
  lemma ParentTrim(es: seq<string>)
    requires IsRooted(es) && |es| > 1
    ensures ParentEntries(es) == es[..|es| - 1]
  {
    assert es[..|es| - 1][0] == "";
  }

  /** Joining entries that hold no `/` and splitting on `/` gives them
      back. */
  lemma JoinSplitEntries(es: seq<string>)
    requires |es| >= 1
    requires forall k :: 0 <= k < |es| ==> '/' !in es[k]
    ensures SplitOn(Join(es, "/"), '/') == es
  {
    assert "/" == ['/'];
    SplitOnJoin(es, '/');
  }

  /** `&N` with `N` in range becomes the `N`-th binding. */
  lemma SubstVariable(n: nat, bindings: seq<string>)
    requires n < |bindings| && n <= USIZE_MAX
    ensures SubstEntry("&" + NatText(n), bindings) == bindings[n]
  {
    var e := "&" + NatText(n);
    assert e[1..] == NatText(n);
    ParseNatText(n);
  }

  /** An entry changes only if it is `&N` with a binding for `N`, and then
      it becomes that binding. */
  lemma SubstOnlyVariables(e: string, bindings: seq<string>)
    ensures SubstEntry(e, bindings) == e || (VarIndex(e).Some? && VarIndex(e).value < |bindings|)
    ensures VarIndex(e).Some? && VarIndex(e).value < |bindings| ==> SubstEntry(e, bindings) == bindings[VarIndex(e).value]
    ensures VarIndex(e).None? || VarIndex(e).value >= |bindings| ==> SubstEntry(e, bindings) == e
  {
  }

  /** With no bindings, or with no entry of the form `&N`, substitution
      changes nothing. */
  lemma SubstNothing(es: seq<string>, bindings: seq<string>)
    requires bindings == [] || forall k :: 0 <= k < |es| ==> VarIndex(es[k]).None?
    ensures Substituted(es, bindings) == es
  {
  }

  /** The root entry is not a variable, so substitution keeps the pointer
      rooted. */
  lemma RootKept(es: seq<string>, bindings: seq<string>)
    requires IsRooted(es)
    ensures IsRooted(Substituted(es, bindings))
  {
    assert VarIndex(es[0]).None?;
  }
}

/** The cases of the tests of src/pointer.rs. */
module PointerTests {
  import opened Strings
  import opened Pointer

  /** Splitting dotted text made of dot-free pieces gives the pieces. */
  lemma DottedSplit(parts: seq<string>, path: string)
    requires |parts| >= 1 && Join(parts, ".") == path
    requires forall k :: 0 <= k < |parts| ==> '.' !in parts[k]
    ensures SplitOn(path, '.') == parts
  {
    assert "." == ['.'];
    SplitOnJoin(parts, '.');
  }

  /** Four pieces joined by dots. */
  lemma JoinDots4(a: string, b: string, c: string, d: string)
    ensures Join([a, b, c, d], ".") == a + "." + b + "." + c + "." + d
  {
    assert Join([d], ".") == d;
    JoinCons(c, [d], ".");
    assert [c] + [d] == [c, d];
    JoinCons(b, [c, d], ".");
    assert [b] + [c, d] == [b, c, d];
    JoinCons(a, [b, c, d], ".");
    assert [a] + [b, c, d] == [a, b, c, d];
    assert a + "." + (b + "." + (c + "." + d)) == a + "." + b + "." + c + "." + d;
  }

  /** Splitting `a.b.c.d`-like text: four dot-free pieces joined by dots. */
  lemma DottedSplit4(a: string, b: string, c: string, d: string)
    requires '.' !in a && '.' !in b && '.' !in c && '.' !in d
    ensures SplitOn(a + "." + b + "." + c + "." + d, '.') == [a, b, c, d]
  {
    JoinDots4(a, b, c, d);
    DottedSplit([a, b, c, d], a + "." + b + "." + c + "." + d);
  }

  /** Every way of building a pointer starts it at the root. */
  lemma RootLevelExamples()
    ensures DotEntries("a.b") == DotEntries(".a.b") == ["", "a", "b"]
    ensures Rooted(["", "a"]) == ["", "a"] && Rooted(["c", "a"]) == ["", "c", "a"]
  {
    var ps := ["a", "b"];
    assert ps[1..] == ["b"];
    DottedSplit(ps, "a.b");
    DotLeadingDot("a.b");
  }

  /** The pointer of `a.b.c.d`. */
  lemma DotExample()
    ensures DotEntries("a.b.c.d") == ["", "a", "b", "c", "d"]
  {
    DottedSplit4("a", "b", "c", "d");
    assert "a" + "." + "b" + "." + "c" + "." + "d" == "a.b.c.d";
  }

  /** The parents of the pointer of `a.b.c.d` (see `DotExample`), down to
      the root and past it. */
  lemma ParentExamples()
    ensures ParentEntries(["", "a", "b", "c", "d"]) == ["", "a", "b", "c"]
    ensures ParentEntries(["", "a", "b", "c"]) == ["", "a", "b"]
    ensures ParentEntries(["", "a", "b"]) == ["", "a"]
    ensures ParentEntries(["", "a"]) == [""] && ParentEntries([""]) == [""]
  {
    var p4: seq<string> := ["", "a", "b", "c", "d"];
    var p3: seq<string> := ["", "a", "b", "c"];
    var p2: seq<string> := ["", "a", "b"];
    var p1: seq<string> := ["", "a"];
    ParentTrim(p4);
    assert p4[..4] == p3;
    ParentTrim(p3);
    assert p3[..3] == p2;
    ParentTrim(p2);
    assert p2[..2] == p1;
    ParentTrim(p1);
    assert p1[..1] == [""];
  }

  /** How those parents join. */
  lemma JoinExamples()
    ensures Join(["", "a", "b", "c"], "/") == "/a/b/c" && Join(["", "a", "b"], "/") == "/a/b"
    ensures Join(["", "a"], "/") == "/a" && Join([""], "/") == ""
  {
    JoinSlashed(["", "a", "b", "c"]);
    JoinSlashed(["", "a", "b"]);
    JoinSlashed(["", "a"]);
    assert ["", "a", "b", "c"][1..] == ["a", "b", "c"] && ["a", "b", "c"][1..] == ["b", "c"] && ["b", "c"][1..] == ["c"];
    assert ["", "a", "b"][1..] == ["a", "b"] && ["a", "b"][1..] == ["b"] && ["", "a"][1..] == ["a"];
  }

  /** Variables are replaced by their bindings. */
  lemma SubstituteExample()
    ensures Substituted(["", "&2", "&1", "&0"], ["d", "e", "g"]) == ["", "g", "e", "d"]
  {
    var b := ["d", "e", "g"];
    SubstVariable(2, b);
    SubstVariable(1, b);
    SubstVariable(0, b);
    assert "&" + NatText(2) == "&2" && "&" + NatText(1) == "&1" && "&" + NatText(0) == "&0";
  }

  /** Entries that are not variables, variables without a binding and
      substitution without bindings change nothing. */
  lemma SubstituteUnchangedExamples()
    ensures Substituted(["", "a", "b", "c"], ["d", "e", "g"]) == ["", "a", "b", "c"]
    ensures Substituted(["", "a", "b", "&0"], []) == ["", "a", "b", "&0"]
    ensures Substituted(["", "a", "b", "&11"], ["d", "e", "g"]) == ["", "a", "b", "&11"]
  {
    var e := "&11";
    assert e[1..] == "11" && DigitsValue("11") == 11;
  }

  /** The dotted paths of those cases. */
  lemma SubstituteDottedExamples()
    ensures DotEntries(".&2.&1.&0") == ["", "&2", "&1", "&0"]
    ensures DotEntries(".a.b.c") == ["", "a", "b", "c"]
  {
    DottedSplit4("", "&2", "&1", "&0");
    assert "" + "." + "&2" + "." + "&1" + "." + "&0" == ".&2.&1.&0";
    RootedKeeps(["", "&2", "&1", "&0"]);
    DottedSplit4("", "a", "b", "c");
    assert "" + "." + "a" + "." + "b" + "." + "c" == ".a.b.c";
    RootedKeeps(["", "a", "b", "c"]);
  }
}
