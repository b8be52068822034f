/** Text helpers shared by the tokenizers, the parser, the pointer and the
    evaluator: UTF-8 byte lengths, decimal rendering, Rust's
    `usize::from_str`, and splitting/joining on one separator character. */
module Strings {
  import opened Wrappers

  /** `usize::MAX` on the 64-bit targets the library is built for. */
  const USIZE_MAX: nat := 0xFFFF_FFFF_FFFF_FFFF

  /** `char::len_utf8`: the number of bytes UTF-8 spends on one code point. */
  function Utf8Len(c: char): (n: nat)
    ensures 1 <= n <= 4
    ensures n == 1 <==> (c as int) < 0x80
  {
    if (c as int) < 0x80 then 1
    else if (c as int) < 0x800 then 2
    else if (c as int) < 0x1_0000 then 3
    else 4
  }

  /** Byte length of the UTF-8 encoding of `s`. */
  function ByteLen(s: seq<char>): nat
  {
    if s == [] then 0 else ByteLen(s[..|s| - 1]) + Utf8Len(s[|s| - 1])
  }

  lemma {:induction false} ByteLenAppend(a: seq<char>, b: seq<char>)
    ensures ByteLen(a + b) == ByteLen(a) + ByteLen(b)
    decreases |b|
  {
    if b == [] {
      assert a + b == a;
    } else {
      var b' := b[..|b| - 1];
      assert (a + b)[..|a + b| - 1] == a + b';
      ByteLenAppend(a, b');
    }
  }

  /** Every character costs at least one byte, so byte offsets grow strictly
      with character offsets. */
  lemma {:induction false} ByteLenAtLeastLength(s: seq<char>)
    ensures ByteLen(s) >= |s|
    decreases |s|
  {
    if s != [] {
      ByteLenAtLeastLength(s[..|s| - 1]);
    }
  }

  lemma ByteLenStep(s: seq<char>, i: nat)
    requires i < |s|
    ensures ByteLen(s[..i + 1]) == ByteLen(s[..i]) + Utf8Len(s[i])
  {
    assert s[..i + 1][..i] == s[..i];
  }

  predicate IsDigit(c: char) { '0' <= c <= '9' }

  predicate AllDigits(s: string) { forall i :: 0 <= i < |s| ==> IsDigit(s[i]) }

  function DigitValue(c: char): nat
    requires IsDigit(c)
  {
    (c as int) - ('0' as int)
  }

  function DigitChar(d: nat): (c: char)
    requires d < 10
    ensures IsDigit(c) && DigitValue(c) == d
  {
    ('0' as int + d) as char
  }

  /** The number a run of ASCII digits denotes (most significant first). */
  function DigitsValue(s: string): nat
    requires AllDigits(s)
  {
    if s == [] then 0 else DigitsValue(s[..|s| - 1]) * 10 + DigitValue(s[|s| - 1])
  }

  /** `n.to_string()` for an unsigned integer. */
  function NatText(n: nat): (r: string)
    ensures |r| >= 1 && AllDigits(r)
  {
    if n < 10 then [DigitChar(n)] else NatText(n / 10) + [DigitChar(n % 10)]
  }

  /** `n.to_string()` for a signed integer. */
  function IntText(i: int): string
  {
    if i < 0 then "-" + NatText(-i) else NatText(i)
  }

  /** Decimal rendering and digit evaluation are inverse. */
  lemma {:induction false} NatTextValue(n: nat)
    ensures DigitsValue(NatText(n)) == n
  {
    if n >= 10 {
      NatTextValue(n / 10);
      var t := NatText(n);
      assert t[..|t| - 1] == NatText(n / 10);
    }
  }

  /** Distinct numbers have distinct decimal texts. */
  lemma NatTextInjective(a: nat, b: nat)
    ensures NatText(a) == NatText(b) ==> a == b
  {
    NatTextValue(a);
    NatTextValue(b);
  }

  /** `usize::from_str`: an optional leading `+`, then at least one ASCII
      digit and nothing else, with a value that fits in `usize`. */
  function ParseUsize(s: string): (r: Option<nat>)
    ensures r.Some? ==> r.value <= USIZE_MAX
  {
    var digits := if |s| > 0 && s[0] == '+' then s[1..] else s;
    if |digits| == 0 || !AllDigits(digits) then None
    else if DigitsValue(digits) > USIZE_MAX then None
    else Some(DigitsValue(digits))
  }

  /** Every in-range index renders to text that parses back to it: the key
      under which an array element is matched can serve as an index. */
  lemma ParseNatText(n: nat)
    requires n <= USIZE_MAX
    ensures ParseUsize(NatText(n)) == Some(n)
  {
    NatTextValue(n);
  }

  /** `str::split(sep)`: the pieces between separators; always at least one. */
  function SplitOn(s: string, sep: char): (r: seq<string>)
    ensures |r| >= 1
  {
    if s == [] then [""]
    else
      var rest := SplitOn(s[1..], sep);
      if s[0] == sep then [""] + rest else [[s[0]] + rest[0]] + rest[1..]
  }

  /** `[String]::join(sep)`. */
  function Join(parts: seq<string>, sep: string): string
  {
    if |parts| == 0 then ""
    else if |parts| == 1 then parts[0]
    else parts[0] + sep + Join(parts[1..], sep)
  }

  /** Joining a first part to the rest. */
  lemma JoinCons(p: string, rest: seq<string>, sep: string)
    requires |rest| >= 1
    ensures Join([p] + rest, sep) == p + sep + Join(rest, sep)
  {
    assert ([p] + rest)[1..] == rest;
  }

  /** `s` with every `a` replaced by `b`. */
  function Replace(s: string, a: char, b: char): (r: string)
    ensures |r| == |s|
  {
    if s == [] then [] else [if s[0] == a then b else s[0]] + Replace(s[1..], a, b)
  }

  /** Splitting on `a` and joining with `b` replaces each `a` by `b`. */
  lemma {:induction false} JoinSplitOn(s: string, a: char, b: char)
    ensures Join(SplitOn(s, a), [b]) == Replace(s, a, b)
    decreases |s|
  {
    if s != [] {
      var rest := SplitOn(s[1..], a);
      JoinSplitOn(s[1..], a, b);
      if s[0] != a {
        if |rest| > 1 {
          assert ([[s[0]] + rest[0]] + rest[1..])[1..] == rest[1..];
        }
      }
    }
  }

  lemma ReplaceSame(s: string, a: char)
    ensures Replace(s, a, a) == s
  {
  }

  /** Splitting then joining with the same separator is the identity. */
  lemma SplitJoin(s: string, sep: char)
    ensures Join(SplitOn(s, sep), [sep]) == s
  {
    JoinSplitOn(s, sep, sep);
    ReplaceSame(s, sep);
  }

  /** No piece of a split contains the separator. */
  lemma {:induction false} SplitPiecesFree(s: string, sep: char)
    ensures forall p :: p in SplitOn(s, sep) ==> sep !in p
    decreases |s|
  {
    if s != [] {
      SplitPiecesFree(s[1..], sep);
    }
  }

  /** A piece without the separator, prepended, extends the first piece. */
  lemma {:induction false} SplitOnPrefix(buf: string, u: string, sep: char)
    requires sep !in buf
    ensures SplitOn(buf + u, sep) == [buf + SplitOn(u, sep)[0]] + SplitOn(u, sep)[1..]
    decreases |buf|
  {
    if buf == [] {
      var r := SplitOn(u, sep);
      assert buf + u == u && buf + r[0] == r[0];
      assert [r[0]] + r[1..] == r;
    } else {
      assert (buf + u)[1..] == buf[1..] + u;
      assert buf[0] != sep by { assert buf[0] in buf; }
      SplitOnPrefix(buf[1..], u, sep);
      assert [buf[0]] + (buf[1..] + SplitOn(u, sep)[0]) == buf + SplitOn(u, sep)[0];
    }
  }
  /** Splitting a text without the separator gives the text itself. */
  lemma SplitOnFree(s: string, sep: char)
    requires sep !in s
    ensures SplitOn(s, sep) == [s]
  {
    SplitOnPrefix(s, "", sep);
    assert s + "" == s;
  }

  /** One step of `SplitOn`: the pieces of `[h] + t` from those of `t`. */
  ghost function SplitCons(h: char, rest: seq<string>, sep: char): seq<string>
    requires |rest| >= 1
  {
    if h == sep then [""] + rest else [[h] + rest[0]] + rest[1..]
  }

  /** The pieces once `c` is appended, from the pieces before. */
  ghost function SplitSnoc(r: seq<string>, c: char, sep: char): seq<string>
    requires |r| >= 1
  {
    if c == sep then r + [""] else r[..|r| - 1] + [r[|r| - 1] + [c]]
  }

  /** Prepending and appending a character to the pieces commute. */
  lemma SplitConsSnoc(h: char, rest: seq<string>, c: char, sep: char)
    requires |rest| >= 1
    ensures |SplitSnoc(rest, c, sep)| >= 1 && |SplitCons(h, rest, sep)| >= 1
    ensures SplitCons(h, SplitSnoc(rest, c, sep), sep) == SplitSnoc(SplitCons(h, rest, sep), c, sep)
  {
    if h == sep {
      SplitConsSnocAtSep(h, rest, c, sep);
    } else {
      SplitConsSnocInPiece(h, rest, c, sep);
    }
  }

  /** The case of `SplitConsSnoc` where the prepended character is the separator. */
  lemma SplitConsSnocAtSep(h: char, rest: seq<string>, c: char, sep: char)
    requires |rest| >= 1 && h == sep
    ensures |SplitSnoc(rest, c, sep)| >= 1
    ensures SplitCons(h, SplitSnoc(rest, c, sep), sep) == SplitSnoc(SplitCons(h, rest, sep), c, sep)
  {
    var n := |rest|;
    if c == sep {
      assert [""] + (rest + [""]) == ([""] + rest) + [""];
    } else {
      assert [""] + SplitSnoc(rest, c, sep) == ([""] + rest)[..n] + [rest[n - 1] + [c]];
    }
  }

  /** The case of `SplitConsSnoc` where the prepended character joins the first piece. */
  lemma SplitConsSnocInPiece(h: char, rest: seq<string>, c: char, sep: char)
    requires |rest| >= 1 && h != sep
    ensures |SplitSnoc(rest, c, sep)| >= 1
    ensures SplitCons(h, SplitSnoc(rest, c, sep), sep) == SplitSnoc(SplitCons(h, rest, sep), c, sep)
  {
    var n := |rest|;
    var rest' := SplitSnoc(rest, c, sep);
    if c == sep {
      assert rest'[0] == rest[0] && rest'[1..] == rest[1..] + [""];
      assert [[h] + rest[0]] + (rest[1..] + [""]) == ([[h] + rest[0]] + rest[1..]) + [""];
    } else if n == 1 {
      assert [h] + (rest[0] + [c]) == ([h] + rest[0]) + [c];
    } else {
      assert rest'[0] == rest[0];
      assert rest'[1..] == rest[1..n - 1] + [rest[n - 1] + [c]];
    }
  }

  /** A character appended to the text starts a new piece if it is the
      separator and extends the last piece otherwise. */
  lemma {:induction false} SplitOnSnoc(u: string, c: char, sep: char)
    ensures var r := SplitOn(u, sep);
      SplitOn(u + [c], sep) == if c == sep then r + [""] else r[..|r| - 1] + [r[|r| - 1] + [c]]
    decreases |u|
  {
    if u == [] {
      assert u + [c] == [c] && [c][1..] == [];
      assert SplitOn([c][1..], sep) == [""];
      assert [c] + "" == [c] && "" + [c] == [c];
    } else {
      var v := u + [c];
      assert v[0] == u[0] && v[1..] == u[1..] + [c];
      SplitOnSnoc(u[1..], c, sep);
      var rest := SplitOn(u[1..], sep);
      assert SplitOn(v, sep) == SplitCons(u[0], SplitSnoc(rest, c, sep), sep);
      assert SplitOn(u, sep) == SplitCons(u[0], rest, sep);
      SplitConsSnoc(u[0], rest, c, sep);
    }
  }

  /** Joining pieces free of the separator and splitting again gives the
      pieces back. */
  lemma {:induction false} SplitOnJoin(parts: seq<string>, sep: char)
    requires |parts| >= 1
    requires forall k :: 0 <= k < |parts| ==> sep !in parts[k]
    ensures SplitOn(Join(parts, [sep]), sep) == parts
    decreases |parts|
  {
    if |parts| == 1 {
      SplitOnFree(parts[0], sep);
    } else {
      var rest := Join(parts[1..], [sep]);
      SplitOnJoin(parts[1..], sep);
      assert parts[0] + [sep] + rest == parts[0] + ([sep] + rest);
      assert ([sep] + rest)[1..] == rest;
      SplitOnPrefix(parts[0], [sep] + rest, sep);
      assert parts[0] + "" == parts[0];
      assert [parts[0]] + parts[1..] == parts;
    }
  }
}
