/** The character cursor under the fluvio tokenizer
    (fluvio-jolt/src/dsl/chars.rs): the input's characters with a
    one-character put-back buffer and a running byte position. */
module CharCursor {
  import opened Wrappers
  import opened Strings
  import opened Lexical

  class Chars {
    /** The whole input; `idx` characters of it have left the inner iterator. */
    const input: string
    var idx: nat
    var pos: nat
    var buf: Option<char>

    ghost predicate Valid()
      reads this
    {
      idx <= |input|
    }

    /** How many input characters are behind the cursor, counting a
        buffered character as not yet read. */
    ghost function Consumed(): nat
      reads this
    {
      if buf.Some? && 1 <= idx then idx - 1 else idx
    }

    /** The state the tokenizer keeps: anything buffered is the character
        just read, and `pos` is the byte offset of the cursor. */
    ghost predicate Coherent()
      reads this
    {
      && Valid()
      && (buf.Some? ==> 1 <= idx && buf.value == input[idx - 1])
      && pos == ByteLen(input[..Consumed()])
    }

    constructor(s: string)
      ensures input == s && idx == 0 && pos == 0 && buf == None
      ensures Valid() && Coherent() && Consumed() == 0
    {
      input := s;
      idx := 0;
      pos := 0;
      buf := None;
    }

    /** Pushes `c` back so that `Next` returns it; the buffer holds one
        character, and a second put-back fails with the position unchanged.
        The position moves back by the character's UTF-8 length, which must
        not underflow. */
    method PutBack(c: char) returns (r: Outcome<ParseError>)
      requires Valid()
      requires buf.None? ==> Utf8Len(c) <= pos
      modifies this
      ensures Valid() && idx == old(idx)
      ensures old(buf).Some? ==> r == Fail(ParseError(pos, PutBackBufferFull)) && pos == old(pos) && buf == old(buf)
      ensures old(buf).None? ==> r == Pass && buf == Some(c) && pos == old(pos) - Utf8Len(c)
      ensures old(Coherent()) && old(buf).None? && 1 <= idx && c == input[idx - 1] ==>
        Coherent() && Consumed() == old(Consumed()) - 1
    {
      if buf.Some? {
        return Fail(ParseError(pos, PutBackBufferFull));
      }
      if Coherent() && 1 <= idx && c == input[idx - 1] {
        ByteLenStep(input, idx - 1);
      }
      buf := Some(c);
      pos := pos - Utf8Len(c);
      return Pass;
    }

    /** The next character: the buffered one if there is one, else the next
        input character; the position advances by its UTF-8 length. */
    method Next() returns (r: Option<char>)
      requires Valid()
      modifies this
      ensures Valid() && buf.None?
      ensures r == if old(buf).Some? then old(buf) else if old(idx) < |input| then Some(input[old(idx)]) else None
      ensures idx == old(idx) + (if old(buf).None? && r.Some? then 1 else 0)
      ensures pos == old(pos) + (if r.Some? then Utf8Len(r.value) else 0)
      ensures old(Coherent()) ==> Coherent() && Consumed() == old(Consumed()) + (if r.Some? then 1 else 0)
      ensures old(Coherent()) ==> old(Consumed()) <= |input|
      ensures old(Coherent()) ==> (r.None? <==> old(Consumed()) == |input|)
      ensures old(Coherent()) && r.Some? ==> r.value == input[old(Consumed())]
    {
      var c: char;
      if buf.Some? {
        c := buf.value;
        buf := None;
      } else {
        if idx == |input| {
          return None;
        }
        c := input[idx];
        idx := idx + 1;
      }
      if old(Coherent()) {
        ByteLenStep(input, idx - 1);
      }
      pos := pos + Utf8Len(c);
      return Some(c);
    }

    /** The byte position of the cursor. */
    method Pos() returns (p: nat)
      ensures p == pos
      ensures Coherent() ==> p == ByteLen(input[..Consumed()])
    {
      return pos;
    }
  }
}
