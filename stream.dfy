/** The byte source that `_fgets` reads through `fgetc`: a fixed sequence of
    bytes and a cursor into it. A read error is indistinguishable from end of
    stream in the modelled code, so only end of stream is modelled. */
module ByteStream {

  /** A byte as the `char` that `(char)c` stores: code 0 to 255. */
  type Byte = c: char | c as int < 256

  /** The `EOF` value of `<stdio.h>`. */
  const EOF: int := -1

  class Stream {
    /** Everything the stream will ever deliver. */
    const data: seq<Byte>
    /** How many bytes have been consumed so far. */
    var pos: nat

    ghost predicate Valid()
      reads this
    {
      pos <= |data|
    }

    constructor (bytes: seq<Byte>)
      ensures Valid() && data == bytes && pos == 0
    {
      data := bytes;
      pos := 0;
    }

    /** `fgetc`: the next byte as a non-negative `int`, advancing the cursor;
        at the end, EOF without moving the cursor. */
    method GetChar() returns (c: int)
      requires Valid()
      modifies this
      ensures Valid()
      ensures old(pos) < |data| ==> c == data[old(pos)] as int && pos == old(pos) + 1
      ensures old(pos) == |data| ==> c == EOF && pos == old(pos)
    {
      if pos < |data| {
        c := data[pos] as int;
        pos := pos + 1;
      } else {
        c := EOF;
      }
    }
  }
}
