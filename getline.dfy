/** The line reader of `_getline.c`: `_fgets` (a bounded read into a
    caller's buffer), `_strlen` (scan to the terminator) and `_getline` (the
    caller-owned buffer, allocated on first use, then a bounded read and the
    newline trim). */
module LineReader {
  import opened ByteStream
  import opened LineSpec

  /** The capacity `_getline` allocates: the literal 1024 of the code. */
  const DefaultCapacity: nat := 1024

  /** The largest `int`: `*len` is handed to `_fgets` as an `int`. */
  const IntMax: nat := 0x7FFF_FFFF

  /** `_fgets`: copy bytes from `stream` into `buffer` until `maxLength - 1`
      bytes are copied, a newline is copied or the stream ends, then
      terminate. The result is `buffer`, or null for bad arguments and for a
      stream that ends before the first byte; a null result changes nothing. */
  method FGets(buffer: array?<char>, maxLength: int, stream: Stream?) returns (r: array?<char>)
    requires stream != null ==> stream.Valid()
    requires buffer != null && 0 < maxLength ==> maxLength <= buffer.Length
    modifies buffer, stream
    ensures stream != null ==> stream.Valid()
    ensures r == null || r == buffer
    ensures r == null <==>
              buffer == null || maxLength <= 0 || stream == null ||
              (1 < maxLength && stream.data[old(stream.pos)..] == [])
    ensures r == null ==>
              (stream != null ==> stream.pos == old(stream.pos)) &&
              (buffer != null ==> buffer[..] == old(buffer[..]))
    ensures r != null ==>
              buffer != null && stream != null && 0 < maxLength &&
              stream.pos - old(stream.pos) == Take(stream.data[old(stream.pos)..], maxLength - 1) &&
              buffer[..] == Deposit(old(buffer[..]), stream.data[old(stream.pos)..stream.pos])
  {
    if buffer == null || maxLength <= 0 || stream == null {
      return null;
    }
    ghost var pos0, cells0 := stream.pos, buffer[..];
    ghost var rest0 := stream.data[pos0..];
    ghost var n := Take(rest0, maxLength - 1);
    var i := 0;
    while i < maxLength - 1
      invariant stream.Valid()
      invariant 0 <= i <= maxLength - 1 && i <= |rest0|
      invariant stream.pos == pos0 + i
      invariant n == i + Take(rest0[i..], maxLength - 1 - i)
      invariant forall j :: 0 <= j < i ==> buffer[j] == rest0[j]
      invariant forall j :: i <= j < buffer.Length ==> buffer[j] == cells0[j]
    {
      var c := stream.GetChar();
      if c == EOF {
        assert rest0[i..] == [];
        if i == 0 {
          assert buffer[..] == cells0;
          return null;
        }
        break;
      }
      assert c == rest0[i] as int;
      ghost var limit := maxLength - 1 - i;
      TakeUnfold(rest0, i, limit);
      buffer[i] := c as char;
      i := i + 1;
      if c == '\n' as int {
        assert n == i;
        break;
      }
      assert n == i + Take(rest0[i..], limit - 1);
    }
    assert n == i;
    buffer[i] := '\0';
    assert stream.data[pos0..stream.pos] == rest0[..n];
    DepositPointwise(cells0, rest0[..n], buffer[..]);
    return buffer;
  }

  /** `_strlen`: the index of the first terminator, every character before
      which is not a terminator. */
  method StrLen(str: array<char>) returns (i: nat)
    requires exists k :: 0 <= k < str.Length && str[k] == '\0'
    ensures i < str.Length && str[i] == '\0'
    ensures forall j :: 0 <= j < i ==> str[j] != '\0'
    ensures i == FirstNul(str[..])
  {
    ghost var k :| 0 <= k < str.Length && str[k] == '\0';
    i := 0;
    while str[i] != '\0'
      invariant i <= k
      invariant forall j :: 0 <= j < i ==> str[j] != '\0'
      decreases k - i
    {
      i := i + 1;
    }
    FirstNulUnique(str[..], i);
  }

  /** The two handles `_getline` is given: `*line`, the buffer (or null), and
      `*len`, its tracked capacity. */
  class LineHandle {
    var line: array?<char>
    var len: nat

    constructor (line: array?<char>, len: nat)
      ensures this.line == line && this.len == len
    {
      this.line := line;
      this.len := len;
    }
  }

  /** `_getline`: allocate a `DefaultCapacity` buffer when there is none or
      its capacity is zero (`allocOk` says whether `malloc` succeeds), read
      one bounded line into it and trim one trailing newline. The result is
      the trimmed length, or -1 when allocation fails or `_fgets` returns
      null. */
  method GetLine(h: LineHandle, stream: Stream?, allocOk: bool) returns (read: int)
    requires stream != null ==> stream.Valid()
    requires h.line != null && h.len != 0 ==> h.len <= h.line.Length
    requires h.len <= IntMax
    modifies h, h.line, stream
    ensures stream != null ==> stream.Valid()
    // allocate-if-needed
    ensures old(h.line) == null || old(h.len) == 0 ==>
              h.len == DefaultCapacity &&
              if allocOk then h.line != null && fresh(h.line) && h.line.Length == DefaultCapacity
              else h.line == null
    ensures old(h.line) != null && old(h.len) != 0 ==> h.line == old(h.line) && h.len == old(h.len)
    // a buffer abandoned because its capacity was zero is not written
    ensures old(h.line) != null && old(h.len) == 0 ==> unchanged(old(h.line))
    // -1 exactly on allocation failure or a null bounded read
    ensures read == -1 <==>
              ((old(h.line) == null || old(h.len) == 0) && !allocOk) || stream == null ||
              (1 < h.len && stream.data[old(stream.pos)..] == [])
    ensures read == -1 ==>
              (stream != null ==> stream.pos == old(stream.pos)) &&
              (old(h.line) != null && old(h.len) != 0 ==> h.line[..] == old(h.line[..]))
    // success: the bytes taken, the trimmed line and its terminator
    ensures read != -1 ==>
              h.line != null && stream != null && 0 < h.len <= h.line.Length &&
              LineDelivered(stream.data, old(stream.pos), stream.pos, h.len, h.line[..], read) &&
              0 <= read < h.len && h.line[read] == '\0'
    ensures read != -1 && old(h.line) != null && old(h.len) != 0 ==>
              stream != null && h.line == old(h.line) &&
              TailKept(old(stream.pos), stream.pos, h.line[..], old(h.line[..]))
  {
    if h.line == null || h.len == 0 {
      h.len := DefaultCapacity;
      if !allocOk {
        h.line := null;
        return -1;
      }
      h.line := new char[DefaultCapacity];
    }
    read := FillAndTrim(h.line, h.len, stream);
  }

  /** The part of `_getline` after the buffer is in place: the bounded read
      into `buf` with capacity `cap`, then `_strlen` and the trim of one
      trailing newline. -1 exactly when `_fgets` returns null, and then
      nothing changes. */
  method FillAndTrim(buf: array<char>, cap: nat, stream: Stream?) returns (read: int)
    requires stream != null ==> stream.Valid()
    requires 0 < cap <= buf.Length && cap <= IntMax
    modifies buf, stream
    ensures stream != null ==> stream.Valid()
    ensures read == -1 <==> stream == null || (1 < cap && stream.data[old(stream.pos)..] == [])
    ensures read == -1 ==> (stream != null ==> stream.pos == old(stream.pos)) && buf[..] == old(buf[..])
    ensures read != -1 ==>
              stream != null &&
              LineDelivered(stream.data, old(stream.pos), stream.pos, cap, buf[..], read) &&
              0 <= read < cap && buf[read] == '\0' &&
              TailKept(old(stream.pos), stream.pos, buf[..], old(buf[..]))
  {
    ghost var cells0 := buf[..];
    var got := FGets(buf, cap as int, stream);
    if got == null {
      return -1;
    }
    ghost var from, filled := old(stream.pos), buf[..];
    assert stream.pos - from == Take(stream.data[from..], cap - 1);
    assert filled == Deposit(cells0, stream.data[from..stream.pos]);
    assert buf[stream.pos - from] == '\0';
    read := StrLen(buf);
    ghost var k := read;
    if read > 0 && buf[read - 1] == '\n' {
      buf[read - 1] := '\0';
      read := read - 1;
      assert buf[..] == filled[k - 1 := '\0'];
    }
    TrimDelivers(stream.data, from, stream.pos, cap, cells0, filled, k, buf[..], read);
  }
}
