/** Worked calls of the line reader on fixed streams, each stating the
    values the calls return and where they leave the stream. */
module Scenarios {
  import opened ByteStream
  import opened LineSpec
  import opened LineReader

  /** Three `_getline` calls on "hello\nworld\n" with a handle that starts
      without a buffer: the first allocates, the second reuses the buffer,
      the third finds the stream at its end. */
  method ReadTwoLines() returns (first: int, second: int, third: int, capacity: nat)
    ensures first == 5 && second == 5 && third == -1 && capacity == DefaultCapacity
  {
    var s := new Stream("hello\nworld\n");
    var h := new LineHandle(null, 0);
    first := GetLine(h, s, true);
    FirstLine(s.data, s.pos, h.len, h.line[..], first);
    second := GetLine(h, s, true);
    SecondLine(s.data, s.pos, h.len, h.line[..], second);
    third := GetLine(h, s, true);
    capacity := h.len;
  }

  /** The first line of "hello\nworld\n" as `_getline` delivers it. */
  lemma FirstLine(data: seq<Byte>, to: nat, cap: nat, buf: seq<char>, read: int)
    requires data == "hello\nworld\n" && cap == DefaultCapacity
    requires LineDelivered(data, 0, to, cap, buf, read)
    ensures to == 6 && read == 5
  {
    TakeLineThroughNewline(data[0..], DefaultCapacity - 1, 5);
    assert data[0..6] == "hello\n";
    DeliveredLine(data, 0, to, cap, buf, read);
  }

  /** The second line of "hello\nworld\n" as `_getline` delivers it. */
  lemma SecondLine(data: seq<Byte>, to: nat, cap: nat, buf: seq<char>, read: int)
    requires data == "hello\nworld\n" && cap == DefaultCapacity
    requires LineDelivered(data, 6, to, cap, buf, read)
    ensures to == 12 && read == 5
  {
    assert data[6..] == "world\n";
    TakeLineThroughNewline(data[6..], DefaultCapacity - 1, 5);
    assert data[6..12] == "world\n";
    DeliveredLine(data, 6, to, cap, buf, read);
  }

  /** A last line without a newline: `_getline` on "abc" reports 3, and the
      next call finds the stream at its end. */
  method LastLineWithoutNewline() returns (first: int, second: int)
    ensures first == 3 && second == -1
  {
    var s := new Stream("abc");
    var h := new LineHandle(null, 0);
    first := GetLine(h, s, true);
    UnterminatedLine(s.data, s.pos, h.len, h.line[..], first);
    second := GetLine(h, s, true);
  }

  /** The only line of "abc" as `_getline` delivers it. */
  lemma UnterminatedLine(data: seq<Byte>, to: nat, cap: nat, buf: seq<char>, read: int)
    requires data == "abc" && cap == DefaultCapacity
    requires LineDelivered(data, 0, to, cap, buf, read)
    ensures to == 3 && read == 3
  {
    TakeToEnd(data[0..], DefaultCapacity - 1);
    assert data[0..3] == "abc";
    DeliveredLine(data, 0, to, cap, buf, read);
  }

  /** `_getline` when `malloc` fails: -1, the capacity set to 1024 anyway,
      no buffer, and the stream untouched. */
  method AllocationFails() returns (read: int, capacity: nat, noBuffer: bool, consumed: nat)
    ensures read == -1 && capacity == DefaultCapacity && noBuffer && consumed == 0
  {
    var s := new Stream("abc\n");
    var h := new LineHandle(null, 0);
    read := GetLine(h, s, false);
    capacity, noBuffer, consumed := h.len, h.line == null, s.pos;
  }

  /** A zero byte from the stream: `_getline` consumes the whole line but
      reports only the length up to the zero byte. */
  method ZeroByteShortensLine() returns (read: int, consumed: nat)
    ensures read == 2 && consumed == 6
  {
    var s := new Stream("ab\0cd\n");
    var h := new LineHandle(null, 0);
    read := GetLine(h, s, true);
    TakeLineThroughNewline(s.data[0..], DefaultCapacity - 1, 5);
    consumed := s.pos;
    ghost var line := s.data[0..6] + ['\0'];
    assert line[2] == '\0' && line[0] != '\0' && line[1] != '\0';
    FirstNulUnique(line, 2);
  }

  /** `_fgets` with `max_length` 1: room for the terminator only, so it
      returns the buffer holding the empty string and reads nothing. */
  method FGetsRoomForTerminatorOnly() returns (isBuffer: bool, first: char, consumed: nat)
    ensures isBuffer && first == '\0' && consumed == 0
  {
    var s := new Stream("abc\n");
    var buf := new char[4];
    var r := FGets(buf, 1, s);
    isBuffer, first, consumed := r == buf, buf[0], s.pos;
  }

  /** `_fgets` on a line longer than the buffer: it fills all but the last
      cell and leaves the rest of the line for the next call. */
  method FGetsSplitsLongLine() returns (head: seq<char>, consumed: nat, tail: seq<char>)
    ensures head == "ab\0" && consumed == 2 && tail == "cd\n\0"
  {
    var s := new Stream("abcd\n");
    var buf := new char[3];
    var r := FGets(buf, 3, s);
    head, consumed := buf[..], s.pos;
    var big := new char[8];
    r := FGets(big, 8, s);
    TakeLineThroughNewline(s.data[2..], 7, 2);
    assert s.data[2..5] == "cd\n";
    tail := big[..4];
  }

  /** `_fgets` on an exhausted stream: null, and the buffer keeps its
      contents. */
  method FGetsAtEnd() returns (isNull: bool, kept: bool)
    ensures isNull && kept
  {
    var s := new Stream("");
    var buf := new char[2];
    buf[0], buf[1] := 'x', 'y';
    var r := FGets(buf, 2, s);
    isNull, kept := r == null, buf[..] == "xy";
  }

  /** `_strlen` stops at the first terminator. */
  method StrLenFirstTerminator() returns (n: nat)
    ensures n == 3
  {
    var a := new char[5];
    a[0], a[1], a[2], a[3], a[4] := 'a', 'b', 'c', '\0', '\0';
    n := StrLen(a);
    assert a[..4] == "abc\0";
  }
}
