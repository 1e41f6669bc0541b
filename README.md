# Line reader of `_getline.c`

A Dafny model of the line-reading primitive of a small shell: `_fgets`
copies bytes from a stream into a caller's fixed-capacity buffer until the
buffer is one cell short of full, a newline has been copied or the stream
ends, and, unless it returns NULL, writes a terminator after the last byte
copied; `_strlen` scans to
the first terminator; `_getline` allocates a 1024-cell buffer when the
caller has none (or a zero capacity), reads one bounded line into it with
`_fgets`, removes one trailing newline and returns the trimmed length.

The model is imperative, as the C code is:

- `stream.dfy` (module `ByteStream`): the stream `fgetc` reads, as a class
  with the fixed bytes it will deliver and a cursor. A byte is a `char` with
  a code below 256, which is what `(char)c` stores.
- `linespec.dfy` (module `LineSpec`): the value-level description the
  methods are proved against. `Take` is how many bytes one bounded read
  copies, `Deposit` is the buffer it leaves, `FirstNul` is what `_strlen`
  finds, and `TrimNewline` is the trim `_getline` applies.
  `LineDelivered` ties one whole `_getline` call together. The lemmas state
  what callers can rely on: where a read stops, that long lines are split,
  and that the reported line holds no newline.
- `getline.dfy` (module `LineReader`): `FGets` and `StrLen` are methods
  over `array<char>` with loop invariants. `LineHandle` holds the two
  handles `*line` and `*len`. `GetLine` updates them and the buffer in
  place; its read-and-trim part (`_getline.c:40-55`) is the method
  `FillAndTrim`, which `GetLine` calls once the buffer is in place.
- `scenarios.dfy` (module `Scenarios`): fixed streams passed to the
  methods, with the returned values proved.

Where the documentation comments and the code disagree, the model follows
the code:

- With `max_length` 1, `_fgets` copies nothing. It still writes the
  terminator at index 0 and returns the buffer, not NULL, even on an empty
  stream.
- A zero byte from the stream is copied like any other byte. `_strlen` then
  stops at it, so `_getline` reports a shorter length than it consumed
  (`Scenarios.ZeroByteShortensLine`).
- The comment on `_getline` promises -1 for a NULL `line` or `len`
  (`_getline.c:20`). The code dereferences both unconditionally
  (`_getline.c:30`).
- The comment mentions resizing the buffer (`_getline.c:13`). The code never
  grows it: a line longer than the capacity is split across calls
  (`LineSpec.TakeTruncatesLine`).
- The macro `MAX_LINE_LENGTH` is unused; the code writes the literal 1024.

## Model

| member | source | states |
|---|---|---|
| ByteStream.Stream.GetChar | _getline.c:90-92 | `fgetc` returns the next byte as a non-negative value and advances the cursor by one; at the end of the stream it returns EOF and the cursor stays |
| LineSpec.Take | _getline.c:88-108 | a bounded read copies no more bytes than the limit and no more than remain, and copies none exactly when the limit is zero or the stream is exhausted |
| LineSpec.TakeStopsAfterFirstNewline | _getline.c:102-107 | no copied byte before the last one is a newline, and a read that stopped before both the limit and the end of the stream stopped right after copying a newline |
| LineSpec.TakeLineThroughNewline | _getline.c:88-107 | a line whose first newline is at index k, with k below the limit, is copied whole through its newline: exactly k + 1 bytes |
| LineSpec.TakeTruncatesLine | _getline.c:88 | a read copies the whole line when it fits under the limit and exactly `limit` bytes of it otherwise, so a long line is split across reads |
| LineSpec.TakeToEnd | _getline.c:88-101 | bytes with no newline that fit under the limit are copied to the end of the stream: the count is their number |
| LineSpec.Deposit | _getline.c:102-110 | the buffer a successful `_fgets` leaves: as long as before, the bytes read at its start, a terminator right after them, and every later cell as it was |
| LineSpec.FirstNul | _getline.c:124-132 | the length `_strlen` finds is the index of a terminator, and no character before it is a terminator |
| LineSpec.TrimNewline | _getline.c:43-49 | the trim keeps the buffer's length and leaves a terminator at the reported length; that length is `_strlen`'s, or one less when the character before the terminator was a newline |
| LineSpec.TrimNewlineKeeps | _getline.c:45-48 | the trim changes at most the cell it terminates: the characters before the reported length and those after the new terminator are kept, and none before is a terminator |
| LineSpec.TrimDelivers | _getline.c:40-50 | trimming the whole buffer a bounded read filled equals `TrimNewline` on the bytes read plus terminator, the buffer past that terminator is untouched, and the result is at most the number of bytes read |
| LineSpec.TrimmedLineHasNoNewline | _getline.c:45-49 | when no newline comes before the last byte read, the reported line is no longer than the bytes read and contains no newline |
| LineSpec.TrimmedLineIsTakenBytes | _getline.c:43-49 | when no zero byte was read, the reported line is exactly the bytes read less one trailing newline, and its length is their number less one exactly when the last is a newline |
| LineSpec.LineDelivered | _getline.c:40-50 | defines one successful `_getline` call: the cursor moved by the bounded-read count for the capacity, and the buffer's prefix through the read's terminator and the result are `TrimNewline` of the bytes read plus a terminator (no contract of its own; `LineSpec.DeliveredLine` states what follows from it) |
| LineSpec.DeliveredLine | _getline.c:40-50 | after a successful `_getline`, 0 <= read <= bytes consumed < capacity, the buffer is terminated at `read`, the line holds no newline, and without zero bytes it equals the consumed bytes less a trailing newline |
| LineReader.FGets | _getline.c:76-113 | NULL exactly for a null buffer, a non-positive `max_length`, a null stream, or an exhausted stream when `max_length` > 1; on NULL the cursor and the buffer are unchanged; otherwise the cursor advances by the bounded-read count, those bytes sit at the start of the buffer in order, a terminator follows and every later cell is kept |
| LineReader.StrLen | _getline.c:124-132 | the result indexes a terminator, no earlier character is one, and it equals `FirstNul` of the array |
| LineReader.LineHandle.constructor | _getline.c:25 | the handle pair starts with the given `*line` buffer (or none) and `*len` capacity |
| LineReader.GetLine | _getline.c:25-56 | with no buffer or a zero capacity, `*len` becomes 1024 and a fresh 1024-cell buffer is installed, or the result is -1 with no buffer when allocation fails; otherwise the handles are unchanged; a buffer abandoned because `*len` was 0 is not written; -1 exactly when allocation fails, the stream is null, or the stream is exhausted and `*len` > 1; on success the cursor, buffer and result are those of `LineDelivered`, 0 <= read < `*len`, `(*line)[read]` is a terminator, and a reused buffer keeps its cells past the read's terminator |
| LineReader.FillAndTrim | _getline.c:40-55 | -1 exactly when `_fgets` returns NULL (null stream, or an exhausted stream with capacity above 1), and then neither the cursor nor the buffer changes; otherwise the cursor, buffer and result are those of `LineDelivered`, 0 <= read < capacity, the buffer is terminated at `read`, and the cells past the read's terminator are kept |
| Scenarios.FirstLine | _getline.c:40-50 | on "hello\nworld\n" from the start with capacity 1024, the first line consumes 6 bytes and reports 5 |
| Scenarios.SecondLine | _getline.c:40-50 | on the same stream from byte 6, the second line consumes through byte 12 and reports 5 |
| Scenarios.ReadTwoLines | _getline.c:30-55 | three `_getline` calls on "hello\nworld\n" from an empty handle return 5, 5 and -1, and the capacity is 1024 |
| Scenarios.LastLineWithoutNewline | _getline.c:40-55 | on "abc" with no newline, `_getline` reports 3 and the next call returns -1 |
| Scenarios.UnterminatedLine | _getline.c:40-50 | the only line of "abc" consumes 3 bytes and reports 3 |
| Scenarios.AllocationFails | _getline.c:30-37 | when `malloc` fails, `_getline` returns -1, sets `*len` to 1024, leaves no buffer and reads nothing |
| Scenarios.ZeroByteShortensLine | _getline.c:43 | on "ab\0cd\n" `_getline` consumes all 6 bytes but reports length 2 |
| Scenarios.FGetsRoomForTerminatorOnly | _getline.c:88-112 | with `max_length` 1, `_fgets` returns the buffer holding the empty string and reads nothing |
| Scenarios.FGetsSplitsLongLine | _getline.c:88-112 | with `max_length` 3, "abcd\n" yields "ab" plus terminator after 2 bytes; the next read with room for 8 yields "cd\n" plus terminator |
| Scenarios.FGetsAtEnd | _getline.c:92-98 | on an exhausted stream `_fgets` returns NULL and the buffer keeps its contents |
| Scenarios.StrLenFirstTerminator | _getline.c:124-132 | `_strlen` of "abc" followed by two terminators is 3 |

## Left out

- `FILE*` and real I/O: the stream is a fixed byte sequence with a cursor.
  A read error is not modelled separately, since the code treats it exactly
  like end of stream (`_getline.c:92`).
- `malloc` is the `allocOk` parameter of `GetLine`: on failure the result is
  -1, `*len` is 1024, `*line` is NULL and the stream is not read. The
  contents of a fresh buffer are arbitrary, as `malloc`'s are.
- GetLine: takes non-null `line` and `len` handles as its precondition,
  because the code dereferences both before any check, whatever its comment
  says.
- GetLine: requires `*len` to fit in an `int`, because the code passes it
  to `_fgets` as an `int` and the narrowing is not modelled.
- GetLine: an old buffer that is replaced because `*len` was 0 is not
  freed by the code. Memory ownership and leaks are not modelled.
- FGets: `max_length` is required not to exceed the buffer's length, because
  C cannot check this and writing past the buffer is undefined behaviour.
- `simple_shell.h` is not part of this model.
