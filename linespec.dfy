/** Value-level description of what the three routines of `_getline.c` do:
    how many bytes one bounded read takes from the stream, where the first
    terminator of a buffer is, how the trailing newline is trimmed. The
    methods in `LineReader` are proved against these functions. */
module LineSpec {

  /** How many bytes one bounded read copies from the unread bytes `rest`
      when at most `limit` bytes fit: it stops after `limit` bytes, at the end
      of the bytes, or right after the first newline, whichever comes first. */
  function Take(rest: seq<char>, limit: nat): (n: nat)
    ensures n <= limit && n <= |rest|
    ensures n == 0 <==> limit == 0 || rest == []
    decreases limit
  {
    if limit == 0 || rest == [] then 0
    else if rest[0] == '\n' then 1
    else 1 + Take(rest[1..], limit - 1)
  }

  /** One step of a bounded read from position `i` of the bytes. */
  lemma TakeUnfold(rest: seq<char>, i: nat, limit: nat)
    requires i < |rest| && 0 < limit
    ensures Take(rest[i..], limit) ==
              if rest[i] == '\n' then 1 else 1 + Take(rest[i + 1..], limit - 1)
  {
    assert rest[i..][1..] == rest[i + 1..];
  }

  /** A buffer after a bounded read put `line` at its start: the line, then
      a terminator, then the old cells untouched. */
  function Deposit(cells: seq<char>, line: seq<char>): (r: seq<char>)
    requires |line| < |cells|
    ensures |r| == |cells| && r[..|line|] == line && r[|line|] == '\0'
    ensures r[|line| + 1..] == cells[|line| + 1..]
  {
    line + ['\0'] + cells[|line| + 1..]
  }

  /** A buffer that holds `line`, a terminator and otherwise `cells`, cell by
      cell, is `Deposit(cells, line)`. */
  lemma DepositPointwise(cells: seq<char>, line: seq<char>, buf: seq<char>)
    requires |line| < |cells| == |buf|
    requires forall j :: 0 <= j < |line| ==> buf[j] == line[j]
    requires buf[|line|] == '\0'
    requires forall j :: |line| < j < |buf| ==> buf[j] == cells[j]
    ensures buf == Deposit(cells, line)
  {
  }

  /** The index of the first terminator. */
  function FirstNul(s: seq<char>): (r: nat)
    requires '\0' in s
    ensures r < |s| && s[r] == '\0'
    ensures forall j :: 0 <= j < r ==> s[j] != '\0'
  {
    if s[0] == '\0' then 0 else 1 + FirstNul(s[1..])
  }

  /** The first terminator is the only position with a terminator and none
      before it. */
  lemma FirstNulUnique(s: seq<char>, k: nat)
    requires k < |s| && s[k] == '\0'
    requires forall j :: 0 <= j < k ==> s[j] != '\0'
    ensures FirstNul(s) == k
  {
  }

  /** A buffer after the trailing-newline trim, and the length reported. */
  datatype Trimmed = Trimmed(buf: seq<char>, read: nat)

  /** The post-processing of a successful read: measure up to the first
      terminator and, if the character before it is a newline, overwrite that
      newline with a terminator and report one less. */
  function TrimNewline(s: seq<char>): (t: Trimmed)
    requires '\0' in s
    ensures |t.buf| == |s| && t.read < |s|
    ensures t.buf[t.read] == '\0'
    ensures t.read == FirstNul(s) || (t.read + 1 == FirstNul(s) && s[t.read] == '\n')
    ensures (0 < FirstNul(s) && s[FirstNul(s) - 1] == '\n') <==> t.read + 1 == FirstNul(s)
  {
    var k := FirstNul(s);
    if k > 0 && s[k - 1] == '\n' then Trimmed(s[k - 1 := '\0'], k - 1) else Trimmed(s, k)
  }

  /** The trim changes at most the one cell it terminates: the reported line
      is the characters before it, none of them a terminator, and the cells
      after it are kept. */
  lemma TrimNewlineKeeps(s: seq<char>, t: Trimmed)
    requires '\0' in s && t == TrimNewline(s)
    ensures t.buf[..t.read] == s[..t.read] && '\0' !in s[..t.read]
    ensures t.buf[t.read + 1..] == s[t.read + 1..]
  {
  }

  /** One successful `_getline` call with capacity `cap` moved the cursor
      of the stream bytes `data` from `from` to `to`: that is as far as the
      bounded read takes, the buffer `buf` starts with those bytes trimmed as
      `TrimNewline` trims them, and `read` is the length it reports. */
  ghost predicate LineDelivered(data: seq<char>, from: nat, to: nat, cap: nat, buf: seq<char>, read: int)
  {
    from <= to <= |data| && 0 < cap && to - from == Take(data[from..], cap - 1) && to - from < |buf| &&
    var t := TrimNewline(data[from..to] + ['\0']);
    t.buf == buf[..to - from + 1] && t.read == read
  }

  /** The buffer past the cell where the bounded read put its terminator is
      what it was before the call. */
  ghost predicate TailKept(from: nat, to: nat, buf: seq<char>, cells: seq<char>)
  {
    from <= to && to - from < |buf| == |cells| && buf[to - from + 1..] == cells[to - from + 1..]
  }

  /** The trim applied to the whole buffer a bounded read has filled agrees
      with `TrimNewline` on the cells up to the terminator the read wrote and
      leaves the cells after it alone. */
  lemma TrimDelivers(data: seq<char>, from: nat, to: nat, cap: nat, cells: seq<char>, filled: seq<char>,
                     k: nat, trimmed: seq<char>, read: nat)
    requires from <= to <= |data| && 0 < cap && to - from == Take(data[from..], cap - 1) && to - from < |cells|
    requires filled == Deposit(cells, data[from..to])
    requires k < |filled| && k == FirstNul(filled)
    requires if 0 < k && filled[k - 1] == '\n' then trimmed == filled[k - 1 := '\0'] && read == k - 1
             else trimmed == filled && read == k
    ensures LineDelivered(data, from, to, cap, trimmed, read) && TailKept(from, to, trimmed, cells)
    ensures read <= to - from && trimmed[read] == '\0'
  {
    var n := to - from;
    var s: seq<char> := data[from..to] + ['\0'];
    assert filled[..n + 1] == s;
    assert s[n] == '\0';
    FirstNulUnique(filled, FirstNul(s));
    assert trimmed[..n + 1] == TrimNewline(s).buf;
  }

  /** A bounded read copies no newline except possibly as its last byte, and
      when it stopped before both the limit and the end of the bytes, it
      stopped because its last byte was a newline. */
  lemma {:induction false} TakeStopsAfterFirstNewline(rest: seq<char>, limit: nat)
    ensures forall j :: 0 <= j < Take(rest, limit) - 1 ==> rest[j] != '\n'
    ensures Take(rest, limit) < limit && Take(rest, limit) < |rest| ==>
              0 < Take(rest, limit) && rest[Take(rest, limit) - 1] == '\n'
    decreases limit
  {
    if limit == 0 || rest == [] || rest[0] == '\n' {
    } else {
      TakeStopsAfterFirstNewline(rest[1..], limit - 1);
      forall j | 0 <= j < Take(rest, limit) - 1
        ensures rest[j] != '\n'
      {
        if j > 0 { assert rest[j] == rest[1..][j - 1]; }
      }
    }
  }

  /** A line whose newline is at index `k` and fits below the limit is
      taken whole, through its newline. */
  lemma {:induction false} TakeLineThroughNewline(rest: seq<char>, limit: nat, k: nat)
    requires k < limit && k < |rest| && rest[k] == '\n'
    requires forall j :: 0 <= j < k ==> rest[j] != '\n'
    ensures Take(rest, limit) == k + 1
    decreases k
  {
    if k > 0 {
      forall j | 0 <= j < k - 1
        ensures rest[1..][j] != '\n'
      {
        assert rest[1..][j] == rest[j + 1];
      }
      TakeLineThroughNewline(rest[1..], limit - 1, k - 1);
    }
  }

  /** Bytes without a newline that fit under the limit are taken to the
      end. */
  lemma {:induction false} TakeToEnd(rest: seq<char>, limit: nat)
    requires |rest| <= limit
    requires forall j :: 0 <= j < |rest| ==> rest[j] != '\n'
    ensures Take(rest, limit) == |rest|
    decreases limit
  {
    if rest != [] {
      forall j | 0 <= j < |rest[1..]|
        ensures rest[1..][j] != '\n'
      {
        assert rest[1..][j] == rest[j + 1];
      }
      TakeToEnd(rest[1..], limit - 1);
    }
  }

  /** A read with a limit takes the whole line (through its newline, or to
      the end of the bytes) when it fits, and exactly `limit` bytes of it when
      it does not: a longer line is split across reads. */
  lemma {:induction false} TakeTruncatesLine(rest: seq<char>, limit: nat)
    ensures Take(rest, limit) == if Take(rest, |rest|) <= limit then Take(rest, |rest|) else limit
    decreases limit
  {
    if limit == 0 || rest == [] || rest[0] == '\n' {
    } else {
      TakeTruncatesLine(rest[1..], limit - 1);
      TakeWholeLine(rest);
    }
  }

  /** Unfolding the unbounded line one byte. */
  lemma TakeWholeLine(rest: seq<char>)
    requires rest != [] && rest[0] != '\n'
    ensures Take(rest, |rest|) == 1 + Take(rest[1..], |rest[1..]|)
  {
  }

  /** The trim of the bytes one read took, when no newline comes before the
      last of them: the reported line is no longer than those bytes and
      holds no newline. */
  lemma TrimmedLineHasNoNewline(line: seq<char>)
    requires forall j :: 0 <= j < |line| - 1 ==> line[j] != '\n'
    ensures var t := TrimNewline(line + ['\0']);
            t.read <= |line| && '\n' !in t.buf[..t.read]
  {
    var s: seq<char> := line + ['\0'];
    assert s[|line|] == '\0';
    var t := TrimNewline(s);
    TrimNewlineKeeps(s, t);
    var k := FirstNul(s);
    assert k <= |line|;
    forall j | 0 <= j < t.read
      ensures t.buf[..t.read][j] != '\n'
    {
      assert t.buf[..t.read][j] == s[..t.read][j] == line[j];
    }
  }

  /** When no zero byte is among the bytes one read took, the reported line
      is exactly those bytes, less the one trailing newline if there is one. */
  lemma TrimmedLineIsTakenBytes(line: seq<char>)
    requires '\0' !in line
    ensures var t := TrimNewline(line + ['\0']);
            t.read == (if 0 < |line| && line[|line| - 1] == '\n' then |line| - 1 else |line|) &&
            t.buf[..t.read] == line[..t.read]
  {
    var s: seq<char> := line + ['\0'];
    forall j | 0 <= j < |line|
      ensures s[j] != '\0'
    {
      assert s[j] == line[j];
    }
    FirstNulUnique(s, |line|);
    var t := TrimNewline(s);
    TrimNewlineKeeps(s, t);
    assert s[..t.read] == line[..t.read];
  }

  /** What a caller of `_getline` learns from a delivered line: the length is
      below the capacity, the buffer is terminated there, the line holds no
      newline, and when no zero byte came from the stream it is the bytes
      consumed less one trailing newline. */
  lemma DeliveredLine(data: seq<char>, from: nat, to: nat, cap: nat, buf: seq<char>, read: int)
    requires LineDelivered(data, from, to, cap, buf, read)
    ensures 0 <= read <= to - from < cap && to - from < |buf| && buf[read] == '\0'
    ensures '\n' !in buf[..read]
    ensures '\0' !in data[from..to] ==>
              read == (if from < to && data[to - 1] == '\n' then to - from - 1 else to - from) &&
              buf[..read] == data[from..from + read]
  {
    var n := to - from;
    var rest := data[from..];
    var line := data[from..to];
    TakeStopsAfterFirstNewline(rest, cap - 1);
    forall j | 0 <= j < n - 1
      ensures line[j] != '\n'
    {
      assert line[j] == rest[j];
    }
    var t := TrimNewline(line + ['\0']);
    assert t.buf == buf[..n + 1] && t.read == read;
    TrimmedLineHasNoNewline(line);
    assert t.buf[..read] == buf[..read];
    if '\0' !in line {
      TrimmedLineIsTakenBytes(line);
      assert line[..read] == data[from..from + read];
    }
  }
}
