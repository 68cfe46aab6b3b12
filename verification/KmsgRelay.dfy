/** PID 1's log relay (boot/init.c `relay`, `kmsg_line`): a line splitter over one
    reused buffer, and what it amounts to whatever sizes `read` returns. */
module KmsgRelay {
  import opened Prelude
  import opened Lines

  const NL: byte := 10
  const KMSG_CHUNK: nat := 900
  const BUFFER: nat := 4 * KMSG_CHUNK
  /** The priority tag `<5>` in front of every record. */
  const TAG: seq<byte> := [60, 53, 62]

  // ---- What the relay should write ----

  /** A line cut into records of at most 900 bytes; an empty line makes none. */
  function Pieces(line: seq<byte>): seq<seq<byte>> {
    if line == [] then []
    else
      var take := if |line| < KMSG_CHUNK then |line| else KMSG_CHUNK;
      [TAG + line[..take]] + Pieces(line[take..])
  }

  /** The records of a whole input: split on newline, empty lines dropped. */
  function Records(s: seq<byte>): seq<seq<byte>> {
    var i := LineEnd(s, NL);
    Pieces(s[..i]) + (if i < |s| then Records(s[i + 1..]) else [])
  }

  function AfterLine(tail: seq<byte>): seq<seq<byte>> {
    if tail == [] then [] else Records(tail[1..])
  }

  /** The first line contributes its own records, and the rest follow. */
  lemma FirstLine(line: seq<byte>, tail: seq<byte>)
    requires NL !in line && (tail == [] || tail[0] == NL)
    ensures Records(line + tail) == Pieces(line) + AfterLine(tail)
  {
    LineEndIs(line, tail, NL);
    assert (line + tail)[..|line|] == line;
    if tail != [] {
      assert (line + tail)[|line| + 1..] == tail[1..];
    }
  }

  lemma {:induction false} PiecesJoin(b: seq<byte>, t: seq<byte>)
    requires |b| % KMSG_CHUNK == 0
    ensures Pieces(b + t) == Pieces(b) + Pieces(t)
  {
    if b == [] {
      assert b + t == t;
    } else {
      var head, more := b[..KMSG_CHUNK], b[KMSG_CHUNK..];
      PiecesJoin(more, t);
      assert (b + t)[..KMSG_CHUNK] == head && (b + t)[KMSG_CHUNK..] == more + t;
      Assoc([TAG + head], Pieces(more), Pieces(t));
    }
  }

  /** An unfinished line may be flushed early at a multiple of the record size. */
  lemma FlushEarly(b: seq<byte>, rest: seq<byte>)
    requires NL !in b && |b| % KMSG_CHUNK == 0
    ensures Records(b + rest) == Pieces(b) + Records(rest)
  {
    var i := LineEnd(rest, NL);
    var line, tail := rest[..i], rest[i..];
    calc {
      Records(b + rest);
      { assert b + rest == (b + line) + tail; }
      Records((b + line) + tail);
      { FirstLine(b + line, tail); }
      Pieces(b + line) + AfterLine(tail);
      { PiecesJoin(b, line); }
      Pieces(b) + Pieces(line) + AfterLine(tail);
      { Assoc(Pieces(b), Pieces(line), AfterLine(tail)); }
      Pieces(b) + (Pieces(line) + AfterLine(tail));
      { FirstLine(line, tail); assert line + tail == rest; }
      Pieces(b) + Records(rest);
    }
  }

  lemma FlushShort(b: seq<byte>, rest: seq<byte>)
    requires NL !in b && 0 < |b| < KMSG_CHUNK && rest != [] && rest[0] != NL
    ensures Records(b + rest) != Pieces(b) + Records(rest)
  {
    var i := LineEnd(rest, NL);
    var line, tail := rest[..i], rest[i..];
    assert b + rest == (b + line) + tail;
    FirstLine(b + line, tail);
    assert |Pieces(b + line)[0]| > |TAG| + |b|;
    assert |Pieces(b)[0]| == |TAG| + |b|;
    assert Records(b + rest)[0] == Pieces(b + line)[0];
    assert (Pieces(b) + Records(rest))[0] == Pieces(b)[0];
  }

  lemma FlushPeel(b: seq<byte>, rest: seq<byte>)
    requires NL !in b && KMSG_CHUNK <= |b|
    ensures var b0, b1 := b[..KMSG_CHUNK], b[KMSG_CHUNK..];
            && Records(b + rest) == Pieces(b0) + Records(b1 + rest)
            && Pieces(b) + Records(rest) == Pieces(b0) + (Pieces(b1) + Records(rest))
  {
    var b0, b1 := b[..KMSG_CHUNK], b[KMSG_CHUNK..];
    assert b0 + b1 == b;
    Assoc(b0, b1, rest);
    FlushEarly(b0, b1 + rest);
    PiecesJoin(b0, b1);
    Assoc(Pieces(b0), Pieces(b1), Records(rest));
  }

  lemma {:induction false} FlushNowhereElse(b: seq<byte>, rest: seq<byte>)
    requires NL !in b && rest != [] && rest[0] != NL && |b| % KMSG_CHUNK != 0
    ensures Records(b + rest) != Pieces(b) + Records(rest)
  {
    if |b| < KMSG_CHUNK {
      FlushShort(b, rest);
    } else {
      var b1 := b[KMSG_CHUNK..];
      FlushNowhereElse(b1, rest);
      FlushPeel(b, rest);
      Cancel(Pieces(b[..KMSG_CHUNK]), Records(b1 + rest), Pieces(b1) + Records(rest));
    }
  }

  /** Flushing an unfinished line is invisible exactly at whole records: this is what a
      buffer of exactly four of them buys. */
  lemma FlushEarlyOnly(b: seq<byte>, rest: seq<byte>)
    requires NL !in b && rest != [] && rest[0] != NL
    ensures Records(b + rest) == Pieces(b) + Records(rest) <==> |b| % 900 == 0
  {
    if |b| % KMSG_CHUNK == 0 {
      FlushEarly(b, rest);
    } else {
      FlushNowhereElse(b, rest);
    }
  }

  // ---- What every record looks like, and that no byte is lost ----

  ghost predicate WellFormed(recs: seq<seq<byte>>) {
    forall i :: 0 <= i < |recs| ==> [60, 53, 62] <= recs[i] && 0 < |recs[i]| - 3 <= 900
  }

  function Payloads(recs: seq<seq<byte>>): seq<byte>
    requires WellFormed(recs)
  {
    if recs == [] then [] else recs[0][3..] + Payloads(recs[1..])
  }

  function WithoutNewlines(s: seq<byte>): seq<byte> {
    if s == [] then [] else (if s[0] == NL then [] else [s[0]]) + WithoutNewlines(s[1..])
  }

  lemma {:induction false} PiecesWellFormed(line: seq<byte>)
    ensures WellFormed(Pieces(line)) && Payloads(Pieces(line)) == line
  {
    if line != [] {
      var take := if |line| < KMSG_CHUNK then |line| else KMSG_CHUNK;
      PiecesWellFormed(line[take..]);
      assert Pieces(line)[1..] == Pieces(line[take..]);
      assert (TAG + line[..take])[|TAG|..] == line[..take];
    }
  }

  lemma {:induction false} PayloadsConcat(a: seq<seq<byte>>, b: seq<seq<byte>>)
    requires WellFormed(a) && WellFormed(b)
    ensures WellFormed(a + b) && Payloads(a + b) == Payloads(a) + Payloads(b)
  {
    if a == [] {
      assert a + b == b;
    } else {
      PayloadsConcat(a[1..], b);
      assert (a + b)[1..] == a[1..] + b;
    }
  }

  lemma {:induction false} NewlinesConcat(a: seq<byte>, b: seq<byte>)
    ensures WithoutNewlines(a + b) == WithoutNewlines(a) + WithoutNewlines(b)
  {
    if a == [] {
      assert a + b == b;
    } else {
      NewlinesConcat(a[1..], b);
      assert (a + b)[1..] == a[1..] + b;
      Assoc(if a[0] == NL then [] else [a[0]], WithoutNewlines(a[1..]), WithoutNewlines(b));
    }
  }

  lemma {:induction false} NoNewlines(line: seq<byte>)
    requires NL !in line
    ensures WithoutNewlines(line) == line
  {
    if line != [] {
      NoNewlines(line[1..]);
    }
  }

  lemma ConserveLine(line: seq<byte>, tail: seq<byte>)
    requires NL !in line && (tail == [] || tail[0] == NL)
    requires WellFormed(AfterLine(tail)) && Payloads(AfterLine(tail)) == WithoutNewlines(tail)
    ensures WellFormed(Records(line + tail)) && Payloads(Records(line + tail)) == WithoutNewlines(line + tail)
  {
    FirstLine(line, tail);
    PiecesWellFormed(line);
    PayloadsConcat(Pieces(line), AfterLine(tail));
    NewlinesConcat(line, tail);
    NoNewlines(line);
  }

  /** Every record is tagged, non-empty and at most 900 bytes, and together they carry
      the input byte for byte, in order, but for its newlines. */
  lemma {:induction false} RecordsConserve(s: seq<byte>)
    ensures WellFormed(Records(s)) && Payloads(Records(s)) == WithoutNewlines(s)
    decreases |s|
  {
    var i := LineEnd(s, NL);
    var line, tail := s[..i], s[i..];
    assert s == line + tail;
    if tail != [] {
      RecordsConserve(tail[1..]);
    }
    ConserveLine(line, tail);
  }

  // ---- The relay itself ----

  /** `/dev/kmsg`: every record handed to `write`, and whether one failed with an error
      other than EINVAL. */
  class Kmsg {
    var records: seq<seq<byte>>
    var failed: bool

    constructor ()
      ensures records == [] && !failed
    {
      records := [];
      failed := false;
    }

    method Write(rec: seq<byte>) returns (ok: bool)
      modifies this
      ensures records == old(records) + [rec]
      ensures failed == (old(failed) || !ok)
    {
      records := records + [rec];
      ok := *;
      failed := failed || !ok;
    }
  }

  /** The pipe being relayed: what it will still deliver before end of file or a hard
      error, and how many more times a read will be interrupted first. */
  class Pipe {
    var rest: seq<byte>
    var interrupts: nat

    constructor (input: seq<byte>, interrupts: nat)
      ensures rest == input && this.interrupts == interrupts
    {
      rest := input;
      this.interrupts := interrupts;
    }

    /** `read` into `buf` from `n` on. Never asked for zero bytes, it delivers any
        positive number of them that fits, or -1 when interrupted, or 0 at the end. */
    method Read(buf: array<byte>, n: nat) returns (r: int)
      requires n < buf.Length
      modifies this, buf
      ensures r == -1 ==> rest == old(rest) && interrupts < old(interrupts) && buf[..] == old(buf[..])
      ensures r != -1 ==> interrupts == old(interrupts) && 0 <= r <= buf.Length - n && r <= |old(rest)|
      ensures r != -1 ==> rest == old(rest)[r..] && (r == 0 <==> old(rest) == [])
      ensures r != -1 ==> buf[..n] == old(buf[..n]) && buf[n..n + r] == old(rest)[..r]
    {
      var interrupted: bool, k: int := *, *;
      if interrupted && interrupts > 0 {
        interrupts := interrupts - 1;
        return -1;
      }
      r := if 1 <= k <= |rest| && k <= buf.Length - n then k else if rest == [] then 0 else 1;
      forall i | 0 <= i < r {
        buf[n + i] := rest[i];
      }
      rest := rest[r..];
    }
  }

  /** `kmsg_line`: one line, in pieces. */
  method KmsgLine(out: Kmsg, buf: array<byte>, from: nat, len: nat)
    requires 0 < len && from + len <= buf.Length
    modifies out
    ensures out.failed || out.records == old(out.records) + Pieces(buf[from..from + len])
    ensures old(out.failed) ==> out.failed
  {
    var line, left := from, len;
    while left > 0
      invariant from <= line && 0 <= left && line + left == from + len
      invariant old(out.failed) ==> out.failed
      invariant out.failed || out.records + Pieces(buf[line..line + left]) == old(out.records) + Pieces(buf[from..from + len])
      decreases left
    {
      var take := if left < KMSG_CHUNK then left else KMSG_CHUNK;
      ghost var now := buf[line..line + left];
      var ok := out.Write(TAG + buf[line..line + take]);
      if !ok {
        return;
      }
      assert now[..take] == buf[line..line + take] && now[take..] == buf[line + take..line + left];
      line, left := line + take, left - take;
    }
  }

  /** With `done` written, the records of `pending` are what is left of `total`. */
  ghost predicate Owed(done: seq<seq<byte>>, pending: seq<byte>, total: seq<seq<byte>>) {
    done + Records(pending) == total
  }

  lemma OwedAfterLine(done: seq<seq<byte>>, b: seq<byte>, i: nat, rest: seq<byte>, total: seq<seq<byte>>)
    requires i < |b| && NL !in b[..i] && b[i] == NL && Owed(done, b + rest, total)
    ensures Owed(done + Pieces(b[..i]), b[i + 1..] + rest, total)
  {
    var line, more := b[..i], b[i + 1..] + rest;
    assert b + rest == line + ([NL] + more);
    FirstLine(line, [NL] + more);
    assert ([NL] + more)[1..] == more;
    Assoc(done, Pieces(line), Records(more));
  }

  /** The buffer holds a whole number of records. */
  lemma WholeRecords(b: seq<byte>)
    requires |b| == BUFFER
    ensures |b| % KMSG_CHUNK == 0
  {
  }

  lemma OwedAfterFlush(done: seq<seq<byte>>, b: seq<byte>, rest: seq<byte>, total: seq<seq<byte>>)
    requires NL !in b && |b| == BUFFER && Owed(done, b + rest, total)
    ensures Owed(done + Pieces(b), rest, total)
  {
    WholeRecords(b);
    FlushEarly(b, rest);
    Assoc(done, Pieces(b), Records(rest));
  }

  lemma OwedAtEnd(done: seq<seq<byte>>, b: seq<byte>, total: seq<seq<byte>>)
    requires NL !in b && Owed(done, b, total)
    ensures done + Pieces(b) == total
  {
    assert b + [] == b;
    FirstLine(b, []);
  }

  /** A newline at `i`: the line before it goes out, unless it is empty. */
  method FinishLine(out: Kmsg, buf: array<byte>, start: nat, i: nat, n: nat,
                    ghost rest: seq<byte>, ghost total: seq<seq<byte>>)
    requires start <= i < n <= buf.Length && NL !in buf[start..i] && buf[i] == NL
    requires out.failed || Owed(out.records, buf[start..n] + rest, total)
    modifies out
    ensures out.failed || Owed(out.records, buf[i + 1..n] + rest, total)
  {
    ghost var done, open := out.records, buf[start..n];
    assert open[..i - start] == buf[start..i] && open[i - start + 1..] == buf[i + 1..n];
    if !out.failed {
      OwedAfterLine(done, open, i - start, rest, total);
    }
    if i > start {
      KmsgLine(out, buf, start, i - start);
    } else {
      assert done + Pieces([]) == done;
    }
  }

  /** The scan after a read: every finished line in the first `n` bytes goes out, and
      the unfinished one starts at the result. `rest` is what is still to be read. */
  method FinishedLines(out: Kmsg, buf: array<byte>, n: nat, ghost rest: seq<byte>, ghost total: seq<seq<byte>>)
    returns (start: nat)
    requires n <= buf.Length
    requires out.failed || Owed(out.records, buf[..n] + rest, total)
    modifies out
    ensures start <= n && NL !in buf[start..n]
    ensures out.failed || Owed(out.records, buf[start..n] + rest, total)
  {
    start := 0;
    var i := 0;
    assert buf[..n] == buf[0..n];
    while i < n
      invariant 0 <= start <= i <= n && NL !in buf[start..i]
      invariant out.failed || Owed(out.records, buf[start..n] + rest, total)
    {
      if buf[i] == NL {
        FinishLine(out, buf, start, i, n, rest, total);
        start := i + 1;
      } else {
        assert buf[start..i + 1] == buf[start..i] + [buf[i]];
      }
      i := i + 1;
    }
  }

  /** What stays in the buffer: nothing after a full buffer without a newline has been
      flushed, else the unfinished line moved to the front. There is room again. */
  method KeepOpenLine(out: Kmsg, buf: array<byte>, n: nat, start: nat, ghost rest: seq<byte>, ghost total: seq<seq<byte>>)
    returns (n': nat)
    requires start <= n <= buf.Length == BUFFER && NL !in buf[start..n]
    requires out.failed || Owed(out.records, buf[start..n] + rest, total)
    modifies out, buf
    ensures n' < BUFFER && NL !in buf[..n']
    ensures out.failed || Owed(out.records, buf[..n'] + rest, total)
  {
    ghost var open := buf[start..n];
    if start == 0 && n == BUFFER {
      if !out.failed {
        OwedAfterFlush(out.records, open, rest, total);
      }
      KmsgLine(out, buf, 0, n);
      n' := 0;
      assert buf[..n'] + rest == rest;
    } else {
      forall i | 0 <= i < n - start {
        buf[i] := buf[start + i];
      }
      n' := n - start;
      assert buf[..n'] == open;
    }
  }

  /** `relay`. However the reads split the input and however often they are
      interrupted, the records written are those of the input. */
  method Relay(src: Pipe, out: Kmsg)
    modifies src, out
    ensures out.failed || out.records == old(out.records) + Records(old(src.rest))
  {
    var buf := new byte[BUFFER];
    var n: nat := 0;
    ghost var total := out.records + Records(src.rest);
    assert buf[..n] + src.rest == src.rest;
    while true
      invariant n < buf.Length == BUFFER && NL !in buf[..n] && fresh(buf)
      invariant out.failed || Owed(out.records, buf[..n] + src.rest, total)
      decreases |src.rest| + src.interrupts
    {
      ghost var held, unread := buf[..n], src.rest;
      var r := src.Read(buf, n);
      if r == -1 {
        assert buf[..n] == held;
        continue;
      }
      if r == 0 {
        assert buf[..n] == held && held + unread == held;
        if !out.failed {
          OwedAtEnd(out.records, held, total);
        }
        if n > 0 {
          KmsgLine(out, buf, 0, n);
        }
        return;
      }
      n := n + r;
      assert buf[..n] + src.rest == held + unread;
      var start := FinishedLines(out, buf, n, src.rest, total);
      n := KeepOpenLine(out, buf, n, start, src.rest, total);
    }
  }
}
