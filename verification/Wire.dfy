/** The framed message stream of src/proto.rs: a four-byte little-endian length,
    then a postcard body. The body format is a parameter (`Codec`), so every result
    about framing holds for every message type. */
module Wire {
  import opened Prelude

  const MAX_MSG: nat := 0x10_0000

  datatype Codec<!T> = Codec(encode: T -> seq<byte>, decode: seq<byte> -> Option<T>)

  /** `write_msg` refuses a message whose body is longer than `MAX_MSG`. */
  predicate Accepts<T>(c: Codec<T>, m: T) {
    |c.encode(m)| <= MAX_MSG
  }

  ghost predicate AcceptsAll<T>(c: Codec<T>, ms: seq<T>) {
    forall i :: 0 <= i < |ms| ==> Accepts(c, ms[i])
  }

  /** What a body codec owes the framing: accepted messages decode to themselves. */
  ghost predicate Faithful<T(!new)>(c: Codec<T>) {
    forall m :: Accepts(c, m) ==> c.decode(c.encode(m)) == Some(m)
  }

  function Le32(n: nat): seq<byte>
    requires n < 0x1_0000_0000
  {
    [n % 0x100, n / 0x100 % 0x100, n / 0x1_0000 % 0x100, n / 0x100_0000]
  }

  function FromLe32(s: seq<byte>): nat
    requires |s| == 4
  {
    s[0] as int + 0x100 * (s[1] as int) + 0x1_0000 * (s[2] as int) + 0x100_0000 * (s[3] as int)
  }

  function Frame<T>(c: Codec<T>, m: T): seq<byte>
    requires Accepts(c, m)
  {
    Le32(|c.encode(m)|) + c.encode(m)
  }

  function EncodeAll<T>(c: Codec<T>, ms: seq<T>): seq<byte>
    requires AcceptsAll(c, ms)
  {
    if ms == [] then [] else Frame(c, ms[0]) + EncodeAll(c, ms[1..])
  }

  /** What the transport reports once its bytes run out. */
  datatype Tail = Eof | Reset

  datatype ReadResult<T> = Msg(m: T, rest: seq<byte>) | CleanEnd | ReadError

  /** One `read_msg_opt`. An end of file inside the length header is a clean end. */
  function ReadOne<T>(c: Codec<T>, s: seq<byte>, tail: Tail): ReadResult<T> {
    if |s| < 4 then
      if tail == Eof then CleanEnd else ReadError
    else
      var len := FromLe32(s[..4]);
      if len > MAX_MSG || |s| < 4 + len then ReadError
      else match c.decode(s[4..4 + len])
        case None => ReadError
        case Some(m) => Msg(m, s[4 + len..])
  }

  /** Repeated reads: the messages, and whether the stream ended cleanly. */
  function ReadAll<T>(c: Codec<T>, s: seq<byte>, tail: Tail): (seq<T>, bool)
    decreases |s|
  {
    match ReadOne(c, s, tail)
    case CleanEnd => ([], true)
    case ReadError => ([], false)
    case Msg(m, rest) =>
      var (ms, clean) := ReadAll(c, rest, tail);
      ([m] + ms, clean)
  }

  lemma Le32RoundTrip(n: nat)
    requires n < 0x1_0000_0000
    ensures FromLe32(Le32(n)) == n
  {
    assert n == n % 0x100 + 0x100 * (n / 0x100);
    assert n / 0x100 == n / 0x100 % 0x100 + 0x100 * (n / 0x1_0000);
    assert n / 0x1_0000 == n / 0x1_0000 % 0x100 + 0x100 * (n / 0x100_0000);
  }

  /** How many of the frames are complete in the first `k` bytes. */
  function Complete<T>(c: Codec<T>, ms: seq<T>, k: nat): (j: nat)
    requires AcceptsAll(c, ms)
    ensures j <= |ms|
  {
    if ms == [] || k < |Frame(c, ms[0])| then 0
    else 1 + Complete(c, ms[1..], k - |Frame(c, ms[0])|)
  }

  /** The bytes of the cut that belong to no complete frame. */
  function Leftover<T>(c: Codec<T>, ms: seq<T>, k: nat): nat
    requires AcceptsAll(c, ms)
  {
    if ms == [] || k < |Frame(c, ms[0])| then k
    else Leftover(c, ms[1..], k - |Frame(c, ms[0])|)
  }

  /** `Complete` is the index of the frame that the cut falls into, and `Leftover`
      is how far into it. */
  lemma {:induction false} CompleteIsTheCut<T>(c: Codec<T>, ms: seq<T>, k: nat)
    requires AcceptsAll(c, ms)
    ensures var j := Complete(c, ms, k);
            && |EncodeAll(c, ms[..j])| + Leftover(c, ms, k) == k
            && (j < |ms| ==> Leftover(c, ms, k) < |Frame(c, ms[j])|)
  {
    if ms != [] && |Frame(c, ms[0])| <= k {
      var j := Complete(c, ms, k);
      CompleteIsTheCut(c, ms[1..], k - |Frame(c, ms[0])|);
      assert ms[..j][1..] == ms[1..][..j - 1];
    }
  }

  /** One frame at the front of a stream, whole or cut. */
  lemma ReadOneFrame<T(!new)>(c: Codec<T>, m: T, rest: seq<byte>, k: nat, tail: Tail)
    requires Faithful(c) && Accepts(c, m)
    requires k <= |Frame(c, m) + rest|
    ensures var got := ReadOne(c, (Frame(c, m) + rest)[..k], tail);
            if |Frame(c, m)| <= k then got == Msg(m, rest[..k - |Frame(c, m)|])
            else if k < 4 && tail == Eof then got == CleanEnd
            else got == ReadError
  {
    var body := c.encode(m);
    var s := (Frame(c, m) + rest)[..k];
    if 4 <= k {
      Le32RoundTrip(|body|);
      assert s[..4] == Le32(|body|);
      if |Frame(c, m)| <= k {
        assert s == Le32(|body|) + (body + rest[..k - |Frame(c, m)|]);
        assert s[4..4 + |body|] == body;
        assert s[4 + |body|..] == rest[..k - |Frame(c, m)|];
      }
    }
  }

  /** The same one step up: what the first frame contributes to `ReadAll`. */
  lemma ReadAllFrame<T(!new)>(c: Codec<T>, m: T, rest: seq<byte>, k: nat, tail: Tail)
    requires Faithful(c) && Accepts(c, m)
    requires k <= |Frame(c, m) + rest|
    ensures var got := ReadAll(c, (Frame(c, m) + rest)[..k], tail);
            if |Frame(c, m)| <= k then
              var more := ReadAll(c, rest[..k - |Frame(c, m)|], tail);
              got == ([m] + more.0, more.1)
            else got == ([], tail == Eof && k < 4)
  {
    ReadOneFrame(c, m, rest, k, tail);
  }

  /** Cut an encoded sequence of messages after any number of bytes: the reader
      yields exactly the messages whose frames are complete, and ends cleanly exactly
      when the transport said end of file and fewer than four header bytes were left. */
  lemma {:induction false} ReadBackPrefix<T(!new)>(c: Codec<T>, ms: seq<T>, k: nat, tail: Tail)
    requires Faithful(c) && AcceptsAll(c, ms)
    requires k <= |EncodeAll(c, ms)|
    ensures ReadAll(c, EncodeAll(c, ms)[..k], tail)
            == (ms[..Complete(c, ms, k)], tail == Eof && Leftover(c, ms, k) < 4)
  {
    if ms == [] {
      assert EncodeAll(c, ms)[..k] == [];
      assert ReadOne(c, [], tail) == if tail == Eof then CleanEnd else ReadError;
    } else {
      ReadAllFrame(c, ms[0], EncodeAll(c, ms[1..]), k, tail);
      if |Frame(c, ms[0])| <= k {
        ReadBackPrefix(c, ms[1..], k - |Frame(c, ms[0])|, tail);
        TakeCons(ms, Complete(c, ms, k));
      }
    }
  }

  /** The uncut stream reads back identically. */
  lemma {:induction false} ReadBack<T(!new)>(c: Codec<T>, ms: seq<T>)
    requires Faithful(c) && AcceptsAll(c, ms)
    ensures ReadAll(c, EncodeAll(c, ms), Eof) == (ms, true)
  {
    var k := |EncodeAll(c, ms)|;
    ReadBackPrefix(c, ms, k, Eof);
    CompleteWhenWhole(c, ms);
    assert EncodeAll(c, ms)[..k] == EncodeAll(c, ms);
    assert ms[..|ms|] == ms;
  }

  lemma {:induction false} CompleteWhenWhole<T>(c: Codec<T>, ms: seq<T>)
    requires AcceptsAll(c, ms)
    ensures Complete(c, ms, |EncodeAll(c, ms)|) == |ms|
    ensures Leftover(c, ms, |EncodeAll(c, ms)|) == 0
  {
    if ms != [] {
      CompleteWhenWhole(c, ms[1..]);
    }
  }

  lemma {:induction false} EncodeAllAppend<T>(c: Codec<T>, ms: seq<T>, m: T)
    requires AcceptsAll(c, ms) && Accepts(c, m)
    ensures AcceptsAll(c, ms + [m])
    ensures EncodeAll(c, ms + [m]) == EncodeAll(c, ms) + Frame(c, m)
  {
    if ms == [] {
      assert [m][1..] == [];
    } else {
      EncodeAllAppend(c, ms[1..], m);
      assert (ms + [m])[1..] == ms[1..] + [m];
    }
  }

  lemma TakeOfBoth(a: seq<byte>, b: seq<byte>, t: nat, k: nat)
    requires t <= |b| && k <= |a| + t
    ensures (a + b[..t])[..k] == (a + b)[..k]
  {
  }

  lemma CutShort<T>(c: Codec<T>, ms: seq<T>, k: nat)
    requires AcceptsAll(c, ms) && k < |EncodeAll(c, ms)|
    ensures Complete(c, ms, k) < |ms|
  {
    CompleteIsTheCut(c, ms, k);
    assert ms[..|ms|] == ms;
  }

  lemma PrefixOfBoth<T>(ms: seq<T>, m: T, j: nat)
    requires j <= |ms|
    ensures (ms + [m])[..j] <= ms
  {
  }

  /** Whole frames followed by part of one more, cut anywhere: the reader yields a
      prefix of the whole ones. */
  lemma ReadTorn<T(!new)>(c: Codec<T>, ms: seq<T>, m: T, t: nat, k: nat, tail: Tail)
    requires Faithful(c) && AcceptsAll(c, ms) && Accepts(c, m)
    requires t < |Frame(c, m)| && k <= |EncodeAll(c, ms)| + t
    ensures ReadAll(c, (EncodeAll(c, ms) + Frame(c, m)[..t])[..k], tail).0 <= ms
  {
    EncodeAllAppend(c, ms, m);
    TakeOfBoth(EncodeAll(c, ms), Frame(c, m), t, k);
    ReadBackPrefix(c, ms + [m], k, tail);
    CutShort(c, ms + [m], k);
    PrefixOfBoth(ms, m, Complete(c, ms + [m], k));
  }

  /** A byte stream being read: `rest` has not been consumed yet, and `tail` is what
      the transport says when it is. */
  class Reader {
    var rest: seq<byte>
    const tail: Tail

    constructor (bytes: seq<byte>, tail: Tail)
      ensures rest == bytes && this.tail == tail
    {
      rest := bytes;
      this.tail := tail;
    }

    /** `read_exact`: `None` when the stream ends first, with all of it consumed. */
    method ReadExact(n: nat) returns (got: Option<seq<byte>>)
      modifies this
      ensures n <= |old(rest)| ==> got == Some(old(rest)[..n]) && rest == old(rest)[n..]
      ensures n > |old(rest)| ==> got == None && rest == []
    {
      if n <= |rest| {
        got := Some(rest[..n]);
        rest := rest[n..];
      } else {
        got := None;
        rest := [];
      }
    }
  }

  /** A byte sink: a write either lands whole or breaks the sink after some prefix. */
  class Sink {
    var data: seq<byte>
    var broken: bool

    constructor ()
      ensures data == [] && !broken
    {
      data := [];
      broken := false;
    }

    method WriteAll(b: seq<byte>) returns (ok: bool)
      modifies this
      ensures ok ==> data == old(data) + b && broken == old(broken)
      ensures !ok ==> broken && old(data) <= data <= old(data) + b
    {
      if * {
        var k :| 0 <= k <= |b|;
        data := data + b[..k];
        broken := true;
        ok := false;
      } else {
        data := data + b;
        ok := true;
      }
    }

    method Flush() returns (ok: bool)
      modifies this
      ensures data == old(data)
      ensures broken == (old(broken) || !ok)
    {
      ok := *;
      broken := broken || !ok;
    }
  }

  datatype MsgOpt<T> = Got(m: T) | NoMore | Failed

  /** `read_msg_opt` over a stream is `ReadOne` over its unread bytes. */
  method ReadMsgOpt<T>(r: Reader, c: Codec<T>) returns (res: MsgOpt<T>)
    modifies r
    ensures match ReadOne(c, old(r.rest), r.tail)
            case Msg(m, rest) => res == Got(m) && r.rest == rest
            case CleanEnd => res == NoMore
            case ReadError => res == Failed
    ensures res.Got? ==> |r.rest| < |old(r.rest)|
  {
    var header := r.ReadExact(4);
    if header == None {
      return if r.tail == Eof then NoMore else Failed;
    }
    var len := FromLe32(header.value);
    if len > MAX_MSG {
      return Failed;
    }
    var body := r.ReadExact(len);
    if body == None {
      return Failed;
    }
    ghost var s := old(r.rest);
    assert s[4..][..len] == s[4..4 + len];
    assert s[4..][len..] == s[4 + len..];
    match c.decode(body.value)
    case None => res := Failed;
    case Some(m) => res := Got(m);
  }

  /** `write_msg` puts exactly one frame on the stream; a message it refuses puts
      nothing, and a failure leaves at most a prefix of the frame. */
  method WriteMsg<T>(w: Sink, c: Codec<T>, m: T) returns (ok: bool)
    modifies w
    ensures !Accepts(c, m) ==> !ok && w.data == old(w.data) && w.broken == old(w.broken)
    ensures ok ==> Accepts(c, m) && w.data == old(w.data) + Frame(c, m)
    ensures !ok && Accepts(c, m) ==> w.broken && old(w.data) <= w.data <= old(w.data) + Frame(c, m)
  {
    var body := c.encode(m);
    if |body| > MAX_MSG {
      return false;
    }
    ok := w.WriteAll(Le32(|body|));
    if !ok {
      return;
    }
    assert Accepts(c, m);
    ok := w.WriteAll(body);
    assert old(w.data) + Le32(|body|) + body == old(w.data) + Frame(c, m);
    if !ok {
      return;
    }
    ok := w.Flush();
  }
}
