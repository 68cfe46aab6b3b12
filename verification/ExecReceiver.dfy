/** The controller's end of an exec stream, `recv_exec_output`. */
module ExecReceiver {
  import opened Prelude
  import opened Wire
  import opened Postcard

  /** Everything the frames carry for one of the two outputs, in order. */
  function BytesOf(frames: seq<ExecFrame>, stdout: bool): seq<byte> {
    if frames == [] then []
    else BytesOf(frames[..|frames| - 1], stdout) + Payload(frames[|frames| - 1], stdout)
  }

  function Payload(f: ExecFrame, stdout: bool): seq<byte> {
    if (if stdout then f.Stdout? else f.Stderr?) then f.bytes else []
  }

  /** The status of the last `Exit` frame. */
  function ExitOf(frames: seq<ExecFrame>): Option<i32> {
    if frames == [] then None
    else if frames[|frames| - 1].Exit? then Some(frames[|frames| - 1].code)
    else ExitOf(frames[..|frames| - 1])
  }

  predicate HasFailure(frames: seq<ExecFrame>) {
    exists i :: 0 <= i < |frames| && frames[i].Failure?
  }

  function Volume(frames: seq<ExecFrame>): nat {
    |BytesOf(frames, true)| + |BytesOf(frames, false)|
  }

  datatype ExecResult = Ok(code: i32) | Err

  /** What a whole stream amounts to: its frames, and whether it ended cleanly. */
  function Verdict(frames: seq<ExecFrame>, clean: bool, max: nat): ExecResult {
    if clean && !HasFailure(frames) && Volume(frames) <= max && ExitOf(frames).Some?
    then Ok(ExitOf(frames).value)
    else Err
  }

  lemma {:induction false} BytesOfConcat(a: seq<ExecFrame>, b: seq<ExecFrame>, stdout: bool)
    ensures BytesOf(a + b, stdout) == BytesOf(a, stdout) + BytesOf(b, stdout)
  {
    if b == [] {
      assert a + b == a;
    } else {
      var init, p := b[..|b| - 1], Payload(b[|b| - 1], stdout);
      assert (a + b)[..|a + b| - 1] == a + init;
      calc {
        BytesOf(a + b, stdout);
        BytesOf(a + init, stdout) + p;
        { BytesOfConcat(a, init, stdout); }
        BytesOf(a, stdout) + BytesOf(init, stdout) + p;
        BytesOf(a, stdout) + (BytesOf(init, stdout) + p);
      }
    }
  }

  lemma BytesOfAppend(a: seq<ExecFrame>, f: ExecFrame, stdout: bool)
    ensures BytesOf(a + [f], stdout) == BytesOf(a, stdout) + Payload(f, stdout)
  {
    assert (a + [f])[..|a|] == a;
  }

  /** `done` has been consumed out of `frames`, `f` is next. */
  lemma Charged(done: seq<ExecFrame>, f: ExecFrame, rest: seq<ExecFrame>, frames: seq<ExecFrame>)
    requires frames == done + ([f] + rest)
    ensures Volume(done + [f]) == Volume(done) + |Payload(f, true)| + |Payload(f, false)| <= Volume(frames)
    ensures BytesOf(done + [f], true) == BytesOf(done, true) + Payload(f, true) <= BytesOf(frames, true)
    ensures BytesOf(done + [f], false) == BytesOf(done, false) + Payload(f, false) <= BytesOf(frames, false)
    ensures frames == done + [f] + rest
    ensures f.Failure? ==> HasFailure(frames)
    ensures ExitOf(done + [f]) == if f.Exit? then Some(f.code) else ExitOf(done)
    ensures !HasFailure(done) && !f.Failure? ==> !HasFailure(done + [f])
  {
    assert frames == done + [f] + rest;
    assert frames[|done|] == f;
    assert (done + [f])[..|done|] == done;
    BytesOfConcat(done + [f], rest, true);
    BytesOfConcat(done + [f], rest, false);
  }

  /** A sink that held `was` and was then given no more than a prefix of `arrived`. */
  ghost predicate Fed(was: seq<byte>, now: seq<byte>, arrived: seq<byte>) {
    was <= now <= was + arrived
  }

  lemma FedMore(was: seq<byte>, mid: seq<byte>, now: seq<byte>, done: seq<byte>, more: seq<byte>, all: seq<byte>)
    requires mid == was + done && Fed(mid, now, more) && done + more <= all
    ensures Fed(was, now, all)
    ensures now == mid + more ==> now == was + (done + more)
    ensures |now| - |was| <= |done| + |more|
  {
    assert now == was + (done + now[|mid|..]);
    assert now[|mid|..] <= more;
  }

  /** Writes a frame's payload to the sink it is for. `done` has been delivered out
      of `frames` to sinks that held `o` and `e` before it. */
  method Deliver(f: ExecFrame, out: Sink, err: Sink,
                 ghost done: seq<ExecFrame>, ghost frames: seq<ExecFrame>, ghost o: seq<byte>, ghost e: seq<byte>)
    returns (ok: bool)
    requires out != err
    requires out.data == o + BytesOf(done, true) && err.data == e + BytesOf(done, false)
    requires BytesOf(done, true) + Payload(f, true) <= BytesOf(frames, true)
    requires BytesOf(done, false) + Payload(f, false) <= BytesOf(frames, false)
    modifies out, err
    ensures ok ==> out.data == o + (BytesOf(done, true) + Payload(f, true))
    ensures ok ==> err.data == e + (BytesOf(done, false) + Payload(f, false))
    ensures !ok ==> out.broken || err.broken
    ensures Fed(o, out.data, BytesOf(frames, true)) && Fed(e, err.data, BytesOf(frames, false))
    ensures |out.data| - |o| + |err.data| - |e| <= Volume(done) + |Payload(f, true)| + |Payload(f, false)|
  {
    ok := true;
    ghost var o', e' := out.data, err.data;
    if f.Stdout? {
      ok := out.WriteAll(f.bytes);
    } else if f.Stderr? {
      ok := err.WriteAll(f.bytes);
    }
    FedMore(o, o', out.data, BytesOf(done, true), Payload(f, true), BytesOf(frames, true));
    FedMore(e, e', err.data, BytesOf(done, false), Payload(f, false), BytesOf(frames, false));
  }

  /** Everything the receiving loop knows after consuming `done` out of `frames`. */
  ghost predicate Consumed(done: seq<ExecFrame>, frames: seq<ExecFrame>, got: nat, max: nat, code: Option<i32>) {
    && got == Volume(done) <= max
    && code == ExitOf(done)
    && !HasFailure(done)
    && BytesOf(done, true) <= BytesOf(frames, true)
    && BytesOf(done, false) <= BytesOf(frames, false)
  }

  /** Charges one frame against the ceiling and delivers it. Stopping early without
      a broken sink means no verdict but `Err` is possible. */
  method TakeFrame(f: ExecFrame, out: Sink, err: Sink, got: nat, max: nat, code: Option<i32>,
                   ghost done: seq<ExecFrame>, ghost rest: seq<ExecFrame>, ghost frames: seq<ExecFrame>,
                   ghost o: seq<byte>, ghost e: seq<byte>)
    returns (ok: bool, got': nat, code': Option<i32>)
    requires out != err
    requires frames == done + ([f] + rest) && Consumed(done, frames, got, max, code)
    requires out.data == o + BytesOf(done, true) && err.data == e + BytesOf(done, false)
    modifies out, err
    ensures ok ==> frames == done + [f] + rest && Consumed(done + [f], frames, got', max, code')
    ensures ok ==> out.data == o + BytesOf(done + [f], true) && err.data == e + BytesOf(done + [f], false)
    ensures !ok && !out.broken && !err.broken ==> HasFailure(frames) || Volume(frames) > max
    ensures Fed(o, out.data, BytesOf(frames, true)) && Fed(e, err.data, BytesOf(frames, false))
    ensures |out.data| - |o| + |err.data| - |e| <= max
  {
    Charged(done, f, rest, frames);
    got', code' := got, code;
    if f.Stdout? || f.Stderr? {
      got' := got + |f.bytes|;
      if got' > max {
        return false, got', code';
      }
    }
    if f.Failure? {
      return false, got', code';
    }
    if f.Exit? {
      code' := Some(f.code);
    }
    ok := Deliver(f, out, err, done, frames, o, e);
  }

  /** `recv_exec_output`. Whatever happens, the sinks hold a prefix of what arrived
      and together never more than `max` bytes. `Ok` means the stream's verdict is
      that status and both outputs landed whole; with unbroken sinks the result is
      exactly the verdict. */
  method RecvExecOutput(r: Reader, c: Codec<ExecFrame>, out: Sink, err: Sink, max: nat) returns (res: ExecResult)
    requires out != err
    modifies r, out, err
    ensures var (frames, clean) := ReadAll(c, old(r.rest), r.tail);
            && Fed(old(out.data), out.data, BytesOf(frames, true))
            && Fed(old(err.data), err.data, BytesOf(frames, false))
            && |out.data| - |old(out.data)| + |err.data| - |old(err.data)| <= max
            && (res.Ok? ==> res == Verdict(frames, clean, max))
            && (res.Ok? ==> out.data == old(out.data) + BytesOf(frames, true))
            && (res.Ok? ==> err.data == old(err.data) + BytesOf(frames, false))
            && (!out.broken && !err.broken ==> res == Verdict(frames, clean, max))
  {
    var code: Option<i32>, got := None, 0;
    ghost var frames, clean := ReadAll(c, r.rest, r.tail).0, ReadAll(c, r.rest, r.tail).1;
    ghost var done: seq<ExecFrame> := [];
    while true
      invariant ReadAll(c, old(r.rest), r.tail) == (frames, clean)
      invariant frames == done + ReadAll(c, r.rest, r.tail).0 && clean == ReadAll(c, r.rest, r.tail).1
      invariant Consumed(done, frames, got, max, code)
      invariant out.data == old(out.data) + BytesOf(done, true)
      invariant err.data == old(err.data) + BytesOf(done, false)
      decreases |r.rest|
    {
      var next := ReadMsgOpt(r, c);
      if next.Failed? {
        return Err;
      }
      if next.NoMore? {
        assert frames == done;
        break;
      }
      ghost var rest := ReadAll(c, r.rest, r.tail).0;
      var ok;
      ok, got, code := TakeFrame(next.m, out, err, got, max, code, done, rest, frames, old(out.data), old(err.data));
      if !ok {
        return Err;
      }
      done := done + [next.m];
    }
    var ok := out.Flush();
    if ok {
      ok := err.Flush();
    }
    res := if ok && code.Some? then Ok(code.value) else Err;
  }
}
