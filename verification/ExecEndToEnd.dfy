/** What the receiver of an exec stream may conclude, in every interleaving of the
    agent's tasks and wherever the stream is cut. */
module ExecEndToEnd {
  import opened Prelude
  import opened Wire
  import opened Postcard
  import opened ExecReceiver
  import opened ExecPipeline
  import opened ExecHistory

  /** The frames that were written whole. */
  function Sent(s: State): seq<ExecFrame> {
    s.core.data + s.trailer
  }

  lemma SentAccepted(s: State)
    requires Inv(s)
    ensures AcceptsAll(EXEC, Sent(s))
  {
    forall i | 0 <= i < |Sent(s)|
      ensures Accepts(EXEC, Sent(s)[i])
    {
      var f := Sent(s)[i];
      if i < |s.core.data| {
        assert IsData(f);
        ExecAccepts(f);
      } else if !IsRefusal(s.trailer) {
        assert f == Truncated || f.Exit?;
        ExecAccepts(f);
      }
    }
  }

  /** Every byte that reached the stream: whole frames, then perhaps part of one. */
  ghost function OnWire(s: State): seq<byte>
    requires AcceptsAll(EXEC, Sent(s))
  {
    EncodeAll(EXEC, Sent(s)) + (if s.torn.Some? then Frame(EXEC, s.torn.value.frame)[..s.torn.value.k] else [])
  }

  /** The frames read off any prefix of the stream are a prefix of those sent. */
  lemma ReceivedPrefix(s: State, k: nat, tail: Tail)
    requires AcceptsAll(EXEC, Sent(s)) && k <= |OnWire(s)|
    ensures ReadAll(EXEC, OnWire(s)[..k], tail).0 <= Sent(s)
  {
    ExecFaithful();
    if s.torn.None? {
      assert OnWire(s) == EncodeAll(EXEC, Sent(s));
      ReadBackPrefix(EXEC, Sent(s), k, tail);
    } else {
      ReadTorn(EXEC, Sent(s), s.torn.value.frame, s.torn.value.k, k, tail);
    }
  }

  lemma {:induction false} ExitIsThere(frames: seq<ExecFrame>)
    requires ExitOf(frames).Some?
    ensures exists i :: 0 <= i < |frames| && frames[i] == Exit(ExitOf(frames).value)
  {
    if !frames[|frames| - 1].Exit? {
      ExitIsThere(frames[..|frames| - 1]);
    }
  }

  /** The main task has written the child's status, and nothing can follow it. */
  predicate HasExit(s: State) {
    && Reported(s)
    && (|| s.trailer == [Exit(ExitCode(s.status.value))]
        || s.trailer == [Truncated, Exit(ExitCode(s.status.value))])
  }

  lemma ExitAt(s: State, i: nat)
    requires Inv(s) && i < |Sent(s)| && Sent(s)[i].Exit?
    ensures HasExit(s) && i == |Sent(s)| - 1 && Sent(s)[i].code == ExitCode(s.status.value)
  {
    assert i < |s.core.data| ==> IsData(s.core.data[i]);
    assert Sent(s)[i] == s.trailer[i - |s.core.data|];
  }

  lemma {:induction false} NoPayload(frames: seq<ExecFrame>, more: seq<ExecFrame>, b: bool)
    requires forall i :: 0 <= i < |more| ==> !more[i].Stdout? && !more[i].Stderr?
    ensures BytesOf(frames + more, b) == BytesOf(frames, b)
  {
    if more == [] {
      assert frames + more == frames;
    } else {
      NoPayload(frames, more[..|more| - 1], b);
      assert (frames + more)[..|frames + more| - 1] == frames + more[..|more| - 1];
    }
  }

  lemma SentBytes(s: State, b: bool)
    requires HasExit(s) && s.core.chan == []
    ensures BytesOf(Sent(s), b) == BytesOf(s.core.data, b) == BytesOf(Flow(s.core), b)
  {
    NoPayload(s.core.data, s.trailer, b);
    assert Flow(s.core) == s.core.data;
  }

  /** `bytes` is all the pump ever read, and it stopped at end of file (so that is all
      that was ever written) or at a read error. */
  predicate Whole(side: Side, bytes: seq<byte>) {
    && bytes == side.got
    && (|| (side.pump == Done(SawEof) && side.closed && side.got == side.written)
        || side.pump == Done(SawError))
  }

  /** Once a status is out, the flow is exactly what was sent, side by side. */
  lemma SideMeans(s: State, b: bool)
    requires CoreInv(s.core) && HasExit(s)
    ensures BytesOf(Sent(s), b) <= Of(s.core, b).got <= Of(s.core, b).written
    ensures Of(s.core, b).pump.Done? ==> Whole(Of(s.core, b), BytesOf(Sent(s), b))
  {
    SentBytes(s, b);
    var side := Of(s.core, b);
    assert SideInv(s.core, b);
    assert side.pump.Done? ==> side.pump.why == SawEof || side.pump.why == SawError;
  }

  lemma TruncatedOrDone(s: State)
    requires TaskInv(s) && HasExit(s)
    ensures Truncated in Sent(s) || (s.core.out.pump.Done? && s.core.err.pump.Done?)
  {
    if |s.trailer| == 2 {
      assert Sent(s)[|s.core.data|] == Truncated;
    }
    assert EndInv(s);
  }

  /** What reading an exit status off a prefix of the frames proves. */
  lemma ExitMeans(s: State, frames: seq<ExecFrame>)
    requires Inv(s) && frames <= Sent(s) && ExitOf(frames).Some?
    ensures frames == Sent(s) && HasExit(s)
    ensures ExitOf(frames).value == ExitCode(s.status.value)
  {
    ExitIsThere(frames);
    var i :| 0 <= i < |frames| && frames[i] == Exit(ExitOf(frames).value);
    ExitAt(s, i);
  }

  /** The stream a run has produced so far. */
  ghost function StreamOf(steps: seq<Step>): seq<byte>
    requires After(steps).Some?
  {
    RunKeepsInv(steps);
    SentAccepted(After(steps).value);
    OnWire(After(steps).value)
  }

  /** `bytes` is everything that was written to the pipe before it was closed; or its
      pump met a read error, and they are everything it had read. */
  ghost predicate Complete(steps: seq<Step>, s: State, b: bool, bytes: seq<byte>) {
    || (bytes == WrittenBy(steps, b) && OnSide(b, PipeClose) in steps)
    || (bytes == Of(s.core, b).got && OnSide(b, PumpError) in steps)
  }

  /** The status the child exited with in this run: its code, or 128 and the signal. */
  ghost predicate ChildStatus(steps: seq<Step>, code: int) {
    || (exists c :: OnMain(ChildExits(Exited(c))) in steps && code == c)
    || (exists n :: 0 <= n < 128 && OnMain(ChildExits(Signaled(n))) in steps && code == 128 + n)
  }

  lemma StatusTold(steps: seq<Step>, s: State)
    requires After(steps) == Some(s) && s.status.Some?
    ensures ChildStatus(steps, ExitCode(s.status.value))
  {
    MainTold(steps);
    match s.status.value
    case Exited(c) => assert OnMain(ChildExits(Exited(c))) in steps;
    case Signaled(n) => assert OnMain(ChildExits(Signaled(n))) in steps;
  }

  lemma SideToldWhole(steps: seq<Step>, s: State, b: bool, bytes: seq<byte>)
    requires After(steps) == Some(s) && Whole(Of(s.core, b), bytes)
    ensures Complete(steps, s, b, bytes)
  {
    SideTold(steps, b);
  }

  /** The central claim about exec. Take any run, cut its stream after any byte, let
      the transport end it cleanly or not: if the receiver accepts, the status is the
      child's, each output is a prefix of what was written to the child's pipe, and
      unless a `Truncated` frame arrived each output is complete. */
  lemma OkMeans(steps: seq<Step>, s: State, k: nat, tail: Tail, max: nat, frames: seq<ExecFrame>, clean: bool)
    requires After(steps) == Some(s) && k <= |StreamOf(steps)|
    requires ReadAll(EXEC, StreamOf(steps)[..k], tail) == (frames, clean)
    requires Verdict(frames, clean, max).Ok?
    ensures ChildStatus(steps, Verdict(frames, clean, max).code)
    ensures BytesOf(frames, true) <= s.core.out.got <= WrittenBy(steps, true)
    ensures BytesOf(frames, false) <= s.core.err.got <= WrittenBy(steps, false)
    ensures |BytesOf(frames, true)| + |BytesOf(frames, false)| <= max
    ensures Truncated !in frames ==> Complete(steps, s, true, BytesOf(frames, true))
    ensures Truncated !in frames ==> Complete(steps, s, false, BytesOf(frames, false))
  {
    RunKeepsInv(steps);
    SentAccepted(s);
    ReceivedPrefix(s, k, tail);
    ExitMeans(s, frames);
    StatusTold(steps, s);
    SideMeans(s, true);
    SideMeans(s, false);
    SideTold(steps, true);
    SideTold(steps, false);
    TruncatedOrDone(s);
    if Truncated !in frames {
      SideToldWhole(steps, s, true, BytesOf(frames, true));
      SideToldWhole(steps, s, false, BytesOf(frames, false));
    }
  }

  /** The same of the code: the receiver run on any prefix of the stream of any run. What
      it put into its sinks is `o` and `e`, and `frames` is what arrived. */
  method ReceiveRun(ghost steps: seq<Step>, ghost s: State, bytes: seq<byte>, tail: Tail, out: Sink, err: Sink, max: nat)
    returns (res: ExecResult, ghost o: seq<byte>, ghost e: seq<byte>, ghost frames: seq<ExecFrame>)
    requires out != err && After(steps) == Some(s) && bytes <= StreamOf(steps)
    modifies out, err
    ensures frames == ReadAll(EXEC, bytes, tail).0
    ensures out.data == old(out.data) + o && err.data == old(err.data) + e && |o| + |e| <= max
    ensures o <= BytesOf(frames, true) && e <= BytesOf(frames, false)
    ensures res.Ok? ==> ChildStatus(steps, res.code)
    ensures res.Ok? ==> o <= s.core.out.got <= WrittenBy(steps, true) && e <= s.core.err.got <= WrittenBy(steps, false)
    ensures res.Ok? && Truncated !in frames ==> Complete(steps, s, true, o) && Complete(steps, s, false, e)
  {
    ghost var (got, clean) := ReadAll(EXEC, bytes, tail);
    frames := got;
    var r := new Reader(bytes, tail);
    res := RecvExecOutput(r, EXEC, out, err, max);
    o, e := out.data[|old(out.data)|..], err.data[|old(err.data)|..];
    if res.Ok? {
      assert bytes == StreamOf(steps)[..|bytes|];
      OkMeans(steps, s, |bytes|, tail, max, frames, clean);
    }
  }

  lemma NoRefusal(s: State)
    requires AllData(s.core.data) && HasExit(s)
    ensures !HasFailure(Sent(s)) && ExitOf(Sent(s)) == Some(ExitCode(s.status.value))
  {
    forall i | 0 <= i < |Sent(s)|
      ensures !Sent(s)[i].Failure?
    {
      assert i < |s.core.data| ==> IsData(s.core.data[i]);
    }
    assert Sent(s)[|Sent(s)| - 1] == s.trailer[|s.trailer| - 1];
  }

  /** The other direction: once the whole stream has arrived, the receiver accepts
      exactly when the agent reported a status and the outputs fit under the ceiling. */
  lemma OkWhen(steps: seq<Step>, s: State, max: nat)
    requires After(steps) == Some(s) && s.torn == None
    ensures ReadAll(EXEC, StreamOf(steps), Eof) == (Sent(s), true)
    ensures Verdict(Sent(s), true, max).Ok? <==> HasExit(s) && Volume(Sent(s)) <= max
  {
    RunKeepsInv(steps);
    SentAccepted(s);
    ExecFaithful();
    assert OnWire(s) == EncodeAll(EXEC, Sent(s));
    ReadBack(EXEC, Sent(s));
    if ExitOf(Sent(s)).Some? {
      ExitMeans(s, Sent(s));
    }
    if HasExit(s) {
      NoRefusal(s);
    }
  }

  /** What broke in the middle was output, or the frame the main task had to write next. */
  ghost predicate TornOk(s: State) {
    s.torn.Some? ==>
      var f := s.torn.value.frame;
      || IsData(f)
      || (s.main.Ended? && f == Truncated && s.trailer == [])
      || (s.main.Ended? && s.status.Some? && f == Exit(ExitCode(s.status.value))
          && (s.trailer == [Truncated] || !s.core.abort))
  }

  lemma {:induction false} TornTold(steps: seq<Step>)
    requires After(steps).Some?
    ensures TornOk(After(steps).value)
  {
    if steps != [] {
      TornTold(steps[..|steps| - 1]);
      RunKeepsInv(steps[..|steps| - 1]);
      TornStep(After(steps[..|steps| - 1]).value, steps[|steps| - 1]);
    }
  }

  lemma TornStep(s: State, step: Step)
    requires TornOk(s) && Enabled(s, step) && AllData(Held(s.core.writer))
    requires s.main.Reporting? ==> s.trailer == [] && (s.main.cut || !s.core.abort)
    requires s.main.Closing? ==> s.trailer == [Truncated]
    ensures TornOk(Apply(s, step))
  {
    if step.OnWriter? && step.writer.Breaks? {
      assert Held(s.core.writer)[0] == step.writer.torn.frame;
    }
  }

  /** Every stream is output frames, then at most one truncation mark, then at most
      one exit status, the child's; or a refusal alone. A write that broke was of
      output, or of the report that was due. */
  lemma StreamShape(steps: seq<Step>, s: State)
    requires After(steps) == Some(s)
    ensures forall i :: 0 <= i < |s.core.data| ==>
      (s.core.data[i].Stdout? || s.core.data[i].Stderr?) && |s.core.data[i].bytes| <= 0x8000
    ensures || s.trailer == []
            || s.trailer == [Truncated]
            || (s.core.data == [] && IsRefusal(s.trailer))
            || (exists c :: ChildStatus(steps, c) && s.trailer == [Exit(c)])
            || (exists c :: ChildStatus(steps, c) && s.trailer == [Truncated, Exit(c)])
    ensures s.trailer != [] && s.torn.Some? ==> s.trailer == [Truncated]
    ensures s.torn.Some? ==>
      var f := s.torn.value.frame;
      || f.Stdout? || f.Stderr?
      || (f == Truncated && s.trailer == [])
      || (f.Exit? && ChildStatus(steps, f.code) && (s.trailer == [Truncated] || !s.core.abort))
  {
    RunKeepsInv(steps);
    TornTold(steps);
    if s.status.Some? {
      StatusTold(steps, s);
    }
  }

  /** The writer was still at work fifteen seconds after draining ended. */
  ghost predicate JoinGivenUp(steps: seq<Step>) {
    exists i :: 0 <= i < |steps| && steps[i] == OnMain(JoinTimeout)
      && Elapsed(steps[..i]) >= Elapsed(Drained(steps[..i])) + 15000
  }

  /** The child never ran, or could not be waited for. */
  ghost predicate NoChild(steps: seq<Step>) {
    || OnMain(SpawnSilent) in steps
    || OnMain(WaitFails) in steps
    || (exists f: Refusal :: OnMain(SpawnRefused(f)) in steps)
  }

  lemma ReportGives(s: State)
    requires TaskInv(s) && MainEnabled(s, ReportExit)
    ensures HasExit(MainApply(s, ReportExit))
  {
  }

  lemma GivesUp(prev: seq<Step>, s: State, steps: seq<Step>)
    requires After(prev) == Some(s) && MainEnabled(s, JoinTimeout) && steps == prev + [OnMain(JoinTimeout)]
    ensures JoinGivenUp(steps)
  {
    Timely(prev, s);
    assert steps[|prev|] == OnMain(JoinTimeout) && steps[..|prev|] == prev;
  }

  lemma BreakTold(prev: seq<Step>, s: State, step: MainStep, steps: seq<Step>)
    requires After(prev) == Some(s) && MainEnabled(s, step) && (step.JoinGone? || step.ReportBreaks?)
    requires steps == prev + [OnMain(step)]
    ensures StreamBroke(steps)
  {
    assert steps[..|steps| - 1] == prev;
    assert After(steps) == Some(MainApply(s, step));
    BrokenTold(steps);
  }

  predicate EndsMain(step: MainStep) {
    step.SpawnRefused? || step.SpawnSilent? || step.WaitFails? || step.JoinGone? || step.JoinTimeout? || step.ReportExit?
    || step.ReportBreaks?
  }

  lemma OnlyThese(s: State, step: Step)
    requires Enabled(s, step) && !s.main.Ended? && Apply(s, step).main.Ended?
    ensures step.OnMain? && EndsMain(step.main)
  {
  }

  /** The step that ends the main task, and why it ends without a status. */
  lemma LastStep(prev: seq<Step>, s: State, step: MainStep, steps: seq<Step>)
    requires After(prev) == Some(s) && TaskInv(s) && MainEnabled(s, step) && steps == prev + [OnMain(step)]
    requires EndsMain(step) && !HasExit(MainApply(s, step))
    ensures NoChild(steps) || StreamBroke(steps) || JoinGivenUp(steps)
  {
    assert steps[|prev|] == OnMain(step);
    if step.SpawnRefused? {
      assert OnMain(SpawnRefused(step.refusal)) in steps;
    } else if step.JoinTimeout? {
      GivesUp(prev, s, steps);
    } else if step.JoinGone? || step.ReportBreaks? {
      BreakTold(prev, s, step, steps);
    } else if step.ReportExit? {
      ReportGives(s);
    }
  }

  /** A status that is out stays out. */
  lemma StaysReported(s: State, step: Step)
    requires Enabled(s, step) && s.main.Ended? && HasExit(s)
    ensures HasExit(Apply(s, step))
  {
  }

  lemma StillSo(prev: seq<Step>, step: Step, steps: seq<Step>)
    requires steps == prev + [step]
    ensures NoChild(prev) ==> NoChild(steps)
    ensures StreamBroke(prev) ==> StreamBroke(steps)
    ensures JoinGivenUp(prev) ==> JoinGivenUp(steps)
  {
    if StreamBroke(prev) {
      var t: Torn :| OnWriter(Breaks(t)) in prev || OnMain(ReportBreaks(t)) in prev;
      assert OnWriter(Breaks(t)) in steps || OnMain(ReportBreaks(t)) in steps;
    }
    if JoinGivenUp(prev) {
      var i :| 0 <= i < |prev| && prev[i] == OnMain(JoinTimeout)
        && Elapsed(prev[..i]) >= Elapsed(Drained(prev[..i])) + 15000;
      assert steps[i] == prev[i] && steps[..i] == prev[..i];
    }
  }

  /** No status goes missing without a cause: if the main task ended and the stream has
      none, the child never ran or could not be waited for, a write broke, or the writer
      was still at work fifteen seconds after draining ended. */
  lemma {:induction false} SilenceMeans(steps: seq<Step>, s: State)
    requires After(steps) == Some(s) && s.main.Ended? && !HasExit(s)
    ensures NoChild(steps) || StreamBroke(steps) || JoinGivenUp(steps)
  {
    if steps != [] {
      var prev, step := steps[..|steps| - 1], steps[|steps| - 1];
      var was := After(prev).value;
      assert steps == prev + [step];
      if !was.main.Ended? {
        RunKeepsInv(prev);
        OnlyThese(was, step);
        LastStep(prev, was, step.main, steps);
      } else if HasExit(was) {
        StaysReported(was, step);
      } else {
        SilenceMeans(prev, was);
        StillSo(prev, step, steps);
      }
    }
  }

  /** Draining takes at most eight windows, and says "not cut" only when both pumps
      returned by themselves, with everything they read already in the flow. */
  lemma DrainBounded(steps: seq<Step>, s: State)
    requires After(steps) == Some(s)
    ensures s.main.Draining? ==> s.main.windows < 8
    ensures s.main.Draining? && s.main.windows == 7 && MainEnabled(s, DrainTimeout)
            ==> MainApply(s, DrainTimeout).main.Joining?
    ensures (s.main.Joining? || s.main.Reporting?) && !s.main.cut && !s.core.writer.Broken?
            ==> && s.core.out.pump.Done? && BytesOf(Flow(s.core), true) == s.core.out.got
                && s.core.err.pump.Done? && BytesOf(Flow(s.core), false) == s.core.err.got
  {
    RunKeepsInv(steps);
  }
}
