/** Runs of the exec pipeline that there are: one that succeeds for any output and any
    status, and one to the end from any state. */
module ExecExample {
  import opened Prelude
  import opened Postcard
  import opened ExecPipeline
  import opened ExecEndToEnd

  lemma OneMore(steps: seq<Step>, s: State, step: Step, s': State) returns (steps': seq<Step>)
    requires After(steps) == Some(s) && Enabled(s, step) && Apply(s, step) == s'
    ensures After(steps') == Some(s') && steps' == steps + [step]
  {
    steps' := steps + [step];
    assert steps'[..|steps|] == steps;
  }

  function Early(core: Core): State {
    State(core, AwaitChild, 0, 0, None, [], None)
  }

  function Carried(o: seq<byte>, err: Side, writer: Writer, chan: seq<ExecFrame>, data: seq<ExecFrame>): Core {
    Core(Side(o, false, o, Reading), err, chan, writer, false, data)
  }

  const QUIET := Side([], false, [], Reading)

  /** The child writes `o` and the pump queues it. */
  lemma Queued(o: seq<byte>) returns (steps: seq<Step>)
    requires 0 < |o| <= EXEC_CHUNK
    ensures After(steps) == Some(Early(Carried(o, QUIET, Waiting, [Stdout(o)], [])))
  {
    var born := Core(QUIET, QUIET, [], Waiting, false, []);
    steps := OneMore([], START, OnMain(SpawnOk), Early(born));
    var wrote := born.(out := Side(o, false, [], Reading));
    steps := OneMore(steps, Early(born), OnSide(true, PipeWrite(o)), Early(wrote));
    var read := born.(out := Side(o, false, o, Sending(o)));
    assert o[0..0 + |o|] == o;
    steps := OneMore(steps, Early(wrote), OnSide(true, PumpRead(|o|)), Early(read));
    steps := OneMore(steps, Early(read), OnSide(true, PumpSend), Early(Carried(o, QUIET, Waiting, [Stdout(o)], [])));
  }

  /** The writer takes it to the stream. */
  lemma Delivered(o: seq<byte>) returns (steps: seq<Step>)
    requires 0 < |o| <= EXEC_CHUNK
    ensures After(steps) == Some(Early(Carried(o, QUIET, Waiting, [], [Stdout(o)])).(frames := 1))
  {
    steps := Queued(o);
    var f := Stdout(o);
    var queued, held := Carried(o, QUIET, Waiting, [f], []), Carried(o, QUIET, Holding(f), [], []);
    var writing, counting := held.(writer := Writing(f)), Carried(o, QUIET, Counting, [], [f]);
    steps := OneMore(steps, Early(queued), OnWriter(Take), Early(held));
    steps := OneMore(steps, Early(held), OnWriter(Start), Early(writing));
    steps := OneMore(steps, Early(writing), OnWriter(Wrote), Early(counting));
    steps := OneMore(steps, Early(counting), OnWriter(Count), Early(counting.(writer := Waiting)).(frames := 1));
  }

  /** Both pipes close and both pumps see it. */
  lemma Closed(o: seq<byte>) returns (steps: seq<Step>, core: Core)
    requires 0 < |o| <= EXEC_CHUNK
    ensures core == Core(Side(o, true, o, Done(SawEof)), Side([], true, [], Done(SawEof)), [], Waiting, false, [Stdout(o)])
    ensures After(steps) == Some(Early(core).(frames := 1))
  {
    steps := Delivered(o);
    var c := Carried(o, QUIET, Waiting, [], [Stdout(o)]);
    var c1 := c.(out := Side(o, true, o, Reading));
    steps := OneMore(steps, Early(c).(frames := 1), OnSide(true, PipeClose), Early(c1).(frames := 1));
    var c2 := c1.(err := Side([], true, [], Reading));
    steps := OneMore(steps, Early(c1).(frames := 1), OnSide(false, PipeClose), Early(c2).(frames := 1));
    var c3 := c2.(out := Side(o, true, o, Done(SawEof)));
    steps := OneMore(steps, Early(c2).(frames := 1), OnSide(true, PumpEof), Early(c3).(frames := 1));
    core := c3.(err := Side([], true, [], Done(SawEof)));
    steps := OneMore(steps, Early(c3).(frames := 1), OnSide(false, PumpEof), Early(core).(frames := 1));
  }

  /** For every output and every status there is a run whose stream says exactly that. */
  lemma Succeeds(o: seq<byte>, e: Status) returns (steps: seq<Step>, s: State)
    requires 0 < |o| <= 0x8000
    ensures After(steps) == Some(s) && s.torn == None
    ensures Sent(s) == [Stdout(o), Exit(match e case Exited(c) => c case Signaled(n) => 128 + n)]
  {
    var core;
    steps, core := Closed(o);
    var s1 := State(core, AwaitChild, 1, 0, Some(e), [], None);
    steps := OneMore(steps, Early(core).(frames := 1), OnMain(ChildExits(e)), s1);
    var s2 := s1.(main := Draining(0, 0, DRAIN_IDLE, 1));
    steps := OneMore(steps, s1, OnMain(Reap), s2);
    var s3 := s1.(main := Joining(false, DRAIN_CAP));
    steps := OneMore(steps, s2, OnMain(DrainDone), s3);
    var s4 := s3.(core := core.(writer := Finished));
    steps := OneMore(steps, s3, OnWriter(End), s4);
    var s5 := s4.(main := Reporting(false));
    steps := OneMore(steps, s4, OnMain(JoinDone), s5);
    s := s5.(main := Ended, trailer := [Exit(ExitCode(e))]);
    steps := OneMore(steps, s5, OnMain(ReportExit), s);
  }

  // ---- Nothing stands in the way ----

  /** What the outside may do at any time: whoever holds a pipe writes to it or closes it,
      a read fails; and a pump with a chunk queues it while fewer than sixteen wait. */
  lemma AtAnyTime(s: State, b: bool, bytes: seq<byte>, n: nat)
    requires !Of(s.core, b).pump.Unborn?
    ensures !Of(s.core, b).closed ==> Enabled(s, OnSide(b, PipeWrite(bytes))) && Enabled(s, OnSide(b, PipeClose))
    ensures Of(s.core, b).pump.Reading? ==> Enabled(s, OnSide(b, PumpError))
    ensures Of(s.core, b).pump.Reading? && 0 < n <= 0x8000 && |Of(s.core, b).got| + n <= |Of(s.core, b).written| ==>
      Enabled(s, OnSide(b, PumpRead(n)))
    ensures Of(s.core, b).pump.Sending? && |s.core.chan| < 16 && !s.core.writer.Broken? ==> Enabled(s, OnSide(b, PumpSend))
    ensures s.core.abort && !Gone(Of(s.core, b).pump) ==>
      Enabled(s, OnSide(b, PumpAbort)) && Gone(Of(Apply(s, OnSide(b, PumpAbort)).core, b).pump)
  {
  }

  /** And never do more than sixteen wait. */
  lemma ChannelBound(steps: seq<Step>, s: State)
    requires After(steps) == Some(s)
    ensures |s.core.chan| <= 16
  {
    RunKeepsInv(steps);
  }

  predicate MainOnly(run: seq<Step>) {
    forall i :: 0 <= i < |run| ==> run[i].OnMain?
  }

  lemma EndReporting(steps: seq<Step>, run: seq<Step>, s: State) returns (more: seq<Step>, t: State)
    requires After(run) == Some(s) && steps <= run && MainOnly(run[|steps|..]) && s.status.Some?
    requires s.main.Reporting? || s.main.Closing?
    ensures After(more) == Some(t) && t.main.Ended? && steps <= more && MainOnly(more[|steps|..])
  {
    more, t := run, s;
    if t.main == Reporting(true) {
      more, t := Next(steps, more, t, ReportTruncated);
    }
    more, t := Next(steps, more, t, ReportExit);
  }

  lemma EndJoining(steps: seq<Step>, run: seq<Step>, s: State) returns (more: seq<Step>, t: State)
    requires After(run) == Some(s) && steps <= run && MainOnly(run[|steps|..]) && s.main.Joining?
    ensures After(more) == Some(t) && t.main.Ended? && steps <= more && MainOnly(more[|steps|..])
  {
    more, t := Next(steps, run, s, Tick(s.main.deadline));
    more, t := Next(steps, more, t, JoinTimeout);
  }

  lemma EndDraining(steps: seq<Step>, run: seq<Step>, s: State) returns (more: seq<Step>, t: State)
    requires After(run) == Some(s) && steps <= run && MainOnly(run[|steps|..]) && s.main.Draining?
    ensures After(more) == Some(t) && t.main.Ended? && steps <= more && MainOnly(more[|steps|..])
  {
    more, t := Next(steps, run, s, Tick(s.main.start + s.main.deadline + DRAIN_CAP));
    more, t := Next(steps, more, t, DrainTimeout);
    more, t := EndJoining(steps, more, t);
  }

  /** Once the child has exited, the main task can always come to its end by itself and
      the clock: however the pumps and the writer are stuck, in any reachable state. */
  lemma CanEnd(steps: seq<Step>, s: State) returns (more: seq<Step>, t: State)
    requires After(steps) == Some(s) && s.status.Some?
    ensures After(more) == Some(t) && t.main.Ended? && steps <= more && MainOnly(more[|steps|..])
  {
    RunKeepsInv(steps);
    more, t := steps, s;
    if s.main.AwaitChild? {
      more, t := Next(steps, steps, s, Reap);
      more, t := EndDraining(steps, more, t);
    } else if s.main.Draining? {
      more, t := EndDraining(steps, steps, s);
    } else if s.main.Joining? {
      more, t := EndJoining(steps, steps, s);
    } else if s.main.Reporting? || s.main.Closing? {
      more, t := EndReporting(steps, steps, s);
    }
  }

  lemma Next(steps: seq<Step>, run: seq<Step>, s: State, step: MainStep) returns (run': seq<Step>, s': State)
    requires After(run) == Some(s) && MainEnabled(s, step) && steps <= run && MainOnly(run[|steps|..])
    ensures After(run') == Some(s') && s' == MainApply(s, step) && steps <= run' && MainOnly(run'[|steps|..])
  {
    s' := MainApply(s, step);
    run' := OneMore(run, s, OnMain(step), s');
  }
}
