/** What happened in a run of the exec pipeline, told from its steps alone, and that the
    state remembers it rightly. */
module ExecHistory {
  import opened Prelude
  import opened ExecPipeline

  /** Everything the holders of one pipe wrote. */
  function WrittenBy(steps: seq<Step>, stdout: bool): seq<byte> {
    if steps == [] then []
    else WrittenBy(steps[..|steps| - 1], stdout) + WriteOf(steps[|steps| - 1], stdout)
  }

  function WriteOf(step: Step, stdout: bool): seq<byte> {
    if step.OnSide? && step.stdout == stdout && step.side.PipeWrite? then step.side.bytes else []
  }

  /** How many frames the writer has finished. */
  function Counted(steps: seq<Step>): nat {
    if steps == [] then 0
    else Counted(steps[..|steps| - 1]) + if steps[|steps| - 1] == OnWriter(Count) then 1 else 0
  }

  predicate OpensWindow(step: Step) {
    step == OnMain(Reap) || step == OnMain(DrainTimeout)
  }

  /** The run up to where the current drain window began. */
  function WindowStart(steps: seq<Step>): seq<Step> {
    if steps == [] || OpensWindow(steps[|steps| - 1]) then steps else WindowStart(steps[..|steps| - 1])
  }

  /** How much time has passed, in milliseconds. */
  function Elapsed(steps: seq<Step>): nat {
    if steps == [] then 0
    else Elapsed(steps[..|steps| - 1]) + TickOf(steps[|steps| - 1])
  }

  function TickOf(step: Step): nat {
    if step.OnMain? && step.main.Tick? then step.main.d else 0
  }

  /** The run up to where the child was reaped. */
  function Reaped(steps: seq<Step>): seq<Step> {
    if steps == [] || steps[|steps| - 1] == OnMain(Reap) then steps else Reaped(steps[..|steps| - 1])
  }

  predicate EndsDrain(step: Step) {
    step == OnMain(DrainDone) || step == OnMain(DrainTimeout)
  }

  /** The run up to where draining ended. */
  function Drained(steps: seq<Step>): seq<Step> {
    if steps == [] || EndsDrain(steps[|steps| - 1]) then steps else Drained(steps[..|steps| - 1])
  }

  // ---- One step ----

  lemma SideStepTells(s: State, step: Step, b: bool)
    requires Enabled(s, step)
    ensures var was, now := Of(s.core, b), Of(Apply(s, step).core, b);
      && now.written == was.written + WriteOf(step, b)
      && (now.closed ==> was.closed || step == OnSide(b, PipeClose))
      && (now.pump == Done(SawError) ==> was.pump == Done(SawError) || step == OnSide(b, PumpError))
  {
  }

  lemma MainStepTells(s: State, step: Step)
    requires Enabled(s, step)
    ensures var s' := Apply(s, step);
      && (s'.status.Some? ==> s'.status == s.status || step == OnMain(ChildExits(s'.status.value)))
      && s'.frames == s.frames + (if step == OnWriter(Count) then 1 else 0)
      && s'.clock == s.clock + TickOf(step)
  {
  }

  lemma WindowStepTells(s: State, step: Step)
    requires Enabled(s, step)
    ensures var s' := Apply(s, step);
      s'.main.Draining? ==>
        if OpensWindow(step) then s'.main.before == s.frames == s'.frames && s'.main.deadline == s.clock + 2000
        else s'.main == s.main
  {
  }

  lemma ReapStepTells(s: State, step: Step)
    requires Enabled(s, step)
    ensures var s' := Apply(s, step);
      s'.main.Draining? ==>
        if step == OnMain(Reap) then s'.main.start == s.clock
        else s.main.Draining? && s'.main.start == s.main.start
  {
  }

  lemma JoinStepTells(s: State, step: Step)
    requires Enabled(s, step)
    ensures var s' := Apply(s, step);
      s'.main.Joining? ==> if EndsDrain(step) then s'.main.deadline == s.clock + 15000 else s'.main == s.main
  {
  }

  // ---- Whole runs ----

  /** The bytes of a pipe are those written to it, and it is closed, or its pump stopped
      at an error, only if a step of the run did that. */
  lemma {:induction false} SideTold(steps: seq<Step>, b: bool)
    requires After(steps).Some?
    ensures var side := Of(After(steps).value.core, b);
      && side.written == WrittenBy(steps, b)
      && (side.closed ==> OnSide(b, PipeClose) in steps)
      && (side.pump == Done(SawError) ==> OnSide(b, PumpError) in steps)
  {
    if steps != [] {
      var prev := steps[..|steps| - 1];
      SideTold(prev, b);
      SideStepTells(After(prev).value, steps[|steps| - 1], b);
      assert steps == prev + [steps[|steps| - 1]];
    }
  }

  /** The status is the one the child exited with, and frames and time are counted right. */
  lemma {:induction false} MainTold(steps: seq<Step>)
    requires After(steps).Some?
    ensures var s := After(steps).value;
      && (s.status.Some? ==> OnMain(ChildExits(s.status.value)) in steps)
      && s.frames == Counted(steps) && s.clock == Elapsed(steps)
  {
    if steps != [] {
      var prev := steps[..|steps| - 1];
      MainTold(prev);
      MainStepTells(After(prev).value, steps[|steps| - 1]);
      assert steps == prev + [steps[|steps| - 1]];
    }
  }

  lemma {:induction false} WindowTold(steps: seq<Step>)
    requires After(steps).Some? && After(steps).value.main.Draining?
    ensures var main, start := After(steps).value.main, WindowStart(steps);
      main.before == Counted(start) && main.deadline == Elapsed(start) + 2000
  {
    if steps != [] {
      var prev, step := steps[..|steps| - 1], steps[|steps| - 1];
      WindowStepTells(After(prev).value, step);
      if OpensWindow(step) {
        MainTold(prev);
        MainTold(steps);
      } else {
        WindowTold(prev);
      }
    }
  }

  lemma {:induction false} ReapTold(steps: seq<Step>)
    requires After(steps).Some? && After(steps).value.main.Draining?
    ensures After(steps).value.main.start == Elapsed(Reaped(steps))
  {
    if steps != [] {
      var prev, step := steps[..|steps| - 1], steps[|steps| - 1];
      ReapStepTells(After(prev).value, step);
      if step == OnMain(Reap) {
        MainTold(prev);
      } else {
        ReapTold(prev);
      }
    }
  }

  lemma {:induction false} JoinTold(steps: seq<Step>)
    requires After(steps).Some? && After(steps).value.main.Joining?
    ensures After(steps).value.main.deadline == Elapsed(Drained(steps)) + 15000
  {
    if steps != [] {
      var prev, step := steps[..|steps| - 1], steps[|steps| - 1];
      JoinStepTells(After(prev).value, step);
      if EndsDrain(step) {
        MainTold(prev);
      } else {
        JoinTold(prev);
      }
    }
  }

  /** A drain window runs out two seconds after it began and no sooner; joining the writer
      is given up fifteen seconds after draining ended and no sooner. */
  lemma Timely(steps: seq<Step>, s: State)
    requires After(steps) == Some(s)
    ensures MainEnabled(s, DrainTimeout) <==> s.main.Draining? && Elapsed(steps) >= Elapsed(WindowStart(steps)) + 2000
    ensures MainEnabled(s, JoinTimeout) <==> s.main.Joining? && Elapsed(steps) >= Elapsed(Drained(steps)) + 15000
  {
    MainTold(steps);
    if s.main.Draining? {
      WindowTold(steps);
    } else if s.main.Joining? {
      JoinTold(steps);
    }
  }

  /** When a drain window runs out, another follows exactly if a frame was finished in it
      or one is being sent, and fifteen seconds have not passed since the child was
      reaped; otherwise the pumps are aborted and the output counts as cut. */
  lemma DrainGoesOn(steps: seq<Step>, s: State)
    requires After(steps) == Some(s) && MainEnabled(s, DrainTimeout)
    ensures var s' := MainApply(s, DrainTimeout);
      && (s'.main.Draining? <==>
            && (Counted(steps) > Counted(WindowStart(steps)) || s.core.writer.Writing?)
            && Elapsed(steps) < Elapsed(Reaped(steps)) + 15000)
      && (!s'.main.Draining? ==> s'.main.Joining? && s'.main.cut && s'.core.abort)
  {
    MainTold(steps);
    WindowTold(steps);
    ReapTold(steps);
    CountedGrows(steps);
  }

  lemma {:induction false} CountedGrows(steps: seq<Step>)
    ensures Counted(WindowStart(steps)) <= Counted(steps)
  {
    if steps != [] && !OpensWindow(steps[|steps| - 1]) {
      CountedGrows(steps[..|steps| - 1]);
    }
  }

  /** A write of this run broke. */
  ghost predicate StreamBroke(steps: seq<Step>) {
    exists t: Torn :: OnWriter(Breaks(t)) in steps || OnMain(ReportBreaks(t)) in steps
  }

  lemma {:induction false} BrokenTold(steps: seq<Step>)
    requires After(steps).Some? && (After(steps).value.torn.Some? || After(steps).value.core.writer.Broken?)
    ensures StreamBroke(steps)
  {
    if steps != [] {
      var prev, step := steps[..|steps| - 1], steps[|steps| - 1];
      var s := After(prev).value;
      assert steps == prev + [step];
      if s.torn.Some? || s.core.writer.Broken? {
        BrokenTold(prev);
        var t: Torn :| OnWriter(Breaks(t)) in prev || OnMain(ReportBreaks(t)) in prev;
        assert OnWriter(Breaks(t)) in steps || OnMain(ReportBreaks(t)) in steps;
      } else {
        var t := if step.OnWriter? then step.writer.torn else step.main.torn;
        assert OnWriter(Breaks(t)) in steps || OnMain(ReportBreaks(t)) in steps;
      }
    }
  }
}
