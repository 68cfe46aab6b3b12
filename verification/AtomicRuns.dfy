/** What readers of a file replaced by temp-then-rename get, in terms of the steps of the
    run alone: always the body most recently renamed into place. */
module AtomicRuns {
  import opened Prelude
  import opened AtomicWrite

  // ---- A run, told from its steps ----

  /** The body a writer supplied when it last began. */
  function BodyOf(steps: seq<Step>, w: Writer): Option<seq<byte>> {
    if steps == [] then None
    else match steps[|steps| - 1]
      case Write(Begin(v, body, _)) => if v == w then Some(body) else BodyOf(steps[..|steps| - 1], w)
      case _ => BodyOf(steps[..|steps| - 1], w)
  }

  /** The body most recently renamed into place. */
  function Current(steps: seq<Step>): Option<seq<byte>> {
    if steps == [] then None
    else match steps[|steps| - 1]
      case Write(Rename(w)) => BodyOf(steps[..|steps| - 1], w)
      case _ => Current(steps[..|steps| - 1])
  }

  /** The run up to where reader `r` last opened the file. */
  function OpenedAt(steps: seq<Step>, r: nat): seq<Step> {
    if steps == [] then []
    else if steps[|steps| - 1] == Open(r) then steps[..|steps| - 1]
    else OpenedAt(steps[..|steps| - 1], r)
  }

  // ---- One step ----

  lemma WriterStep(s: State, step: Step, w: Writer)
    requires Enabled(s, step, Exclusive) && w in Apply(s, step, Exclusive).disk.writers
    ensures var p := Apply(s, step, Exclusive).disk.writers[w];
      if step.Write? && step.step.Begin? && step.step.w == w then p.body == step.step.body
      else w in s.disk.writers && p.body == s.disk.writers[w].body
  {
  }

  lemma TargetStep(d: Disk, step: WriteStep)
    requires DiskInv(d) && WriteEnabled(d, step) && (step.Begin? ==> Alone(d, step.w.pid))
    ensures var d' := WriteApply(d, step);
      if step.Rename? then
        Target in d'.dir && d'.dir[Target] in d'.data && d'.data[d'.dir[Target]] == d.writers[step.w].body
      else (Target in d'.dir <==> Target in d.dir) && (Target in d.dir ==> d'.dir[Target] == d.dir[Target])
  {
    if step.Rename? {
      assert Owns(d, step.w, d.writers[step.w]);
    }
  }

  // ---- Whole runs ----

  lemma {:induction false} WriterTold(steps: seq<Step>, w: Writer)
    requires After(steps, Exclusive).Some? && w in After(steps, Exclusive).value.disk.writers
    ensures BodyOf(steps, w) == Some(After(steps, Exclusive).value.disk.writers[w].body)
  {
    var prev, step := steps[..|steps| - 1], steps[|steps| - 1];
    WriterStep(After(prev, Exclusive).value, step, w);
    if !(step.Write? && step.step.Begin? && step.step.w == w) {
      WriterTold(prev, w);
    }
  }

  ghost predicate Shows(d: Disk, body: Option<seq<byte>>) {
    && (Target in d.dir <==> body.Some?)
    && (Target in d.dir ==> d.dir[Target] in d.data && d.data[d.dir[Target]] == body.value)
  }

  /** The file holds the body most recently renamed into place. */
  lemma {:induction false} TargetTold(steps: seq<Step>)
    requires After(steps, Exclusive).Some?
    ensures Shows(After(steps, Exclusive).value.disk, Current(steps))
  {
    if steps != [] {
      var prev, step := steps[..|steps| - 1], steps[|steps| - 1];
      var s := After(prev, Exclusive).value;
      RunKeepsInv(START, prev);
      TargetTold(prev);
      if step.Write? {
        TargetStep(s.disk, step.step);
        DiskStepKeeps(s.disk, step.step);
        if step.step.Rename? {
          WriterTold(prev, step.step.w);
        }
      }
    }
  }

  ghost predicate ReaderSees(s: State, r: nat, body: Option<seq<byte>>) {
    r in s.readers ==> s.readers[r].inode in s.disk.data && body == Some(s.disk.data[s.readers[r].inode])
  }

  lemma ReaderStep(s: State, step: Step, r: nat, body: Option<seq<byte>>)
    requires Inv(s) && Enabled(s, step, Exclusive) && ReaderSees(s, r, body) && step != Open(r)
    ensures ReaderSees(Apply(s, step, Exclusive), r, body)
  {
    if step.Write? {
      DiskStepKeeps(s.disk, step.step);
    }
  }

  /** An open file stays what it was when it was opened. */
  lemma {:induction false} ReaderTold(steps: seq<Step>, r: nat)
    requires After(steps, Exclusive).Some?
    ensures ReaderSees(After(steps, Exclusive).value, r, Current(OpenedAt(steps, r)))
  {
    if steps != [] {
      var prev, step := steps[..|steps| - 1], steps[|steps| - 1];
      var s := After(prev, Exclusive).value;
      RunKeepsInv(START, prev);
      if step == Open(r) {
        TargetTold(prev);
      } else {
        ReaderTold(prev, r);
        ReaderStep(s, step, r, Current(OpenedAt(prev, r)));
      }
    }
  }

  /** With at most one write in progress per process: a reader that reaches the end has
      read exactly the body most recently renamed into place when it opened the file. */
  lemma ReadsAreCurrent(steps: seq<Step>, s: State, r: nat)
    requires After(steps, Exclusive) == Some(s) && Enabled(s, Finish(r), Exclusive)
    ensures Current(OpenedAt(steps, r)) == Some(s.readers[r].got)
  {
    RunKeepsInv(START, steps);
    ReaderTold(steps, r);
    var x := s.readers[r];
    assert x.got == s.disk.data[x.inode];
  }

  /** So it does under the lock of the status file. */
  lemma LockedReadsAreCurrent(steps: seq<Step>, s: State, r: nat)
    requires After(steps, Locked) == Some(s) && Enabled(s, Finish(r), Locked)
    ensures Current(OpenedAt(steps, r)) == Some(s.readers[r].got)
  {
    LockedIsExclusive(steps);
    ReadsAreCurrent(steps, s, r);
  }

  // ---- Nothing stands in the way ----

  /** Any writer of an idle process can put any body in place, and any reader can then
      read it, whatever the state. */
  lemma WriteThenRead(s: State, w: Writer, body: seq<byte>, r: nat) returns (run: seq<Step>, t: State)
    requires Inv(s) && Alone(s.disk, w.pid) && r !in s.readers
    ensures From(s, run, Exclusive) == Some(t) && Enabled(t, Finish(r), Exclusive) && t.readers[r].got == body
  {
    var i := if Tmp(w.pid) in s.disk.dir then s.disk.dir[Tmp(w.pid)] else Unused(s.disk.data);
    run, t := Replace(s, w, body, i);
    var t1 := Apply(t, Open(r), Exclusive);
    OneMoreStep(s, run, t, Open(r), Exclusive);
    OneMoreStep(s, run + [Open(r)], t1, ReadSome(r, |body|), Exclusive);
    run, t := run + [Open(r)] + [ReadSome(r, |body|)], Apply(t1, ReadSome(r, |body|), Exclusive);
    assert [] + body[0..0 + |body|] == body;
  }

  ghost function Unused(data: map<nat, seq<byte>>): (i: nat)
    ensures i !in data
  {
    Exists(data.Keys);
    var i: nat :| i !in data;
    i
  }

  lemma Exists(used: set<nat>)
    ensures exists i: nat :: i !in used
  {
    var n := Fresh(used);
    assert n !in used;
  }

  lemma Replace(s: State, w: Writer, body: seq<byte>, i: nat) returns (run: seq<Step>, t: State)
    requires Inv(s) && Alone(s.disk, w.pid)
    requires if Tmp(w.pid) in s.disk.dir then i == s.disk.dir[Tmp(w.pid)] else i !in s.disk.data
    ensures From(s, run, Exclusive) == Some(t) && t.readers == s.readers
    ensures Target in t.disk.dir && t.disk.dir[Target] in t.disk.data && t.disk.data[t.disk.dir[Target]] == body
  {
    var begin, write, rename := Write(Begin(w, body, i)), Write(WriteSome(w, |body|)), Write(Rename(w));
    OneMoreStep(s, [], s, begin, Exclusive);
    var s1 := Apply(s, begin, Exclusive);
    StepKeepsInv(s, begin);
    OneMoreStep(s, [] + [begin], s1, write, Exclusive);
    var s2 := Apply(s1, write, Exclusive);
    StepKeepsInv(s1, write);
    assert Owns(s2.disk, w, s2.disk.writers[w]);
    OneMoreStep(s, [] + [begin] + [write], s2, rename, Exclusive);
    TargetStep(s2.disk, Rename(w));
    run, t := [] + [begin] + [write] + [rename], Apply(s2, rename, Exclusive);
  }

  /** A write can fail at any point, and leaves its process free to write again. */
  lemma FailFrees(s: State, w: Writer)
    requires Inv(s) && w in s.disk.writers
    ensures Enabled(s, Write(Fail(w)), Exclusive) && Alone(Apply(s, Write(Fail(w)), Exclusive).disk, w.pid)
  {
  }

  /** And a thread that finds its process's lock free can take it and begin. */
  lemma LockThenBegin(s: State, w: Writer, body: seq<byte>) returns (run: seq<Step>, t: State)
    requires w.pid !in s.locks && w !in s.disk.writers
    ensures From(s, run, Locked) == Some(t) && w in t.disk.writers && t.disk.writers[w].body == body
  {
    var i := if Tmp(w.pid) in s.disk.dir then s.disk.dir[Tmp(w.pid)] else Unused(s.disk.data);
    OneMoreStep(s, [], s, Lock(w), Locked);
    var s1 := Apply(s, Lock(w), Locked);
    OneMoreStep(s, [] + [Lock(w)], s1, Write(Begin(w, body, i)), Locked);
    run, t := [] + [Lock(w)] + [Write(Begin(w, body, i))], Apply(s1, Write(Begin(w, body, i)), Locked);
  }
}
