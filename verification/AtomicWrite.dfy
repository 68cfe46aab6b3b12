/** Temp-then-rename (src/state.rs `unique_tmp`, `write_atomic`): many processes, each
    with threads, replacing one file step by step while others read it step by step.
    The staging name is unique per process, not per thread. */
module AtomicWrite {
  import opened Prelude

  datatype Name = Target | Tmp(pid: nat)

  datatype Writer = Writer(pid: nat, tid: nat)

  /** A write in progress through an open file: `done` bytes of `body` are out. */
  datatype Progress = Progress(body: seq<byte>, inode: nat, done: nat)

  /** Names point to inodes, inodes hold bytes. `published` is every inode that has been
      the target and `bodies` every body a writer supplied. */
  datatype Disk = Disk(
    dir: map<Name, nat>,
    data: map<nat, seq<byte>>,
    writers: map<Writer, Progress>,
    published: set<nat>,
    bodies: set<seq<byte>>)

  datatype Read = Read(inode: nat, got: seq<byte>)

  /** `results` is every body a reader finished with. */
  datatype State = State(disk: Disk, locks: map<nat, nat>, readers: map<nat, Read>, results: set<seq<byte>>)

  const START := State(Disk(map[], map[], map[], {}, {}), map[], map[], {})

  datatype WriteStep =
    | Begin(w: Writer, body: seq<byte>, inode: nat)
    | WriteSome(w: Writer, n: nat)
    | Rename(w: Writer)
    | Fail(w: Writer)

  datatype Step =
    | Write(step: WriteStep)
    | Lock(w: Writer)
    | Unlock(w: Writer)
    | Open(r: nat)
    | ReadSome(r: nat, n: nat)
    | Finish(r: nat)

  /** How writers in one process keep out of each other's way: not at all, never two at
      once, or by holding the process's lock for the whole write. */
  datatype Discipline = Free | Exclusive | Locked

  predicate Alone(d: Disk, pid: nat) {
    forall v :: v in d.writers ==> v.pid != pid
  }

  predicate WriteEnabled(d: Disk, step: WriteStep) {
    match step
    case Begin(w, _, i) => w !in d.writers && (if Tmp(w.pid) in d.dir then i == d.dir[Tmp(w.pid)] else i !in d.data)
    case WriteSome(w, n) => w in d.writers && d.writers[w].done + n <= |d.writers[w].body| && d.writers[w].inode in d.data
    case Rename(w) => w in d.writers && d.writers[w].done == |d.writers[w].body| && Tmp(w.pid) in d.dir
    case Fail(w) => w in d.writers
  }

  /** Writing at a file offset: a hole before it reads as zeros. */
  function Overwrite(was: seq<byte>, at: nat, chunk: seq<byte>): seq<byte> {
    var front := if at <= |was| then was[..at] else was + seq(at - |was|, i => 0);
    front + chunk + (if at + |chunk| <= |was| then was[at + |chunk|..] else [])
  }

  /** Opening creates the staging file or truncates what a previous write left there. */
  function WriteApply(d: Disk, step: WriteStep): Disk
    requires WriteEnabled(d, step)
  {
    match step
    case Begin(w, body, i) =>
      Disk(d.dir[Tmp(w.pid) := i], d.data[i := []], d.writers[w := Progress(body, i, 0)], d.published, d.bodies + {body})
    case WriteSome(w, n) =>
      var p := d.writers[w];
      d.(data := d.data[p.inode := Overwrite(d.data[p.inode], p.done, p.body[p.done..p.done + n])],
         writers := d.writers[w := p.(done := p.done + n)])
    case Rename(w) =>
      var i := d.dir[Tmp(w.pid)];
      d.(dir := d.dir[Target := i] - {Tmp(w.pid)}, writers := d.writers - {w}, published := d.published + {i})
    case Fail(w) => d.(writers := d.writers - {w})
  }

  predicate Enabled(s: State, step: Step, how: Discipline) {
    match step
    case Write(ws) =>
      && WriteEnabled(s.disk, ws)
      && (ws.Begin? && how == Exclusive ==> Alone(s.disk, ws.w.pid))
      && (ws.Begin? && how == Locked ==> ws.w.pid in s.locks && s.locks[ws.w.pid] == ws.w.tid)
    case Lock(w) => w.pid !in s.locks
    case Unlock(w) => w.pid in s.locks && s.locks[w.pid] == w.tid && w !in s.disk.writers
    case Open(r) => r !in s.readers && Target in s.disk.dir
    case ReadSome(r, n) =>
      && r in s.readers && s.readers[r].inode in s.disk.data
      && |s.readers[r].got| + n <= |s.disk.data[s.readers[r].inode]|
    case Finish(r) =>
      && r in s.readers && s.readers[r].inode in s.disk.data
      && |s.readers[r].got| >= |s.disk.data[s.readers[r].inode]|
  }

  function Apply(s: State, step: Step, how: Discipline): State
    requires Enabled(s, step, how)
  {
    match step
    case Write(ws) => s.(disk := WriteApply(s.disk, ws))
    case Lock(w) => s.(locks := s.locks[w.pid := w.tid])
    case Unlock(w) => s.(locks := s.locks - {w.pid})
    case Open(r) => s.(readers := s.readers[r := Read(s.disk.dir[Target], [])])
    case ReadSome(r, n) =>
      var x := s.readers[r];
      s.(readers := s.readers[r := x.(got := x.got + s.disk.data[x.inode][|x.got|..|x.got| + n])])
    case Finish(r) => s.(readers := s.readers - {r}, results := s.results + {s.readers[r].got})
  }

  /** Where a sequence of steps leads from `s`, if each is enabled when taken. */
  function From(s: State, steps: seq<Step>, how: Discipline): Option<State> {
    if steps == [] then Some(s)
    else match From(s, steps[..|steps| - 1], how)
      case None => None
      case Some(t) => if Enabled(t, steps[|steps| - 1], how) then Some(Apply(t, steps[|steps| - 1], how)) else None
  }

  function After(steps: seq<Step>, how: Discipline): Option<State> {
    From(START, steps, how)
  }

  // ---- At most one write per process ----

  /** An inode that has been the target is complete, and no staging name reaches it. */
  ghost predicate PublishedInv(d: Disk) {
    && (Target in d.dir ==> d.dir[Target] in d.published)
    && (forall i :: i in d.published ==> i in d.data && d.data[i] in d.bodies)
    && (forall n :: n in d.dir && n.Tmp? ==> d.dir[n] in d.data && d.dir[n] !in d.published)
  }

  /** A writer owns its process's staging file, which holds what it has written. */
  ghost predicate Owns(d: Disk, w: Writer, p: Progress) {
    && Tmp(w.pid) in d.dir && d.dir[Tmp(w.pid)] == p.inode && p.inode in d.data
    && p.done <= |p.body| && d.data[p.inode] == p.body[..p.done] && p.body in d.bodies
  }

  ghost predicate WriterInv(d: Disk) {
    && (forall w :: w in d.writers ==> Owns(d, w, d.writers[w]))
    && (forall v, w :: v in d.writers && w in d.writers && v.pid == w.pid ==> v == w)
    && (forall m, n :: m in d.dir && n in d.dir && d.dir[m] == d.dir[n] ==> m == n)
  }

  ghost predicate DiskInv(d: Disk) {
    PublishedInv(d) && WriterInv(d)
  }

  lemma AppendAt(body: seq<byte>, done: nat, n: nat)
    requires done + n <= |body|
    ensures Overwrite(body[..done], done, body[done..done + n]) == body[..done + n]
  {
  }

  lemma BeginKeeps(d: Disk, step: WriteStep)
    requires DiskInv(d) && WriteEnabled(d, step) && step.Begin? && Alone(d, step.w.pid)
    ensures DiskInv(WriteApply(d, step)) && Undisturbed(d, WriteApply(d, step))
  {
    var d' := WriteApply(d, step);
    assert step.inode !in d.published;
    forall w | w in d'.writers
      ensures Owns(d', w, d'.writers[w])
    {
      if w != step.w {
        assert Owns(d, w, d.writers[w]) && Tmp(w.pid) != Tmp(step.w.pid);
      }
    }
  }

  lemma WriteKeeps(d: Disk, step: WriteStep)
    requires DiskInv(d) && WriteEnabled(d, step) && step.WriteSome?
    ensures DiskInv(WriteApply(d, step)) && Undisturbed(d, WriteApply(d, step))
  {
    var d', p := WriteApply(d, step), d.writers[step.w];
    assert Owns(d, step.w, p);
    AppendAt(p.body, p.done, step.n);
    forall w | w in d'.writers
      ensures Owns(d', w, d'.writers[w])
    {
      if w != step.w {
        assert Owns(d, w, d.writers[w]) && Tmp(w.pid) != Tmp(step.w.pid);
      }
    }
  }

  lemma RenameKeeps(d: Disk, step: WriteStep)
    requires DiskInv(d) && WriteEnabled(d, step) && step.Rename?
    ensures DiskInv(WriteApply(d, step)) && Undisturbed(d, WriteApply(d, step))
  {
    var d', p := WriteApply(d, step), d.writers[step.w];
    assert Owns(d, step.w, p) && p.body[..p.done] == p.body;
    forall w | w in d'.writers
      ensures Owns(d', w, d'.writers[w])
    {
      assert Owns(d, w, d.writers[w]) && Tmp(w.pid) != Tmp(step.w.pid);
    }
  }

  /** No step touches an inode that has been published. */
  ghost predicate Undisturbed(d: Disk, d': Disk) {
    && d.published <= d'.published && d.bodies <= d'.bodies
    && (forall i :: i in d.published && i in d.data ==> i in d'.data && d'.data[i] == d.data[i])
  }

  lemma DiskStepKeeps(d: Disk, step: WriteStep)
    requires DiskInv(d) && WriteEnabled(d, step) && (step.Begin? ==> Alone(d, step.w.pid))
    ensures DiskInv(WriteApply(d, step)) && Undisturbed(d, WriteApply(d, step))
  {
    match step
    case Begin(_, _, _) => BeginKeeps(d, step);
    case WriteSome(_, _) => WriteKeeps(d, step);
    case Rename(_) => RenameKeeps(d, step);
    case Fail(w) =>
      assert forall v :: v in d.writers ==> Owns(d, v, d.writers[v]) && Owns(WriteApply(d, step), v, d.writers[v]);
  }

  ghost predicate ReaderInv(s: State) {
    && (forall r :: r in s.readers ==>
          && s.readers[r].inode in s.disk.published && s.readers[r].inode in s.disk.data
          && s.readers[r].got <= s.disk.data[s.readers[r].inode])
    && (forall b :: b in s.results ==> b in s.disk.bodies)
  }

  ghost predicate Inv(s: State) {
    DiskInv(s.disk) && ReaderInv(s)
  }

  lemma StepKeepsInv(s: State, step: Step)
    requires Inv(s) && Enabled(s, step, Exclusive)
    ensures Inv(Apply(s, step, Exclusive))
  {
    if step.Write? {
      DiskStepKeeps(s.disk, step.step);
    } else if step.Finish? {
      var x := s.readers[step.r];
      assert x.got == s.disk.data[x.inode];
    }
  }

  lemma {:induction false} RunKeepsInv(s: State, steps: seq<Step>)
    requires Inv(s) && From(s, steps, Exclusive).Some?
    ensures Inv(From(s, steps, Exclusive).value)
  {
    if steps != [] {
      RunKeepsInv(s, steps[..|steps| - 1]);
      StepKeepsInv(From(s, steps[..|steps| - 1], Exclusive).value, steps[|steps| - 1]);
    }
  }

  /** With at most one write in progress per process, every finished read of the target
      saw one complete body that some writer supplied. */
  lemma ReadsAreWhole(steps: seq<Step>, s: State, body: seq<byte>)
    requires After(steps, Exclusive) == Some(s) && body in s.results
    ensures body in s.disk.bodies
  {
    RunKeepsInv(START, steps);
  }

  // ---- The status file: a lock held across the write ----

  ghost predicate LockInv(s: State) {
    forall w :: w in s.disk.writers ==> w.pid in s.locks && s.locks[w.pid] == w.tid
  }

  lemma LockStep(s: State, step: Step)
    requires LockInv(s) && Enabled(s, step, Locked)
    ensures Enabled(s, step, Exclusive) && Apply(s, step, Exclusive) == Apply(s, step, Locked)
    ensures LockInv(Apply(s, step, Locked))
  {
    if step.Write? && step.step.Begin? {
      var w := step.step.w;
      forall v | v in s.disk.writers
        ensures v.pid != w.pid
      {
        assert v.pid == w.pid ==> v == w;
      }
    }
  }

  /** A run under the lock is a run with at most one write per process. */
  lemma {:induction false} LockedIsExclusive(steps: seq<Step>)
    requires After(steps, Locked).Some?
    ensures After(steps, Exclusive) == After(steps, Locked) && LockInv(After(steps, Locked).value)
  {
    if steps != [] {
      LockedIsExclusive(steps[..|steps| - 1]);
      LockStep(After(steps[..|steps| - 1], Locked).value, steps[|steps| - 1]);
    }
  }

  // ---- Without it ----

  lemma OneMoreStep(s: State, steps: seq<Step>, t: State, step: Step, how: Discipline)
    requires From(s, steps, how) == Some(t) && Enabled(t, step, how)
    ensures From(s, steps + [step], how) == Some(Apply(t, step, how))
  {
    assert (steps + [step])[..|steps|] == steps;
  }

  ghost predicate Whole(s: State) {
    forall body :: body in s.results ==> body in s.disk.bodies
  }

  /** A writer of the process has written all its bytes and not yet renamed. */
  predicate Finished(d: Disk, v: Writer) {
    v in d.writers && d.writers[v].done == |d.writers[v].body|
  }

  /** Opening the staging file truncates it, and the other writer's rename puts the
      empty file in place. */
  lemma Truncated(d: Disk, v: Writer, begin: WriteStep)
    requires DiskInv(d) && WriteEnabled(d, begin) && begin.Begin? && Finished(d, v) && v.pid == begin.w.pid
    ensures var d1 := WriteApply(d, begin);
      && WriteEnabled(d1, Rename(v))
      && var d2 := WriteApply(d1, Rename(v));
         && Target in d2.dir && d2.dir[Target] in d2.data && d2.data[d2.dir[Target]] == []
         && d2.bodies == d.bodies + {begin.body}
  {
    assert Owns(d, v, d.writers[v]);
  }

  /** From any state: one more writer of a process that has a finished one, and the
      reader that comes next gets an empty file. */
  lemma OverlapTears(s: State, v: Writer, begin: WriteStep, r: nat) returns (run: seq<Step>, t: State)
    requires Inv(s) && WriteEnabled(s.disk, begin) && begin.Begin? && r !in s.readers
    requires Finished(s.disk, v) && v.pid == begin.w.pid
    ensures From(Apply(s, Write(begin), Free), run, Exclusive) == Some(t)
    ensures [] in t.results && t.disk.bodies == s.disk.bodies + {begin.body}
  {
    Truncated(s.disk, v, begin);
    var s1 := Apply(s, Write(begin), Free);
    OneMoreStep(s1, [], s1, Write(Rename(v)), Exclusive);
    var s2 := Apply(s1, Write(Rename(v)), Exclusive);
    OneMoreStep(s1, [] + [Write(Rename(v))], s2, Open(r), Exclusive);
    var s3 := Apply(s2, Open(r), Exclusive);
    run := [] + [Write(Rename(v))] + [Open(r)];
    OneMoreStep(s1, run, s3, Finish(r), Exclusive);
    run, t := run + [Finish(r)], Apply(s3, Finish(r), Exclusive);
  }

  lemma {:induction false} Fresh(used: set<nat>) returns (n: nat)
    ensures forall x :: x in used ==> x < n
    decreases |used|
  {
    n := 0;
    if used != {} {
      var x :| x in used;
      var rest := used - {x};
      var m := Fresh(rest);
      n := if m <= x then x + 1 else m;
      assert forall y :: y in used ==> y == x || y in rest;
    }
  }

  /** The guard itself. Take any state in which the process's writers, if any, have
      written all their bytes, and let one more begin: every later read, in every run
      that begins no further overlapping write, is whole exactly if it began alone. */
  lemma WholeIffAlone(s: State, begin: WriteStep)
    requires Inv(s) && WriteEnabled(s.disk, begin) && begin.Begin? && begin.body != [] && [] !in s.disk.bodies
    requires forall v :: v in s.disk.writers && v.pid == begin.w.pid ==> Finished(s.disk, v)
    ensures var s1 := Apply(s, Write(begin), Free);
      Alone(s.disk, begin.w.pid)
      <==> forall run :: From(s1, run, Exclusive).Some? ==> Whole(From(s1, run, Exclusive).value)
  {
    var s1 := Apply(s, Write(begin), Free);
    if Alone(s.disk, begin.w.pid) {
      StepKeepsInv(s, Write(begin));
      assert s1 == Apply(s, Write(begin), Exclusive);
      forall run | From(s1, run, Exclusive).Some?
        ensures Whole(From(s1, run, Exclusive).value)
      {
        RunKeepsInv(s1, run);
      }
    } else {
      var v :| v in s.disk.writers && v.pid == begin.w.pid;
      var r := Fresh(s.readers.Keys);
      var run, t := OverlapTears(s, v, begin, r);
      assert !Whole(t);
    }
  }

  lemma WritesAll(a: seq<byte>, v: Writer)
    ensures var d := Disk(map[Tmp(v.pid) := 7], map[7 := []], map[v := Progress(a, 7, 0)], {}, {a});
      && WriteApply(START.disk, Begin(v, a, 7)) == d && WriteEnabled(d, WriteSome(v, |a|))
      && WriteApply(d, WriteSome(v, |a|)) == d.(data := map[7 := a], writers := map[v := Progress(a, 7, |a|)])
  {
    AppendAt(a, 0, |a|);
    assert a[..0] == [] && a[..|a|] == a && a[0..0 + |a|] == a;
  }

  /** Such a state is reached by one thread of a process writing any body. */
  lemma OneFinished(a: seq<byte>, v: Writer) returns (run: seq<Step>, s: State)
    ensures After(run, Exclusive) == Some(s) && Inv(s) && Finished(s.disk, v)
    ensures s == State(Disk(map[Tmp(v.pid) := 7], map[7 := a], map[v := Progress(a, 7, |a|)], {}, {a}), map[], map[], {})
  {
    WritesAll(a, v);
    var begin, write := Write(Begin(v, a, 7)), Write(WriteSome(v, |a|));
    OneMoreStep(START, [], START, begin, Exclusive);
    var s1 := START.(disk := WriteApply(START.disk, Begin(v, a, 7)));
    OneMoreStep(START, [] + [begin], s1, write, Exclusive);
    run, s := [] + [begin] + [write], s1.(disk := WriteApply(s1.disk, WriteSome(v, |a|)));
    RunKeepsInv(START, run);
  }

  /** So two threads of one process, with any two non-empty bodies, can leave a reader
      with an empty file that nobody supplied. */
  lemma SharedStagingTears(a: seq<byte>, b: seq<byte>) returns (run: seq<Step>, s: State, more: seq<Step>, t: State)
    requires a != [] && b != []
    ensures After(run, Exclusive) == Some(s) && Enabled(s, Write(Begin(Writer(1, 2), b, 7)), Free)
    ensures From(Apply(s, Write(Begin(Writer(1, 2), b, 7)), Free), more, Exclusive) == Some(t)
    ensures [] in t.results && t.disk.bodies == {a, b} && [] !in t.disk.bodies
  {
    run, s := OneFinished(a, Writer(1, 1));
    more, t := OverlapTears(s, Writer(1, 1), Begin(Writer(1, 2), b, 7), 0);
  }
}
