/** The agent's end of an exec (src/agent.rs `exec`, `pump_frames`, `drain_output`) as
    interleaved steps: whoever holds the child's pipes, two pumps, a sixteen-slot
    channel, the writer task, the clock, and the main task that waits for the child,
    drains, joins the writer and reports. The main theorems say what any byte prefix of
    the resulting stream can tell the receiver. */
module ExecPipeline {
  import opened Prelude
  import opened Wire
  import opened Postcard
  import opened ExecReceiver

  const EXEC_CHUNK: nat := 0x8000
  const CHANNEL: nat := 16
  const DRAIN_IDLE: nat := 2000
  const DRAIN_CAP: nat := 15000

  datatype PumpEnd = SawEof | SawError | ChannelGone

  datatype Pump =
    | Unborn
    | Reading
    | Sending(chunk: seq<byte>)
    | Done(why: PumpEnd)
    | Aborted

  /** One output of the child: what was put into the pipe, whether every holder has
      closed it, what reads have yielded so far, and the pump's own state. */
  datatype Side = Side(written: seq<byte>, closed: bool, got: seq<byte>, pump: Pump)

  /** `Holding` has dequeued but not yet raised the sending flag; `Counting` has
      lowered it but not yet counted the frame. */
  datatype Writer =
    | NoWriter
    | Waiting
    | Holding(frame: ExecFrame)
    | Writing(frame: ExecFrame)
    | Counting
    | Finished
    | Broken

  datatype ExitStatus = Exited(code: i32) | Signaled(signal: nat)

  type Status = e: ExitStatus | e.Signaled? ==> e.signal < 128 witness Exited(0)

  datatype MainTask =
    | Spawning
    | AwaitChild
    | Draining(start: nat, windows: nat, deadline: nat, before: nat)
    | Joining(cut: bool, deadline: nat)
    | Reporting(cut: bool)
    | Closing
    | Ended

  /** A write that broke: `k` bytes of the frame reached the stream. */
  datatype TornWrite = Torn(frame: ExecFrame, k: nat)

  type Torn = t: TornWrite | CutsInside(t) witness Torn(Truncated, 0)

  predicate CutsInside(t: TornWrite) {
    Accepts(EXEC, t.frame) && t.k < |Frame(EXEC, t.frame)|
  }

  /** A refusal short enough for `write_msg` to accept. */
  type Refusal = f: ExecFrame | f.Failure? && Accepts(EXEC, f) witness Failure([])

  /** What the pumps and the writer share. `data` are the frames written whole. */
  datatype Core = Core(out: Side, err: Side, chan: seq<ExecFrame>, writer: Writer, abort: bool, data: seq<ExecFrame>)

  /** `trailer` are the frames the main task writes after the writer's. */
  datatype State = State(
    core: Core,
    main: MainTask,
    frames: nat,
    clock: nat,
    status: Option<Status>,
    trailer: seq<ExecFrame>,
    torn: Option<Torn>)

  const START: State :=
    State(Core(Side([], false, [], Unborn), Side([], false, [], Unborn), [], NoWriter, false, []),
          Spawning, 0, 0, None, [], None)

  /** Steps of whoever holds one output pipe, and of its pump. */
  datatype SideStep =
    | PipeWrite(bytes: seq<byte>)
    | PipeClose
    | PumpRead(n: nat)
    | PumpEof
    | PumpError
    | PumpSend
    | PumpOrphan
    | PumpAbort

  datatype WriterStep = Take | Start | Wrote | Breaks(torn: Torn) | Count | End

  datatype MainStep =
    | SpawnOk
    | SpawnRefused(refusal: Refusal)
    | SpawnSilent
    | Tick(d: nat)
    | ChildExits(how: Status)
    | Reap
    | WaitFails
    | DrainDone
    | DrainTimeout
    | JoinDone
    | JoinGone
    | JoinTimeout
    | ReportTruncated
    | ReportExit
    | ReportBreaks(torn: Torn)

  datatype Step = OnSide(stdout: bool, side: SideStep) | OnWriter(writer: WriterStep) | OnMain(main: MainStep)

  function Of(c: Core, stdout: bool): Side {
    if stdout then c.out else c.err
  }

  function With(c: Core, stdout: bool, side: Side): Core {
    if stdout then c.(out := side) else c.(err := side)
  }

  function DataFrame(chunk: seq<byte>, stdout: bool): ExecFrame {
    if stdout then Stdout(chunk) else Stderr(chunk)
  }

  /** The pump has returned or been dropped, so it holds no sender any more. */
  predicate Gone(p: Pump) {
    p.Done? || p.Aborted?
  }

  predicate SideEnabled(c: Core, b: bool, step: SideStep) {
    var side := Of(c, b);
    match step
    case PipeWrite(_) => !side.pump.Unborn? && !side.closed
    case PipeClose => !side.pump.Unborn? && !side.closed
    case PumpRead(n) => side.pump.Reading? && 0 < n <= EXEC_CHUNK && |side.got| + n <= |side.written|
    case PumpEof => side.pump.Reading? && side.closed && |side.got| == |side.written|
    case PumpError => side.pump.Reading?
    case PumpSend => side.pump.Sending? && |c.chan| < CHANNEL && !c.writer.Broken?
    case PumpOrphan => side.pump.Sending? && c.writer.Broken?
    case PumpAbort => c.abort && (side.pump.Reading? || side.pump.Sending?)
  }

  function SideApply(c: Core, b: bool, step: SideStep): Core
    requires SideEnabled(c, b, step)
  {
    var side := Of(c, b);
    match step
    case PipeWrite(bytes) => With(c, b, side.(written := side.written + bytes))
    case PipeClose => With(c, b, side.(closed := true))
    case PumpRead(n) =>
      var chunk := side.written[|side.got|..|side.got| + n];
      With(c, b, side.(got := side.got + chunk, pump := Sending(chunk)))
    case PumpEof => With(c, b, side.(pump := Done(SawEof)))
    case PumpError => With(c, b, side.(pump := Done(SawError)))
    case PumpSend => With(c, b, side.(pump := Reading)).(chan := c.chan + [DataFrame(side.pump.chunk, b)])
    case PumpOrphan => With(c, b, side.(pump := Done(ChannelGone)))
    case PumpAbort => With(c, b, side.(pump := Aborted))
  }

  predicate WriterEnabled(c: Core, step: WriterStep) {
    match step
    case Take => c.writer.Waiting? && c.chan != []
    case Start => c.writer.Holding?
    case Wrote => c.writer.Writing?
    case Breaks(t) => c.writer == Writing(t.frame)
    case Count => c.writer.Counting?
    case End => c.writer.Waiting? && c.chan == [] && Gone(c.out.pump) && Gone(c.err.pump)
  }

  function WriterApply(c: Core, step: WriterStep): Core
    requires WriterEnabled(c, step)
  {
    match step
    case Take => c.(writer := Holding(c.chan[0]), chan := c.chan[1..])
    case Start => c.(writer := Writing(c.writer.frame))
    case Wrote => c.(writer := Counting, data := c.data + [c.writer.frame])
    case Breaks(_) => c.(writer := Broken)
    case Count => c.(writer := Waiting)
    case End => c.(writer := Finished)
  }

  predicate Idle(s: State)
    requires s.main.Draining?
  {
    s.frames == s.main.before && !s.core.writer.Writing?
  }

  function ExitCode(e: Status): i32 {
    match e
    case Exited(c) => c
    case Signaled(n) => 128 + n
  }

  /** The frame the main task is about to write. */
  function NextReport(s: State): ExecFrame
    requires s.status.Some?
  {
    if s.main == Reporting(true) then Truncated else Exit(ExitCode(s.status.value))
  }

  predicate MainEnabled(s: State, step: MainStep) {
    match step
    case SpawnOk => s.main.Spawning?
    case SpawnRefused(_) => s.main.Spawning?
    case SpawnSilent => s.main.Spawning?
    case Tick(_) => true
    case ChildExits(_) => !s.core.writer.NoWriter? && s.status == None
    case Reap => s.main.AwaitChild? && s.status.Some?
    case WaitFails => s.main.AwaitChild?
    case DrainDone => s.main.Draining? && Gone(s.core.out.pump) && Gone(s.core.err.pump)
    case DrainTimeout => s.main.Draining? && s.clock >= s.main.deadline
    case JoinDone => s.main.Joining? && s.core.writer.Finished?
    case JoinGone => s.main.Joining? && s.core.writer.Broken?
    case JoinTimeout => s.main.Joining? && s.clock >= s.main.deadline
    case ReportTruncated => s.main == Reporting(true) && s.status.Some?
    case ReportExit => (s.main.Closing? || s.main == Reporting(false)) && s.status.Some?
    case ReportBreaks(t) => (s.main.Reporting? || s.main.Closing?) && s.status.Some? && t.frame == NextReport(s)
  }

  function MainApply(s: State, step: MainStep): State
    requires MainEnabled(s, step)
  {
    match step
    case SpawnOk =>
      var c := s.core;
      s.(core := c.(out := c.out.(pump := Reading), err := c.err.(pump := Reading), writer := Waiting), main := AwaitChild)
    case SpawnRefused(f) => s.(main := Ended, trailer := [f])
    case SpawnSilent => s.(main := Ended)
    case Tick(d) => s.(clock := s.clock + d)
    case ChildExits(e) => s.(status := Some(e))
    case Reap => s.(main := Draining(s.clock, 0, s.clock + DRAIN_IDLE, s.frames))
    case WaitFails => s.(main := Ended)
    case DrainDone => s.(main := Joining(false, s.clock + DRAIN_CAP))
    case DrainTimeout =>
      if Idle(s) || s.clock >= s.main.start + DRAIN_CAP
      then s.(core := s.core.(abort := true), main := Joining(true, s.clock + DRAIN_CAP))
      else s.(main := Draining(s.main.start, s.main.windows + 1, s.clock + DRAIN_IDLE, s.frames))
    case JoinDone => s.(main := Reporting(s.main.cut))
    case JoinGone => s.(main := Ended)
    case JoinTimeout => s.(main := Ended)
    case ReportTruncated => s.(main := Closing, trailer := s.trailer + [Truncated])
    case ReportExit => s.(main := Ended, trailer := s.trailer + [Exit(ExitCode(s.status.value))])
    case ReportBreaks(t) => s.(main := Ended, torn := Some(t))
  }

  predicate Enabled(s: State, step: Step) {
    match step
    case OnSide(b, p) => SideEnabled(s.core, b, p)
    case OnWriter(w) => WriterEnabled(s.core, w)
    case OnMain(m) => MainEnabled(s, m)
  }

  function Apply(s: State, step: Step): State
    requires Enabled(s, step)
  {
    match step
    case OnSide(b, p) => s.(core := SideApply(s.core, b, p))
    case OnWriter(w) =>
      s.(core := WriterApply(s.core, w),
         frames := if w.Count? then s.frames + 1 else s.frames,
         torn := if w.Breaks? then Some(w.torn) else s.torn)
    case OnMain(m) => MainApply(s, m)
  }

  /** Where a sequence of steps leads from `START`, if each is enabled when taken. */
  function After(steps: seq<Step>): Option<State> {
    if steps == [] then Some(START)
    else match After(steps[..|steps| - 1])
      case None => None
      case Some(s) => if Enabled(s, steps[|steps| - 1]) then Some(Apply(s, steps[|steps| - 1])) else None
  }

  // ---- The invariant ----

  predicate IsData(f: ExecFrame) {
    (f.Stdout? || f.Stderr?) && |f.bytes| <= EXEC_CHUNK
  }

  ghost predicate AllData(fs: seq<ExecFrame>) {
    forall i :: 0 <= i < |fs| ==> IsData(fs[i])
  }

  function Held(w: Writer): seq<ExecFrame> {
    if w.Holding? || w.Writing? then [w.frame] else []
  }

  /** Frames on their way from the pumps to the stream, oldest first. */
  function Flow(c: Core): seq<ExecFrame> {
    c.data + Held(c.writer) + c.chan
  }

  /** One output, with the bytes of it that `data` and the whole flow carry. Nothing a
      pump has read is reordered or duplicated, and nothing is lost unless the pump was
      aborted or the stream broke. */
  ghost predicate SideOk(side: Side, data: seq<byte>, flow: seq<byte>, w: Writer, abort: bool) {
    && side.got <= side.written
    && data <= side.got
    && (!w.Broken? ==>
          match side.pump
          case Sending(chunk) => flow + chunk == side.got
          case Aborted => flow <= side.got
          case _ => flow == side.got)
    && (side.pump.Sending? ==> |side.pump.chunk| <= EXEC_CHUNK)
    && (side.pump == Done(SawEof) ==> side.closed && side.got == side.written)
    && (side.pump == Done(ChannelGone) ==> w.Broken?)
    && (side.pump.Aborted? ==> abort)
    && (side.pump.Unborn? <==> w.NoWriter?)
  }

  ghost predicate SideInv(c: Core, b: bool) {
    SideOk(Of(c, b), BytesOf(c.data, b), BytesOf(Flow(c), b), c.writer, c.abort)
  }

  ghost predicate CoreInv(c: Core) {
    SideInv(c, true) && SideInv(c, false) && FramesInv(c)
  }

  ghost predicate FramesInv(c: Core) {
    && AllData(c.data) && AllData(c.chan) && AllData(Held(c.writer))
    && |c.chan| <= CHANNEL
    && (c.writer.NoWriter? ==> c.chan == [] && c.data == [])
    && (c.writer.Finished? ==> c.chan == [] && Gone(c.out.pump) && Gone(c.err.pump))
  }

  ghost predicate MainInv(s: State) {
    var c := s.core;
    match s.main
    case Spawning => c.writer.NoWriter? && s.trailer == [] && !c.abort
    case AwaitChild => !c.writer.NoWriter? && s.trailer == [] && !c.abort
    case Draining(start, windows, deadline, _) =>
      && !c.writer.NoWriter? && s.trailer == [] && !c.abort && s.status.Some?
      && windows <= 7 && deadline >= start + DRAIN_IDLE * (windows + 1)
    case Joining(cut, _) => !c.writer.NoWriter? && s.trailer == [] && s.status.Some? && CutInv(c, cut)
    case Reporting(cut) => c.writer.Finished? && s.trailer == [] && s.status.Some? && CutInv(c, cut)
    case Closing => c.writer.Finished? && s.trailer == [Truncated] && s.status.Some?
    case Ended => EndInv(s)
  }

  /** `drain_output` answers false only when both pumps finished by themselves. */
  ghost predicate CutInv(c: Core, cut: bool) {
    !cut ==> c.out.pump.Done? && c.err.pump.Done? && !c.abort
  }

  /** The five ways the main task can have ended. */
  ghost predicate EndInv(s: State) {
    var c := s.core;
    || (c.writer.NoWriter? && (s.trailer == [] || IsRefusal(s.trailer)))
    || (!c.writer.NoWriter? && s.trailer == [])
    || (c.writer.Finished? && s.trailer == [Truncated])
    || (Reported(s) && s.trailer == [Truncated, Exit(ExitCode(s.status.value))])
    || (Reported(s) && s.trailer == [Exit(ExitCode(s.status.value))] && c.out.pump.Done? && c.err.pump.Done?)
  }

  ghost predicate IsRefusal(trailer: seq<ExecFrame>) {
    exists r: Refusal :: trailer == [r]
  }

  predicate Reported(s: State) {
    s.core.writer.Finished? && s.status.Some? && s.torn == None
  }

  /** The part of the invariant that is about the main task. */
  ghost predicate TaskInv(s: State) {
    && (s.torn.Some? ==> s.core.writer.Broken? || (s.core.writer.Finished? && s.main.Ended?))
    && (s.core.writer.NoWriter? ==> s.status == None && (s.main.Spawning? || s.main.Ended?))
    && MainInv(s)
  }

  ghost predicate Inv(s: State) {
    CoreInv(s.core) && TaskInv(s)
  }

  // ---- Every step keeps it ----

  lemma FlowAppend(c: Core, c': Core, f: ExecFrame, b: bool)
    requires c'.data == c.data && c'.writer == c.writer && c'.chan == c.chan + [f]
    ensures BytesOf(Flow(c'), b) == BytesOf(Flow(c), b) + Payload(f, b)
    ensures Payload(f, b) == [] ==> BytesOf(Flow(c'), b) == BytesOf(Flow(c), b)
  {
    assert Flow(c') == Flow(c) + [f];
    BytesOfAppend(Flow(c), f, b);
  }

  /** A step of one output, seen from that output: only sending moves the flow. */
  lemma OwnSide(c: Core, b: bool, step: SideStep, data: seq<byte>, flow: seq<byte>, flow': seq<byte>)
    requires SideEnabled(c, b, step) && SideOk(Of(c, b), data, flow, c.writer, c.abort)
    requires flow' == if step.PumpSend? then flow + Of(c, b).pump.chunk else flow
    ensures SideOk(Of(SideApply(c, b, step), b), data, flow', c.writer, c.abort)
  {
    var side := Of(c, b);
    assert side.written[..|side.got|] == side.got;
  }

  lemma SideStepKeeps(c: Core, b: bool, step: SideStep)
    requires CoreInv(c) && SideEnabled(c, b, step)
    ensures CoreInv(SideApply(c, b, step))
  {
    var c' := SideApply(c, b, step);
    if step.PumpSend? {
      var f := DataFrame(Of(c, b).pump.chunk, b);
      FlowAppend(c, c', f, b);
      FlowAppend(c, c', f, !b);
    } else {
      assert Flow(c') == Flow(c);
    }
    OwnSide(c, b, step, BytesOf(c.data, b), BytesOf(Flow(c), b), BytesOf(Flow(c'), b));
    SideFrames(c, b, step);
    assert SideInv(c', !b);
  }

  lemma SideFrames(c: Core, b: bool, step: SideStep)
    requires FramesInv(c) && SideEnabled(c, b, step) && (step.PumpSend? ==> |Of(c, b).pump.chunk| <= EXEC_CHUNK)
    requires Of(c, b).pump.Unborn? <==> c.writer.NoWriter?
    ensures FramesInv(SideApply(c, b, step))
  {
  }

  /** The writer moves frames along without changing what flows. */
  lemma WriterFlow(c: Core, step: WriterStep)
    requires WriterEnabled(c, step) && !step.Breaks?
    ensures Flow(WriterApply(c, step)) == Flow(c)
  {
    if step.Take? {
      assert c.chan == [c.chan[0]] + c.chan[1..];
    }
  }

  lemma WroteData(c: Core, b: bool)
    requires c.writer.Writing?
    ensures BytesOf(c.data + [c.writer.frame], b) <= BytesOf(Flow(c), b)
  {
    BytesOfConcat(c.data + [c.writer.frame], c.chan, b);
  }

  /** The same on one output's bytes. */
  lemma WriterOwn(side: Side, data: seq<byte>, data': seq<byte>, flow: seq<byte>, flow': seq<byte>,
                  w: Writer, w': Writer, abort: bool)
    requires SideOk(side, data, flow, w, abort) && !w.NoWriter? && !w'.NoWriter? && !w.Broken?
    requires w'.Broken? || flow' == flow
    requires data' == data || data' <= flow
    ensures SideOk(side, data', flow', w', abort)
  {
  }

  lemma WriterSide(c: Core, step: WriterStep, b: bool)
    requires SideInv(c, b) && WriterEnabled(c, step)
    ensures SideInv(WriterApply(c, step), b)
  {
    var c' := WriterApply(c, step);
    if !step.Breaks? {
      WriterFlow(c, step);
    }
    if step.Wrote? {
      WroteData(c, b);
    }
    WriterOwn(Of(c, b), BytesOf(c.data, b), BytesOf(c'.data, b), BytesOf(Flow(c), b), BytesOf(Flow(c'), b),
              c.writer, c'.writer, c.abort);
  }

  lemma WriterStepKeeps(c: Core, step: WriterStep)
    requires CoreInv(c) && WriterEnabled(c, step)
    ensures CoreInv(WriterApply(c, step))
  {
    WriterSide(c, step, true);
    WriterSide(c, step, false);
    WriterFrames(c, step);
  }

  lemma WriterFrames(c: Core, step: WriterStep)
    requires FramesInv(c) && WriterEnabled(c, step)
    ensures FramesInv(WriterApply(c, step))
  {
  }

  lemma MainCore(s: State, step: MainStep)
    requires CoreInv(s.core) && MainInv(s) && MainEnabled(s, step)
    ensures CoreInv(MainApply(s, step).core)
  {
    if step.SpawnOk? {
      assert Flow(MainApply(s, step).core) == Flow(s.core);
    }
  }

  lemma MainTaskKeeps(s: State, step: MainStep)
    requires TaskInv(s) && FramesInv(s.core) && MainEnabled(s, step)
    requires !s.core.abort ==> !s.core.out.pump.Aborted? && !s.core.err.pump.Aborted?
    ensures TaskInv(MainApply(s, step))
  {
  }

  lemma OtherTask(s: State, step: Step)
    requires TaskInv(s) && FramesInv(s.core) && Enabled(s, step) && !step.OnMain?
    requires s.core.writer.NoWriter? ==> s.core.out.pump.Unborn? && s.core.err.pump.Unborn?
    ensures TaskInv(Apply(s, step))
  {
  }

  /** Every step keeps the invariant. */
  lemma StepKeepsInv(s: State, step: Step)
    requires Inv(s) && Enabled(s, step)
    ensures Inv(Apply(s, step))
  {
    match step
    case OnSide(b, p) =>
      SideStepKeeps(s.core, b, p);
      OtherTask(s, step);
    case OnWriter(w) =>
      WriterStepKeeps(s.core, w);
      OtherTask(s, step);
    case OnMain(m) =>
      MainCore(s, m);
      MainTaskKeeps(s, m);
  }

  lemma {:induction false} RunKeepsInv(steps: seq<Step>)
    requires After(steps).Some?
    ensures Inv(After(steps).value)
  {
    if steps != [] {
      RunKeepsInv(steps[..|steps| - 1]);
      StepKeepsInv(After(steps[..|steps| - 1]).value, steps[|steps| - 1]);
    }
  }
}
