/** What holds of the session registry and the approval gate in every run, in terms of
    the steps of the run alone. */
module SessionRuns {
  import opened Prelude
  import opened Postcard
  import opened Sessions
  import opened Wire

  // ---- A run, told from its steps ----

  /** Who dialled connection `c`. */
  function PeerOf(steps: seq<Step>, c: nat): Option<Key> {
    if steps == [] then None
    else match steps[|steps| - 1]
      case OnRegistry(Dial(d, peer, _)) => if d == c then Some(peer) else PeerOf(steps[..|steps| - 1], c)
      case _ => PeerOf(steps[..|steps| - 1], c)
  }

  predicate Dialled(steps: seq<Step>, c: nat) {
    PeerOf(steps, c).Some?
  }

  predicate Closed(steps: seq<Step>, c: nat) {
    OnRegistry(Close(c)) in steps
  }

  /** The connection most recently entered for a peer since the last rebuild. */
  function LastInserted(steps: seq<Step>, k: Key): Option<nat> {
    if steps == [] then None
    else
      var prev := steps[..|steps| - 1];
      match steps[|steps| - 1]
      case OnRegistry(Insert(c)) => if PeerOf(prev, c) == Some(k) then Some(c) else LastInserted(prev, k)
      case OnRegistry(Clear) => None
      case _ => LastInserted(prev, k)
  }

  /** The approved list as last edited. */
  function ApprovedAt(steps: seq<Step>): set<Key> {
    if steps == [] then {}
    else match steps[|steps| - 1]
      case EditApproved(keys) => keys
      case _ => ApprovedAt(steps[..|steps| - 1])
  }

  /** Connection `c` was judged by a readable list that had its peer at that moment. */
  ghost predicate Admitted(steps: seq<Step>, c: nat) {
    exists i :: 0 <= i < |steps| && AdmittedAt(steps, c, i)
  }

  ghost predicate AdmittedAt(steps: seq<Step>, c: nat, i: nat)
    requires i < |steps|
  {
    steps[i] == Judge(c, true) && PeerOf(steps[..i], c).Some? && PeerOf(steps[..i], c).value in ApprovedAt(steps[..i])
  }

  /** Its agent read its admission after that. */
  ghost predicate Served(steps: seq<Step>, c: nat) {
    exists j :: 0 <= j < |steps| && ServedAt(steps, c, j)
  }

  ghost predicate ServedAt(steps: seq<Step>, c: nat, j: nat)
    requires j < |steps|
  {
    steps[j].AgentReads? && steps[j].conn == c && Admitted(steps[..j], c)
  }

  /** A request was routed over connection `c`, the latest of the peer it was for. */
  ghost predicate Routed(steps: seq<Step>, stream: nat, c: nat) {
    exists i :: 0 <= i < |steps| && RoutedAt(steps, stream, c, i)
  }

  ghost predicate RoutedAt(steps: seq<Step>, stream: nat, c: nat, i: nat)
    requires i < |steps|
  {
    steps[i].Route? && steps[i].stream == stream && LastInserted(steps[..i], steps[i].peer) == Some(c)
  }

  // ---- The state remembers it rightly ----

  predicate IsDial(step: Step, c: nat) {
    step.OnRegistry? && step.step.Dial? && step.step.conn == c
  }

  ghost predicate ConnMoved(was: map<nat, Conn>, now: map<nat, Conn>, step: Step, c: nat) {
    && (c in now <==> c in was || IsDial(step, c)) && (IsDial(step, c) ==> c !in was)
    && (step == OnRegistry(Close(c)) ==> c in was)
    && (c in now ==> now[c].peer == if IsDial(step, c) then step.step.peer else was[c].peer)
    && (c in now ==> now[c].open == (IsDial(step, c) || (was[c].open && step != OnRegistry(Close(c)))))
  }

  lemma RegConnStep(r: Registry, step: RegStep, c: nat)
    requires RegEnabled(r, step)
    ensures ConnMoved(r.conns, RegApply(r, step).conns, OnRegistry(step), c)
  {
  }

  lemma ConnStep(s: State, step: Step, c: nat)
    requires Enabled(s, step)
    ensures ConnMoved(s.reg.conns, Apply(s, step).reg.conns, step, c)
  {
    if step.OnRegistry? {
      RegConnStep(s.reg, step.step, c);
    } else {
      assert Apply(s, step).reg.conns == s.reg.conns;
    }
  }

  lemma {:induction false} ConnTold(steps: seq<Step>, c: nat)
    requires After(steps).Some?
    ensures var conns := After(steps).value.reg.conns;
      && (c in conns <==> Dialled(steps, c))
      && (c in conns ==> conns[c].peer == PeerOf(steps, c).value)
      && (c in conns ==> (conns[c].open <==> !Closed(steps, c)))
      && (Closed(steps, c) ==> c in conns)
  {
    if steps != [] {
      var prev, step := steps[..|steps| - 1], steps[|steps| - 1];
      ConnTold(prev, c);
      ConnStep(After(prev).value, step, c);
      assert steps == prev + [step];
    }
  }

  lemma {:induction false} LatestTold(steps: seq<Step>, k: Key)
    requires After(steps).Some?
    ensures var latest := After(steps).value.reg.latest;
      LastInserted(steps, k) == if k in latest then Some(latest[k]) else None
  {
    if steps != [] {
      var prev, step := steps[..|steps| - 1], steps[|steps| - 1];
      LatestTold(prev, k);
      if step.OnRegistry? && step.step.Insert? {
        ConnTold(prev, step.step.conn);
      }
    }
  }

  lemma {:induction false} ApprovedTold(steps: seq<Step>)
    requires After(steps).Some?
    ensures After(steps).value.gate.approved == ApprovedAt(steps)
  {
    if steps != [] {
      ApprovedTold(steps[..|steps| - 1]);
    }
  }

  lemma AdmittedLater(steps: seq<Step>, step: Step, c: nat)
    requires Admitted(steps, c)
    ensures Admitted(steps + [step], c)
  {
    var i :| 0 <= i < |steps| && AdmittedAt(steps, c, i);
    assert (steps + [step])[..i] == steps[..i];
    assert AdmittedAt(steps + [step], c, i);
  }

  lemma ServedLater(steps: seq<Step>, step: Step, c: nat)
    requires Served(steps, c)
    ensures Served(steps + [step], c)
  {
    var j :| 0 <= j < |steps| && ServedAt(steps, c, j);
    assert (steps + [step])[..j] == steps[..j];
    assert ServedAt(steps + [step], c, j);
  }

  lemma RoutedLater(steps: seq<Step>, step: Step, stream: nat, c: nat)
    requires Routed(steps, stream, c)
    ensures Routed(steps + [step], stream, c)
  {
    var i :| 0 <= i < |steps| && RoutedAt(steps, stream, c, i);
    assert (steps + [step])[..i] == steps[..i];
    assert RoutedAt(steps + [step], stream, c, i);
  }

  lemma AdmittedNow(prev: seq<Step>, c: nat)
    requires PeerOf(prev, c).Some? && PeerOf(prev, c).value in ApprovedAt(prev)
    ensures Admitted(prev + [Judge(c, true)], c)
  {
    var steps := prev + [Judge(c, true)];
    assert steps[..|prev|] == prev;
    assert AdmittedAt(steps, c, |prev|);
  }

  /** `Approved` was sent only to a connection that was admitted. */
  lemma {:induction false} VerdictTold(steps: seq<Step>, c: nat)
    requires After(steps).Some?
    requires var g := After(steps).value.gate; c in g.verdict && g.verdict[c] == Approved
    ensures Admitted(steps, c)
  {
    var prev, step := steps[..|steps| - 1], steps[|steps| - 1];
    assert steps == prev + [step];
    if step.Judge? && step.conn == c {
      ConnTold(prev, c);
      ApprovedTold(prev);
      AdmittedNow(prev, c);
    } else {
      VerdictTold(prev, c);
      AdmittedLater(prev, step, c);
    }
  }

  lemma {:induction false} ServingTold(steps: seq<Step>, c: nat)
    requires After(steps).Some? && c in After(steps).value.gate.serving
    ensures Served(steps, c)
  {
    var prev, step := steps[..|steps| - 1], steps[|steps| - 1];
    assert steps == prev + [step];
    if step.AgentReads? && step.conn == c {
      ReadsWhatWasSent(After(prev).value.gate.verdict[c], step.k, step.tail);
      VerdictTold(prev, c);
      assert steps[..|prev|] == prev;
      assert ServedAt(steps, c, |prev|);
    } else {
      ServingTold(prev, c);
      ServedLater(prev, step, c);
    }
  }

  lemma {:induction false} StreamTold(steps: seq<Step>, stream: nat)
    requires After(steps).Some? && stream in After(steps).value.gate.streams
    ensures Routed(steps, stream, After(steps).value.gate.streams[stream])
  {
    var prev, step := steps[..|steps| - 1], steps[|steps| - 1];
    var c := After(steps).value.gate.streams[stream];
    assert steps == prev + [step];
    if step.Route? && step.stream == stream {
      RunKeepsInv(prev);
      LatestTold(prev, step.peer);
      assert steps[..|prev|] == prev;
      assert RoutedAt(steps, stream, c, |prev|);
    } else {
      StreamTold(prev, stream);
      RoutedLater(prev, step, stream, c);
    }
  }

  // ---- The theorems ----

  /** In every run, once the watchers have caught up: the map holds a peer exactly when
      the connection most recently inserted for it since the last rebuild has not been
      closed, and that is the connection it holds. */
  lemma RegistryTheorem(steps: seq<Step>, s: State, k: Key)
    requires After(steps) == Some(s) && CaughtUp(s.reg)
    ensures k in s.reg.sessions <==> LastInserted(steps, k).Some? && !Closed(steps, LastInserted(steps, k).value)
    ensures k in s.reg.sessions ==> LastInserted(steps, k) == Some(s.reg.sessions[k])
  {
    RunKeepsInv(steps);
    MapIsRight(s.reg, k);
    LatestTold(steps, k);
    if k in s.reg.latest {
      ConnTold(steps, s.reg.latest[k]);
    }
  }

  /** In every run, a request an agent handles came over a connection whose peer was on
      the approved list when the connection was judged, and the agent had read its
      admission on it after that and before handling anything. */
  lemma GateTheorem(steps: seq<Step>, s: State, stream: nat) returns (c: nat)
    requires After(steps) == Some(s) && Enabled(s, AgentHandles(stream))
    ensures Routed(steps, stream, c) && Served(steps, c)
  {
    c := s.gate.streams[stream];
    StreamTold(steps, stream);
    ServingTold(steps, c);
  }

  // ---- Nothing stands in the way ----

  lemma OneMore(s: State, steps: seq<Step>, t: State, step: Step) returns (steps': seq<Step>, t': State)
    requires From(s, steps) == Some(t) && Enabled(t, step)
    ensures From(s, steps') == Some(t') && t' == Apply(t, step)
  {
    steps', t' := steps + [step], Apply(t, step);
    assert steps'[..|steps|] == steps;
  }

  /** Whatever else is going on, a peer on a readable approved list that dials is listed:
      over an older connection if it has one. */
  lemma DialIsListed(s: State, c: nat, peer: Key, sid: nat) returns (run: seq<Step>, t: State)
    requires c !in s.reg.conns && c !in s.reg.tasks && peer in s.gate.approved
    requires forall d :: d in s.reg.conns && Holds(s.reg, d) ==> s.reg.conns[d].sid != sid
    ensures From(s, run) == Some(t) && peer in t.reg.sessions && t.reg.sessions[peer] == c
    ensures forall k :: k in s.reg.sessions && k != peer ==> k in t.reg.sessions && t.reg.sessions[k] == s.reg.sessions[k]
  {
    run, t := OneMore(s, [], s, OnRegistry(Dial(c, peer, sid)));
    run, t := OneMore(s, run, t, Judge(c, true));
    run, t := OneMore(s, run, t, OnRegistry(Insert(c)));
  }

  /** And a request for a listed peer gets through: it is routed over that connection,
      whose agent can read its admission whole and then handle it. */
  lemma RequestGetsThrough(s: State, selector: string, k: Key, stream: nat) returns (run: seq<Step>, t: State)
    requires Inv(s) && Picks(s.reg.sessions, selector, k) && stream !in s.gate.streams
    ensures From(s, run) == Some(t) && Enabled(t, AgentHandles(stream)) && t.gate.streams[stream] == s.reg.sessions[k]
  {
    var c := s.reg.sessions[k];
    assert Vouched(s, c);
    AdmissionAccepted(Approved);
    ReadsWhatWasSent(Approved, |Frame(ADMISSION, Approved)|, Eof);
    run, t := OneMore(s, [], s, AgentReads(c, |Frame(ADMISSION, Approved)|, Eof));
    run, t := OneMore(s, run, t, Route(selector, k, stream));
  }

  /** What may happen at any time: a connection closes, the list is edited or cannot be
      read, an accept task ends before it lists anything, the endpoint is rebuilt. */
  lemma AtAnyTime(s: State, c: nat, keys: set<Key>)
    ensures c in s.reg.conns ==> Enabled(s, OnRegistry(Close(c)))
    ensures Enabled(s, EditApproved(keys)) && Enabled(s, OnRegistry(BeginRebuild))
    ensures Enabled(Apply(s, OnRegistry(BeginRebuild)), OnRegistry(Clear))
    ensures c in s.reg.conns && c in s.reg.tasks && s.reg.tasks[c] == Judging ==> Enabled(s, Judge(c, false))
    ensures s.reg.rebuilding && c in s.reg.tasks ==> Enabled(s, OnRegistry(Abort(c)))
    ensures c in s.reg.tasks && s.reg.tasks[c] != Listed ==>
      Enabled(s, OnRegistry(Drop(c))) && c !in Apply(s, OnRegistry(Drop(c))).reg.tasks
  {
  }

  predicate ListedTask(r: Registry, c: nat) {
    c in r.tasks && r.tasks[c] == Listed
  }

  predicate Due(r: Registry, c: nat) {
    c in r.watchers && c in r.conns && !r.conns[c].open
  }

  /** What is left for the watchers to do. */
  function Work(r: Registry): nat {
    2 * |r.tasks| + |r.watchers|
  }

  lemma WatchWorks(r: Registry, c: nat)
    requires ListedTask(r, c)
    ensures RegEnabled(r, Watch(c)) && Work(RegApply(r, Watch(c))) < Work(r)
  {
    assert |r.tasks.Keys| == |r.tasks| && (r.tasks - {c}).Keys == r.tasks.Keys - {c};
    assert |(r.tasks - {c}).Keys| == |r.tasks - {c}|;
  }

  lemma NoticeWorks(r: Registry, c: nat)
    requires Due(r, c)
    ensures RegEnabled(r, Notice(c)) && Work(RegApply(r, Notice(c))) < Work(r)
  {
  }

  /** From every state the watchers can catch up by themselves, closing nothing and
      changing no peer's latest connection. */
  lemma {:induction false} WatchersCatchUp(s: State) returns (run: seq<Step>, t: State)
    requires !s.reg.rebuilding
    ensures From(s, run) == Some(t) && CaughtUp(t.reg)
    ensures t.reg.conns == s.reg.conns && t.reg.latest == s.reg.latest && t.gate == s.gate
    decreases Work(s.reg), 1
  {
    if exists c :: ListedTask(s.reg, c) {
      var c :| ListedTask(s.reg, c);
      WatchWorks(s.reg, c);
      run, t := CatchUpAfter(s, Watch(c));
    } else if exists c :: Due(s.reg, c) {
      var c :| Due(s.reg, c);
      NoticeWorks(s.reg, c);
      run, t := CatchUpAfter(s, Notice(c));
    } else {
      run, t := [], s;
      assert forall c :: c in s.reg.tasks ==> !ListedTask(s.reg, c);
      assert forall c :: c in s.reg.watchers ==> !Due(s.reg, c);
    }
  }

  lemma {:induction false} CatchUpAfter(s: State, step: RegStep) returns (run: seq<Step>, t: State)
    requires !s.reg.rebuilding && RegEnabled(s.reg, step) && (step.Watch? || step.Notice?)
    requires Work(RegApply(s.reg, step)) < Work(s.reg)
    ensures From(s, run) == Some(t) && CaughtUp(t.reg)
    ensures t.reg.conns == s.reg.conns && t.reg.latest == s.reg.latest && t.gate == s.gate
    decreases Work(s.reg), 0
  {
    var s1 := Apply(s, OnRegistry(step));
    run, t := WatchersCatchUp(s1);
    FromCons(s, OnRegistry(step), run);
    run := [OnRegistry(step)] + run;
  }

  lemma {:induction false} FromCons(s: State, step: Step, run: seq<Step>)
    requires Enabled(s, step)
    ensures From(s, [step] + run) == From(Apply(s, step), run)
  {
    var all := [step] + run;
    if run == [] {
      assert all == [step] && all[..0] == [];
    } else {
      FromCons(s, step, run[..|run| - 1]);
      assert all[..|all| - 1] == [step] + run[..|run| - 1];
    }
  }
}
