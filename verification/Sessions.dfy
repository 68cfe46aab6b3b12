/** The controller's session registry and approval gate (src/controller.rs), with the
    agent's half of the gate (src/agent.rs), as interleaved steps: dials, closes, accept
    tasks, close watchers, endpoint rebuilds, edits of the approved list, routing, and
    agents reading their admission and serving. */
module Sessions {
  import opened Prelude
  import opened Postcard
  import opened Wire

  /** An agent's public key as printed: all of one length. */
  type Key = k: string | |k| == 64 witness seq(64, i => '0')

  /** `sid` is the connection's stable id. It is an address, so it is reused once
      nothing holds the connection any more. */
  datatype Conn = Conn(peer: Key, sid: nat, open: bool)

  /** An accept task: about to judge, holding a pending agent, admitted, or listed in
      the session map but not yet watched. */
  datatype Stage = Judging | Waiting | Admitted | Listed

  /** `latest` is history: each peer's most recent insertion since the last rebuild. */
  datatype Registry = Registry(
    conns: map<nat, Conn>,
    tasks: map<nat, Stage>,
    watchers: set<nat>,
    sessions: map<Key, nat>,
    latest: map<Key, nat>,
    rebuilding: bool)

  /** The approved list now, the admission each connection was sent, the connections
      their agent serves, and the connection each request stream is on. */
  datatype Gate = Gate(
    approved: set<Key>,
    verdict: map<nat, Admission>,
    serving: set<nat>,
    streams: map<nat, nat>)

  datatype State = State(reg: Registry, gate: Gate)

  const START := State(Registry(map[], map[], {}, map[], map[], false), Gate({}, map[], {}, map[]))

  datatype RegStep =
    | Dial(conn: nat, peer: Key, sid: nat)
    | Close(conn: nat)
    | Drop(conn: nat)
    | Insert(conn: nat)
    | Watch(conn: nat)
    | Notice(conn: nat)
    | BeginRebuild
    | Abort(conn: nat)
    | Clear

  datatype Step =
    | OnRegistry(step: RegStep)
    | EditApproved(keys: set<Key>)
    | Judge(conn: nat, readable: bool)
    | Route(selector: string, peer: Key, stream: nat)
    | AgentReads(conn: nat, k: nat, tail: Tail)
    | AgentHandles(stream: nat)

  // ---- The registry ----

  /** Connections some task, watcher or map entry keeps alive. */
  predicate Holds(r: Registry, c: nat) {
    c in r.tasks || c in r.watchers || c in r.sessions.Values
  }

  predicate RegEnabled(r: Registry, step: RegStep) {
    match step
    case Dial(c, _, sid) => c !in r.conns && (forall d :: d in r.conns && Holds(r, d) ==> r.conns[d].sid != sid)
    case Close(c) => c in r.conns
    case Drop(c) => c in r.tasks && r.tasks[c] != Listed
    case Insert(c) => c in r.conns && c in r.tasks && r.tasks[c] == Admitted
    case Watch(c) => c in r.tasks && r.tasks[c] == Listed
    case Notice(c) => c in r.conns && c in r.watchers && !r.conns[c].open
    case BeginRebuild => true
    case Abort(c) => r.rebuilding && c in r.tasks
    case Clear => r.rebuilding
  }

  /** The close watcher's decision: only its own entry, told by stable id, goes. */
  function AfterNotice(r: Registry, c: nat): map<Key, nat>
    requires c in r.conns
  {
    var peer := r.conns[c].peer;
    if peer in r.sessions && r.sessions[peer] in r.conns && r.conns[r.sessions[peer]].sid == r.conns[c].sid
    then r.sessions - {peer}
    else r.sessions
  }

  function RegApply(r: Registry, step: RegStep): Registry
    requires RegEnabled(r, step)
  {
    match step
    case Dial(c, peer, sid) => r.(conns := r.conns[c := Conn(peer, sid, true)], tasks := r.tasks[c := Judging])
    case Close(c) => r.(conns := r.conns[c := r.conns[c].(open := false)])
    case Drop(c) => r.(tasks := r.tasks - {c})
    case Insert(c) =>
      var peer := r.conns[c].peer;
      r.(tasks := r.tasks[c := Listed], sessions := r.sessions[peer := c], latest := r.latest[peer := c])
    case Watch(c) => r.(tasks := r.tasks - {c}, watchers := r.watchers + {c})
    case Notice(c) => r.(sessions := AfterNotice(r, c), watchers := r.watchers - {c})
    case BeginRebuild => r.(rebuilding := true)
    case Abort(c) => r.(tasks := r.tasks - {c})
    case Clear => r.(sessions := map[], latest := map[], rebuilding := false)
  }

  /** Nothing held is unknown, and stable ids are distinct among what is held. */
  ghost predicate HeldInv(r: Registry) {
    && (forall c :: Holds(r, c) ==> c in r.conns)
    && (forall c, d :: Holds(r, c) && Holds(r, d) && r.conns[c].sid == r.conns[d].sid ==> c == d)
  }

  /** An entry is its peer's latest insertion and has a watcher coming; a peer without
      an entry has had its latest connection closed. */
  ghost predicate EntryInv(r: Registry) {
    && (forall k :: k in r.sessions ==>
          && r.sessions[k] in r.conns && r.conns[r.sessions[k]].peer == k
          && k in r.latest && r.latest[k] == r.sessions[k]
          && (r.rebuilding || r.sessions[k] in r.watchers
              || (r.sessions[k] in r.tasks && r.tasks[r.sessions[k]] == Listed)))
    && (forall k :: k in r.latest ==>
          && r.latest[k] in r.conns
          && (k in r.sessions || !r.conns[r.latest[k]].open))
  }

  ghost predicate RegInv(r: Registry) {
    HeldInv(r) && EntryInv(r)
  }

  /** A late close never evicts a newer connection: the watcher removes its own entry
      and no other. */
  lemma NoticeEvictsOnlyItself(r: Registry, c: nat)
    requires RegInv(r) && RegEnabled(r, Notice(c))
    ensures RegApply(r, Notice(c)).sessions ==
            if r.conns[c].peer in r.sessions && r.sessions[r.conns[c].peer] == c
            then r.sessions - {r.conns[c].peer} else r.sessions
  {
    var peer := r.conns[c].peer;
    if peer in r.sessions {
      assert Holds(r, r.sessions[peer]) && Holds(r, c);
    }
  }

  lemma RegStepKeepsHeld(r: Registry, step: RegStep)
    requires RegInv(r) && RegEnabled(r, step)
    ensures HeldInv(RegApply(r, step))
  {
    var r' := RegApply(r, step);
    forall c | Holds(r', c)
      ensures c in r'.conns && (Holds(r, c) || (step.Dial? && c == step.conn))
    {
      if c in r'.sessions.Values {
        var k :| k in r'.sessions && r'.sessions[k] == c;
        assert (k in r.sessions && r.sessions[k] == c) || (step.Insert? && c == step.conn);
      }
    }
  }

  lemma RegStepKeepsEntries(r: Registry, step: RegStep)
    requires RegInv(r) && RegEnabled(r, step)
    ensures EntryInv(RegApply(r, step))
  {
    if step.Notice? {
      NoticeEvictsOnlyItself(r, step.conn);
    }
  }

  /** Every watcher has run for every closed connection, and no insertion is still
      waiting for its watcher. */
  ghost predicate CaughtUp(r: Registry) {
    && !r.rebuilding
    && (forall c :: c in r.tasks ==> r.tasks[c] != Listed)
    && (forall c :: c in r.watchers && c in r.conns ==> r.conns[c].open)
  }

  /** Then the map holds a peer exactly when its most recently inserted connection
      since the last rebuild is still open, and that is the connection it holds. */
  lemma MapIsRight(r: Registry, k: Key)
    requires RegInv(r) && CaughtUp(r)
    ensures k in r.sessions <==> k in r.latest && r.latest[k] in r.conns && r.conns[r.latest[k]].open
    ensures k in r.sessions ==> r.sessions[k] == r.latest[k]
  {
    if k in r.sessions {
      assert r.sessions[k] in r.watchers;
    }
  }

  // ---- Choosing an agent ----

  /** `selector` has been trimmed and lower-cased. */
  predicate Matches(k: Key, selector: string) {
    selector == "" || selector == "any" || selector <= k
  }

  /** `pick` answers with a peer only when exactly one connected peer matches. */
  predicate Picks(sessions: map<Key, nat>, selector: string, k: Key) {
    && k in sessions && Matches(k, selector)
    && (forall k' :: k' in sessions && Matches(k', selector) ==> k' == k)
  }

  datatype Choice = NobodyConnected | NoMatch | Ambiguous(n: nat) | Picked(peer: Key, conn: nat)

  function Candidates(sessions: map<Key, nat>, selector: string): set<Key> {
    set k | k in sessions && Matches(k, selector)
  }

  /** The entries that match, in any order. */
  method Collect(sessions: map<Key, nat>, selector: string) returns (matches: seq<Key>)
    ensures |matches| == |Candidates(sessions, selector)|
    ensures forall k :: k in matches <==> k in Candidates(sessions, selector)
  {
    matches := [];
    var left := sessions.Keys;
    ghost var all := Candidates(sessions, selector);
    while left != {}
      invariant left <= sessions.Keys
      invariant |matches| == |all - left|
      invariant forall k :: k in matches <==> k in all - left
      decreases |left|
    {
      var k :| k in left;
      if Matches(k, selector) {
        matches := matches + [k];
        assert all - (left - {k}) == all - left + {k};
      } else {
        assert all - (left - {k}) == all - left;
      }
      left := left - {k};
    }
    assert all - left == all;
  }

  /** `pick`: the matching entries are collected, and one is an answer. */
  method Pick(sessions: map<Key, nat>, selector: string) returns (r: Choice)
    ensures r == NobodyConnected <==> sessions == map[]
    ensures r == NoMatch <==> sessions != map[] && Candidates(sessions, selector) == {}
    ensures r.Ambiguous? <==> |Candidates(sessions, selector)| > 1
    ensures r.Ambiguous? ==> r.n == |Candidates(sessions, selector)|
    ensures r.Picked? ==> Picks(sessions, selector, r.peer) && r.conn == sessions[r.peer]
  {
    var matches := Collect(sessions, selector);
    if |matches| == 0 {
      r := if sessions == map[] then NobodyConnected else NoMatch;
    } else if |matches| == 1 {
      OnlyOne(sessions, selector, matches[0]);
      r := Picked(matches[0], sessions[matches[0]]);
    } else {
      r := Ambiguous(|matches|);
    }
  }

  lemma OnlyOne(sessions: map<Key, nat>, selector: string, k: Key)
    requires k in Candidates(sessions, selector) && |Candidates(sessions, selector)| == 1
    ensures Picks(sessions, selector, k)
  {
    var rest := Candidates(sessions, selector) - {k};
    assert |rest| == 0;
    forall k' | k' in sessions && Matches(k', selector)
      ensures k' == k
    {
      assert k' != k ==> k' in rest;
    }
  }

  /** Naming a whole key picks that agent or nobody. */
  lemma PickByFullKey(sessions: map<Key, nat>, k: Key, other: Key)
    ensures Picks(sessions, k, k) <==> k in sessions
    ensures Picks(sessions, k, other) ==> other == k
  {
    assert forall k': Key :: Matches(k', k) ==> k' == k;
  }

  /** The empty selector and `any` pick the only connected agent, if there is one only. */
  lemma PickAny(sessions: map<Key, nat>, selector: string, k: Key)
    requires selector in {"", "any"}
    ensures Picks(sessions, selector, k) <==> sessions.Keys == {k}
  {
  }

  /** Anything else picks the connected agent whose key begins with it, if one only does. */
  lemma PickByPrefix(sessions: map<Key, nat>, selector: string, k: Key)
    requires selector !in {"", "any"}
    ensures Picks(sessions, selector, k)
      <==> k in sessions && k[..Least(|selector|, 64)] == selector
           && forall other :: other in sessions && other[..Least(|selector|, 64)] == selector ==> other == k
  {
    assert forall other: Key :: selector <= other <==> other[..Least(|selector|, 64)] == selector;
  }

  function Least(a: nat, b: nat): nat {
    if a < b then a else b
  }

  // ---- The gate ----

  /** The agent reads one message off whatever part of the admission stream has reached
      it, and goes on only if that message is `Approved`. */
  predicate ReadsApproved(sent: Admission, k: nat, tail: Tail) {
    AdmissionAccepted(sent);
    var stream := Frame(ADMISSION, sent);
    k <= |stream| && ReadOne(ADMISSION, stream[..k], tail) == Msg(Approved, [])
  }

  lemma AdmissionAccepted(a: Admission)
    ensures Accepts(ADMISSION, a)
  {
  }

  /** Exactly when `Approved` was sent and all of it has arrived. */
  lemma ReadsWhatWasSent(sent: Admission, k: nat, tail: Tail)
    ensures Accepts(ADMISSION, sent)
    ensures ReadsApproved(sent, k, tail) <==> sent == Approved && k == |Frame(ADMISSION, sent)|
  {
    AdmissionAccepted(sent);
    AdmissionFaithful();
    var stream := Frame(ADMISSION, sent);
    assert stream + [] == stream;
    if k <= |stream| {
      ReadOneFrame(ADMISSION, sent, [], k, tail);
    }
  }

  predicate Enabled(s: State, step: Step) {
    match step
    case OnRegistry(r) => RegEnabled(s.reg, r)
    case EditApproved(_) => true
    case Judge(c, _) => c in s.reg.conns && c in s.reg.tasks && s.reg.tasks[c] == Judging
    case Route(sel, k, stream) => Picks(s.reg.sessions, sel, k) && stream !in s.gate.streams
    case AgentReads(c, k, tail) => c in s.gate.verdict && ReadsApproved(s.gate.verdict[c], k, tail)
    case AgentHandles(t) => t in s.gate.streams && s.gate.streams[t] in s.gate.serving
  }

  function Apply(s: State, step: Step): State
    requires Enabled(s, step)
  {
    var g := s.gate;
    match step
    case OnRegistry(r) => s.(reg := RegApply(s.reg, r))
    case EditApproved(keys) => s.(gate := g.(approved := keys))
    case Judge(c, readable) =>
      var ok := readable && s.reg.conns[c].peer in g.approved;
      State(s.reg.(tasks := s.reg.tasks[c := if ok then Admitted else Stage.Waiting]),
            g.(verdict := g.verdict[c := if ok then Approved else Pending]))
    case Route(_, k, stream) => s.(gate := g.(streams := g.streams[stream := s.reg.sessions[k]]))
    case AgentReads(c, _, _) => s.(gate := g.(serving := g.serving + {c}))
    case AgentHandles(t) => s
  }

  /** The connection was judged and told `Approved`. */
  ghost predicate Vouched(s: State, c: nat) {
    c in s.reg.conns && c in s.gate.verdict && s.gate.verdict[c] == Approved
  }

  ghost predicate GateInv(s: State) {
    && (forall c :: c in s.gate.verdict ==> c in s.reg.conns && (c in s.reg.tasks ==> s.reg.tasks[c] != Judging))
    && (forall c :: c in s.reg.tasks && (s.reg.tasks[c] == Admitted || s.reg.tasks[c] == Listed) ==> Vouched(s, c))
    && (forall k :: k in s.reg.sessions ==> Vouched(s, s.reg.sessions[k]))
    && (forall c :: c in s.gate.serving ==> Vouched(s, c))
    && (forall t :: t in s.gate.streams ==> Vouched(s, s.gate.streams[t]))
  }

  ghost predicate Inv(s: State) {
    RegInv(s.reg) && GateInv(s)
  }

  lemma PeersStay(r: Registry, step: RegStep, c: nat)
    requires RegEnabled(r, step) && c in r.conns
    ensures c in RegApply(r, step).conns && RegApply(r, step).conns[c].peer == r.conns[c].peer
  {
  }

  lemma RegistryKeepsGate(s: State, step: RegStep)
    requires Inv(s) && RegEnabled(s.reg, step)
    ensures GateInv(s.(reg := RegApply(s.reg, step)))
  {
    var s' := s.(reg := RegApply(s.reg, step));
    forall c | Vouched(s, c)
      ensures Vouched(s', c)
    {
      PeersStay(s.reg, step, c);
    }
    forall k | k in s'.reg.sessions
      ensures Vouched(s', s'.reg.sessions[k])
    {
      assert (k in s.reg.sessions && s'.reg.sessions[k] == s.reg.sessions[k]) || (step.Insert? && s'.reg.sessions[k] == step.conn);
    }
  }

  lemma JudgeKeepsGate(s: State, step: Step)
    requires Inv(s) && Enabled(s, step) && step.Judge?
    ensures GateInv(Apply(s, step))
  {
    var s' := Apply(s, step);
    forall c | Vouched(s, c)
      ensures Vouched(s', c)
    {
      assert c != step.conn;
    }
  }

  lemma AgentKeepsGate(s: State, step: Step)
    requires Inv(s) && Enabled(s, step) && (step.AgentReads? || step.AgentHandles?)
    ensures GateInv(Apply(s, step))
  {
    if step.AgentReads? {
      ReadsWhatWasSent(s.gate.verdict[step.conn], step.k, step.tail);
    }
    assert forall c :: Vouched(s, c) ==> Vouched(Apply(s, step), c);
  }

  lemma OtherKeepsGate(s: State, step: Step)
    requires Inv(s) && Enabled(s, step) && (step.EditApproved? || step.Route?)
    ensures GateInv(Apply(s, step))
  {
    assert forall c :: Vouched(s, c) ==> Vouched(Apply(s, step), c);
  }

  lemma StepKeepsGate(s: State, step: Step)
    requires Inv(s) && Enabled(s, step)
    ensures GateInv(Apply(s, step))
  {
    if step.OnRegistry? {
      RegistryKeepsGate(s, step.step);
    } else if step.Judge? {
      JudgeKeepsGate(s, step);
    } else if step.AgentReads? || step.AgentHandles? {
      AgentKeepsGate(s, step);
    } else {
      OtherKeepsGate(s, step);
    }
  }

  lemma StepKeepsInv(s: State, step: Step)
    requires Inv(s) && Enabled(s, step)
    ensures Inv(Apply(s, step))
  {
    StepKeepsGate(s, step);
    if step.OnRegistry? {
      RegStepKeepsHeld(s.reg, step.step);
      RegStepKeepsEntries(s.reg, step.step);
    } else {
      assert forall c :: Holds(Apply(s, step).reg, c) <==> Holds(s.reg, c);
    }
  }

  /** Where a sequence of steps leads from `s`, if each is enabled when taken. */
  function From(s: State, steps: seq<Step>): Option<State> {
    if steps == [] then Some(s)
    else match From(s, steps[..|steps| - 1])
      case None => None
      case Some(t) => if Enabled(t, steps[|steps| - 1]) then Some(Apply(t, steps[|steps| - 1])) else None
  }

  function After(steps: seq<Step>): Option<State> {
    From(START, steps)
  }

  lemma {:induction false} RunKeepsInv(steps: seq<Step>)
    requires After(steps).Some?
    ensures Inv(After(steps).value)
  {
    if steps != [] {
      RunKeepsInv(steps[..|steps| - 1]);
      StepKeepsInv(After(steps[..|steps| - 1]).value, steps[|steps| - 1]);
    }
  }
}
