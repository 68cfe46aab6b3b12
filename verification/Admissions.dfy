/** Dials and approvals over the state directory (src/state.rs, and the gate at the top
    of `Acceptor::accept` in src/controller.rs). */
module Admissions {
  import opened Prelude
  import Hex
  import opened Approved
  import opened Pending

  /** What reading pending.json gives. */
  datatype PendingFile = NoList | Garbled | Listed(list: seq<Agent>)

  function Entries(file: PendingFile): seq<Agent> {
    if file.Listed? then file.list else []
  }

  function TextOf(file: File): string {
    if file.Body? then file.text else ""
  }

  // ---- Calls as steps ----

  /** The approved file and the pending entries between calls. */
  datatype State = State(approved: File, pending: seq<Agent>)

  datatype Event = Dial(k: Key, now: nat) | Approval(k: Key)

  /** What a call that meets no failure does. */
  function Step(parse: Parser, s: State, e: Event): State {
    if e.k in FileKeys(parse, s.approved) then s
    else match e
      case Dial(k, now) => s.(pending := Record(s.pending, Hex.Encode(k), now))
      case Approval(k) => State(Body(Extended(TextOf(s.approved), k)), Forget(s.pending, Hex.Encode(k)))
  }

  // ---- The code ----

  /** The state directory. `failures` counts the reads and writes that failed although
      the file was sound. */
  class Store {
    var approved: File
    var pending: PendingFile
    var failures: nat

    function Now(): State
      reads this
    {
      State(approved, Entries(pending))
    }

    predicate Readable()
      reads this
    {
      !approved.Unreadable? && !pending.Garbled?
    }

    /** Any read may fail, whatever the file holds. */
    method Load() returns (file: File)
      modifies this`failures
      ensures file == approved || file.Unreadable?
      ensures failures == old(failures) + if file == approved then 0 else 1
    {
      var ok: bool := *;
      file := if ok then approved else Unreadable;
      failures := failures + if file == approved then 0 else 1;
    }

    method WritePending(list: seq<Agent>) returns (ok: bool)
      modifies this`pending, this`failures
      ensures pending == if ok then Listed(list) else old(pending)
      ensures failures == old(failures) + if ok then 0 else 1
    {
      ok := *;
      if ok {
        pending := Listed(list);
      } else {
        failures := failures + 1;
      }
    }

    method WriteApproved(text: string) returns (ok: bool)
      modifies this`approved, this`failures
      ensures approved == if ok then Body(text) else old(approved)
      ensures failures == old(failures) + if ok then 0 else 1
    {
      ok := *;
      if ok {
        approved := Body(text);
      } else {
        failures := failures + 1;
      }
    }

    method RecordPending(k: Key, now: nat) returns (ok: bool)
      modifies this`pending, this`failures
      ensures ok <==> !old(pending).Garbled? && failures == old(failures)
      ensures pending == if ok then Listed(Record(Entries(old(pending)), Hex.Encode(k), now)) else old(pending)
      ensures failures >= old(failures)
    {
      if pending.Garbled? {
        return false;
      }
      var list, text, i := Entries(pending), Hex.Encode(k), 0;
      while i < |list| && list[i].key != text
        invariant 0 <= i <= IndexOf(list, text)
      {
        i := i + 1;
      }
      if i < |list| {
        list := list[i := list[i].(last := now, attempts := list[i].attempts + 1)];
      } else {
        list := list + [Agent(text, now, now, 1)];
      }
      assert list == Seen(Entries(pending), text, now);
      if |list| > LIMIT {
        list := SortByLast(list);
        var excess := |list| - LIMIT;
        list := list[excess..];
      }
      ok := WritePending(list);
    }

    method ForgetPending(k: Key) returns (ok: bool)
      modifies this`pending, this`failures
      ensures ok <==> !old(pending).Garbled? && failures == old(failures)
      ensures ok ==> !pending.Garbled? && Entries(pending) == Forget(Entries(old(pending)), Hex.Encode(k))
      ensures !ok ==> pending == old(pending)
      ensures failures >= old(failures)
    {
      if pending.Garbled? {
        return false;
      }
      var list, kept, i, key := Entries(pending), [], 0, Hex.Encode(k);
      while i < |list|
        invariant 0 <= i <= |list|
        invariant Forget(list, key) == kept + Forget(list[i..], key)
      {
        assert list[i..][1..] == list[i + 1..];
        if list[i].key != key {
          kept := kept + [list[i]];
        }
        i := i + 1;
      }
      if |kept| == |list| {
        ForgetNothing(list, key);
        return true;
      }
      ok := WritePending(kept);
    }

    /** With sound files and no failure an approval is its step. `lost` is a second read
        that failed after the first had succeeded: the list is then rewritten from
        nothing. Whatever fails, the approved file is as it was or has the key. */
    method Approve(parse: Parser, k: Key) returns (ok: bool, isNew: bool, ghost lost: bool)
      modifies this
      ensures failures >= old(failures) && (lost ==> failures > old(failures))
      ensures old(Readable()) && failures == old(failures) ==> ok && Now() == Step(parse, old(Now()), Approval(k))
      ensures ok ==> (isNew <==> k !in FileKeys(parse, old(approved)))
      ensures ok && !isNew ==> approved == old(approved) && pending == old(pending)
      ensures ok && isNew ==>
        && approved == Body(Extended(if lost then "" else TextOf(old(approved)), k))
        && Entries(pending) == Forget(Entries(old(pending)), Hex.Encode(k))
      ensures !ok ==> pending == old(pending)
      ensures !ok && approved != old(approved) ==>
        && k !in FileKeys(parse, old(approved))
        && approved == Body(Extended(if lost then "" else TextOf(old(approved)), k))
    {
      ok, isNew, lost := false, true, false;
      var first := Load();
      var r := ReadApproved(parse, first);
      if r.None? {
        return;
      }
      if k in r.value {
        ok, isNew := true, false;
        return;
      }
      var again := Load();
      lost := again.Unreadable?;
      var body := TextOf(again);
      if body != "" && body[|body| - 1] != '\n' {
        body := body + ['\n'];
      }
      body := body + Hex.Encode(k) + ['\n'];
      ok := WriteApproved(body);
      if ok {
        ok := ForgetPending(k);
      }
    }

    /** The gate. With sound files and no failure a dial is its step. A list that cannot
        be read admits nobody, and the dial is recorded all the same. */
    method Accept(parse: Parser, k: Key, now: nat) returns (admitted: bool, ghost blind: bool)
      modifies this`pending, this`failures
      ensures failures >= old(failures) && (blind ==> approved.Unreadable? || failures > old(failures))
      ensures approved.Unreadable? ==> blind
      ensures old(Readable()) && failures == old(failures) ==> Now() == Step(parse, old(Now()), Dial(k, now))
      ensures admitted <==> !blind && k in FileKeys(parse, approved)
      ensures admitted ==> pending == old(pending)
      ensures pending == old(pending) || pending == Listed(Record(Entries(old(pending)), Hex.Encode(k), now))
    {
      var file := Load();
      var r := ReadApproved(parse, file);
      blind := r.None?;
      admitted := r.Some? && k in r.value;
      if !admitted {
        var ok := RecordPending(k, now);
      }
    }
  }

  lemma {:induction false} ForgetNothing(list: seq<Agent>, key: string)
    ensures |Forget(list, key)| <= |list|
    ensures |Forget(list, key)| == |list| ==> Forget(list, key) == list
  {
    if list != [] {
      ForgetNothing(list[1..], key);
    }
  }

  // ---- Runs ----

  function After(parse: Parser, s: State, events: seq<Event>): State {
    if events == [] then s else Step(parse, After(parse, s, events[..|events| - 1]), events[|events| - 1])
  }

  function Clock(start: nat, events: seq<Event>): nat {
    if events == [] then start
    else match events[|events| - 1]
      case Dial(_, now) => now
      case Approval(_) => Clock(start, events[..|events| - 1])
  }

  predicate Steady(start: nat, events: seq<Event>) {
    events != [] ==>
      && Steady(start, events[..|events| - 1])
      && Clock(start, events[..|events| - 1]) <= Clock(start, events)
  }

  ghost predicate Disjoint(parse: Parser, s: State) {
    forall k: Key :: k in FileKeys(parse, s.approved) ==> !Has(s.pending, Hex.Encode(k))
  }

  ghost predicate Good(parse: Parser, s: State, clock: nat) {
    && !s.approved.Unreadable?
    && Unique(s.pending) && |s.pending| <= LIMIT && Disjoint(parse, s)
    && forall a :: a in s.pending ==> a.last <= clock
  }

  /** What recording `key` leaves: the key's own entry, counted once more, and others
      as they were. */
  lemma RecordHolds(list: seq<Agent>, key: string, now: nat)
    requires Unique(list) && |list| <= LIMIT && forall a :: a in list ==> a.last <= now
    ensures var after := Record(list, key, now);
      && Unique(after) && |after| <= LIMIT && Has(after, key)
      && (forall a :: a in after ==> a.last <= now)
      && (forall a :: a in after && a.key != key ==> a in list)
      && (forall a :: a in after && a.key == key ==>
            if Has(list, key) then exists b :: b in list && b.key == key && a == Refresh(b, now)
            else a == Agent(key, now, now, 1))
  {
    var i, s, after := IndexOf(list, key), Seen(list, key, now), Record(list, key, now);
    SeenUnique(list, key, now);
    FullListKeeps(list, key, now);
    TrimConserves(s);
    TrimUnique(s);
    assert |list| == LIMIT ==> list[0] in list;
    forall a | a in after
      ensures a in s
    {
      assert a in multiset(after);
      assert a in multiset(s);
    }
    assert Has(list, key) <==> i < |list|;
    forall j | 0 <= j < |s|
      ensures s[j].last <= now && (s[j].key != key ==> s[j] in list)
      ensures s[j].key == key ==> if i < |list| then s[j] == Refresh(list[i], now) else s[j] == Agent(key, now, now, 1)
    {
      assert j < |list| ==> list[j] in list;
    }
  }

  lemma ApprovedAfter(parse: Parser, s: State, e: Event)
    requires Reads(parse)
    ensures FileKeys(parse, Step(parse, s, e).approved)
      == FileKeys(parse, s.approved) + if e.Approval? then {e.k} else {}
  {
    if e.Approval? && e.k !in FileKeys(parse, s.approved) {
      ApproveAdds(parse, TextOf(s.approved), e.k);
    }
  }

  lemma StepKeepsGood(parse: Parser, s: State, e: Event, clock: nat)
    requires Reads(parse) && Good(parse, s, clock) && (e.Dial? ==> clock <= e.now)
    ensures Good(parse, Step(parse, s, e), if e.Dial? then e.now else clock)
  {
    ApprovedAfter(parse, s, e);
    if e.k !in FileKeys(parse, s.approved) {
      var key := Hex.Encode(e.k);
      if e.Dial? {
        RecordHolds(s.pending, key, e.now);
        forall k: Key | k in FileKeys(parse, s.approved)
          ensures !Has(Step(parse, s, e).pending, Hex.Encode(k))
        {
          if Hex.Encode(k) == key {
            Hex.EncodeInjective(k, e.k);
          }
        }
      } else {
        ForgetRemoves(s.pending, key);
      }
    }
  }

  /** Over every serialised run with a steady clock: entries stay unique and bounded,
      none is newer than the clock, and no approved key is pending. */
  lemma {:induction false} RunKeepsGood(parse: Parser, s: State, start: nat, events: seq<Event>)
    requires Reads(parse) && Good(parse, s, start) && Steady(start, events)
    ensures Good(parse, After(parse, s, events), Clock(start, events))
  {
    if events != [] {
      RunKeepsGood(parse, s, start, events[..|events| - 1]);
      StepKeepsGood(parse, After(parse, s, events[..|events| - 1]), events[|events| - 1],
                    Clock(start, events[..|events| - 1]));
    }
  }

  /** After any run a fresh read gives the initial keys and those approved. */
  lemma {:induction false} RunApproves(parse: Parser, s: State, events: seq<Event>, k: Key)
    requires Reads(parse)
    ensures k in FileKeys(parse, After(parse, s, events).approved)
      <==> k in FileKeys(parse, s.approved) || Approval(k) in events
  {
    if events != [] {
      var prev, e := events[..|events| - 1], events[|events| - 1];
      RunApproves(parse, s, prev, k);
      var was := After(parse, s, prev);
      assert After(parse, s, events) == Step(parse, was, e);
      ApprovedAfter(parse, was, e);
      assert Approval(k) in events <==> Approval(k) in prev || e == Approval(k) by {
        assert events == prev + [e];
      }
    }
  }

  /** The key just held is in the list with this dial's time; at most one other entry
      goes, and it was last seen no later than any that stays. */
  lemma DialIsHeld(parse: Parser, s: State, k: Key, now: nat, clock: nat) returns (dropped: seq<Agent>)
    requires Good(parse, s, clock) && clock <= now && k !in FileKeys(parse, s.approved)
    ensures var after := Step(parse, s, Dial(k, now)).pending;
      && (exists a :: a in after && a.key == Hex.Encode(k) && a.last == now)
      && (forall a :: a in s.pending && a.key != Hex.Encode(k) ==> a in after || a in dropped)
      && |dropped| <= 1 && (forall d, a :: d in dropped && a in after ==> d.last <= a.last)
      && (dropped != [] ==> |s.pending| == 256 == |after| && !Has(s.pending, Hex.Encode(k)))
  {
    var key := Hex.Encode(k);
    var after, seen := Record(s.pending, key, now), Seen(s.pending, key, now);
    RecordHolds(s.pending, key, now);
    dropped := Dropped(seen);
    TrimDropsOldest(seen);
    assert Has(s.pending, key) <==> IndexOf(s.pending, key) < |s.pending|;
    forall a | a in s.pending && a.key != key
      ensures a in after || a in dropped
    {
      var j :| 0 <= j < |s.pending| && s.pending[j] == a;
      assert seen[j] == a;
      assert a in multiset(seen);
    }
    var a :| a in after && a.key == key;
    assert a.last == now;
  }

  /** An approval takes its own key from the list and nothing else; a key that is
      approved already changes nothing, whether it dials or is approved again. */
  lemma ApprovalForgetsOnlyIt(parse: Parser, s: State, k: Key, a: Agent)
    requires k !in FileKeys(parse, s.approved)
    ensures a in Step(parse, s, Approval(k)).pending <==> a in s.pending && a.key != Hex.Encode(k)
  {
    ForgetRemoves(s.pending, Hex.Encode(k));
  }

  // ---- Attempts ----

  predicate DialBy(e: Event, key: string) {
    e.Dial? && Hex.Encode(e.k) == key
  }

  function Dials(events: seq<Event>, key: string): nat {
    if events == [] then 0
    else Dials(events[..|events| - 1], key) + if DialBy(events[|events| - 1], key) then 1 else 0
  }

  ghost predicate HeldSince(parse: Parser, s: State, events: seq<Event>, i: nat, key: string) {
    forall j :: i < j <= |events| ==> Has(After(parse, s, events[..j]).pending, key)
  }

  lemma HeldLonger(parse: Parser, s: State, events: seq<Event>, i: nat, key: string)
    requires events != [] && i < |events|
    requires HeldSince(parse, s, events[..|events| - 1], i, key) && Has(After(parse, s, events).pending, key)
    ensures HeldSince(parse, s, events, i, key)
  {
    forall j | i < j <= |events|
      ensures Has(After(parse, s, events[..j]).pending, key)
    {
      if j < |events| {
        assert events[..|events| - 1][..j] == events[..j];
      } else {
        assert events[..j] == events;
      }
    }
  }

  /** Where an entry after one more event comes from: it is `born` of that event, or it
      continues `b`. */
  lemma EntryBefore(parse: Parser, s: State, e: Event, clock: nat, a: Agent) returns (born: bool, b: Agent)
    requires Good(parse, s, clock) && (e.Dial? ==> clock <= e.now) && a in Step(parse, s, e).pending
    ensures born ==> DialBy(e, a.key) && !Has(s.pending, a.key) && a == Agent(a.key, e.now, e.now, 1)
    ensures !born ==> b in s.pending && a == if DialBy(e, b.key) then Refresh(b, e.now) else b
  {
    born, b := false, a;
    assert a in s.pending ==> Has(s.pending, a.key);
    if e.k !in FileKeys(parse, s.approved) {
      if e.Dial? {
        RecordHolds(s.pending, Hex.Encode(e.k), e.now);
        born := DialBy(e, a.key) && !Has(s.pending, a.key);
        if DialBy(e, a.key) && Has(s.pending, a.key) {
          b :| b in s.pending && b.key == a.key && a == Refresh(b, e.now);
        }
      } else {
        ForgetRemoves(s.pending, Hex.Encode(e.k));
      }
    }
  }

  /** The life of an entry: it began at dial `i`, was held at every moment since, and
      counts exactly the dials since. */
  ghost predicate Life(parse: Parser, s: State, events: seq<Event>, a: Agent, i: nat) {
    && i < |events| && DialBy(events[i], a.key) && events[i].now == a.first
    && !Has(After(parse, s, events[..i]).pending, a.key) && HeldSince(parse, s, events, i, a.key)
    && a.attempts == Dials(events[i..], a.key)
  }

  /** The life of an entry that was there before the run: it was held at every moment
      and counts exactly the dials of the run on top of what it had. */
  ghost predicate Inherited(parse: Parser, s: State, events: seq<Event>, a: Agent, b: Agent) {
    && b in s.pending && b.key == a.key && b.first == a.first
    && Has(s.pending, a.key) && HeldSince(parse, s, events, 0, a.key)
    && a.attempts == b.attempts + Dials(events, a.key)
  }

  lemma LifeBegins(parse: Parser, s: State, events: seq<Event>, a: Agent)
    requires events != [] && a in After(parse, s, events).pending
    requires var e := events[|events| - 1]; DialBy(e, a.key) && a == Agent(a.key, e.now, e.now, 1)
    requires !Has(After(parse, s, events[..|events| - 1]).pending, a.key)
    ensures Life(parse, s, events, a, |events| - 1)
  {
    var i := |events| - 1;
    assert events[i..] == [events[i]];
    assert Dials([events[i]], a.key) == 1;
    HeldLonger(parse, s, events, i, a.key);
  }

  lemma DialsMore(events: seq<Event>, i: nat, key: string)
    requires i < |events|
    ensures Dials(events[i..], key)
      == Dials(events[..|events| - 1][i..], key) + if DialBy(events[|events| - 1], key) then 1 else 0
  {
    assert events[i..][..|events[i..]| - 1] == events[..|events| - 1][i..];
  }

  lemma LifeGoesOn(parse: Parser, s: State, events: seq<Event>, a: Agent, b: Agent, i: nat)
    requires events != [] && a in After(parse, s, events).pending
    requires Life(parse, s, events[..|events| - 1], b, i)
    requires var e := events[|events| - 1]; a == if DialBy(e, b.key) then Refresh(b, e.now) else b
    ensures Life(parse, s, events, a, i)
  {
    assert events[..|events| - 1][..i] == events[..i];
    DialsMore(events, i, a.key);
    HeldLonger(parse, s, events, i, a.key);
  }

  lemma Origin(parse: Parser, s: State, start: nat, events: seq<Event>, a: Agent) returns (born: bool, b: Agent)
    requires Reads(parse) && Good(parse, s, start) && events != [] && Steady(start, events)
    requires a in After(parse, s, events).pending
    ensures born ==> Life(parse, s, events, a, |events| - 1)
    ensures !born ==>
      && b in After(parse, s, events[..|events| - 1]).pending
      && a == if DialBy(events[|events| - 1], b.key) then Refresh(b, events[|events| - 1].now) else b
  {
    var prev, e := events[..|events| - 1], events[|events| - 1];
    RunKeepsGood(parse, s, start, prev);
    born, b := EntryBefore(parse, After(parse, s, prev), e, Clock(start, prev), a);
    if born {
      LifeBegins(parse, s, events, a);
    }
  }

  lemma InheritedGoesOn(parse: Parser, s: State, events: seq<Event>, a: Agent, was: Agent, b: Agent)
    requires events != [] && a in After(parse, s, events).pending
    requires Inherited(parse, s, events[..|events| - 1], was, b)
    requires var e := events[|events| - 1]; a == if DialBy(e, was.key) then Refresh(was, e.now) else was
    ensures Inherited(parse, s, events, a, b)
  {
    HeldLonger(parse, s, events, 0, a.key);
  }

  /** In every steady run, every entry was there before it and has counted every dial of
      the run, or began at one dial of the run and has counted every dial since. */
  lemma {:induction false} AttemptsAreDials(parse: Parser, s: State, start: nat, events: seq<Event>, a: Agent)
    returns (kept: bool, b: Agent, i: nat)
    requires Reads(parse) && Good(parse, s, start) && Steady(start, events)
    requires a in After(parse, s, events).pending
    ensures if kept then Inherited(parse, s, events, a, b) else Life(parse, s, events, a, i)
  {
    b, i := a, 0;
    if events == [] {
      kept := true;
    } else {
      var born, was := Origin(parse, s, start, events, a);
      if born {
        kept, i := false, |events| - 1;
      } else {
        kept, b, i := AttemptsAreDials(parse, s, start, events[..|events| - 1], was);
        if kept {
          InheritedGoesOn(parse, s, events, a, was, b);
        } else {
          LifeGoesOn(parse, s, events, a, was, i);
        }
      }
    }
  }

  // ---- When something fails ----

  /** A dial judged without the list is held: that breaks disjointness exactly when the
      key was in fact approved. */
  lemma BlindDial(parse: Parser, s: State, k: Key, now: nat, clock: nat)
    requires Good(parse, s, clock) && clock <= now
    ensures Disjoint(parse, s.(pending := Record(s.pending, Hex.Encode(k), now))) <==> k !in FileKeys(parse, s.approved)
  {
    RecordHolds(s.pending, Hex.Encode(k), now);
    forall j: Key | j in FileKeys(parse, s.approved) && j != k
      ensures !Has(Record(s.pending, Hex.Encode(k), now), Hex.Encode(j))
    {
      if Hex.Encode(j) == Hex.Encode(k) {
        Hex.EncodeInjective(j, k);
      }
    }
  }

  /** An approval whose entry could not be dropped leaves it approved and pending,
      exactly when it was pending. */
  lemma UnforgottenApproval(parse: Parser, s: State, k: Key)
    requires Reads(parse) && Disjoint(parse, s)
    ensures Disjoint(parse, s.(approved := Body(Extended(TextOf(s.approved), k)))) <==> !Has(s.pending, Hex.Encode(k))
  {
    ApproveAdds(parse, TextOf(s.approved), k);
  }

  /** A list that could not be read the second time is replaced by the new key alone:
      earlier approvals survive exactly when the read worked or there were none. */
  lemma LostList(parse: Parser, file: File, k: Key, lost: bool)
    requires Reads(parse) && k !in FileKeys(parse, file)
    ensures FileKeys(parse, file) <= Keys(parse, Extended(if lost then "" else TextOf(file), k))
      <==> !lost || FileKeys(parse, file) == {}
  {
    ApproveAdds(parse, if lost then "" else TextOf(file), k);
  }
}
