/** PID 1's link supervisor (boot/init.c): which link is up, which processes serve it,
    and which version of the credentials file it has tried. Everything outside init is
    `Interfere`: between any two of init's actions, children may exit and a live agent
    or Bluetooth helper may replace the credentials file, any number of times. */
module Supervisor {
  import opened Prelude

  datatype Kind = NoLink | Wired | Station | AccessPoint | Ble

  datatype Role = Agent | Supplicant | Hostapd | Dhcp | Dbus | Bluetoothd | Helper

  datatype Proc = Proc(role: Role, running: bool)

  /** What `networks_changed_from` compares: inode and modification time. */
  datatype Version = Version(ino: nat, sec: int, nsec: int)

  /** A zeroed `struct stat`, recorded when there is no file. */
  const NO_FILE := Version(0, 0, 0)

  function Baseline(file: Option<Version>): Version {
    if file.Some? then file.value else NO_FILE
  }

  predicate ChangedFrom(file: Option<Version>, before: Version) {
    file.Some? && file.value != before
  }

  /** The machine around init: children not yet reaped, those told to stop, and the
      credentials file with every version it ever had. */
  datatype Machine = Machine(procs: map<int, Proc>, nextPid: int, told: set<int>, file: Option<Version>, seen: set<Version>)

  /** init's `struct link`; -1 stands for no process. */
  datatype Link = Link(kind: Kind, daemon: int, dhcp: int, dbus: int, bluetoothd: int, networks: Version)

  const DOWN := Link(NoLink, -1, -1, -1, -1, NO_FILE)

  ghost predicate MachineOk(m: Machine) {
    && 1 <= m.nextPid
    && (forall p :: p in m.procs ==> 1 <= p < m.nextPid)
    && (forall p :: p in m.procs && p in m.told ==> m.procs[p].role == Dhcp)
    && (forall p :: p in m.told ==> p < m.nextPid)
    && (m.file.Some? ==> m.file.value in m.seen)
    && NO_FILE !in m.seen
  }

  /** Only the agent and the Bluetooth helper write the credentials file. */
  predicate NoWriters(procs: map<int, Proc>) {
    forall p :: p in procs ==> !(procs[p].running && (procs[p].role == Agent || procs[p].role == Helper))
  }

  /** The file was left alone or replaced; versions never repeat. */
  ghost predicate FileMoved(m: Machine, m': Machine) {
    && m.seen <= m'.seen
    && (m'.file == m.file || (m'.file.Some? && m'.file.value !in m.seen))
  }

  /** Every process there is now was there before in the same role, or was `added`. */
  ghost predicate Kept(m: Machine, m': Machine, added: set<(int, Role)>) {
    forall p :: p in m'.procs ==>
      (p in m.procs && m'.procs[p].role == m.procs[p].role) || (p, m'.procs[p].role) in added
  }

  /** What any stretch of init's work does to the machine, given what it spawned and
      left running. Without a live writer the file does not move. */
  ghost predicate Evolves(m: Machine, m': Machine, added: set<(int, Role)>) {
    && MachineOk(m')
    && m.nextPid <= m'.nextPid && m.told <= m'.told
    && Kept(m, m', added) && FileMoved(m, m')
    && (NoWriters(m.procs) && (forall x :: x in added ==> x.1 != Agent && x.1 != Helper) ==>
          NoWriters(m'.procs) && m'.file == m.file)
  }

  lemma EvolvesTwice(m: Machine, m1: Machine, m2: Machine, a: set<(int, Role)>, b: set<(int, Role)>)
    requires Evolves(m, m1, a) && Evolves(m1, m2, b)
    ensures Evolves(m, m2, a + b)
  {
  }

  lemma EvolvesAfter(m: Machine, m1: Machine, m2: Machine, a: set<(int, Role)>)
    requires Evolves(m, m1, {}) && Evolves(m1, m2, a)
    ensures Evolves(m, m2, a)
  {
    EvolvesTwice(m, m1, m2, {}, a);
    assert {} + a == a;
  }

  lemma EvolvesMore(m: Machine, m': Machine, a: set<(int, Role)>, b: set<(int, Role)>)
    requires Evolves(m, m', a) && a <= b
    ensures Evolves(m, m', b)
  {
  }

  /** A process that is gone need not be listed. */
  lemma EvolvesWithout(m: Machine, m': Machine, p: int, role: Role)
    requires Evolves(m, m', {(p, role)}) && p !in m'.procs && role != Agent && role != Helper
    ensures Evolves(m, m', {})
  {
    forall q | q in m'.procs
      ensures q in m.procs && m'.procs[q].role == m.procs[q].role
    {
      assert (q, m'.procs[q].role) != (p, role);
    }
  }

  predicate Recorded(up: Link, agent: int, p: int, role: Role) {
    match role
    case Agent => p == agent
    case Supplicant => p == up.daemon
    case Hostapd => p == up.daemon
    case Helper => p == up.daemon
    case Dhcp => p == up.dhcp
    case Dbus => p == up.dbus
    case Bluetoothd => p == up.bluetoothd
  }

  /** No process started by `spawn` and not told to stop has been forgotten. */
  ghost predicate Accounted(m: Machine, up: Link, agent: int) {
    forall p :: p in m.procs && p !in m.told ==> Recorded(up, agent, p, m.procs[p].role)
  }

  ghost predicate AccountedBut(m: Machine, up: Link, agent: int, other: int) {
    forall p :: p in m.procs && p !in m.told && p != other ==> Recorded(up, agent, p, m.procs[p].role)
  }

  ghost predicate NoAgent(m: Machine) {
    forall p :: p in m.procs && p !in m.told ==> m.procs[p].role != Agent
  }

  /** A recorded link has at most one agent, and on Bluetooth none. */
  lemma OneAgent(m: Machine, up: Link, agent: int)
    requires MachineOk(m) && Accounted(m, up, agent)
    ensures forall p, q :: p in m.procs && q in m.procs && m.procs[p].role == m.procs[q].role == Agent ==> p == q
    ensures agent <= 0 ==> forall p :: p in m.procs ==> m.procs[p].role != Agent
  {
    forall p | p in m.procs && m.procs[p].role == Agent
      ensures p == agent && p >= 1
    {
      assert p !in m.told && Recorded(up, agent, p, m.procs[p].role);
    }
  }

  /** After the link is down and the agent is dead, nobody is left to write. */
  lemma NobodyLeft(m: Machine, agent: int)
    requires MachineOk(m) && Accounted(m, DOWN, agent) && NoAgent(m)
    ensures NoWriters(m.procs) && (forall p :: p in m.procs ==> p in m.told)
  {
    forall p | p in m.procs
      ensures p in m.told
    {
      assert p !in m.told ==> Recorded(DOWN, agent, p, m.procs[p].role);
    }
  }

  /** From a machine where everything was told to stop, what is added is all there is. */
  lemma OnlyAdded(m: Machine, m': Machine, added: set<(int, Role)>, up: Link, agent: int)
    requires Evolves(m, m', added) && (forall p :: p in m.procs ==> p in m.told)
    requires forall x :: x in added ==> Recorded(up, agent, x.0, x.1) && x.1 != Agent
    ensures Accounted(m', up, agent) && NoAgent(m')
  {
  }

  /** Beside a Bluetooth helper, a new link's processes are recorded; only the helper is
      no longer. */
  lemma BesideHelper(m: Machine, up: Link, agent: int, m': Machine, up': Link)
    requires MachineOk(m) && Accounted(m, up, agent) && up.dhcp <= 0
    requires Evolves(m, m', {(up'.daemon, Supplicant), (up'.daemon, Hostapd), (up'.dhcp, Dhcp)})
    requires up'.dbus == up.dbus && up'.bluetoothd == up.bluetoothd
    ensures AccountedBut(m', up', agent, up.daemon)
  {
  }

  /** A link that did not come up leaves the old one's processes as they were. */
  lemma NothingNew(m: Machine, up: Link, agent: int, m': Machine, d: int)
    requires MachineOk(m) && Accounted(m, up, agent) && PidsOk(m, up, agent)
    requires Evolves(m, m', {(d, Supplicant), (d, Hostapd), (up.dhcp, Dhcp)}) && d <= 0 && up.dhcp <= 0
    ensures Accounted(m', up, agent) && PidsOk(m', up, agent)
  {
    forall p | p in m'.procs
      ensures p in m.procs && m'.procs[p].role == m.procs[p].role
    {
      assert p >= 1 && (p, m'.procs[p].role) !in {(d, Supplicant), (d, Hostapd), (up.dhcp, Dhcp)};
    }
  }

  /** A version that was already known and is on disk now was there all along. */
  lemma StillThere(m: Machine, m1: Machine, m2: Machine, v: Version)
    requires MachineOk(m1) && FileMoved(m, m1) && FileMoved(m1, m2)
    requires v in m.seen && m2.file == Some(v)
    ensures m.file == m1.file == Some(v)
  {
  }

  ghost predicate PidsOk(m: Machine, up: Link, agent: int) {
    && agent < m.nextPid && up.daemon < m.nextPid && up.dhcp < m.nextPid && up.dbus < m.nextPid && up.bluetoothd < m.nextPid
    && (agent in m.procs ==> m.procs[agent].role == Agent)
    && (up.daemon in m.procs ==> m.procs[up.daemon].role in {Supplicant, Hostapd, Helper})
    && (up.dhcp in m.procs ==> m.procs[up.dhcp].role == Dhcp)
    && (up.dbus in m.procs ==> m.procs[up.dbus].role == Dbus)
    && (up.bluetoothd in m.procs ==> m.procs[up.bluetoothd].role == Bluetoothd)
    && (up.networks == NO_FILE || up.networks in m.seen)
  }

  // ---- The ladder ----

  /** What one attempt at a link meets outside: a wired carrier, a fixed address for it on
      the command line, a wireless device, a known network that lets us join, a
      derivation for our own access point, an access point that comes up, a Bluetooth
      controller with its daemons installed. */
  datatype Air = Air(carrier: bool, fixed: bool, found: bool, joined: bool, derived: bool, hosted: bool, hci: bool)

  predicate CanJoin(wireless: bool, file: Option<Version>) {
    wireless && file.Some?
  }

  /** The link `ip_link` brings up: wired, else a known network, else our own. */
  function IpKind(air: Air, wireless: bool, file: Option<Version>): Kind {
    if air.carrier then Wired
    else if CanJoin(wireless, file) && air.joined then Station
    else if wireless && air.derived && air.hosted then AccessPoint
    else NoLink
  }

  /** With Bluetooth as the last rung. */
  function LinkKind(air: Air, wireless: bool, file: Option<Version>): Kind {
    if IpKind(air, wireless, file) != NoLink then IpKind(air, wireless, file) else if air.hci then Ble else NoLink
  }

  /** The processes started on the way, in order. */
  function WirelessStarts(air: Air, wireless: bool, file: Option<Version>): seq<Role> {
    if CanJoin(wireless, file) && air.joined then [Supplicant, Dhcp]
    else (if CanJoin(wireless, file) then [Supplicant] else []) + (if wireless && air.derived then [Hostapd] else [])
  }

  function IpStarts(air: Air, wireless: bool, file: Option<Version>): seq<Role> {
    if air.carrier then (if air.fixed then [] else [Dhcp]) else WirelessStarts(air, wireless, file)
  }

  function LinkStarts(air: Air, wireless: bool, file: Option<Version>): seq<Role> {
    IpStarts(air, wireless, file)
    + if IpKind(air, wireless, file) == NoLink && air.hci then [Dbus, Bluetoothd, Helper] else []
  }

  /** The credentials a supplicant is started on, if one is. */
  function Joins(air: Air, wireless: bool, file: Option<Version>): seq<Option<Version>> {
    if !air.carrier && CanJoin(wireless, file) then [file] else []
  }

  /** The agent follows, except on Bluetooth. */
  function AgentStart(kind: Kind): seq<Role> {
    if kind == Ble then [] else [Agent]
  }

  predicate AllAgents(roles: seq<Role>) {
    forall i :: 0 <= i < |roles| ==> roles[i] == Agent
  }

  // ---- The main loop's inputs ----

  datatype SwitchOutcome = Unreadable | Refused | MoveFailed | Switched

  /** What a request to switch root comes to, and whether the fork that follows a
      failed move works. */
  datatype Request = NoRequest | SwitchRequest(outcome: SwitchOutcome, forks: bool)

  /** What a turn meets besides: whether a retry is due, whether the carrier is gone, and
      the air for a first and, if need be, a second attempt at a link. */
  datatype Tick = Tick(due: bool, carrierLost: bool, air: Air, again: Air)

  /** A process behind the link is among those reaped. */
  predicate LinkExit(up: Link, reaped: set<int>) {
    up.daemon in reaped || up.bluetoothd in reaped || up.dbus in reaped
  }

  datatype Action = Rest | Relink | Promote | Switch

  class Init {
    var m: Machine
    var up: Link
    var agent: int
    var wireless: bool
    /** The version on disk when the last `station()` began; every process ever started,
        and the version on disk each time a supplicant was. */
    ghost var tried: Option<Version>
    ghost var starts: seq<Role>
    ghost var joins: seq<Option<Version>>

    ghost predicate Ok()
      reads this
    {
      MachineOk(m) && PidsOk(m, up, agent)
    }

    /** The last supplicant was started on the version called tried. */
    ghost predicate ReallyTried()
      reads this
    {
      joins != [] && joins[|joins| - 1] == tried
    }

    /** Resting on the access point with the recorded file still there means that a
        supplicant was started on that version, and on none since. */
    ghost predicate NothingMissed()
      reads this
    {
      up.kind == AccessPoint && m.file == Some(up.networks) ==> tried == Some(up.networks) && ReallyTried()
    }

    /** If the link is an access point again, it is because a supplicant was started on
        the file that replaced version `before` and did not get it a network. */
    ghost predicate TriedNewer(before: Version)
      reads this
    {
      up.kind == AccessPoint ==>
        tried.Some? && tried.value != before && up.networks == tried.value && ReallyTried()
    }

    /** No stray Bluetooth daemons off Bluetooth, no lease client on it. */
    ghost predicate Tidy()
      reads this
    {
      if up.kind == Ble then up.dhcp <= 0 else up.dbus <= 0 && up.bluetoothd <= 0
    }

    ghost predicate Sound()
      reads this
    {
      Ok() && Accounted(m, up, agent) && NothingMissed() && Tidy()
    }

    /** What holds at every head of the main loop. */
    ghost predicate LoopInv()
      reads this
    {
      Sound() && (up.kind == Ble ==> agent <= 0)
    }

    /** One thing outside init: a writer replaces the file, or a child exits. */
    method Happen()
      requires Ok()
      modifies `m
      ensures Ok() && Evolves(old(m), m, {}) && m.told == old(m.told) && m.procs.Keys == old(m.procs.Keys)
    {
      var v: Version, p: int := *, *;
      if * {
        if !NoWriters(m.procs) && v !in m.seen && v != NO_FILE {
          m := m.(file := Some(v), seen := m.seen + {v});
        }
      } else if p in m.procs {
        m := m.(procs := m.procs[p := m.procs[p].(running := false)]);
      }
    }

    /** Anything that can happen outside init. */
    method Interfere()
      requires Ok()
      modifies `m
      ensures Ok() && Evolves(old(m), m, {}) && m.told == old(m.told) && m.procs.Keys == old(m.procs.Keys)
    {
      var n: int := *;
      while n > 0
        invariant Ok() && Evolves(old(m), m, {}) && m.told == old(m.told) && m.procs.Keys == old(m.procs.Keys)
      {
        ghost var m1 := m;
        Happen();
        EvolvesTwice(old(m), m1, m, {}, {});
        n := n - 1;
      }
    }

    /** `fork` and `execv`; -1 when the fork fails. Pids are not reused. */
    method Fork(role: Role, forks: bool) returns (p: int)
      requires Ok()
      modifies `m, `starts, `joins
      ensures Ok() && Evolves(old(m), m, {(p, role)}) && m.told == old(m.told) && m.file == old(m.file)
      ensures if forks then old(m.nextPid) <= p < m.nextPid && p !in m.told && p in m.procs else p == -1
      ensures m.procs.Keys == old(m.procs.Keys) + (if forks then {p} else {})
      ensures p in m.procs ==> m.procs[p].role == role
      ensures starts == old(starts) + [role]
      ensures joins == old(joins) + if role == Supplicant then [m.file] else []
    {
      starts := starts + [role];
      joins := joins + if role == Supplicant then [m.file] else [];
      if !forks {
        return -1;
      }
      p := m.nextPid;
      m := m.(procs := m.procs[p := Proc(role, true)], nextPid := p + 1);
    }

    /** The same where it does not matter whether the fork works. */
    method Spawn(role: Role) returns (p: int)
      requires Ok()
      modifies `m, `starts, `joins
      ensures Ok() && Evolves(old(m), m, {(p, role)}) && m.told == old(m.told) && m.file == old(m.file)
      ensures p == -1 || (old(m.nextPid) <= p < m.nextPid && p !in m.told)
      ensures old(m.procs.Keys) <= m.procs.Keys && (p in m.procs ==> m.procs[p].role == role)
      ensures starts == old(starts) + [role]
      ensures joins == old(joins) + if role == Supplicant then [m.file] else []
    {
      var forks: bool := *;
      p := Fork(role, forks);
    }

    /** SIGTERM, two seconds of grace, SIGKILL, reap. The process may act until then. */
    method Stop(p: int) returns (p': int)
      requires Ok() && p < m.nextPid
      modifies `m
      ensures Ok() && Evolves(old(m), m, {})
      ensures p' <= 0 && (p > 0 ==> p !in m.procs)
    {
      if p <= 0 {
        return p;
      }
      Interfere();
      m := m.(told := m.told + {p}, procs := m.procs - {p});
      p' := -1;
    }

    /** Until the carrier comes, or the daemon is seen to exit, or time is up. */
    method WaitCarrier(comes: bool) returns (ok: bool)
      requires Ok()
      modifies `m, `up
      ensures Ok() && Evolves(old(m), m, {}) && ok == comes
      ensures up == old(up) || (!ok && up == old(up).(daemon := -1) && old(up.daemon) !in m.procs)
    {
      Interfere();
      if comes {
        return true;
      }
      if up.daemon > 0 && up.daemon in m.procs && !m.procs[up.daemon].running {
        m := m.(procs := m.procs - {up.daemon});
        up := up.(daemon := -1);
      }
      ok := false;
    }

    /** Start the daemon behind a wireless link and wait for its carrier; a daemon that
        brings none up is stopped again. */
    method RunDaemon(role: Role, comes: bool) returns (ok: bool)
      requires Ok() && up.daemon <= 0 && role in {Supplicant, Hostapd}
      modifies `m, `up, `starts, `joins
      ensures Ok() && up == old(up).(daemon := up.daemon) && ok == comes && (ok || up.daemon <= 0)
      ensures Evolves(old(m), m, if ok then {(up.daemon, role)} else {})
      ensures starts == old(starts) + [role]
      ensures joins == old(joins) + if role == Supplicant then [old(m.file)] else []
    {
      var d := Spawn(role);
      up := up.(daemon := d);
      ghost var m1 := m;
      ok := WaitCarrier(comes);
      ghost var m2 := m;
      if !ok {
        var gone := Stop(up.daemon);
        up := up.(daemon := gone);
        EvolvesTwice(m1, m2, m, {}, {});
      }
      EvolvesTwice(old(m), m1, m, {(d, role)}, {});
      if !ok {
        EvolvesWithout(old(m), m, d, role);
      }
    }

    method StationUp(air: Air) returns (ok: bool)
      requires Ok() && up.daemon <= 0
      modifies `m, `up, `tried, `starts, `joins
      ensures Ok() && up == old(up).(daemon := up.daemon) && (ok || up.daemon <= 0)
      ensures Evolves(old(m), m, if ok then {(up.daemon, Supplicant)} else {})
      ensures tried == old(m.file) && ok == (CanJoin(wireless, tried) && air.joined)
      ensures starts == old(starts) + if CanJoin(wireless, tried) then [Supplicant] else []
      ensures joins == old(joins) + if CanJoin(wireless, tried) then [tried] else []
    {
      tried := m.file;
      if !wireless || m.file == None {
        return false;
      }
      ok := RunDaemon(Supplicant, air.joined);
    }

    method AccessPointUp(air: Air) returns (ok: bool)
      requires Ok() && up.daemon <= 0
      modifies `m, `up, `starts, `joins
      ensures Ok() && ok == (wireless && air.derived && air.hosted)
      ensures ok || (up == old(up).(daemon := up.daemon) && up.daemon <= 0)
      ensures up == old(up).(daemon := up.daemon, networks := up.networks)
      ensures Evolves(old(m), m, if ok then {(up.daemon, Hostapd)} else {})
      ensures ok && NoWriters(old(m.procs)) ==> up.networks == Baseline(m.file)
      ensures starts == old(starts) + (if wireless && air.derived then [Hostapd] else []) && joins == old(joins)
    {
      if !wireless || !air.derived {
        return false;
      }
      ok := RunDaemon(Hostapd, air.hosted);
      if ok {
        up := up.(networks := Baseline(m.file));
      }
    }

    /** A lease or not, the client stays recorded unless it has exited. */
    method DhcpUp()
      requires Ok() && up.dhcp <= 0
      modifies `m, `up, `starts, `joins
      ensures Ok() && up == old(up).(dhcp := up.dhcp)
      ensures Evolves(old(m), m, {(up.dhcp, Dhcp)})
      ensures starts == old(starts) + [Dhcp] && joins == old(joins)
    {
      var d := Spawn(Dhcp);
      up := up.(dhcp := d);
      ghost var m1 := m;
      Interfere();
      if d > 0 && d in m.procs && !m.procs[d].running {
        m := m.(procs := m.procs - {d});
        up := up.(dhcp := -1);
      }
      EvolvesTwice(old(m), m1, m, {(d, Dhcp)}, {});
    }

    /** The wireless half of `ip_link`: a known network, else our own access point. */
    method WirelessUp(air: Air) returns (ok: bool)
      requires Ok() && up.daemon <= 0 && up.dhcp <= 0 && !air.carrier
      modifies `m, `up, `tried, `starts, `joins
      ensures Ok() && tried == old(m.file)
      ensures ok <==> IpKind(air, wireless, tried) != NoLink
      ensures ok ==> up.kind == IpKind(air, wireless, tried)
      ensures starts == old(starts) + WirelessStarts(air, wireless, tried)
      ensures joins == old(joins) + Joins(air, wireless, tried)
      ensures up == old(up).(kind := up.kind, daemon := up.daemon, dhcp := up.dhcp, networks := up.networks)
      ensures !ok ==> up == old(up).(daemon := up.daemon) && up.daemon <= 0
      ensures Evolves(old(m), m, {(up.daemon, Supplicant), (up.daemon, Hostapd), (up.dhcp, Dhcp)})
      ensures ok && up.kind == AccessPoint && NoWriters(old(m.procs)) ==> up.networks == Baseline(m.file)
    {
      var joined := StationUp(air);
      ghost var m1 := m;
      if joined {
        up := up.(kind := Station);
        DhcpUp();
        EvolvesTwice(old(m), m1, m, {(up.daemon, Supplicant)}, {(up.dhcp, Dhcp)});
        return true;
      }
      ok := AccessPointUp(air);
      if ok {
        up := up.(kind := AccessPoint);
      }
      EvolvesTwice(old(m), m1, m, {}, if ok then {(up.daemon, Hostapd)} else {});
    }

    /** A wired carrier: a lease, unless there is a fixed address. */
    method WiredUp(air: Air)
      requires Ok() && up.daemon <= 0 && up.dhcp <= 0
      modifies `m, `up, `starts, `joins
      ensures Ok() && up == old(up).(kind := Wired, dhcp := up.dhcp)
      ensures Evolves(old(m), m, {(up.daemon, Supplicant), (up.daemon, Hostapd), (up.dhcp, Dhcp)})
      ensures starts == old(starts) + (if air.fixed then [] else [Dhcp]) && joins == old(joins)
    {
      up := up.(kind := Wired);
      if !air.fixed {
        DhcpUp();
      }
      EvolvesMore(old(m), m, {(up.dhcp, Dhcp)}, {(up.daemon, Supplicant), (up.daemon, Hostapd), (up.dhcp, Dhcp)});
    }

    /** Wired first, then wireless. */
    method WiredOrWireless(air: Air) returns (ok: bool)
      requires Ok() && up.daemon <= 0 && up.dhcp <= 0
      modifies `m, `up, `tried, `starts, `joins
      ensures Ok() && (!air.carrier ==> tried == old(m.file))
      ensures ok <==> IpKind(air, wireless, tried) != NoLink
      ensures ok ==> up.kind == IpKind(air, wireless, tried)
      ensures starts == old(starts) + IpStarts(air, wireless, tried)
      ensures joins == old(joins) + Joins(air, wireless, tried)
      ensures up == old(up).(kind := up.kind, daemon := up.daemon, dhcp := up.dhcp, networks := up.networks)
      ensures !ok ==> up == old(up).(daemon := up.daemon) && up.daemon <= 0
      ensures Evolves(old(m), m, {(up.daemon, Supplicant), (up.daemon, Hostapd), (up.dhcp, Dhcp)})
      ensures ok && up.kind == AccessPoint && NoWriters(old(m.procs)) ==> up.networks == Baseline(m.file)
    {
      if air.carrier {
        WiredUp(air);
        ok := true;
      } else {
        ok := WirelessUp(air);
      }
    }

    /** `ip_link`. The file may be replaced while waiting for a wired carrier; `tried` is
        what it is when the wireless half begins. */
    method IpLink(air: Air) returns (ok: bool)
      requires Ok() && up.daemon <= 0 && up.dhcp <= 0
      modifies `m, `up, `tried, `wireless, `starts, `joins
      ensures Ok() && wireless == (old(wireless) || air.found)
      ensures ok <==> IpKind(air, wireless, tried) != NoLink
      ensures ok ==> up.kind == IpKind(air, wireless, tried)
      ensures starts == old(starts) + IpStarts(air, wireless, tried)
      ensures joins == old(joins) + Joins(air, wireless, tried)
      ensures up == old(up).(kind := up.kind, daemon := up.daemon, dhcp := up.dhcp, networks := up.networks)
      ensures !ok ==> up == old(up).(daemon := up.daemon) && up.daemon <= 0
      ensures Evolves(old(m), m, {(up.daemon, Supplicant), (up.daemon, Hostapd), (up.dhcp, Dhcp)})
      ensures !air.carrier && m.file == old(m.file) ==> tried == m.file
      ensures ok && up.kind == AccessPoint && NoWriters(old(m.procs)) ==> up.networks == Baseline(m.file)
    {
      Interfere();
      ghost var m1 := m;
      wireless := wireless || air.found;
      ok := WiredOrWireless(air);
      EvolvesAfter(old(m), m1, m, {(up.daemon, Supplicant), (up.daemon, Hostapd), (up.dhcp, Dhcp)});
    }

    method BluezUp() returns (d: int, b: int)
      requires Ok()
      modifies `m, `starts, `joins
      ensures Ok() && Evolves(old(m), m, {(d, Dbus), (b, Bluetoothd)})
      ensures d < m.nextPid && b < m.nextPid
      ensures (d in m.procs ==> m.procs[d].role == Dbus) && (b in m.procs ==> m.procs[b].role == Bluetoothd)
      ensures starts == old(starts) + [Dbus] + [Bluetoothd] && joins == old(joins)
    {
      d := Spawn(Dbus);
      ghost var m1 := m;
      b := Spawn(Bluetoothd);
      EvolvesTwice(old(m), m1, m, {(d, Dbus)}, {(b, Bluetoothd)});
    }

    /** The helper may write at once, before the baseline is taken. */
    method HelperUp()
      requires Ok() && up.daemon <= 0
      modifies `m, `up, `starts, `joins
      ensures Ok() && up == old(up).(daemon := up.daemon, networks := Baseline(m.file))
      ensures Evolves(old(m), m, {(up.daemon, Helper)})
      ensures starts == old(starts) + [Helper] && joins == old(joins)
    {
      var h := Spawn(Helper);
      ghost var m1 := m;
      up := up.(daemon := h);
      Interfere();
      up := up.(networks := Baseline(m.file));
      EvolvesTwice(old(m), m1, m, {(h, Helper)}, {});
    }

    /** The first hop when nothing else works. */
    method BluetoothUp(air: Air) returns (ok: bool)
      requires Ok() && up.daemon <= 0 && up.dbus <= 0 && up.bluetoothd <= 0
      modifies `m, `up, `starts, `joins
      ensures Ok() && ok == air.hci && (ok || (up == old(up) && m == old(m)))
      ensures up == old(up).(daemon := up.daemon, dbus := up.dbus, bluetoothd := up.bluetoothd, networks := up.networks)
      ensures ok ==> Evolves(old(m), m, {(up.dbus, Dbus), (up.bluetoothd, Bluetoothd), (up.daemon, Helper)})
      ensures ok ==> up.networks == Baseline(m.file)
      ensures starts == old(starts) + (if ok then [Dbus, Bluetoothd, Helper] else []) && joins == old(joins)
    {
      if !air.hci {
        return false;
      }
      var d, b := BluezUp();
      ghost var m2 := m;
      up := up.(dbus := d, bluetoothd := b);
      HelperUp();
      EvolvesTwice(old(m), m2, m, {(d, Dbus), (b, Bluetoothd)}, {(up.daemon, Helper)});
      ok := true;
    }

    method StopBluetooth(helper: int)
      requires Ok() && helper < m.nextPid
      modifies `m, `up
      ensures Ok() && Evolves(old(m), m, {}) && up == old(up).(bluetoothd := up.bluetoothd, dbus := up.dbus)
      ensures up.bluetoothd <= 0 && up.dbus <= 0
      ensures forall p :: p in {helper, old(up.bluetoothd), old(up.dbus)} && p > 0 ==> p !in m.procs
    {
      var h := Stop(helper);
      ghost var m1 := m;
      var b := Stop(up.bluetoothd);
      ghost var m2 := m;
      var d := Stop(up.dbus);
      up := up.(bluetoothd := b, dbus := d);
      EvolvesTwice(old(m), m1, m2, {}, {});
      EvolvesTwice(old(m), m2, m, {}, {});
    }

    /** Stops every process behind the link; the DHCP client is only told. */
    method BringDown()
      requires Ok()
      modifies `m, `up
      ensures Ok() && up == DOWN && Evolves(old(m), m, {})
      ensures Accounted(old(m), old(up), agent) ==> Accounted(m, DOWN, agent)
    {
      StopBluetooth(up.daemon);
      if up.dhcp > 0 {
        m := m.(told := m.told + {up.dhcp});
      }
      up := DOWN;
    }

    /** Nothing else came up: the helper is the only thing left to try. */
    method Provision(air: Air)
      requires Ok() && NoAgent(m) && (forall p :: p in m.procs ==> p in m.told)
      requires up.kind == NoLink && up.daemon <= 0 && up.dhcp <= 0 && up.dbus <= 0 && up.bluetoothd <= 0
      modifies `m, `up, `starts, `joins
      ensures Ok() && Accounted(m, up, agent) && Tidy() && NoAgent(m) && FileMoved(old(m), m)
      ensures up.kind == if air.hci then Ble else NoLink
      ensures starts == old(starts) + (if air.hci then [Dbus, Bluetoothd, Helper] else []) && joins == old(joins)
    {
      var ok := BluetoothUp(air);
      if ok {
        up := up.(kind := Ble);
        ghost var ble := {(up.dbus, Dbus), (up.bluetoothd, Bluetoothd), (up.daemon, Helper)};
        OnlyAdded(old(m), m, ble, up, agent);
      }
    }

    /** From no link at all, down the whole ladder. With the agent gone nobody can write
        until a Bluetooth helper is started, so the access point's baseline is the
        version just tried. */
    method BringUp(air: Air)
      requires Ok() && Accounted(m, up, agent) && NoAgent(m)
      modifies `m, `up, `tried, `wireless, `starts, `joins
      ensures Ok() && Accounted(m, up, agent) && Tidy() && NoAgent(m) && FileMoved(old(m), m)
      ensures wireless == (old(wireless) || air.found) && up.kind == LinkKind(air, wireless, tried)
      ensures starts == old(starts) + LinkStarts(air, wireless, tried)
      ensures joins == old(joins) + Joins(air, wireless, tried)
      ensures up.kind == AccessPoint ==> m.file == tried && up.networks == Baseline(tried)
    {
      BringDown();
      ghost var m1 := m;
      NobodyLeft(m, agent);
      var ok := IpLink(air);
      ghost var ip := {(up.daemon, Supplicant), (up.daemon, Hostapd), (up.dhcp, Dhcp)};
      OnlyAdded(m1, m, ip, up, agent);
      if !ok {
        Provision(air);
        Assoc(old(starts), IpStarts(air, wireless, tried), if air.hci then [Dbus, Bluetoothd, Helper] else []);
      }
    }

    method KillAgent()
      requires Ok() && Accounted(m, up, agent)
      modifies `m, `agent
      ensures Ok() && Accounted(m, up, agent) && NoAgent(m) && agent <= 0 && FileMoved(old(m), m)
      ensures old(agent) > 0 ==> old(agent) !in m.procs
      ensures old(m.nextPid) <= m.nextPid
      ensures old(NothingMissed()) ==> NothingMissed()
    {
      var gone := Stop(agent);
      agent := gone;
    }

    method StartAgent(forks: bool)
      requires Sound() && NoAgent(m)
      modifies `m, `agent, `starts, `joins
      ensures Sound() && FileMoved(old(m), m) && m.file == old(m.file)
      ensures m.procs.Keys == old(m.procs.Keys) + (if forks then {agent} else {})
      ensures if forks then agent >= old(m.nextPid) && m.procs[agent].role == Agent else agent == -1
      ensures starts == old(starts) + [Agent] && joins == old(joins)
    {
      agent := Fork(Agent, forks);
    }

    /** On the access point, the supplicant was started on the version just tried. */
    ghost predicate FreshLink(air: Air)
      reads this
    {
      && up.kind == LinkKind(air, wireless, tried)
      && (up.kind == AccessPoint ==> m.file == tried && up.networks == Baseline(tried))
      && (up.kind == AccessPoint && tried.Some? ==> ReallyTried())
    }

    /** Kill the agent, go down the whole ladder again, and start an agent unless on
        Bluetooth. */
    method Relink(air: Air)
      requires Ok() && Accounted(m, up, agent)
      modifies `m, `up, `tried, `wireless, `agent, `starts, `joins
      ensures LoopInv() && FileMoved(old(m), m) && FreshLink(air) && wireless == (old(wireless) || air.found)
      ensures starts == old(starts) + (LinkStarts(air, wireless, tried) + AgentStart(up.kind))
      ensures joins == old(joins) + Joins(air, wireless, tried)
    {
      KillAgent();
      BringUp(air);
      agent := -1;
      var forks: bool := *;
      Assoc(old(starts), LinkStarts(air, wireless, tried), AgentStart(up.kind));
      if up.kind != Ble {
        StartAgent(forks);
      }
    }

    /** The way off Bluetooth: everything behind the new link is recorded already, and
        only the helper and its two daemons have to go. */
    method LeaveBle(helper: int)
      requires Ok() && helper < m.nextPid && AccountedBut(m, up, agent, helper)
      modifies `m, `up
      ensures Ok() && Accounted(m, up, agent) && FileMoved(old(m), m)
      ensures up == old(up).(bluetoothd := up.bluetoothd, dbus := up.dbus) && up.bluetoothd <= 0 && up.dbus <= 0
    {
      StopBluetooth(helper);
    }

    /** On Bluetooth, see whether a better link has appeared. The helper stays alive
        meanwhile: 2 means it replaced the credentials under an access point, so the
        caller must relink; 1 means the new link stands; 0 means none came up. */
    method PromoteFromBle(air: Air) returns (r: int)
      requires LoopInv() && up.kind == Ble
      modifies `m, `up, `tried, `wireless, `starts, `joins
      ensures Ok() && Accounted(m, up, agent) && Tidy()
      ensures wireless == (old(wireless) || air.found) && starts == old(starts) + IpStarts(air, wireless, tried)
      ensures r == 0 <==> IpKind(air, wireless, tried) == NoLink
      ensures up.kind == if r == 0 then Ble else IpKind(air, wireless, tried)
      ensures r in {0, 1, 2} && (r == 2 <==> up.kind == AccessPoint && ChangedFrom(m.file, old(up.networks)))
      ensures r in {0, 1} ==> NothingMissed()
    {
      var helper, before := up.daemon, up.networks;
      ghost var m0 := m;
      up := up.(daemon := -1);
      var ok := IpLink(air);
      if !ok {
        NothingNew(m0, old(up), agent, m, up.daemon);
        up := up.(daemon := helper);
        return 0;
      }
      ghost var m1 := m;
      BesideHelper(m0, old(up), agent, m, up);
      LeaveBle(helper);
      if up.kind == AccessPoint && m.file == Some(before) {
        StillThere(m0, m1, m, before);
      }
      r := if up.kind == AccessPoint && ChangedFrom(m.file, before) then 2 else 1;
    }

    /** A request to switch into another root. Refused requests change nothing; a
        request that gets past the checks kills the agent, and a failed move starts one
        again whatever the link is. That breaks the loop's invariant exactly when the
        link is Bluetooth and the fork works. */
    method SwitchRoot(outcome: SwitchOutcome, forks: bool) returns (ended: bool)
      requires LoopInv()
      modifies `m, `agent, `starts, `joins
      ensures Sound()
      ensures LoopInv() <==> !(outcome == MoveFailed && up.kind == Ble && forks)
      ensures outcome in {Unreadable, Refused} ==> m == old(m) && agent == old(agent)
      ensures outcome in {MoveFailed, Switched} && old(agent) > 0 ==> old(agent) !in m.procs
      ensures outcome == MoveFailed && forks ==> agent in m.procs && m.procs[agent].role == Agent
      ensures starts == old(starts) + (if outcome == MoveFailed then [Agent] else []) && joins == old(joins)
      ensures ended <==> outcome == Switched
    {
      if outcome == Unreadable || outcome == Refused {
        return false;
      }
      KillAgent();
      if outcome == MoveFailed {
        StartAgent(forks);
      }
      ended := outcome == Switched;
    }

    /** An agent that exited is started again at once. */
    method ReapAgent()
      requires LoopInv() && agent in m.procs
      modifies `m, `agent, `starts, `joins
      ensures LoopInv() && FileMoved(old(m), m)
      ensures old(agent) !in m.procs && old(m.procs.Keys) - {old(agent)} <= m.procs.Keys
      ensures starts == old(starts) + [Agent] && joins == old(joins)
    {
      OneAgent(m, up, agent);
      m := m.(procs := m.procs - {agent});
      agent := -1;
      var forks: bool := *;
      assert NoAgent(m);
      assert Sound();
      StartAgent(forks);
    }

    /** What reaping any other child means for the link; `zero` is its exit status. */
    method ReapOther(p: int, zero: bool) returns (lost: bool, provisioned: bool)
      requires LoopInv() && p in m.procs && p != agent
      modifies `m, `up
      ensures LoopInv() && FileMoved(old(m), m)
      ensures up == old(up).(daemon := up.daemon, dhcp := up.dhcp)
      ensures up.daemon == if p == old(up.daemon) then -1 else old(up.daemon)
      ensures lost || provisioned <==> LinkExit(old(up), {p})
      ensures provisioned <==> p == old(up.daemon) && up.kind == Ble && (zero || ChangedFrom(old(m.file), up.networks))
      ensures !(lost && provisioned) && m.procs == old(m.procs) - {p}
    {
      lost, provisioned := false, false;
      m := m.(procs := m.procs - {p});
      if p == up.daemon {
        up := up.(daemon := -1);
        if up.kind == Ble && (zero || ChangedFrom(m.file, up.networks)) {
          provisioned := true;
        } else {
          lost := true;
        }
      } else if p == up.dhcp {
        up := up.(dhcp := -1);
      } else if p == up.bluetoothd || p == up.dbus {
        lost := true;
      }
    }

    /** One exited child. The flags say exactly whether it was behind the link. */
    method ReapOne(p: int, zero: bool) returns (lost: bool, provisioned: bool)
      requires LoopInv() && p in m.procs && !m.procs[p].running
      modifies `m, `up, `agent, `starts, `joins
      ensures LoopInv() && FileMoved(old(m), m)
      ensures up == old(up).(daemon := up.daemon, dhcp := up.dhcp)
      ensures up.daemon == if p == old(up.daemon) then -1 else old(up.daemon)
      ensures lost || provisioned <==> LinkExit(old(up), {p})
      ensures p !in m.procs && old(m.procs.Keys) - {p} <= m.procs.Keys
      ensures agent == old(agent) || p == old(agent)
      ensures starts == old(starts) + (if p == old(agent) then [Agent] else []) && joins == old(joins)
    {
      if p == agent {
        ReapAgent();
        lost, provisioned := false, false;
      } else {
        lost, provisioned := ReapOther(p, zero);
      }
    }

    /** Time passing between two steps of the loop. */
    method Pause()
      requires Sound()
      modifies `m
      ensures Sound() && FileMoved(old(m), m) && m.procs.Keys == old(m.procs.Keys)
      ensures LoopInv() <==> old(LoopInv())
    {
      Interfere();
    }

    /** Only agents have been started since. */
    ghost predicate OnlyAgents(before: seq<Role>)
      reads this
    {
      before <= starts && AllAgents(starts[|before|..])
    }

    /** The `waitpid` loop: any number of exited children, in any order. Together the
        flags say exactly whether a link process was among them, and an agent among them
        has been started again. */
    method Reap() returns (lost: bool, provisioned: bool, ghost reaped: set<int>)
      requires LoopInv()
      modifies `m, `up, `agent, `starts, `joins
      ensures LoopInv() && FileMoved(old(m), m)
      ensures up == old(up).(daemon := up.daemon, dhcp := up.dhcp)
      ensures up.daemon == if old(up.daemon) in reaped then -1 else old(up.daemon)
      ensures lost || provisioned <==> LinkExit(old(up), reaped)
      ensures old(m.procs.Keys) - reaped <= m.procs.Keys
      ensures OnlyAgents(old(starts)) && joins == old(joins)
      ensures old(agent) in reaped ==> starts != old(starts)
    {
      lost, provisioned, reaped := false, false, {};
      var n: int := *;
      while n > 0
        invariant LoopInv() && FileMoved(old(m), m)
        invariant up == old(up).(daemon := up.daemon, dhcp := up.dhcp)
        invariant up.daemon == if old(up.daemon) in reaped then -1 else old(up.daemon)
        invariant lost || provisioned <==> LinkExit(old(up), reaped)
        invariant old(m.procs.Keys) - reaped <= m.procs.Keys
        invariant forall p :: p in reaped ==> p >= 1
        invariant OnlyAgents(old(starts)) && joins == old(joins)
        invariant starts == old(starts) ==> agent == old(agent) && old(agent) !in reaped
      {
        var p: int, zero: bool := *, *;
        if p in m.procs && !m.procs[p].running {
          var l, v := ReapOne(p, zero);
          lost, provisioned, reaped := lost || l, provisioned || v, reaped + {p};
        }
        Pause();
        n := n - 1;
      }
    }

    /** The branch a turn takes once the children are reaped and there is no request. */
    ghost function Choice(tick: Tick, lost: bool, provisioned: bool): Action
      reads this
    {
      if (up.kind == AccessPoint && ChangedFrom(m.file, up.networks)) || provisioned || lost then Action.Relink
      else if up.kind == Ble && tick.due then Promote
      else if tick.due && (up.kind == NoLink || tick.carrierLost) then Action.Relink
      else Rest
    }

    /** What a turn does once the children are reaped and there is no switch request. */
    method Decide(tick: Tick, lost: bool, provisioned: bool) returns (act: Action)
      requires LoopInv()
      modifies `m, `up, `tried, `wireless, `agent, `starts, `joins
      ensures LoopInv() && act == old(Choice(tick, lost, provisioned)) && old(starts) <= starts
      ensures act == Rest ==> m == old(m) && up == old(up) && agent == old(agent) && starts == old(starts)
      ensures act == Action.Relink ==>
        && FreshLink(tick.air)
        && starts == old(starts) + (LinkStarts(tick.air, wireless, tried) + AgentStart(up.kind))
      ensures act == Promote && tick.air.carrier ==>
        up.kind == Wired && starts == old(starts) + (IpStarts(tick.air, wireless, tried) + [Agent])
      ensures act == Promote && up.kind != Ble ==> starts != [] && starts[|starts| - 1] == Agent
      ensures old(up.kind) == AccessPoint && ChangedFrom(old(m.file), old(up.networks)) ==> TriedNewer(old(up.networks))
    {
      if (up.kind == AccessPoint && ChangedFrom(m.file, up.networks)) || provisioned || lost {
        Relink(tick.air);
        act := Action.Relink;
      } else if up.kind == Ble && tick.due {
        var r := PromoteFromBle(tick.air);
        if r == 2 {
          Relink(tick.again);
        } else if r == 1 {
          var forks: bool := *;
          Assoc(old(starts), IpStarts(tick.air, wireless, tried), [Agent]);
          StartAgent(forks);
        }
        act := Promote;
      } else if tick.due && (up.kind == NoLink || tick.carrierLost) {
        Relink(tick.air);
        act := Action.Relink;
      } else {
        act := Rest;
      }
    }

    /** The head of a turn: an agent if one is due, and the children reaped. */
    method Head() returns (lost: bool, provisioned: bool, ghost reaped: set<int>)
      requires LoopInv()
      modifies `m, `up, `agent, `starts, `joins
      ensures LoopInv() && FileMoved(old(m), m)
      ensures up == old(up).(daemon := up.daemon, dhcp := up.dhcp)
      ensures up.daemon == if old(up.daemon) in reaped then -1 else old(up.daemon)
      ensures lost || provisioned <==> LinkExit(old(up), reaped)
      ensures old(m.procs.Keys) - reaped <= m.procs.Keys
      ensures OnlyAgents(old(starts)) && joins == old(joins)
      ensures (old(agent) <= 0 && up.kind != Ble) || old(agent) in reaped ==> starts != old(starts)
    {
      if agent <= 0 && up.kind != Ble {
        agent := Spawn(Agent);
      }
      Pause();
      lost, provisioned, reaped := Reap();
    }

    /** One turn of the main loop. It keeps the invariant exactly unless a switch
        request fails its move on Bluetooth and the fork works. Without a request,
        credentials newer than the access point's baseline and the exit of any link
        process bring the link down and up again; a request that does not end the loop
        leaves such an exit unanswered. */
    method Turn(request: Request, tick: Tick) returns (act: Action, ended: bool, ghost reaped: set<int>)
      requires LoopInv()
      modifies `m, `up, `tried, `wireless, `agent, `starts, `joins
      ensures LoopInv() <==> !(request == SwitchRequest(MoveFailed, true) && old(up.kind) == Ble)
      ensures request.NoRequest? && old(up.kind) == AccessPoint && ChangedFrom(old(m.file), old(up.networks))
              ==> act == Action.Relink && TriedNewer(old(up.networks))
      ensures LinkExit(old(up), reaped) ==>
                (act != Action.Relink && !ended <==> request.SwitchRequest? && request.outcome != Switched)
      ensures request.SwitchRequest? ==>
                && act == Switch && up == old(up).(daemon := up.daemon, dhcp := up.dhcp)
                && up.daemon == if old(up.daemon) in reaped then -1 else old(up.daemon)
      ensures request == SwitchRequest(MoveFailed, true) ==> agent in m.procs && m.procs[agent].role == Agent
      ensures act == Rest ==> old(m.procs.Keys) - reaped <= m.procs.Keys && !LinkExit(old(up), reaped)
      ensures request.NoRequest? && !LinkExit(old(up), reaped) && tick.due ==>
                && (old(up.kind) == Ble ==> act == Promote)
                && (old(up.kind) == NoLink || (old(up.kind) != Ble && tick.carrierLost) ==> act == Action.Relink)
      ensures act == Action.Relink ==>
                up.kind == LinkKind(tick.air, wireless, tried)
                && EndsWith(starts, LinkStarts(tick.air, wireless, tried) + AgentStart(up.kind))
      ensures old(starts) <= starts
      ensures (old(agent) <= 0 && old(up.kind) != Ble) || old(agent) in reaped ==>
                |starts| > |old(starts)| && starts[|old(starts)|] == Agent
      ensures ended <==> request.SwitchRequest? && request.outcome == Switched
    {
      var lost, provisioned;
      lost, provisioned, reaped := Head();
      ghost var mid := starts;
      FirstAgent(old(starts), mid);
      if request.SwitchRequest? {
        ended := SwitchRoot(request.outcome, request.forks);
        act := Switch;
      } else {
        act := Decide(tick, lost, provisioned);
        ended := false;
        if act == Action.Relink {
          Ends(mid, LinkStarts(tick.air, wireless, tried) + AgentStart(up.kind));
        }
      }
      Pause();
    }

    /** On Bluetooth, a failed move whose fork works always leaves an agent running
        there. */
    method FailedMoveOnBluetooth(tick: Tick) returns (act: Action)
      requires LoopInv() && up.kind == Ble
      modifies `m, `up, `tried, `wireless, `agent, `starts, `joins
      ensures up.kind == Ble && agent in m.procs && m.procs[agent].role == Agent && !LoopInv()
    {
      var ended;
      ghost var reaped;
      act, ended, reaped := Turn(SwitchRequest(MoveFailed, true), tick);
    }

    /** Such a state and such a failure: nothing but Bluetooth comes up at boot. */
    static method FailedMoveExample() returns (i: Init)
      ensures fresh(i) && i.up.kind == Ble && i.agent in i.m.procs && !i.LoopInv()
    {
      var air := Air(false, false, false, false, false, false, true);
      i := new Init(None, false, air);
      var act := i.FailedMoveOnBluetooth(Tick(false, false, air, air));
    }

    /** Boot: no link, no children, perhaps credentials baked into the image. With no
        agent yet, the first link and agent come up as in a relink. */
    constructor (baked: Option<Version>, wireless: bool, air: Air)
      requires baked != Some(NO_FILE)
      ensures LoopInv() && FreshLink(air) && this.wireless == (wireless || air.found)
      ensures starts == LinkStarts(air, this.wireless, tried) + AgentStart(up.kind)
      ensures joins == Joins(air, this.wireless, tried)
    {
      m := Machine(map[], 1, {}, baked, if baked.Some? then {baked.value} else {});
      up := DOWN;
      agent := -1;
      this.wireless := wireless;
      tried, starts, joins := None, [], [];
      new;
      Relink(air);
    }

    /** Any run of the main loop, which stops here if its invariant is broken. It is
        broken only by a switch request whose move fails and whose fork works. */
    method Run(requests: seq<Request>, ticks: seq<Tick>) returns (orderly: bool)
      requires LoopInv() && |requests| == |ticks|
      modifies this
      ensures orderly <==> LoopInv()
      ensures !orderly ==> up.kind == Ble && SwitchRequest(MoveFailed, true) in requests
      ensures old(starts) <= starts
    {
      var i := 0;
      while i < |requests|
        invariant 0 <= i <= |requests| && LoopInv() && old(starts) <= starts
      {
        var broken := requests[i] == SwitchRequest(MoveFailed, true) && up.kind == Ble;
        var act, ended;
        ghost var reaped;
        act, ended, reaped := Turn(requests[i], ticks[i]);
        if broken {
          return false;
        }
        if ended {
          return true;
        }
        i := i + 1;
      }
      orderly := true;
    }
  }

  lemma FirstAgent(before: seq<Role>, now: seq<Role>)
    requires before <= now && AllAgents(now[|before|..])
    ensures now != before ==> |now| > |before| && now[|before|] == Agent
  {
    if |now| > |before| {
      assert now[|before|..][0] == now[|before|];
    }
  }

  predicate EndsWith(s: seq<Role>, tail: seq<Role>) {
    |tail| <= |s| && s[|s| - |tail|..] == tail
  }

  lemma Ends(front: seq<Role>, tail: seq<Role>)
    ensures EndsWith(front + tail, tail)
  {
  }
}
