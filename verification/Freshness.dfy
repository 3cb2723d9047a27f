/** The freshness gate: who writes `sync_state`, and what a reader may conclude from it
    (internal/store/syncstate.go, internal/syncd/lifecycle.go and daemon.go, internal/cli/localcache.go). */
module Freshness {
  import opened Prelude

  datatype SyncState = SyncState(
    daemonPID: int, startedAt: int, heartbeatAt: int, lastEventAt: int, lastReconcileAt: int,
    wsConnected: bool, backfillDone: bool, schemaVersion: int, serverURL: string, meUserID: Id, lastError: string)

  const ZERO_STATE := SyncState(0, 0, 0, 0, 0, false, false, 0, "", "", "")
  const SCHEMA_VERSION := 2
  const STALE_MS := 30000

  // ---- the single row of sync_state --------------------------------------------------------------------------

  function InitRow(row: Option<SyncState>, pid: int, now: int, url: string, me: Id): SyncState {
    var base := if row.Some? then row.value else ZERO_STATE;
    base.(daemonPID := pid, startedAt := now, heartbeatAt := now, wsConnected := false, backfillDone := false,
          schemaVersion := SCHEMA_VERSION, serverURL := url, meUserID := me, lastError := "")
  }

  /** The table; an UPDATE of the missing row does nothing. */
  class SyncTable {
    var row: Option<SyncState>

    constructor ()
      ensures row == None
    {
      row := None;
    }

    method InitSyncState(pid: int, now: int, url: string, me: Id)
      modifies this
      ensures row == Some(InitRow(old(row), pid, now, url, me))
      ensures row.value.daemonPID == pid && row.value.startedAt == now && row.value.heartbeatAt == now
      ensures !row.value.wsConnected && !row.value.backfillDone && row.value.lastError == ""
      ensures row.value.schemaVersion == 2 && row.value.serverURL == url && row.value.meUserID == me
      ensures row.value.lastEventAt == (if old(row).Some? then old(row).value.lastEventAt else 0)
      ensures row.value.lastReconcileAt == (if old(row).Some? then old(row).value.lastReconcileAt else 0)
    {
      if row.None? {
        row := Some(SyncState(pid, now, now, 0, 0, false, false, SCHEMA_VERSION, url, me, ""));
      } else {
        row := Some(row.value.(
          daemonPID := pid, startedAt := now, heartbeatAt := now, wsConnected := false, backfillDone := false,
          schemaVersion := SCHEMA_VERSION, serverURL := url, meUserID := me, lastError := ""));
      }
    }

    method Heartbeat(now: int)
      modifies this
      ensures row == if old(row).Some? then Some(old(row).value.(heartbeatAt := now)) else None
    {
      if row.Some? { row := Some(row.value.(heartbeatAt := now)); }
    }

    method SetWSConnected(connected: bool, now: int)
      modifies this
      ensures row ==
              if old(row).Some? then Some(old(row).value.(wsConnected := connected, heartbeatAt := now)) else None
    {
      if row.Some? { row := Some(row.value.(wsConnected := connected, heartbeatAt := now)); }
    }

    method SetLastEvent(ts: int, now: int)
      modifies this
      ensures row == if old(row).Some? then Some(old(row).value.(lastEventAt := ts, heartbeatAt := now)) else None
    {
      if row.Some? { row := Some(row.value.(lastEventAt := ts, heartbeatAt := now)); }
    }

    method SetBackfillDone(done: bool)
      modifies this
      ensures row == if old(row).Some? then Some(old(row).value.(backfillDone := done)) else None
    {
      if row.Some? { row := Some(row.value.(backfillDone := done)); }
    }

    method SetSyncError(message: string)
      modifies this
      ensures row == if old(row).Some? then Some(old(row).value.(lastError := message)) else None
    {
      if row.Some? { row := Some(row.value.(lastError := message)); }
    }

    method ReadSyncState() returns (s: SyncState)
      ensures row.Some? ==> s == row.value
      ensures row.None? ==> s == SyncState(0, 0, 0, 0, 0, false, false, 0, "", "", "")
    {
      s := if row.Some? then row.value else ZERO_STATE;
    }

    /** The start of the daemon's run. Each statement and the backfill may fail; the row says the backfill is done only
        when it is this process's own row and this process's own backfill. */
    method Start(pid: int, now: int, url: string, me: Id, initOk: bool, backfillError: Option<string>, noteOk: bool,
                 markOk: bool)
      returns (ok: bool)
      modifies this
      ensures ok <==> initOk && backfillError.None? && markOk
      ensures !initOk ==> row == old(row)
      ensures initOk ==> row == Some(InitRow(old(row), pid, now, url, me).(
        backfillDone := ok,
        lastError := if backfillError.Some? && noteOk then "backfill: " + backfillError.value else ""))
      ensures initOk ==> row.value.daemonPID == pid && row.value.heartbeatAt == now
    {
      if !initOk { return false; }
      InitSyncState(pid, now, url, me);
      if backfillError.Some? {
        if noteOk { SetSyncError("backfill: " + backfillError.value); }
        return false;
      }
      if !markOk { return false; }
      SetBackfillDone(true);
      return true;
    }
  }

  // ---- the gate ----------------------------------------------------------------------------------------------

  predicate HeartbeatFresh(s: SyncState, now: int) {
    s.heartbeatAt != 0 && 0 <= now - s.heartbeatAt < STALE_MS
  }

  /** What reading the row yields; `None` when there is no database. */
  datatype ReadOutcome = ReadFailed | NoDatabase | Row(state: SyncState)

  /** The row is read first; the clock and the process table are looked at later. */
  predicate Gate(noDaemon: bool, read: ReadOutcome, now: int, alive: set<int>) {
    && !noDaemon && read.Row?
    && HeartbeatFresh(read.state, now) && read.state.daemonPID > 0 && read.state.daemonPID in alive
    && read.state.backfillDone
  }

  /** `openFreshLocalCache`: a missing row reads as the zero row, which is never fresh. */
  method OpenFreshLocalCache(table: SyncTable, noDaemon: bool, hasDb: bool, readOk: bool, now: int, alive: set<int>,
                             openOk: bool)
    returns (usable: bool)
    ensures usable <==>
      openOk && hasDb && readOk && table.row.Some? && Gate(noDaemon, Row(table.row.value), now, alive)
    ensures usable <==> !noDaemon && hasDb && readOk && openOk && table.row.Some? && var s := table.row.value;
      s.heartbeatAt != 0 && s.heartbeatAt <= now < s.heartbeatAt + 30000 &&
      s.daemonPID > 0 && s.daemonPID in alive && s.backfillDone
  {
    if noDaemon || !hasDb || !readOk { return false; }
    var s := table.ReadSyncState();
    if !HeartbeatFresh(s, now) || s.daemonPID <= 0 || s.daemonPID !in alive || !s.backfillDone { return false; }
    return openOk;
  }

  /** One connection of `webSocketLoop`, as the row shows it: connected, an event time for each event applied, and
      disconnected; whose row it is and whether its backfill is done stay as they were. */
  method ListenOnce(table: SyncTable, from: int, reconcileError: string, events: seq<(int, int)>, until: int)
    modifies table
    ensures old(table.row).None? ==> table.row.None?
    ensures old(table.row).Some? ==> table.row == Some(old(table.row).value.(
      wsConnected := false, heartbeatAt := until, lastError := reconcileError,
      lastEventAt := if events == [] then old(table.row).value.lastEventAt else events[|events| - 1].0))
  {
    table.SetWSConnected(true, from);
    table.SetSyncError("");
    if reconcileError != "" { table.SetSyncError(reconcileError); }
    for i := 0 to |events|
      invariant old(table.row).None? ==> table.row.None?
      invariant old(table.row).Some? ==> table.row.Some? && table.row.value == old(table.row).value.(
        wsConnected := true, heartbeatAt := table.row.value.heartbeatAt, lastError := reconcileError,
        lastEventAt := if i == 0 then old(table.row).value.lastEventAt else events[i - 1].0)
    {
      table.SetLastEvent(events[i].0, events[i].1);
    }
    table.SetWSConnected(false, until);
  }

  // ---- the processes -----------------------------------------------------------------------------------------

  /** How far a daemon process got. */
  datatype Phase = Started | Locked | Inited | Backfilled | Marked

  datatype Proc = Proc(pid: int, phase: Phase, holds: bool, alive: bool)

  predicate Initialised(p: Phase) { p.Inited? || p.Backfilled? || p.Marked? }

  /** The processes by the order they were started in, the row, who reset the row last and who beat last, the clock. */
  datatype System = System(
    procs: map<nat, Proc>, row: Option<SyncState>, owner: nat, beater: nat, clock: int)

  /** Steps of the operating system, of the lock file, of the clock, and the statements of a daemon. A daemon stops at
      any point, either killed (`Die`) or by returning, which closes database and lock before the process ends. */
  datatype Step =
    | Spawn(i: nat, pid: int)
    | Acquire(i: nat)
    | Init(i: nat, url: string, me: Id)
    | Beat(i: nat, event: Option<int>)
    | FinishBackfill(i: nat)
    | MarkDone(i: nat)
    | Return(i: nat)
    | Die(i: nat)
    | Tick(ms: nat)

  ghost predicate Enabled(s: System, step: Step) {
    match step
    case Spawn(i, pid) =>
      i !in s.procs && pid > 0 && forall j :: j in s.procs && s.procs[j].alive ==> s.procs[j].pid != pid
    case Acquire(i) =>
      i in s.procs && s.procs[i].alive && s.procs[i].phase == Started &&
      forall j :: j in s.procs ==> !s.procs[j].holds
    case Init(i, _, _) => i in s.procs && s.procs[i].holds && s.procs[i].phase == Locked
    case Beat(i, _) => i in s.procs && s.procs[i].holds && Initialised(s.procs[i].phase)
    case FinishBackfill(i) => i in s.procs && s.procs[i].holds && s.procs[i].phase == Inited
    case MarkDone(i) => i in s.procs && s.procs[i].holds && s.procs[i].phase == Backfilled
    case Return(i) => i in s.procs && s.procs[i].holds
    case Die(i) => i in s.procs && s.procs[i].alive
    case Tick(_) => true
  }

  function Advance(s: System, i: nat, phase: Phase): map<nat, Proc>
    requires i in s.procs
  {
    s.procs[i := s.procs[i].(phase := phase)]
  }

  ghost function Next(s: System, step: Step): System
    requires Enabled(s, step)
  {
    match step
    case Spawn(i, pid) => s.(procs := s.procs[i := Proc(pid, Started, false, true)])
    case Acquire(i) => s.(procs := s.procs[i := s.procs[i].(phase := Locked, holds := true)])
    case Init(i, url, me) =>
      s.(procs := Advance(s, i, Inited), row := Some(InitRow(s.row, s.procs[i].pid, s.clock, url, me)),
         owner := i, beater := i)
    case Beat(i, event) =>
      if s.row.None? then s else
        s.(beater := i, row := Some(
          if event.Some? then s.row.value.(heartbeatAt := s.clock, lastEventAt := event.value)
          else s.row.value.(heartbeatAt := s.clock)))
    case FinishBackfill(i) => s.(procs := Advance(s, i, Backfilled))
    case MarkDone(i) =>
      s.(procs := Advance(s, i, Marked),
         row := if s.row.Some? then Some(s.row.value.(backfillDone := true)) else None)
    case Return(i) => s.(procs := s.procs[i := s.procs[i].(holds := false)])
    case Die(i) => s.(procs := s.procs[i := s.procs[i].(holds := false, alive := false)])
    case Tick(ms) => s.(clock := s.clock + ms)
  }

  ghost predicate Run(s: System, steps: seq<Step>, t: System)
    decreases |steps|
  {
    if steps == [] then s == t else Enabled(s, steps[0]) && Run(Next(s, steps[0]), steps[1..], t)
  }

  ghost predicate Exclusive(s: System) {
    && (forall i, j :: i in s.procs && j in s.procs && s.procs[i].holds && s.procs[j].holds ==> i == j)
    && (forall i :: i in s.procs && s.procs[i].holds ==> s.procs[i].alive)
    && (forall i :: i in s.procs ==> s.procs[i].pid > 0)
  }

  /** A daemon that is still at work and has reset the row is the one the row is about. */
  ghost predicate OwnerWorks(s: System) {
    forall i :: i in s.procs && s.procs[i].holds && Initialised(s.procs[i].phase) ==> s.row.Some? && i == s.owner
  }

  /** The row is about the process that reset it last: its pid, its own backfill, its own heartbeats. */
  ghost predicate RowIsOwners(s: System) {
    s.row.Some? ==>
      && s.owner in s.procs && s.row.value.daemonPID == s.procs[s.owner].pid && Initialised(s.procs[s.owner].phase)
      && (s.row.value.backfillDone <==> s.procs[s.owner].phase == Marked)
      && s.beater == s.owner && s.row.value.heartbeatAt <= s.clock
  }

  ghost predicate Inv(s: System) { Exclusive(s) && OwnerWorks(s) && RowIsOwners(s) }

  lemma StepKeeps(s: System, step: Step)
    requires Inv(s) && Enabled(s, step)
    ensures Inv(Next(s, step))
  {
  }

  /** What only ever goes forward: the clock, who has lived, the end of a process, a finished backfill. */
  ghost predicate Forward(s: System, t: System) {
    && s.clock <= t.clock
    && (forall i :: i in s.procs ==>
          i in t.procs && t.procs[i].pid == s.procs[i].pid && (!s.procs[i].alive ==> !t.procs[i].alive))
    && (forall i :: i in s.procs && s.procs[i].phase == Marked ==> t.procs[i].phase == Marked)
  }

  lemma StepForward(s: System, step: Step)
    requires Exclusive(s) && Enabled(s, step)
    ensures Forward(s, Next(s, step))
  {
  }

  lemma {:induction false} RunKeeps(s: System, steps: seq<Step>, t: System)
    requires Inv(s) && Run(s, steps, t)
    ensures Inv(t)
    decreases |steps|
  {
    if steps != [] {
      StepKeeps(s, steps[0]);
      RunKeeps(Next(s, steps[0]), steps[1..], t);
    }
  }

  lemma {:induction false} RunForward(s: System, steps: seq<Step>, t: System)
    requires Inv(s) && Run(s, steps, t)
    ensures Forward(s, t)
    decreases |steps|
  {
    if steps != [] {
      StepKeeps(s, steps[0]);
      StepForward(s, steps[0]);
      RunForward(Next(s, steps[0]), steps[1..], t);
    }
  }

  ghost predicate Empty(s: System) { s.procs == map[] && s.row == None }

  ghost function AlivePids(s: System): set<int> { set i | i in s.procs && s.procs[i].alive :: s.procs[i].pid }

  ghost predicate PidsDistinct(s: System) {
    forall i, j :: i in s.procs && j in s.procs && i != j ==> s.procs[i].pid != s.procs[j].pid
  }

  /** The gate is sound across crashes and restarts. The reader takes the row at `s`, the clock at `t` and the process
      table at `u`, daemons starting, crashing and writing in between. When it accepts and no pid was used twice, the
      process the row names is alive at `u`, had reset the row itself and then finished its own backfill before `s`,
      and it itself, no other, wrote the heartbeat, less than 30 seconds before `t`. */
  lemma GateIsSound(
    init: System, before: seq<Step>, s: System, middle: seq<Step>, t: System, late: seq<Step>, u: System)
    requires Empty(init) && Run(init, before, s) && Run(s, middle, t) && Run(t, late, u)
    requires PidsDistinct(u) && s.row.Some? && Gate(false, Row(s.row.value), t.clock, AlivePids(u))
    ensures s.owner in s.procs && s.procs[s.owner].pid == s.row.value.daemonPID
    ensures s.procs[s.owner].phase == Marked && s.procs[s.owner].alive
    ensures s.owner in u.procs && u.procs[s.owner].alive
    ensures s.beater == s.owner && t.clock - 30000 < s.row.value.heartbeatAt <= s.clock
  {
    RunKeeps(init, before, s);
    RunKeeps(s, middle, t);
    RunForward(s, middle, t);
    RunForward(t, late, u);
    var i :| i in u.procs && u.procs[i].alive && u.procs[i].pid == s.row.value.daemonPID;
    assert i == s.owner;
  }

  /** In a state reached without reuse of a pid, the gate accepts exactly when the process that reset the row is alive,
      has finished its backfill, and beat less than 30 seconds ago. */
  lemma GateExact(init: System, steps: seq<Step>, s: System)
    requires Empty(init) && Run(init, steps, s) && PidsDistinct(s) && s.row.Some?
    ensures Gate(false, Row(s.row.value), s.clock, AlivePids(s)) <==>
            s.owner in s.procs && s.procs[s.owner].alive && s.procs[s.owner].phase == Marked &&
            s.row.value.heartbeatAt != 0 && s.clock - s.row.value.heartbeatAt < 30000
  {
    RunKeeps(init, steps, s);
    var pid := s.row.value.daemonPID;
    assert s.procs[s.owner].alive ==> pid in AlivePids(s);
    if pid in AlivePids(s) {
      var i :| i in s.procs && s.procs[i].alive && s.procs[i].pid == pid;
      assert i == s.owner;
    }
  }

  /** At most one daemon is at work, in every reachable state. */
  lemma OneWriter(init: System, steps: seq<Step>, s: System, i: nat, j: nat)
    requires Empty(init) && Run(init, steps, s)
    requires i in s.procs && j in s.procs && s.procs[i].holds && s.procs[j].holds
    ensures i == j
  {
    RunKeeps(init, steps, s);
  }

  /** A daemon with pid 7 goes through its start, is killed, and pid 7 is used again. */
  const REUSE := [
    Spawn(0, 7), Acquire(0), Init(0, "", ""), FinishBackfill(0), MarkDone(0), Die(0), Spawn(1, 7)]
  const BLANK := System(map[], None, 0, 0, 1)
  const REUSED := System(
    map[0 := Proc(7, Marked, false, false), 1 := Proc(7, Started, false, true)],
    Some(SyncState(7, 1, 1, 0, 0, false, true, SCHEMA_VERSION, "", "", "")), 0, 0, 1)

  /** Without the condition on pids the gate may be fooled: the reader takes for the daemon a process that has not even
      asked for the lock. */
  lemma PidReuseFoolsTheGate()
    ensures Empty(BLANK) && Run(BLANK, REUSE, REUSED)
    ensures Gate(false, Row(REUSED.row.value), REUSED.clock, AlivePids(REUSED))
    ensures forall i :: i in REUSED.procs && REUSED.procs[i].alive ==> REUSED.procs[i].phase == Started
  {
    var marked := BLANK.(procs := map[0 := Proc(7, Marked, true, true)], row := REUSED.row);
    FirstSteps(marked);
    assert REUSE == REUSE[..5] + [Die(0), Spawn(1, 7)];
    RunAppend(BLANK, REUSE[..5], marked, [Die(0), Spawn(1, 7)], REUSED);
    assert REUSED.procs[1].alive;
  }

  const LOCKED := BLANK.(procs := map[0 := Proc(7, Locked, true, true)])

  lemma FirstSteps(marked: System)
    requires marked == BLANK.(procs := map[0 := Proc(7, Marked, true, true)], row := REUSED.row)
    ensures Run(BLANK, REUSE[..5], marked)
  {
    TwoSteps(BLANK, REUSE[0], REUSE[1], LOCKED);
    FromLocked(marked);
    RunAppend(BLANK, [REUSE[0], REUSE[1]], LOCKED, [REUSE[2], REUSE[3], REUSE[4]], marked);
    assert REUSE[..5] == [REUSE[0], REUSE[1]] + [REUSE[2], REUSE[3], REUSE[4]];
  }

  lemma FromLocked(marked: System)
    requires marked == BLANK.(procs := map[0 := Proc(7, Marked, true, true)], row := REUSED.row)
    ensures Run(LOCKED, [REUSE[2], REUSE[3], REUSE[4]], marked)
  {
    var inited := Next(LOCKED, REUSE[2]);
    assert Next(Next(inited, REUSE[3]), REUSE[4]).procs == marked.procs;
    TwoSteps(inited, REUSE[3], REUSE[4], marked);
    assert [REUSE[2], REUSE[3], REUSE[4]][1..] == [REUSE[3], REUSE[4]];
  }

  lemma TwoSteps(s: System, a: Step, b: Step, t: System)
    requires Enabled(s, a) && Enabled(Next(s, a), b) && t == Next(Next(s, a), b)
    ensures Run(s, [a, b], t)
  {
    assert [a, b][1..] == [b] && [b][1..] == [];
    assert Run(Next(s, a), [b], t);
  }

  lemma {:induction false} RunAppend(s: System, xs: seq<Step>, t: System, ys: seq<Step>, u: System)
    requires Run(s, xs, t) && Run(t, ys, u)
    ensures Run(s, xs + ys, u)
    decreases |xs|
  {
    if xs == [] {
      assert xs + ys == ys;
    } else {
      RunAppend(Next(s, xs[0]), xs[1..], t, ys, u);
      assert (xs + ys)[1..] == xs[1..] + ys;
    }
  }
}
