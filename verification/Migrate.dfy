/** Crash-safe migrations (internal/store/migrate.go). */
module Migrate {
  import opened Prelude

  /** A migration script, as text. */
  type Script = string

  /** What is on disk: `PRAGMA user_version`, and the scripts whose effect the schema has, in the order they took it. */
  datatype Disk = Disk(version: nat, applied: seq<Script>)

  /** How one statement ends: it takes effect, it fails, or the process dies at it. */
  datatype Outcome = Done | Failed | Crashed

  /** The outcomes of the statements of one migration: begin, the script, the pragma, commit. */
  datatype Fate = Fate(begin: Outcome, script: Outcome, pragma: Outcome, commit: Outcome)

  predicate Lands(f: Fate) { f.begin.Done? && f.script.Done? && f.pragma.Done? && f.commit.Done? }

  datatype Result = Ok | Error | Killed

  /** The applied scripts are exactly the first `version` of the list, each once and in order. A newer build may have
      gone beyond the list of this one: then all of the list is applied, and more. */
  ghost predicate UpToVersion(d: Disk, scripts: seq<Script>) {
    |d.applied| == d.version && (if d.version <= |scripts| then d.applied <= scripts else scripts <= d.applied)
  }

  /** The database: what a transaction writes reaches the disk with the commit, or not at all. */
  class Database {
    var disk: Disk
    var pending: Option<Disk>

    constructor ()
      ensures disk == Disk(0, []) && pending == None
    {
      disk, pending := Disk(0, []), None;
    }

    method Begin(o: Outcome)
      requires pending == None
      modifies this`pending
      ensures pending == if o.Done? then Some(disk) else None
    {
      pending := if o.Done? then Some(disk) else None;
    }

    /** The migration's script; a script that fails part of the way has no effect after the rollback. */
    method ExecScript(script: Script, o: Outcome)
      requires pending.Some?
      modifies this`pending
      ensures o.Done? ==> pending == Some(Disk(old(pending).value.version, old(pending).value.applied + [script]))
      ensures !o.Done? ==> pending.Some?
    {
      var p := pending.value;
      pending := Some(Disk(p.version, p.applied + [script]));
    }

    method ExecPragma(version: nat, o: Outcome)
      requires pending.Some?
      modifies this`pending
      ensures o.Done? ==> pending == Some(old(pending).value.(version := version))
      ensures !o.Done? ==> pending == old(pending)
    {
      if o.Done? { pending := Some(pending.value.(version := version)); }
    }

    /** A commit that fails or is cut short leaves the old state. */
    method Commit(o: Outcome)
      requires pending.Some?
      modifies this
      ensures disk == (if o.Done? then old(pending).value else old(disk)) && pending == None
    {
      if o.Done? { disk := pending.value; }
      pending := None;
    }

    /** Explicit, or by the recovery at the next open after a crash. */
    method Rollback()
      modifies this`pending
      ensures pending == None
    {
      pending := None;
    }

    /** One migration in its own transaction. */
    method Apply(script: Script, number: nat, f: Fate) returns (r: Result)
      requires pending == None
      modifies this
      ensures pending == None
      ensures disk == if Lands(f) then Disk(number, old(disk).applied + [script]) else old(disk)
      ensures r.Ok? <==> Lands(f)
    {
      Begin(f.begin);
      if !f.begin.Done? {
        return if f.begin.Failed? then Error else Killed;
      }
      ExecScript(script, f.script);
      if !f.script.Done? {
        Rollback();
        return if f.script.Failed? then Error else Killed;
      }
      ExecPragma(number, f.pragma);
      if !f.pragma.Done? {
        Rollback();
        return if f.pragma.Failed? then Error else Killed;
      }
      Commit(f.commit);
      return if f.commit.Done? then Ok else if f.commit.Failed? then Error else Killed;
    }

    /** One open: reads the version, then applies what is missing one by one until something fails. `fates[i]` is what
        happens to migration i, if it comes to it. */
    method Migrate(scripts: seq<Script>, fates: seq<Fate>, readOk: bool) returns (r: Result)
      requires pending == None && UpToVersion(disk, scripts) && |fates| == |scripts|
      modifies this
      ensures pending == None && UpToVersion(disk, scripts) && disk == Opened(old(disk), scripts, fates, readOk)
      ensures r.Ok? <==> readOk && forall i :: old(disk).version <= i < |scripts| ==> Lands(fates[i])
    {
      if !readOk { return Error; }
      var i := disk.version;
      ghost var start := disk;
      while i < |scripts|
        invariant start.version <= i && (i <= |scripts| || i == start.version)
        invariant pending == None && disk.version == i && UpToVersion(disk, scripts)
        invariant forall j :: start.version <= j < i ==> Lands(fates[j])
        invariant Opened(start, scripts, fates, true) == Opened(disk, scripts, fates, true)
        decreases |scripts| - i
      {
        r := Apply(scripts[i], i + 1, fates[i]);
        if !r.Ok? { return; }
        assert scripts[..i] + [scripts[i]] == scripts[..i + 1];
        i := i + 1;
      }
      return Ok;
    }
  }

  /** What an open leaves on disk. */
  function Opened(d: Disk, scripts: seq<Script>, fates: seq<Fate>, readOk: bool): Disk
    requires |fates| == |scripts|
    decreases |scripts| - d.version
  {
    if readOk && d.version < |scripts| && Lands(fates[d.version]) then
      Opened(Disk(d.version + 1, d.applied + [scripts[d.version]]), scripts, fates, readOk)
    else d
  }

  /** One open by one build: its list of scripts, and what happens to each. */
  datatype Open = Open(scripts: seq<Script>, fates: seq<Fate>, readOk: bool)

  /** The builds' lists are all of one growing list: migrations are never edited, only appended. */
  ghost predicate Released(opens: seq<Open>, all: seq<Script>) {
    forall k :: 0 <= k < |opens| ==> opens[k].scripts <= all && |opens[k].fates| == |opens[k].scripts|
  }

  ghost function History(d: Disk, opens: seq<Open>, all: seq<Script>): Disk
    requires Released(opens, all)
    decreases |opens|
  {
    if opens == [] then d
    else History(Opened(d, opens[0].scripts, opens[0].fates, opens[0].readOk), opens[1..], all)
  }

  lemma {:induction false} OpenedIsPrefix(
    d: Disk, scripts: seq<Script>, fates: seq<Fate>, readOk: bool, all: seq<Script>)
    requires |fates| == |scripts| && scripts <= all && d.version <= |all| && d.applied == all[..d.version]
    ensures var t := Opened(d, scripts, fates, readOk);
            d.version <= t.version <= |all| && t.applied == all[..t.version]
    ensures var t := Opened(d, scripts, fates, readOk);
            t.version == Max(d.version, |scripts|) ||
            (t.version < |scripts| && (!readOk || !Lands(fates[t.version])))
    decreases |scripts| - d.version
  {
    if readOk && d.version < |scripts| && Lands(fates[d.version]) {
      assert all[..d.version] + [scripts[d.version]] == all[..d.version + 1];
      OpenedIsPrefix(Disk(d.version + 1, d.applied + [scripts[d.version]]), scripts, fates, readOk, all);
    }
  }

  /** Over any sequence of opens, of older and newer builds, each cut short at any statement or not, the applied
      migrations are always exactly the first `user_version` of the list: each once, and in order. The version never
      goes back. */
  lemma {:induction false} AppliedOnceInOrder(d: Disk, opens: seq<Open>, all: seq<Script>)
    requires Released(opens, all) && d.version <= |all| && d.applied == all[..d.version]
    ensures var t := History(d, opens, all); d.version <= t.version <= |all| && t.applied == all[..t.version]
    decreases |opens|
  {
    if opens != [] {
      var o := opens[0];
      OpenedIsPrefix(d, o.scripts, o.fates, o.readOk, all);
      AppliedOnceInOrder(Opened(d, o.scripts, o.fates, o.readOk), opens[1..], all);
    }
  }

  /** After such a history, an open to which nothing happens reaches the end of its own list, or stays where a newer
      build had come; opening once more changes nothing. */
  lemma UninterruptedOpenFinishes(opens: seq<Open>, all: seq<Script>, last: Open)
    requires Released(opens, all) && last.scripts <= all && |last.fates| == |last.scripts|
    requires last.readOk && forall i :: 0 <= i < |last.fates| ==> Lands(last.fates[i])
    ensures var d := History(Disk(0, []), opens, all);
            var t := Opened(d, last.scripts, last.fates, true);
            t.version == Max(d.version, |last.scripts|) <= |all| && t.applied == all[..t.version] &&
            Opened(t, last.scripts, last.fates, true) == t
  {
    AppliedOnceInOrder(Disk(0, []), opens, all);
    OpenedIsPrefix(History(Disk(0, []), opens, all), last.scripts, last.fates, true, all);
  }
}
