// Self-update: installing a release, proving it healthy, and going back.

module Update {
  import opened Wrappers

  type Version = string

  const MAX_ATTEMPTS: nat := 3
  const START_DEADLINE_MS := 180_000

  datatype Phase = Restarting | Verifying | Rollback | Done | RolledBack | Failed

  datatype Db = Db(schema: int, data: string)

  // The files an install sets aside: the binary, the database, the wired state.
  datatype Backup = Backup(binary: Version, db: Option<Db>, wired: Option<string>)

  datatype Note = NoNote | NotInstalled | RunningAgain | DidNotStart(attempts: nat) | TooLate | Because(why: string)

  datatype State = State(
    phase: Phase, from: Version, to: Version, backup: Backup, hasWired: bool, startedAt: int,
    attempts: nat, schemaBefore: int, message: Note, finishedAt: int)

  // The files: the service's binary, the one kept beside it, the recorded
  // update, the database (a relay has none) and the wired state.
  datatype Files = Files(exe: Version, prev: Option<Version>, state: Option<State>, db: Option<Db>, wired: Option<string>)

  datatype Config = Config(hasDb: bool, hasWired: bool)

  // How far an install got once its checks passed.
  datatype Swap = Swapped | SwapFailed | Interrupted

  // ---- what each operation does to the files ------------------------------------

  function Put(f: Files, st: State): Files { f.(state := Some(st)) }

  function Saved(f: Files, cfg: Config): Backup {
    Backup(f.exe, if cfg.hasDb then f.db else None, if cfg.hasWired then f.wired else None)
  }

  function Install(f: Files, cfg: Config, from: Version, to: Version, preflight: bool, swap: Swap, now: int): (Files, bool)
    requires cfg.hasDb ==> f.db.Some?
  {
    if !preflight then (f, false)
    else
      var schema := if cfg.hasDb then f.db.value.schema else 0;
      var st := State(Restarting, from, to, Saved(f, cfg), cfg.hasWired, now, 0, schema, NoNote, 0);
      var f1 := Put(f.(prev := Some(f.exe)), st);
      match swap
      case Swapped => (f1.(exe := to), true)
      case SwapFailed => (Put(f1, st.(phase := Failed, message := NotInstalled, finishedAt := now)), false)
      case Interrupted => (f1, false)
  }

  function RollBack(f: Files, why: Note): (Files, bool) {
    if f.state.None? then (f, false)
    else
      var st := f.state.value;
      (Put(f.(exe := if f.prev.Some? then f.prev.value else st.backup.binary), st.(phase := Rollback, message := why)), true)
  }

  // The database comes back only if its schema has changed.
  function RestoreData(f: Files, st: State, now: int): Files {
    var db := if f.db.Some? && f.db.value.schema != st.schemaBefore && st.backup.db.Some? then st.backup.db else f.db;
    var wired := if st.hasWired && st.backup.wired.Some? then st.backup.wired else f.wired;
    Put(f.(db := db, wired := wired), st.(phase := RolledBack, finishedAt := now))
  }

  function FirstNonEmpty(a: Note, b: Note): Note { if a != NoNote then a else b }

  predicate Active(p: Phase) { p == Restarting || p == Verifying }

  // The new files, and whether to restart.
  function Boot(f: Files, running: Version, now: int): (Files, bool) {
    if f.state.None? then (f, false)
    else
      var st := f.state.value;
      if st.phase == Rollback then (RestoreData(f, st, now), false)
      else if !Active(st.phase) then (f, false)
      else if running != st.to then
        (Put(f, st.(phase := RolledBack, message := FirstNonEmpty(st.message, RunningAgain), finishedAt := now)), false)
      else if st.attempts + 1 > MAX_ATTEMPTS then (RollBack(f, DidNotStart(st.attempts)).0, true)
      else (Put(f, st.(attempts := st.attempts + 1, phase := Verifying)), false)
  }

  function Guard(f: Files, now: int): Files {
    if f.state.None? then f
    else
      var st := f.state.value;
      if st.phase == Rollback then RestoreData(f, st, now)
      else if Active(st.phase) && (st.attempts > MAX_ATTEMPTS || now - st.startedAt > START_DEADLINE_MS) then
        var f1 := RollBack(f, TooLate).0;
        RestoreData(f1, f1.state.value, now)
      else f
  }

  function Healthy(f: Files, running: Version, now: int): Files {
    if f.state.Some? && f.state.value.phase == Verifying && f.state.value.to == running
    then Put(f, f.state.value.(phase := Done, finishedAt := now, message := NoNote))
    else f
  }

  // The guard, if it is installed, and a start of the service's binary: which
  // version goes on to open the data, if any.
  function StartOn(f: Files, guarded: bool, now: int): (Files, Option<Version>) {
    var f1 := if guarded then Guard(f, now) else f;
    var (f2, restart) := Boot(f1, f1.exe, now);
    (f2, if restart then None else Some(f1.exe))
  }

  // ---- the same on the files themselves -------------------------------------------

  class DataDir {
    const cfg: Config
    var exe: Version
    var prev: Option<Version>
    var state: Option<State>
    var db: Option<Db>
    var wired: Option<string>

    constructor (cfg: Config, exe: Version, db: Option<Db>, wired: Option<string>)
      ensures View() == Files(exe, None, None, db, wired) && this.cfg == cfg
    {
      this.cfg, this.exe, this.db, this.wired := cfg, exe, db, wired;
      prev, state := None, None;
    }

    ghost function View(): Files
      reads this
    {
      Files(exe, prev, state, db, wired)
    }

    method InstallRelease(from: Version, to: Version, preflight: bool, swap: Swap, now: int) returns (ok: bool)
      requires cfg.hasDb ==> db.Some?
      modifies this
      ensures (View(), ok) == Install(old(View()), cfg, from, to, preflight, swap, now)
    {
      if !preflight { return false; }
      var schema := 0;
      var savedDb, savedWired := None, None;
      if cfg.hasDb {
        schema := db.value.schema;
        savedDb := db;
      }
      if cfg.hasWired { savedWired := wired; }
      var backup := Backup(exe, savedDb, savedWired);
      prev := Some(exe);
      var st := State(Restarting, from, to, backup, cfg.hasWired, now, 0, schema, NoNote, 0);
      state := Some(st);
      if swap == Interrupted { return false; }
      if swap == SwapFailed {
        state := Some(st.(phase := Failed, message := NotInstalled, finishedAt := now));
        return false;
      }
      exe := to;
      return true;
    }

    method RollBackNow(why: Note) returns (ok: bool)
      modifies this
      ensures (View(), ok) == RollBack(old(View()), why)
    {
      if state == None { return false; }
      var st := state.value;
      if prev.Some? { exe := prev.value; } else { exe := st.backup.binary; }
      state := Some(st.(phase := Rollback, message := why));
      return true;
    }

    method Restore(st: State, now: int)
      modifies this
      ensures View() == RestoreData(old(View()), st, now)
    {
      if db.Some? && db.value.schema != st.schemaBefore && st.backup.db.Some? { db := st.backup.db; }
      if st.hasWired && st.backup.wired.Some? { wired := st.backup.wired; }
      state := Some(st.(phase := RolledBack, finishedAt := now));
    }

    method BootServer(running: Version, now: int) returns (restart: bool)
      modifies this
      ensures (View(), restart) == Boot(old(View()), running, now)
    {
      if state == None { return false; }
      var st := state.value;
      match st.phase
      case Rollback =>
        Restore(st, now);
        return false;
      case Restarting | Verifying =>
        if running != st.to {
          state := Some(st.(phase := RolledBack, message := FirstNonEmpty(st.message, RunningAgain), finishedAt := now));
          return false;
        }
        st := st.(attempts := st.attempts + 1);
        if st.attempts > MAX_ATTEMPTS {
          var _ := RollBackNow(DidNotStart(st.attempts - 1));
          return true;
        }
        state := Some(st.(phase := Verifying));
        return false;
      case _ =>
        return false;
    }

    method GuardStart(now: int)
      modifies this
      ensures View() == Guard(old(View()), now)
    {
      if state == None { return; }
      var st := state.value;
      match st.phase
      case Rollback =>
        Restore(st, now);
      case Restarting | Verifying =>
        if st.attempts > MAX_ATTEMPTS || now - st.startedAt > START_DEADLINE_MS {
          var ok := RollBackNow(TooLate);
          Restore(state.value, now);
        }
      case _ =>
    }

    method ReportHealthy(running: Version, now: int)
      modifies this
      ensures View() == Healthy(old(View()), running, now)
    {
      if state == None || state.value.phase != Verifying || state.value.to != running { return; }
      state := Some(state.value.(phase := Done, finishedAt := now, message := NoNote));
    }

    // One start by the service manager: the guard of the previous binary if it
    // is installed, then the binary itself, which counts its start.
    method StartService(guarded: bool, now: int) returns (running: Option<Version>)
      modifies this
      ensures (View(), running) == StartOn(old(View()), guarded, now)
    {
      if guarded { GuardStart(now); }
      var v := exe;
      var restart := BootServer(v, now);
      running := if restart then None else Some(v);
    }

    // A service that is started again each time it dies, at these times, and
    // that may get as far as committing some migrations. After five starts of
    // an update that was not proved, the previous version runs, on the schema
    // it left.
    method KeepStarting(guarded: bool, nows: seq<int>, migrated: seq<int>, latest: Latest) returns (running: Option<Version>)
      requires SysInv(Sys(View(), Stopped), cfg, latest) && |migrated| == |nows| >= 5
      requires state.Some? && Unproved(state.value)
      modifies this
      ensures SysInv(Sys(View(), Running(running)), cfg, latest)
      ensures state.Some? && SameUpdate(state.value, old(state.value)) && state.value.phase == RolledBack
      ensures running == Some(old(state.value).from) && exe == old(state.value).from && SchemaIs(View(), old(state.value).schemaBefore)
    {
      hide StartOn;
      running := None;
      for i := 0 to |nows|
        invariant SysInv(Sys(View(), Running(running)), cfg, latest)
        invariant state.Some? && SameUpdate(state.value, old(state.value)) && Unproved(state.value)
        invariant StartsLeft(state.value) == 0 || i + StartsLeft(state.value) <= 5
        invariant i > 0 && state.value.phase == RolledBack ==> running == Some(state.value.from)
      {
        ghost var f := View();
        DyingKeepsInv(f, running, cfg, latest, migrated[i]);
        if running.Some? && db.Some? && db.value.schema < migrated[i] <= latest(running.value) {
          db := Some(db.value.(schema := migrated[i]));
        }
        StartGetsCloser(View(), cfg, latest, guarded, nows[i]);
        hide SysInv;
        running := StartService(guarded, nows[i]);
      }
    }
  }

  // ---- a server over its lifetime ---------------------------------------------------

  // What runs: nothing, a binary that passed Boot and is opening the data, or
  // one that has it open.
  datatype Proc = Stopped | Opening(v: Version) | Serving(v: Version)

  datatype Sys = Sys(f: Files, proc: Proc)

  datatype Event =
    | GuardRuns(now: int)                // the service manager's check before a start
    | BootRuns(now: int)
    | Migrates(schema: int)              // one migration of the database commits
    | Opens
    | Writes(data: string, wired: Option<string>)
    | Stops                              // an exit or a crash, at any moment
    | Installs(to: Version, preflight: bool, swap: Swap, now: int)
    | GoesBack(why: Note)                // unhealthy for too long, or by hand; then it exits
    | ReportsHealthy(now: int)

  // The schema each version migrates a database to.
  type Latest = Version -> int

  ghost predicate Possible(s: Sys, latest: Latest, e: Event) {
    match e
    case GuardRuns(_) => s.proc.Stopped?
    case BootRuns(_) => s.proc.Stopped?
    case Migrates(schema) => s.proc.Opening? && s.f.db.Some? && s.f.db.value.schema < schema <= latest(s.proc.v)
    case Opens => s.proc.Opening? && (s.f.db.Some? ==> s.f.db.value.schema >= latest(s.proc.v))
    case Writes(_, _) => s.proc.Serving?
    case Stops => true
    case Installs(_, _, _, _) => s.proc.Serving?
    case GoesBack(_) => s.f.state.Some?
    case ReportsHealthy(_) => s.proc.Serving?
  }

  ghost function Step(s: Sys, cfg: Config, latest: Latest, e: Event): Sys
    requires Possible(s, latest, e) && (cfg.hasDb ==> s.f.db.Some?)
  {
    match e
    case GuardRuns(now) => s.(f := Guard(s.f, now))
    case BootRuns(now) =>
      var (f', restart) := Boot(s.f, s.f.exe, now);
      Sys(f', if restart then Stopped else Opening(s.f.exe))
    case Migrates(schema) => s.(f := s.f.(db := Some(s.f.db.value.(schema := schema))))
    case Opens => s.(proc := Serving(s.proc.v))
    case Writes(data, wired) =>
      s.(f := s.f.(db := if s.f.db.Some? then Some(s.f.db.value.(data := data)) else None, wired := wired))
    case Stops => s.(proc := Stopped)
    case Installs(to, preflight, swap, now) =>
      var f' := Install(s.f, cfg, s.proc.v, to, preflight, swap, now).0;
      Sys(f', if preflight && swap != SwapFailed then Stopped else s.proc)
    case GoesBack(why) => Sys(RollBack(s.f, why).0, Stopped)
    case ReportsHealthy(now) => s.(f := Healthy(s.f, s.proc.v, now))
  }

  ghost predicate SchemaIs(f: Files, schema: int) { f.db.Some? ==> f.db.value.schema == schema }

  // The recorded update agrees with the files.
  ghost predicate StateOk(f: Files, proc: Proc, cfg: Config, latest: Latest, st: State) {
    && f.prev == Some(st.from) && st.backup.binary == st.from
    && st.backup.db.Some? == cfg.hasDb
    && (cfg.hasDb ==> st.backup.db.value.schema == st.schemaBefore >= latest(st.from))
    && match st.phase
       case Restarting => st.attempts == 0 && (f.exe == st.to || (f.exe == st.from && SchemaIs(f, st.schemaBefore)))
       case Verifying => 1 <= st.attempts <= MAX_ATTEMPTS && f.exe == st.to
       case Rollback => st.attempts <= MAX_ATTEMPTS && f.exe == st.from && proc.Stopped?
       case Done => st.attempts <= MAX_ATTEMPTS && f.exe == st.to
       case RolledBack => st.attempts <= MAX_ATTEMPTS && f.exe == st.from && SchemaIs(f, st.schemaBefore)
       case Failed => st.attempts == 0 && f.exe == st.from && SchemaIs(f, st.schemaBefore)
  }

  ghost predicate SysInv(s: Sys, cfg: Config, latest: Latest) {
    && cfg.hasDb == s.f.db.Some?
    && (!s.proc.Stopped? ==> s.proc.v == s.f.exe)
    && (s.proc.Serving? && s.f.db.Some? ==> s.f.db.value.schema >= latest(s.f.exe))
    && (s.f.state.Some? ==> StateOk(s.f, s.proc, cfg, latest, s.f.state.value))
  }

  // Going back leaves the previous binary; restoring, its schema.
  lemma BackKeepsState(f: Files, proc: Proc, cfg: Config, latest: Latest, why: Note)
    requires cfg.hasDb == f.db.Some? && f.state.Some? && StateOk(f, proc, cfg, latest, f.state.value)
    ensures var f' := RollBack(f, why).0;
      && f' == f.(exe := f.state.value.from, state := f'.state)
      && f'.state == Some(f.state.value.(phase := Rollback, message := why))
      && StateOk(f', Stopped, cfg, latest, f'.state.value)
  {}

  lemma RestoreKeepsState(f: Files, proc: Proc, cfg: Config, latest: Latest, now: int)
    requires cfg.hasDb == f.db.Some? && f.state.Some? && StateOk(f, Stopped, cfg, latest, f.state.value)
    requires f.state.value.phase == Rollback
    ensures var f' := RestoreData(f, f.state.value, now);
      && f'.exe == f.exe && f'.state.Some? && f'.db.Some? == cfg.hasDb
      && StateOk(f', proc, cfg, latest, f'.state.value)
  {}

  lemma BootKeepsInv(s: Sys, cfg: Config, latest: Latest, now: int)
    requires SysInv(s, cfg, latest) && s.proc.Stopped?
    ensures SysInv(Step(s, cfg, latest, BootRuns(now)), cfg, latest)
  {
    hide RestoreData, RollBack;
    if s.f.state.Some? {
      var st := s.f.state.value;
      if st.phase == Rollback {
        RestoreKeepsState(s.f, Opening(s.f.exe), cfg, latest, now);
      } else if Active(st.phase) {
        BackKeepsState(s.f, Stopped, cfg, latest, DidNotStart(st.attempts));
      }
    }
  }

  lemma GuardKeepsInv(s: Sys, cfg: Config, latest: Latest, now: int)
    requires SysInv(s, cfg, latest) && s.proc.Stopped?
    ensures SysInv(Step(s, cfg, latest, GuardRuns(now)), cfg, latest)
  {}

  lemma InstallKeepsInv(s: Sys, cfg: Config, latest: Latest, to: Version, preflight: bool, swap: Swap, now: int)
    requires SysInv(s, cfg, latest) && s.proc.Serving?
    ensures SysInv(Step(s, cfg, latest, Installs(to, preflight, swap, now)), cfg, latest)
  {}

  lemma ServingKeepsInv(s: Sys, cfg: Config, latest: Latest, e: Event)
    requires SysInv(s, cfg, latest) && Possible(s, latest, e) && (e.Writes? || e.ReportsHealthy? || e.GoesBack?)
    ensures SysInv(Step(s, cfg, latest, e), cfg, latest)
  {}

  lemma StepKeepsInv(s: Sys, cfg: Config, latest: Latest, e: Event)
    requires SysInv(s, cfg, latest) && Possible(s, latest, e)
    ensures SysInv(Step(s, cfg, latest, e), cfg, latest)
  {
    match e
    case BootRuns(now) => BootKeepsInv(s, cfg, latest, now);
    case GuardRuns(now) => GuardKeepsInv(s, cfg, latest, now);
    case Installs(to, preflight, swap, now) => InstallKeepsInv(s, cfg, latest, to, preflight, swap, now);
    case Migrates(_) =>
    case Opens =>
    case Stops =>
    case _ => ServingKeepsInv(s, cfg, latest, e);
  }

  // ---- a service that keeps dying ----------------------------------------------------

  function Running(running: Option<Version>): Proc { if running.Some? then Opening(running.value) else Stopped }

  predicate Unproved(st: State) { st.phase != Done && st.phase != Failed }

  predicate SameUpdate(a: State, b: State) { a.from == b.from && a.to == b.to && a.schemaBefore == b.schemaBefore }

  // Starts until the previous version runs on its own data, at most.
  function StartsLeft(st: State): int {
    match st.phase
    case Restarting => 5
    case Verifying => 5 - st.attempts
    case Rollback => 1
    case _ => 0
  }

  lemma StartKeepsInv(f: Files, cfg: Config, latest: Latest, guarded: bool, now: int)
    requires SysInv(Sys(f, Stopped), cfg, latest)
    ensures var (f', running) := StartOn(f, guarded, now); SysInv(Sys(f', Running(running)), cfg, latest)
  {
    var s := Sys(f, Stopped);
    var s1 := if guarded then Step(s, cfg, latest, GuardRuns(now)) else s;
    if guarded { GuardKeepsInv(s, cfg, latest, now); }
    assert s1.proc == Stopped && s1.f == (if guarded then Guard(f, now) else f);
    BootKeepsInv(s1, cfg, latest, now);
    hide SysInv, Boot, Guard;
  }

  lemma BootGetsCloser(f: Files, cfg: Config, latest: Latest, now: int)
    requires SysInv(Sys(f, Stopped), cfg, latest) && f.state.Some? && Unproved(f.state.value)
    ensures var ((f', restart), st) := (Boot(f, f.exe, now), f.state.value);
      && f'.state.Some? && SameUpdate(f'.state.value, st) && Unproved(f'.state.value)
      && (StartsLeft(f'.state.value) < StartsLeft(st) || (StartsLeft(st) == 0 && f'.state.value.phase == RolledBack))
      && (f'.state.value.phase == RolledBack ==> !restart && f.exe == st.from)
  {}

  lemma GuardGetsNoFarther(f: Files, cfg: Config, latest: Latest, now: int)
    requires SysInv(Sys(f, Stopped), cfg, latest) && f.state.Some? && Unproved(f.state.value)
    ensures var (f', st) := (Guard(f, now), f.state.value);
      && f'.state.Some? && SameUpdate(f'.state.value, st) && Unproved(f'.state.value)
      && StartsLeft(f'.state.value) <= StartsLeft(st)
  {}

  // Each start brings the previous version closer.
  lemma StartGetsCloser(f: Files, cfg: Config, latest: Latest, guarded: bool, now: int)
    requires SysInv(Sys(f, Stopped), cfg, latest) && f.state.Some? && Unproved(f.state.value)
    ensures var ((f', running), st) := (StartOn(f, guarded, now), f.state.value);
      && SysInv(Sys(f', Running(running)), cfg, latest)
      && f'.state.Some? && SameUpdate(f'.state.value, st) && Unproved(f'.state.value)
      && (StartsLeft(f'.state.value) < StartsLeft(st) || (StartsLeft(st) == 0 && f'.state.value.phase == RolledBack))
      && (f'.state.value.phase == RolledBack ==> running == Some(st.from))
  {
    hide SysInv, Boot, Guard;
    StartKeepsInv(f, cfg, latest, guarded, now);
    if guarded {
      GuardKeepsInv(Sys(f, Stopped), cfg, latest, now);
      GuardGetsNoFarther(f, cfg, latest, now);
    }
    var f1 := if guarded then Guard(f, now) else f;
    BootGetsCloser(f1, cfg, latest, now);
  }

  // A process that dies while it opens the data, after some migrations.
  lemma DyingKeepsInv(f: Files, running: Option<Version>, cfg: Config, latest: Latest, schema: int)
    requires SysInv(Sys(f, Running(running)), cfg, latest)
    ensures var f' := if running.Some? && f.db.Some? && f.db.value.schema < schema <= latest(running.value)
                      then f.(db := Some(f.db.value.(schema := schema))) else f;
      SysInv(Sys(f', Stopped), cfg, latest)
  {}

  // ---- runs ---------------------------------------------------------------------------

  ghost predicate IsRun(ss: seq<Sys>, es: seq<Event>, cfg: Config, latest: Latest) {
    && |ss| == |es| + 1 && SysInv(ss[0], cfg, latest)
    && forall i :: 0 <= i < |es| ==>
      Possible(ss[i], latest, es[i]) && (cfg.hasDb ==> ss[i].f.db.Some?) && ss[i + 1] == Step(ss[i], cfg, latest, es[i])
  }

  lemma {:induction false} RunsKeepInv(ss: seq<Sys>, es: seq<Event>, cfg: Config, latest: Latest, n: nat)
    requires IsRun(ss, es, cfg, latest) && n <= |es|
    ensures SysInv(ss[n], cfg, latest)
  {
    if n > 0 {
      RunsKeepInv(ss, es, cfg, latest, n - 1);
      StepKeepsInv(ss[n - 1], cfg, latest, es[n - 1]);
    }
  }

  lemma RunStep(ss: seq<Sys>, es: seq<Event>, cfg: Config, latest: Latest, n: nat)
    requires IsRun(ss, es, cfg, latest) && n < |es|
    ensures SysInv(ss[n], cfg, latest) && Possible(ss[n], latest, es[n]) && ss[n + 1] == Step(ss[n], cfg, latest, es[n])
  {
    RunsKeepInv(ss, es, cfg, latest, n);
  }

  // Starts of a version, among the events from i up to n, that passed Boot.
  ghost function Passes(ss: seq<Sys>, es: seq<Event>, v: Version, i: nat, n: nat): nat
    requires |ss| == |es| + 1 && i <= n <= |es|
  {
    if n == i then 0
    else Passes(ss, es, v, i, n - 1) + if es[n - 1].BootRuns? && ss[n].proc == Opening(v) then 1 else 0
  }

  // The update installed at event i is still the recorded one after n events,
  // and was never done.
  ghost predicate StillProving(ss: seq<Sys>, es: seq<Event>, i: nat, n: nat)
    requires |ss| == |es| + 1 && i < n <= |es|
  {
    && es[i].Installs? && es[i].preflight && es[i].swap == Swapped
    && (forall j :: i < j < n ==> !es[j].Installs?)
    && (forall j :: i < j <= n ==> ss[j].f.state.Some? ==> !ss[j].f.state.value.phase.Done?)
  }

  // While an update is unproven, its record counts the starts that passed.
  lemma BootCounts(s: Sys, cfg: Config, latest: Latest, e: Event)
    requires SysInv(s, cfg, latest) && Possible(s, latest, e) && e.BootRuns? && s.f.state.Some?
    requires var st := s.f.state.value; st.from != st.to && !st.phase.Done?
    ensures var (st, s') := (s.f.state.value, Step(s, cfg, latest, e));
      && s'.f.state.Some? && s'.f.state.value.to == st.to && s'.f.state.value.from == st.from
      && s'.f.state.value.attempts == st.attempts + if s'.proc == Opening(st.to) then 1 else 0
  {
    hide Guard, Healthy, Install;
  }

  lemma OthersCountNothing(s: Sys, cfg: Config, latest: Latest, e: Event)
    requires SysInv(s, cfg, latest) && Possible(s, latest, e) && !e.BootRuns? && !e.Installs? && s.f.state.Some?
    ensures var (st, s') := (s.f.state.value, Step(s, cfg, latest, e));
      && s'.f.state.Some? && s'.f.state.value.to == st.to && s'.f.state.value.from == st.from
      && s'.f.state.value.attempts == st.attempts
  {
    hide Boot, Install;
  }

  lemma StepCounts(s: Sys, cfg: Config, latest: Latest, e: Event)
    requires SysInv(s, cfg, latest) && Possible(s, latest, e) && !e.Installs? && s.f.state.Some?
    requires var st := s.f.state.value; st.from != st.to && !st.phase.Done?
    ensures var (st, s') := (s.f.state.value, Step(s, cfg, latest, e));
      && s'.f.state.Some? && s'.f.state.value.to == st.to && s'.f.state.value.from == st.from
      && s'.f.state.value.attempts == st.attempts + if e.BootRuns? && s'.proc == Opening(st.to) then 1 else 0
  {
    hide SysInv, Step, Possible;
    if e.BootRuns? { BootCounts(s, cfg, latest, e); } else { OthersCountNothing(s, cfg, latest, e); }
  }

  lemma ProvingBefore(ss: seq<Sys>, es: seq<Event>, i: nat, n: nat)
    requires |ss| == |es| + 1 && i + 1 < n <= |es| && StillProving(ss, es, i, n)
    ensures StillProving(ss, es, i, n - 1) && !es[n - 1].Installs?
    ensures ss[n - 1].f.state.Some? ==> !ss[n - 1].f.state.value.phase.Done?
  {}

  // A swap leaves the new binary and a fresh record, and everything needed to
  // go back: the previous binary beside it, and binary and database saved.
  lemma InstallRecords(s: Sys, cfg: Config, latest: Latest, e: Event)
    requires SysInv(s, cfg, latest) && Possible(s, latest, e) && e.Installs? && e.preflight && e.swap == Swapped
    ensures var s' := Step(s, cfg, latest, e);
      && s'.f.state.Some? && s'.f.exe == e.to && s'.f.prev == Some(s.f.exe) && s'.f.db == s.f.db && s'.f.wired == s.f.wired
      && var st := s'.f.state.value;
         && st.to == e.to && st.from == s.f.exe && st.attempts == 0 && st.startedAt == e.now && st.phase == Restarting
         && st.backup.binary == s.f.exe && st.backup.db == s.f.db && SchemaIs(s.f, st.schemaBefore)
         && st.hasWired == cfg.hasWired && (cfg.hasWired ==> st.backup.wired == s.f.wired)
  {}

  // The record names the update of event i and counts its starts.
  ghost predicate Counts(ss: seq<Sys>, es: seq<Event>, i: nat, n: nat)
    requires |ss| == |es| + 1 && i < n <= |es| && es[i].Installs?
  {
    var state := ss[n].f.state;
    && state.Some? && state.value.to == es[i].to && state.value.from == ss[i].f.exe
    && Passes(ss, es, es[i].to, i, n) == state.value.attempts
  }

  lemma CountsHas(ss: seq<Sys>, es: seq<Event>, i: nat, n: nat)
    requires |ss| == |es| + 1 && i < n <= |es| && es[i].Installs? && Counts(ss, es, i, n)
    ensures ss[n].f.state.Some?
  {}

  lemma CountsStart(ss: seq<Sys>, es: seq<Event>, cfg: Config, latest: Latest, i: nat)
    requires |ss| == |es| + 1 && i < |es|
    requires SysInv(ss[i], cfg, latest) && Possible(ss[i], latest, es[i]) && ss[i + 1] == Step(ss[i], cfg, latest, es[i])
    requires es[i].Installs? && es[i].preflight && es[i].swap == Swapped
    ensures Counts(ss, es, i, i + 1)
  {
    hide SysInv, Step, Possible;
    InstallRecords(ss[i], cfg, latest, es[i]);
    assert Passes(ss, es, es[i].to, i, i) == 0;
  }

  lemma CountsStep(ss: seq<Sys>, es: seq<Event>, cfg: Config, latest: Latest, i: nat, n: nat)
    requires |ss| == |es| + 1 && i < n < |es| && es[i].Installs? && ss[i].f.exe != es[i].to && Counts(ss, es, i, n)
    requires SysInv(ss[n], cfg, latest) && Possible(ss[n], latest, es[n]) && ss[n + 1] == Step(ss[n], cfg, latest, es[n])
    requires !es[n].Installs? && ss[n].f.state.Some? && !ss[n].f.state.value.phase.Done?
    ensures Counts(ss, es, i, n + 1)
  {
    hide SysInv, Step, Possible;
    StepCounts(ss[n], cfg, latest, es[n]);
  }

  lemma RunLength(ss: seq<Sys>, es: seq<Event>, cfg: Config, latest: Latest)
    requires IsRun(ss, es, cfg, latest)
    ensures |ss| == |es| + 1
  {}

  lemma ProvingStart(ss: seq<Sys>, es: seq<Event>, i: nat, n: nat)
    requires |ss| == |es| + 1 && i < n <= |es| && StillProving(ss, es, i, n)
    ensures es[i].Installs? && es[i].preflight && es[i].swap == Swapped
  {}

  lemma {:induction false} PassesAreCounted(ss: seq<Sys>, es: seq<Event>, cfg: Config, latest: Latest, i: nat, n: nat)
    requires IsRun(ss, es, cfg, latest) && i < n <= |es| && StillProving(ss, es, i, n) && ss[i].f.exe != es[i].to
    ensures Counts(ss, es, i, n)
  {
    hide SysInv, Step, Possible, Passes, IsRun, StillProving, Counts;
    RunLength(ss, es, cfg, latest);
    RunStep(ss, es, cfg, latest, n - 1);
    ProvingStart(ss, es, i, n);
    if n > i + 1 {
      ProvingBefore(ss, es, i, n);
      PassesAreCounted(ss, es, cfg, latest, i, n - 1);
      CountsHas(ss, es, i, n - 1);
      CountsStep(ss, es, cfg, latest, i, n - 1);
    } else {
      CountsStart(ss, es, cfg, latest, i);
    }
  }

  // A new version that never reports healthy passes Boot at most three times.
  lemma AtMostThreeStarts(ss: seq<Sys>, es: seq<Event>, cfg: Config, latest: Latest, i: nat, n: nat)
    requires IsRun(ss, es, cfg, latest) && i < n <= |es| && StillProving(ss, es, i, n) && ss[i].f.exe != es[i].to
    ensures Passes(ss, es, es[i].to, i, n) <= 3
  {
    PassesAreCounted(ss, es, cfg, latest, i, n);
    RunsKeepInv(ss, es, cfg, latest, n);
  }

  // After three, the next start puts the previous version back; the one after
  // that restores its data.
  lemma FourthStartGoesBack(s: Sys, cfg: Config, latest: Latest, now: int, later: int)
    requires SysInv(s, cfg, latest) && s.proc.Stopped? && s.f.state.Some?
    requires s.f.state.value.phase == Verifying && s.f.state.value.attempts >= 3
    ensures var st := s.f.state.value;
      var s1 := Step(s, cfg, latest, BootRuns(now));
      && s1.proc.Stopped? && s1.f.exe == st.from
      && var s2 := Step(s1, cfg, latest, BootRuns(later));
         && s2.proc == Opening(st.from) && s2.f.state.value.phase == RolledBack && SchemaIs(s2.f, st.schemaBefore)
  {
    StepKeepsInv(s, cfg, latest, BootRuns(now));
    StepKeepsInv(Step(s, cfg, latest, BootRuns(now)), cfg, latest, BootRuns(later));
  }

  // A guarded start past the deadline puts the previous version and its data
  // back at once.
  lemma LateStartGoesBack(s: Sys, cfg: Config, latest: Latest, now: int, later: int)
    requires SysInv(s, cfg, latest) && s.proc.Stopped? && s.f.state.Some? && Active(s.f.state.value.phase)
    requires now - s.f.state.value.startedAt > 180_000
    ensures var st := s.f.state.value;
      var s1 := Step(s, cfg, latest, GuardRuns(now));
      && s1.f.exe == st.from && s1.f.state.value.phase == RolledBack && SchemaIs(s1.f, st.schemaBefore)
      && Step(s1, cfg, latest, BootRuns(later)) == s1.(proc := Opening(st.from))
  {
    StepKeepsInv(s, cfg, latest, GuardRuns(now));
  }

  // The guard acts exactly on a pending rollback or past the deadline: its
  // own limit on attempts never decides, since Boot never records a fourth.
  lemma GuardActsExactly(s: Sys, cfg: Config, latest: Latest, now: int)
    requires SysInv(s, cfg, latest) && s.f.state.Some?
    ensures var st := s.f.state.value;
      Guard(s.f, now).state != s.f.state <==>
        st.phase == Rollback || (Active(st.phase) && now - st.startedAt > 180_000)
  {}

  // An update becomes done only while its own version serves, unproven.
  lemma DoneOnlyWhenProved(s: Sys, cfg: Config, latest: Latest, e: Event)
    requires SysInv(s, cfg, latest) && Possible(s, latest, e)
    ensures var s' := Step(s, cfg, latest, e);
      s'.f.state.Some? && s'.f.state.value.phase == Done && s'.f.state != s.f.state ==>
        && e.ReportsHealthy? && s.f.state.Some? && s.f.state.value.phase == Verifying
        && s.proc == Serving(s.f.state.value.to) && s'.f.state.value.to == s.f.state.value.to
  {}

  // Whenever the previous version opens or has open the data, the database
  // has the schema it had when the update was installed.
  lemma PreviousVersionFindsItsSchema(ss: seq<Sys>, es: seq<Event>, cfg: Config, latest: Latest, n: nat)
    requires IsRun(ss, es, cfg, latest) && n <= |es| && ss[n].f.state.Some?
    ensures var st := ss[n].f.state.value;
      !ss[n].proc.Stopped? && ss[n].proc.v == st.from && st.from != st.to ==> SchemaIs(ss[n].f, st.schemaBefore)
  {
    RunsKeepInv(ss, es, cfg, latest, n);
  }

  // Going back keeps what the new version wrote, unless it changed the schema;
  // then the database is the one saved at the install.
  lemma RestoreKeepsNewerData(s: Sys, cfg: Config, latest: Latest, now: int)
    requires SysInv(s, cfg, latest) && s.f.state.Some? && s.f.state.value.phase == Rollback
    ensures var st := s.f.state.value;
      var f := Boot(s.f, s.f.exe, now).0;
      && f.db == (if SchemaIs(s.f, st.schemaBefore) then s.f.db else st.backup.db)
      && f.wired == (if st.hasWired && st.backup.wired.Some? then st.backup.wired else s.f.wired)
      && f.exe == s.f.exe && f.state == Some(st.(phase := RolledBack, finishedAt := now))
  {}

  // A version that reports healthy while it is being proved is kept: no later
  // start, guarded or not, changes anything.
  lemma HealthyIsFinal(f: Files, now: int, later: int)
    requires f.state.Some? && f.state.value.phase == Verifying
    ensures var f' := Healthy(f, f.state.value.to, now);
      && f'.state == Some(f.state.value.(phase := Done, finishedAt := now, message := NoNote))
      && f' == f.(state := f'.state)
      && Guard(f', later) == f' && Boot(f', f'.exe, later) == (f', false)
    ensures forall v :: v != f.state.value.to ==> Healthy(f, v, now) == f
  {}
}
