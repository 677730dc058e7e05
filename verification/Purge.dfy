/** Purge of both service managers (internal/service/systemd.go, internal/service/launchd.go): the
    steps, the faults each of them can meet, and what a run leaves of the host. */
module Purge {

  import opened Wrappers
  import opened Paths

  datatype Platform = Linux | Darwin

  /** Fit: the account passes the platform's check: name, uid and shell on Linux, the shell alone on
      Darwin. Foreign: any other account under the name. */
  datatype Account = Fit | Foreign

  /** What Purge can change. `paths` holds the components of every file and directory. */
  datatype Host = Host(account: Option<Account>, active: bool, unit: bool, dropIn: bool, paths: set<Comps>)

  datatype Config = Config(platform: Platform, stateDir: string, configDir: string, logPath: string)

  /** How the account query ends: it answers, its binary is missing, it exits with another error,
      or it prints something else for an account that exists. */
  datatype Lookup = Answers | NoBinary | Errors | Garbled

  datatype Deletion = Deleted | Denied | Refused

  /** RemoveAll finishes, or stops with an error and leaves these paths. */
  datatype Removal = Whole | Partial(kept: set<Comps>)

  /** Everything outside the program for one run: privileges, $HOME, symlink resolution, and the fault
      of each step. */
  datatype Env = Env(
    root: bool, home: Option<string>, resolve: string -> Resolution,
    showFails: bool, stopFails: bool, lateStopFails: bool, unitStuck: bool, dropInStuck: bool,
    lookup: Lookup, deletion: Deletion, unstatable: set<string>, removal: string -> Removal)

  datatype Effect =
    | StopService
    | RemoveUnit
    | RemoveDropIn
    | AuditIntent(userPresent: bool, dirsPresent: seq<string>)
    | DeleteUser
    | RemoveTree(dir: string)

  datatype Failure = Permission | NotConfirmed | Unavailable | SuspiciousPath | UserMismatch

  datatype Report = Report(
    platform: Option<Platform>, stopped: bool, uninstalled: bool, userRemoved: bool, userAbsent: bool,
    dirsRemoved: seq<string>, dirsAbsent: seq<string>)

  const NO_REPORT := Report(None, false, false, false, false, [], [])

  datatype Outcome = Outcome(host: Host, trail: seq<Effect>, report: Report, failure: Option<Failure>)

  /** The directories in the order of their removal. */
  function Dirs(cfg: Config): seq<string> {
    match cfg.platform
    case Linux => [cfg.stateDir, cfg.configDir]
    case Darwin => [cfg.stateDir, cfg.configDir, cfg.logPath]
  }

  // ----- what each step does -----

  /** The status query reports activity only for an installed unit and a query that worked. */
  predicate SeenActive(h: Host, env: Env) {
    h.unit && !env.showFails && h.active
  }

  predicate StopBlocked(h: Host, env: Env) {
    SeenActive(h, env) && env.stopFails
  }

  function AfterStop(h: Host, env: Env): Host {
    if SeenActive(h, env) then h.(active := false) else h
  }

  /** Uninstall without a unit does nothing; with one its own stop may fail unnoticed. */
  predicate UninstallBlocked(h: Host, cfg: Config, env: Env) {
    h.unit && (env.unitStuck || (cfg.platform.Linux? && h.dropIn && env.dropInStuck))
  }

  function AfterUninstall(h: Host, cfg: Config, env: Env): Host {
    if !h.unit then h
    else
      h.(active := h.active && env.lateStopFails,
         unit := env.unitStuck,
         dropIn := h.dropIn && (env.unitStuck || cfg.platform.Darwin? || env.dropInStuck))
  }

  function UninstallTrail(h: Host, cfg: Config, env: Env): seq<Effect> {
    if !h.unit || env.unitStuck then []
    else if cfg.platform.Linux? && h.dropIn && !env.dropInStuck then [RemoveUnit, RemoveDropIn]
    else [RemoveUnit]
  }

  predicate PathsClear(cfg: Config, env: Env) {
    forall dir :: dir in Dirs(cfg) ==> Removable(dir, env.home, env.resolve(dir), Dirs(cfg))
  }

  /** The account check: present, absent, or a refusal. */
  function UserCheck(account: Option<Account>, platform: Platform, lookup: Lookup): Result<bool, Failure> {
    match lookup
    case NoBinary => Ok(false)
    case Errors => if platform.Linux? then Err(Unavailable) else Ok(false)
    case Garbled => if account.Some? then Err(Unavailable) else Ok(false)
    case Answers =>
      match account
      case None => Ok(false)
      case Some(Fit) => Ok(true)
      case Some(Foreign) => Err(UserMismatch)
  }

  function DeletionFailure(deletion: Deletion): Option<Failure> {
    match deletion
    case Deleted => None
    case Denied => Some(Permission)
    case Refused => Some(Unavailable)
  }

  predicate Seen(dir: string, paths: set<Comps>, env: Env)
    requires IsAbs(dir)
  {
    Components(dir) in paths && dir !in env.unstatable
  }

  function SeenDirs(dirs: seq<string>, paths: set<Comps>, env: Env): (r: seq<string>)
    requires forall dir :: dir in dirs ==> IsAbs(dir)
  {
    if dirs == [] then []
    else (if Seen(dirs[0], paths, env) then [dirs[0]] else []) + SeenDirs(dirs[1..], paths, env)
  }

  predicate Under(p: Comps, dir: string)
    requires IsAbs(dir)
  {
    Components(dir) <= p
  }

  function AfterRemoveAll(dir: string, paths: set<Comps>, removal: Removal): set<Comps>
    requires IsAbs(dir)
  {
    set p | p in paths && (Under(p, dir) ==> removal.Partial? && p in removal.kept)
  }

  datatype Swept = Swept(paths: set<Comps>, removed: seq<string>, absent: seq<string>, trail: seq<Effect>, stuck: bool)

  /** The removal loop: stops at the first RemoveAll that fails. */
  function Sweep(dirs: seq<string>, present: seq<string>, env: Env, paths: set<Comps>): Swept
    requires forall dir :: dir in dirs ==> IsAbs(dir)
  {
    if dirs == [] then Swept(paths, [], [], [], false)
    else
      var dir := dirs[0];
      var left := AfterRemoveAll(dir, paths, env.removal(dir));
      if env.removal(dir).Partial? then Swept(left, [], [], [RemoveTree(dir)], true)
      else
        var rest := Sweep(dirs[1..], present, env, left);
        Swept(rest.paths,
              (if dir in present then [dir] else []) + rest.removed,
              (if dir in present then [] else [dir]) + rest.absent,
              [RemoveTree(dir)] + rest.trail, rest.stuck)
  }

  /** Everything before the audit record. */
  function Prepared(h: Host, env: Env): seq<Effect> {
    if SeenActive(h, env) then [StopService] else []
  }

  function Refusal(h: Host, trail: seq<Effect>, failure: Failure): Outcome {
    Outcome(h, trail, NO_REPORT, Some(failure))
  }

  function PurgeSpec(cfg: Config, confirmed: bool, sink: bool, env: Env, h: Host): Outcome {
    if !env.root then Refusal(h, [], Permission)
    else if !confirmed then Refusal(h, [], NotConfirmed)
    else if StopBlocked(h, env) then Refusal(h, [], Unavailable)
    else
      var h1 := AfterStop(h, env);
      var h2 := AfterUninstall(h1, cfg, env);
      var trail := Prepared(h, env) + UninstallTrail(h1, cfg, env);
      if UninstallBlocked(h1, cfg, env) then Refusal(h2, trail, Unavailable)
      else if !PathsClear(cfg, env) then Refusal(h2, trail, SuspiciousPath)
      else
        match UserCheck(h2.account, cfg.platform, env.lookup)
        case Err(failure) => Refusal(h2, trail, failure)
        case Ok(present) =>
          var o := Destroyed(cfg, sink, env, h2, present,
                             Report(Some(cfg.platform), SeenActive(h, env), h1.unit, false, !present, [], []));
          o.(trail := trail + o.trail)
  }

  /** From the audit record on. */
  function Destroyed(cfg: Config, sink: bool, env: Env, h: Host, present: bool, report: Report): Outcome
    requires forall dir :: dir in Dirs(cfg) ==> IsAbs(dir)
  {
    var seen := SeenDirs(Dirs(cfg), h.paths, env);
    var intent := if sink then [AuditIntent(present, seen)] else [];
    if present && !env.deletion.Deleted? then Refusal(h, intent, DeletionFailure(env.deletion).value)
    else
      var swept := Sweep(Dirs(cfg), seen, env, h.paths);
      Outcome(h.(account := if present then None else h.account, paths := swept.paths),
              intent + (if present then [DeleteUser] else []) + swept.trail,
              report.(userRemoved := present, dirsRemoved := swept.removed, dirsAbsent := swept.absent),
              if swept.stuck then Some(Unavailable) else None)
  }

  // ----- the host, changed step by step -----

  class Machine {
    var account: Option<Account>
    var active: bool
    var unit: bool
    var dropIn: bool
    var paths: set<Comps>
    var trail: seq<Effect>

    constructor (h: Host)
      ensures State() == h && trail == []
    {
      account, active, unit, dropIn, paths := h.account, h.active, h.unit, h.dropIn, h.paths;
      trail := [];
    }

    function State(): Host
      reads this
    {
      Host(account, active, unit, dropIn, paths)
    }

    /** Status.Active. */
    method Status(env: Env) returns (seen: bool)
      ensures seen == SeenActive(State(), env)
    {
      if !unit { return false; }
      if env.showFails { return false; }
      return active;
    }

    method Stop(env: Env) returns (ok: bool)
      modifies this
      ensures ok == (unit && !env.stopFails)
      ensures State() == old(State()).(active := old(active) && !ok)
      ensures trail == old(trail) + if ok then [StopService] else []
    {
      if !unit { return false; }
      if env.stopFails { return false; }
      active := false;
      trail := trail + [StopService];
      return true;
    }

    /** `done` is false when nothing was installed, which the caller takes for success. */
    method Uninstall(cfg: Config, env: Env) returns (done: bool, failed: bool)
      modifies this
      ensures failed == UninstallBlocked(old(State()), cfg, env)
      ensures !failed ==> done == old(unit)
      ensures State() == AfterUninstall(old(State()), cfg, env)
      ensures trail == old(trail) + UninstallTrail(old(State()), cfg, env)
    {
      if !unit { return false, false; }
      if !env.lateStopFails { active := false; }
      if env.unitStuck { return false, true; }
      unit := false;
      trail := trail + [RemoveUnit];
      if cfg.platform.Linux? && dropIn {
        if env.dropInStuck { return false, true; }
        dropIn := false;
        trail := trail + [RemoveDropIn];
      }
      return true, false;
    }

    method RemoveAll(dir: string, env: Env) returns (ok: bool)
      requires IsAbs(dir)
      modifies this
      ensures ok == env.removal(dir).Whole?
      ensures State() == old(State()).(paths := AfterRemoveAll(dir, old(paths), env.removal(dir)))
      ensures trail == old(trail) + [RemoveTree(dir)]
    {
      paths := AfterRemoveAll(dir, paths, env.removal(dir));
      trail := trail + [RemoveTree(dir)];
      return env.removal(dir).Whole?;
    }

    /** os.Stat over the directories. */
    method Present(dirs: seq<string>, env: Env) returns (present: seq<string>)
      requires forall dir :: dir in dirs ==> IsAbs(dir)
      ensures present == SeenDirs(dirs, paths, env)
    {
      hide SeenDirs, Seen, IsAbs;
      present := [];
      assert dirs[0..] == dirs && [] + SeenDirs(dirs, paths, env) == SeenDirs(dirs, paths, env);
      for i := 0 to |dirs|
        invariant present + SeenDirs(dirs[i..], paths, env) == SeenDirs(dirs, paths, env)
      {
        SeenDirsHead(dirs[i..], paths, env);
        assert dirs[i..][1..] == dirs[i + 1..];
        ghost var rest := SeenDirs(dirs[i + 1..], paths, env);
        assert present + ([dirs[i]] + rest) == present + [dirs[i]] + rest;
        if Seen(dirs[i], paths, env) { present := present + [dirs[i]]; }
      }
      assert SeenDirs(dirs[|dirs|..], paths, env) == [] by { NoDirs(dirs[|dirs|..], paths, env); }
    }

    method CheckPaths(cfg: Config, env: Env) returns (ok: bool)
      ensures ok == PathsClear(cfg, env)
    {
      var dirs := Dirs(cfg);
      for i := 0 to |dirs|
        invariant forall j :: 0 <= j < i ==> Removable(dirs[j], env.home, env.resolve(dirs[j]), dirs)
      {
        var fine := ValidatePurgePath(dirs[i], env.home, env.resolve(dirs[i]), dirs);
        if !fine {
          assert dirs[i] in Dirs(cfg);
          return false;
        }
      }
      return true;
    }

    method SweepDirs(dirs: seq<string>, present: seq<string>, env: Env)
      returns (removed: seq<string>, absent: seq<string>, stuck: bool)
      requires forall dir :: dir in dirs ==> IsAbs(dir)
      modifies this
      ensures var s := Sweep(dirs, present, env, old(paths));
              && removed == s.removed && absent == s.absent && stuck == s.stuck
              && State() == old(State()).(paths := s.paths) && trail == old(trail) + s.trail
    {
      hide AfterRemoveAll;
      ghost var whole := Sweep(dirs, present, env, paths);
      ghost var gone: seq<Effect> := [];
      removed, absent := [], [];
      for i := 0 to |dirs|
        invariant State() == old(State()).(paths := paths)
        invariant trail == old(trail) + gone
        invariant Resumed(Sweep(dirs[i..], present, env, paths), removed, absent, gone) == whole
      {
        ResumeStep(dirs[i..], present, env, paths, removed, absent, gone);
        assert dirs[i..][0] == dirs[i] && dirs[i..][1..] == dirs[i + 1..];
        var ok := RemoveAll(dirs[i], env);
        gone := gone + [RemoveTree(dirs[i])];
        if !ok { return removed, absent, true; }
        var was := Among(dirs[i], present);
        if was { removed := removed + [dirs[i]]; } else { absent := absent + [dirs[i]]; }
      }
      return removed, absent, false;
    }

    method Among(dir: string, present: seq<string>) returns (was: bool)
      ensures was == (dir in present)
    {
      for k := 0 to |present|
        invariant dir !in present[..k]
      {
        if present[k] == dir { return true; }
      }
      assert present[..|present|] == present;
      return false;
    }

    method Purge(cfg: Config, confirmed: bool, sink: bool, env: Env) returns (report: Report, failure: Option<Failure>)
      modifies this
      ensures var o := PurgeSpec(cfg, confirmed, sink, env, old(State()));
              State() == o.host && trail == old(trail) + o.trail && report == o.report && failure == o.failure
    {
      hide Destroyed, SeenDirs, Removable, UninstallBlocked, AfterUninstall, UninstallTrail, UserCheck;
      report := NO_REPORT.(platform := Some(cfg.platform));
      if !env.root { return NO_REPORT, Some(Permission); }
      if !confirmed { return NO_REPORT, Some(NotConfirmed); }

      var seen := Status(env);
      if seen {
        var stopped := Stop(env);
        if !stopped { return NO_REPORT, Some(Unavailable); }
        report := report.(stopped := true);
      }

      var done, failed := Uninstall(cfg, env);
      if failed { return NO_REPORT, Some(Unavailable); }
      report := report.(uninstalled := done);

      var clear := CheckPaths(cfg, env);
      if !clear { return NO_REPORT, Some(SuspiciousPath); }
      ClearIsAbs(cfg, env);

      var check := UserCheck(account, cfg.platform, env.lookup);
      if check.Err? { return NO_REPORT, Some(check.error); }
      report := report.(userAbsent := !check.value);
      report, failure := Destroy(cfg, sink, env, check.value, report);
    }

    /** emitPurgeAuditRecord; without a sink nothing is written. */
    method Announce(sink: bool, userPresent: bool, present: seq<string>)
      modifies this`trail
      ensures trail == old(trail) + if sink then [AuditIntent(userPresent, present)] else []
    {
      if sink { trail := trail + [AuditIntent(userPresent, present)]; }
    }

    /** deleteUserLinux and deleteUserDarwin, called for an account that is present. */
    method DeleteAccount(userPresent: bool, env: Env) returns (failure: Option<Failure>)
      modifies this`account, this`trail
      ensures failure == if userPresent then DeletionFailure(env.deletion) else None
      ensures account == if userPresent && failure.None? then None else old(account)
      ensures trail == old(trail) + if userPresent && failure.None? then [DeleteUser] else []
    {
      if !userPresent { return None; }
      if !env.deletion.Deleted? { return DeletionFailure(env.deletion); }
      account := None;
      trail := trail + [DeleteUser];
      return None;
    }

    /** The second half of Purge, from the audit record on. */
    method Destroy(cfg: Config, sink: bool, env: Env, userPresent: bool, sofar: Report)
      returns (report: Report, failure: Option<Failure>)
      requires forall dir :: dir in Dirs(cfg) ==> IsAbs(dir)
      requires sofar.dirsRemoved == sofar.dirsAbsent == [] && !sofar.userRemoved
      modifies this
      ensures var o := Destroyed(cfg, sink, env, old(State()), userPresent, sofar);
              State() == o.host && trail == old(trail) + o.trail && report == o.report && failure == o.failure
    {
      hide Sweep, SeenDirs, Dirs;
      var present := Present(Dirs(cfg), env);
      Announce(sink, userPresent, present);
      failure := DeleteAccount(userPresent, env);
      if failure.Some? { return NO_REPORT, failure; }
      var removed, absent, stuck := SweepDirs(Dirs(cfg), present, env);
      report := sofar.(userRemoved := userPresent, dirsRemoved := removed, dirsAbsent := absent);
      failure := if stuck then Some(Unavailable) else None;
    }
  }

  lemma NoDirs(dirs: seq<string>, paths: set<Comps>, env: Env)
    requires dirs == []
    ensures SeenDirs(dirs, paths, env) == []
  {}

  lemma SeenDirsHead(dirs: seq<string>, paths: set<Comps>, env: Env)
    requires dirs != [] && forall dir :: dir in dirs ==> IsAbs(dir)
    ensures var rest := SeenDirs(dirs[1..], paths, env);
            SeenDirs(dirs, paths, env) == if Seen(dirs[0], paths, env) then [dirs[0]] + rest else rest
  {}

  lemma ClearIsAbs(cfg: Config, env: Env)
    requires PathsClear(cfg, env)
    ensures forall dir :: dir in Dirs(cfg) ==> IsAbs(dir)
  {}

  /** A removal loop resumed after some directories. */
  function Resumed(s: Swept, removed: seq<string>, absent: seq<string>, gone: seq<Effect>): Swept {
    Swept(s.paths, removed + s.removed, absent + s.absent, gone + s.trail, s.stuck)
  }

  lemma ResumeStep(dirs: seq<string>, present: seq<string>, env: Env, paths: set<Comps>,
                   removed: seq<string>, absent: seq<string>, gone: seq<Effect>)
    requires forall dir :: dir in dirs ==> IsAbs(dir)
    requires dirs != []
    ensures var left := AfterRemoveAll(dirs[0], paths, env.removal(dirs[0]));
            var whole := Resumed(Sweep(dirs, present, env, paths), removed, absent, gone);
            if env.removal(dirs[0]).Partial? then whole == Swept(left, removed, absent, gone + [RemoveTree(dirs[0])], true)
            else whole == Resumed(Sweep(dirs[1..], present, env, left),
                                  if dirs[0] in present then removed + [dirs[0]] else removed,
                                  if dirs[0] in present then absent else absent + [dirs[0]],
                                  gone + [RemoveTree(dirs[0])])
  {
    hide AfterRemoveAll, IsAbs;
    var left := AfterRemoveAll(dirs[0], paths, env.removal(dirs[0]));
    var rest := Sweep(dirs[1..], present, env, left);
    assert (removed + [dirs[0]]) + rest.removed == removed + ([dirs[0]] + rest.removed);
    assert (absent + [dirs[0]]) + rest.absent == absent + ([dirs[0]] + rest.absent);
    assert (gone + [RemoveTree(dirs[0])]) + rest.trail == gone + ([RemoveTree(dirs[0])] + rest.trail);
    assert [] + rest.removed == rest.removed && [] + rest.absent == rest.absent;
  }
}
