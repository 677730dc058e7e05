/** What Purge guarantees for every host and every combination of faults, in one run and over
    repeated attempts. */
module PurgeRuns {

  import opened Wrappers
  import opened Paths
  import opened Purge

  // ----- the removal loop -----

  /** The directories of `dirs` that are (or are not) in `present`, in order. */
  function Those(dirs: seq<string>, present: seq<string>, inside: bool): seq<string> {
    if dirs == [] then []
    else (if (dirs[0] in present) == inside then [dirs[0]] else []) + Those(dirs[1..], present, inside)
  }

  predicate Touched(p: Comps, dirs: seq<string>)
    requires forall dir :: dir in dirs ==> IsAbs(dir)
  {
    exists dir :: dir in dirs && Under(p, dir)
  }

  predicate AllWhole(dirs: seq<string>, env: Env) {
    forall dir :: dir in dirs ==> env.removal(dir).Whole?
  }

  function Removals(dirs: seq<string>): seq<Effect> {
    if dirs == [] then [] else [RemoveTree(dirs[0])] + Removals(dirs[1..])
  }

  lemma {:induction false} SweepBounds(dirs: seq<string>, present: seq<string>, env: Env, paths: set<Comps>)
    requires forall dir :: dir in dirs ==> IsAbs(dir)
    ensures var s := Sweep(dirs, present, env, paths);
            && s.paths <= paths
            && (forall p :: p in paths && p !in s.paths ==> Touched(p, dirs))
            && s.trail <= Removals(dirs)
            && (s.stuck <==> !AllWhole(dirs, env))
  {
    if dirs != [] {
      var dir := dirs[0];
      assert dir in dirs;
      var left := AfterRemoveAll(dir, paths, env.removal(dir));
      SweepBounds(dirs[1..], present, env, left);
      var s := Sweep(dirs, present, env, paths);
      forall p | p in paths && p !in s.paths ensures Touched(p, dirs) {
        if p in left && env.removal(dir).Whole? { assert Touched(p, dirs[1..]); }
      }
      assert dirs == [dir] + dirs[1..];
    }
  }

  lemma {:induction false} SweepAll(dirs: seq<string>, present: seq<string>, env: Env, paths: set<Comps>)
    requires forall dir :: dir in dirs ==> IsAbs(dir)
    requires AllWhole(dirs, env)
    ensures Sweep(dirs, present, env, paths)
            == Swept((set p | p in paths && !Touched(p, dirs)), Those(dirs, present, true), Those(dirs, present, false),
                     Removals(dirs), false)
  {
    if dirs == [] {
      assert paths == set p | p in paths && !Touched(p, dirs);
    } else {
      var dir := dirs[0];
      assert dir in dirs;
      var left := AfterRemoveAll(dir, paths, env.removal(dir));
      SweepAll(dirs[1..], present, env, left);
      assert dirs == [dir] + dirs[1..];
      forall p ensures Touched(p, dirs) <==> Under(p, dir) || Touched(p, dirs[1..]) {}
      assert (set p | p in left && !Touched(p, dirs[1..])) == set p | p in paths && !Touched(p, dirs);
    }
  }

  /** A loop that stops at its k-th directory has removed those before it, has left of this one what
      could not be removed, and has not touched the rest. */
  lemma {:induction false} SweepStops(dirs: seq<string>, present: seq<string>, env: Env, paths: set<Comps>, k: nat)
    requires forall dir :: dir in dirs ==> IsAbs(dir)
    requires k < |dirs| && env.removal(dirs[k]).Partial? && forall j :: 0 <= j < k ==> env.removal(dirs[j]).Whole?
    ensures var s := Sweep(dirs, present, env, paths);
            && s.stuck && s.trail == Removals(dirs[..k + 1])
            && s.removed == Those(dirs[..k], present, true) && s.absent == Those(dirs[..k], present, false)
            && (forall p :: p in s.paths <==>
                  p in paths && (forall j :: 0 <= j < k ==> !Under(p, dirs[j]))
                  && (Under(p, dirs[k]) ==> p in env.removal(dirs[k]).kept))
    decreases |dirs|
  {
    hide Under;
    var dir := dirs[0];
    assert dirs[..k + 1][0] == dir && dirs[..k + 1][1..] == dirs[1..][..k];
    if k == 0 {
      assert Removals(dirs[1..][..0]) == [];
    } else {
      var left := AfterRemoveAll(dir, paths, env.removal(dir));
      assert forall j :: 0 <= j < k - 1 ==> dirs[1..][j] == dirs[j + 1];
      SweepStops(dirs[1..], present, env, left, k - 1);
      assert dirs[..k][0] == dir && dirs[..k][1..] == dirs[1..][..k - 1];
      var s := Sweep(dirs, present, env, paths);
      forall p ensures p in s.paths <==>
                  p in paths && (forall j :: 0 <= j < k ==> !Under(p, dirs[j]))
                  && (Under(p, dirs[k]) ==> p in env.removal(dirs[k]).kept)
      {
        assert (forall j :: 0 <= j < k ==> !Under(p, dirs[j])) <==>
                 !Under(p, dirs[0]) && forall j :: 0 <= j < k - 1 ==> !Under(p, dirs[1..][j]) by { FirstAndRest(p, dirs, k); }
      }
    }
  }

  lemma FirstAndRest(p: Comps, dirs: seq<string>, k: nat)
    requires 0 < k < |dirs| && forall dir :: dir in dirs ==> IsAbs(dir)
    ensures (forall j :: 0 <= j < k ==> !Under(p, dirs[j])) <==>
              !Under(p, dirs[0]) && forall j :: 0 <= j < k - 1 ==> !Under(p, dirs[1..][j])
  {
    if forall j :: 0 <= j < k - 1 ==> !Under(p, dirs[1..][j]) {
      forall j | 0 < j < k ensures !Under(p, dirs[j]) { assert dirs[j] == dirs[1..][j - 1]; }
    }
    if forall j :: 0 <= j < k ==> !Under(p, dirs[j]) {
      forall j | 0 <= j < k - 1 ensures !Under(p, dirs[1..][j]) { assert dirs[1..][j] == dirs[j + 1]; }
    }
  }

  /** The two lists of the report split the configured directories, each in its order. */
  lemma {:induction false} ThosePartition(dirs: seq<string>, present: seq<string>)
    ensures multiset(Those(dirs, present, true)) + multiset(Those(dirs, present, false)) == multiset(dirs)
    ensures forall dir :: dir in Those(dirs, present, true) <==> dir in dirs && dir in present
    ensures forall dir :: dir in Those(dirs, present, false) <==> dir in dirs && dir !in present
  {
    if dirs != [] {
      ThosePartition(dirs[1..], present);
      assert dirs == [dirs[0]] + dirs[1..];
      assert multiset(dirs) == multiset{dirs[0]} + multiset(dirs[1..]);
    }
  }

  lemma {:induction false} SeenDirsExact(dirs: seq<string>, paths: set<Comps>, env: Env)
    requires forall dir :: dir in dirs ==> IsAbs(dir)
    ensures forall dir :: dir in SeenDirs(dirs, paths, env) <==> dir in dirs && Seen(dir, paths, env)
  {
    if dirs != [] {
      SeenDirsExact(dirs[1..], paths, env);
      assert dirs == [dirs[0]] + dirs[1..];
    }
  }

  // ----- no destruction before every check -----

  predicate Destructive(e: Effect) {
    e.DeleteUser? || e.RemoveTree?
  }

  predicate ChecksPassed(cfg: Config, confirmed: bool, env: Env, h: Host) {
    && env.root && confirmed
    && !StopBlocked(h, env)
    && !UninstallBlocked(AfterStop(h, env), cfg, env)
    && PathsClear(cfg, env)
    && UserCheck(h.account, cfg.platform, env.lookup).Ok?
  }

  lemma {:induction false} RemovalsOnly(dirs: seq<string>, trail: seq<Effect>)
    requires trail <= Removals(dirs)
    ensures forall i :: 0 <= i < |trail| ==> trail[i].RemoveTree? && trail[i].dir in dirs
  {
    if dirs != [] && trail != [] {
      RemovalsOnly(dirs[1..], trail[1..]);
    }
  }

  /** The trail from the audit record on: the record first, then the account, then the trees. */
  lemma DestroyedTrail(cfg: Config, sink: bool, env: Env, h: Host, present: bool, report: Report)
    requires forall dir :: dir in Dirs(cfg) ==> IsAbs(dir)
    ensures var o := Destroyed(cfg, sink, env, h, present, report);
            var seen := SeenDirs(Dirs(cfg), h.paths, env);
            && (sink ==> o.trail != [] && o.trail[0] == AuditIntent(present, seen))
            && (forall i :: 0 <= i < |o.trail| && (!sink || i > 0) ==> Destructive(o.trail[i]))
            && (forall i :: 0 <= i < |o.trail| && o.trail[i].DeleteUser? ==> present)
            && (forall i :: 0 <= i < |o.trail| && o.trail[i].RemoveTree? ==> o.trail[i].dir in Dirs(cfg))
            && (o.host.account != h.account ==> present && DeleteUser in o.trail)
            && o.host.paths <= h.paths
            && (forall p :: p in h.paths && p !in o.host.paths ==> Touched(p, Dirs(cfg)))
  {
    hide Dirs, Sweep, Touched, Under, SeenDirs;
    var seen := SeenDirs(Dirs(cfg), h.paths, env);
    var swept := Sweep(Dirs(cfg), seen, env, h.paths);
    SweepBounds(Dirs(cfg), seen, env, h.paths);
    RemovalsOnly(Dirs(cfg), swept.trail);
  }

  /** The record before a destructive effect, telling what the run found. */
  ghost predicate Announced(trail: seq<Effect>, i: nat, present: bool, seen: seq<string>)
    requires i <= |trail|
  {
    exists j :: 0 <= j < i && trail[j] == AuditIntent(present, seen)
  }

  function Before(h: Host, cfg: Config, env: Env): seq<Effect> {
    Prepared(h, env) + UninstallTrail(AfterStop(h, env), cfg, env)
  }

  lemma BeforeHarmless(h: Host, cfg: Config, env: Env)
    ensures forall k :: 0 <= k < |Before(h, cfg, env)| ==> !Destructive(Before(h, cfg, env)[k])
    ensures var h2 := AfterUninstall(AfterStop(h, env), cfg, env); h2.account == h.account && h2.paths == h.paths
  {}

  /** A run that passes the checks is the preparation followed by the destruction. */
  lemma TrailSplits(cfg: Config, sink: bool, env: Env, h: Host)
    requires ChecksPassed(cfg, true, env, h)
    ensures forall dir :: dir in Dirs(cfg) ==> IsAbs(dir)
    ensures var h1 := AfterStop(h, env);
            var present := UserCheck(h.account, cfg.platform, env.lookup).value;
            var report := Report(Some(cfg.platform), SeenActive(h, env), h1.unit, false, !present, [], []);
            PurgeSpec(cfg, true, sink, env, h).trail
            == Before(h, cfg, env) + Destroyed(cfg, sink, env, AfterUninstall(h1, cfg, env), present, report).trail
  {
    hide Dirs, Removable, Destroyed, SeenDirs;
    ClearIsAbs(cfg, env);
  }

  lemma BehindRecord(before: seq<Effect>, rest: seq<Effect>, sink: bool, present: bool, seen: seq<string>, i: nat)
    requires forall k :: 0 <= k < |before| ==> !Destructive(before[k])
    requires sink ==> rest != [] && rest[0] == AuditIntent(present, seen)
    requires i < |before + rest| && Destructive((before + rest)[i])
    ensures i >= |before| && (before + rest)[i] == rest[i - |before|]
    ensures sink ==> Announced(before + rest, i, present, seen)
  {
    if sink {
      assert (before + rest)[|before|] == rest[0];
    }
  }

  /** The record says whether the daemon's account was seen and which configured directories were. */
  ghost predicate Announces(e: Effect, cfg: Config, env: Env, h: Host) {
    && e.AuditIntent?
    && (e.userPresent <==> env.lookup.Answers? && h.account == Some(Fit))
    && (forall dir :: dir in e.dirsPresent <==> Configured(cfg, dir) && Exists(h, dir) && dir !in env.unstatable)
  }

  lemma AnnouncedExact(cfg: Config, confirmed: bool, env: Env, h: Host, trail: seq<Effect>, i: nat)
    requires ChecksPassed(cfg, confirmed, env, h) && i <= |trail|
    requires forall dir :: dir in Dirs(cfg) ==> IsAbs(dir)
    requires Announced(trail, i, UserCheck(h.account, cfg.platform, env.lookup).value, SeenDirs(Dirs(cfg), h.paths, env))
    ensures exists j :: 0 <= j < i && Announces(trail[j], cfg, env, h)
  {
    hide Dirs, SeenDirs, Removable, Split;
    DirsExact(cfg);
    SeenDirsExact(Dirs(cfg), h.paths, env);
    var j :| 0 <= j < i && trail[j] == AuditIntent(UserCheck(h.account, cfg.platform, env.lookup).value, SeenDirs(Dirs(cfg), h.paths, env));
    assert Announces(trail[j], cfg, env, h);
  }

  /** No account and no tree is touched unless every check has passed, and with an audit sink not
      before the record that names them. */
  lemma ChecksBeforeDestruction(cfg: Config, confirmed: bool, sink: bool, env: Env, h: Host, i: nat)
    requires var o := PurgeSpec(cfg, confirmed, sink, env, h); i < |o.trail| && Destructive(o.trail[i])
    ensures ChecksPassed(cfg, confirmed, env, h)
    ensures var o := PurgeSpec(cfg, confirmed, sink, env, h);
            && (o.trail[i].DeleteUser? ==> h.account == Some(Fit))
            && (o.trail[i].RemoveTree? ==>
                  o.trail[i].dir in Dirs(cfg)
                  && Removable(o.trail[i].dir, env.home, env.resolve(o.trail[i].dir), Dirs(cfg)))
            && (sink ==> Announced(o.trail, i, UserCheck(h.account, cfg.platform, env.lookup).value,
                                   SeenDirs(Dirs(cfg), h.paths, env)))
            && (sink ==> exists j :: 0 <= j < i && Announces(o.trail[j], cfg, env, h))
  {
    hide Dirs, Removable, Destroyed, SeenDirs, Announced;
    BeforeHarmless(h, cfg, env);
    assert ChecksPassed(cfg, confirmed, env, h);
    var o := PurgeSpec(cfg, confirmed, sink, env, h);
    hide PurgeSpec, AfterUninstall, UninstallTrail, Before;
    var h1 := AfterStop(h, env);
    var h2 := AfterUninstall(h1, cfg, env);
    var present := UserCheck(h.account, cfg.platform, env.lookup).value;
    var report := Report(Some(cfg.platform), SeenActive(h, env), h1.unit, false, !present, [], []);
    TrailSplits(cfg, sink, env, h);
    DestroyedTrail(cfg, sink, env, h2, present, report);
    BehindRecord(Before(h, cfg, env), Destroyed(cfg, sink, env, h2, present, report).trail, sink, present,
                 SeenDirs(Dirs(cfg), h.paths, env), i);
    if sink { AnnouncedExact(cfg, confirmed, env, h, o.trail, i); }
  }

  // ----- exactly when a run succeeds, and what it leaves -----

  predicate Succeeds(cfg: Config, confirmed: bool, env: Env, h: Host) {
    && ChecksPassed(cfg, confirmed, env, h)
    && (UserCheck(h.account, cfg.platform, env.lookup).value ==> env.deletion.Deleted?)
    && AllWhole(Dirs(cfg), env)
  }

  /** The account query that cannot tell an absent account from one it did not see. */
  predicate Blind(cfg: Config, env: Env) {
    env.lookup.NoBinary? || (env.lookup.Errors? && cfg.platform.Darwin?)
  }

  /** A run succeeds exactly when every check passes and no deletion fails, and then what is left is
      determined: the account only where the query was blind to it, the service still running only
      where the status query missed it and its stop failed, and the journald drop-in only where the
      unit file was already gone. */
  lemma SuccessExact(cfg: Config, confirmed: bool, sink: bool, env: Env, h: Host)
    ensures var o := PurgeSpec(cfg, confirmed, sink, env, h);
            && (o.failure.None? <==> Succeeds(cfg, confirmed, env, h))
            && (o.failure.None? ==>
                  && o.host.account == (if Blind(cfg, env) then h.account else None)
                  && (forall p :: p in o.host.paths <==> p in h.paths && !Touched(p, Dirs(cfg)))
                  && !o.host.unit
                  && o.host.dropIn == (h.dropIn && (cfg.platform.Darwin? || !h.unit))
                  && o.host.active == (h.active && (!h.unit || (env.showFails && env.lateStopFails))))
  {
    hide Dirs, Removable, Touched, SeenDirs, Sweep;
    if ChecksPassed(cfg, confirmed, env, h) {
      ClearIsAbs(cfg, env);
      var seen := SeenDirs(Dirs(cfg), h.paths, env);
      SweepBounds(Dirs(cfg), seen, env, h.paths);
      if AllWhole(Dirs(cfg), env) { SweepAll(Dirs(cfg), seen, env, h.paths); }
    }
  }

  /** On success the two lists of the report split the configured directories: removed are those that
      stat saw, absent the others, so a directory whose stat failed is removed and reported absent. */
  lemma ReportExact(cfg: Config, confirmed: bool, sink: bool, env: Env, h: Host)
    requires Succeeds(cfg, confirmed, env, h)
    ensures var r := PurgeSpec(cfg, confirmed, sink, env, h).report;
            && multiset(r.dirsRemoved) + multiset(r.dirsAbsent) == multiset(Dirs(cfg))
            && (forall dir :: dir in r.dirsRemoved <==> dir in Dirs(cfg) && Seen(dir, h.paths, env))
            && (forall dir :: dir in r.dirsAbsent <==> dir in Dirs(cfg) && !Seen(dir, h.paths, env))
            && r.userRemoved == (h.account == Some(Fit) && env.lookup.Answers?)
            && r.userAbsent == !r.userRemoved
            && r.stopped == SeenActive(h, env)
            && r.uninstalled == h.unit
  {
    hide Dirs, Removable, SeenDirs, Sweep;
    ClearIsAbs(cfg, env);
    var seen := SeenDirs(Dirs(cfg), h.paths, env);
    SweepAll(Dirs(cfg), seen, env, h.paths);
    ThosePartition(Dirs(cfg), seen);
    SeenDirsExact(Dirs(cfg), h.paths, env);
  }

  // ----- the same by the configured directories -----

  /** The directory is one that the configuration names for this platform. */
  predicate Configured(cfg: Config, dir: string) {
    dir == cfg.stateDir || dir == cfg.configDir || (cfg.platform.Darwin? && dir == cfg.logPath)
  }

  function ConfiguredDirs(cfg: Config): seq<string> {
    [cfg.stateDir, cfg.configDir] + if cfg.platform.Darwin? then [cfg.logPath] else []
  }

  lemma DirsExact(cfg: Config)
    ensures Dirs(cfg) == ConfiguredDirs(cfg)
    ensures forall dir :: dir in Dirs(cfg) <==> Configured(cfg, dir)
  {}

  predicate Below(p: Comps, dir: string) {
    dir != "" && dir[0] == '/' && Split(dir[1..]) <= p
  }

  predicate Exists(h: Host, dir: string) {
    dir != "" && dir[0] == '/' && Split(dir[1..]) in h.paths
  }

  ghost predicate Safe(cfg: Config, env: Env, dir: string) {
    SafeToRemove(dir, env.home, env.resolve(dir), ConfiguredDirs(cfg))
  }

  /** The account query lets the run go on: it found no account or the daemon's own, or it found
      nothing because it could not look. */
  predicate AccountAllows(platform: Platform, lookup: Lookup, account: Option<Account>) {
    match lookup
    case Answers => account != Some(Foreign)
    case NoBinary => true
    case Errors => platform.Darwin?
    case Garbled => account.None?
  }

  /** The service is out of the way: nothing stops the run before the path check. */
  predicate Uninstalls(cfg: Config, confirmed: bool, env: Env, h: Host) {
    && env.root && confirmed
    && !(h.unit && h.active && !env.showFails && env.stopFails)
    && !(h.unit && env.unitStuck) && !(cfg.platform.Linux? && h.unit && h.dropIn && env.dropInStuck)
  }

  /** Nothing stops the run before the audit record. */
  ghost predicate Clear(cfg: Config, confirmed: bool, env: Env, h: Host) {
    && Uninstalls(cfg, confirmed, env, h)
    && Safe(cfg, env, cfg.stateDir) && Safe(cfg, env, cfg.configDir) && (cfg.platform.Darwin? ==> Safe(cfg, env, cfg.logPath))
    && AccountAllows(cfg.platform, env.lookup, h.account)
  }

  lemma ClearIsChecked(cfg: Config, confirmed: bool, env: Env, h: Host)
    ensures Clear(cfg, confirmed, env, h) <==> ChecksPassed(cfg, confirmed, env, h)
    ensures AccountAllows(cfg.platform, env.lookup, h.account) ==>
              UserCheck(h.account, cfg.platform, env.lookup) == Ok(env.lookup.Answers? && h.account == Some(Fit))
  {
    hide SafeToRemove, Removable;
    forall dir ensures Safe(cfg, env, dir) <==> Removable(dir, env.home, env.resolve(dir), Dirs(cfg)) {
      DirsExact(cfg);
      RemovableExact(dir, env.home, env.resolve(dir), Dirs(cfg));
    }
  }

  lemma BelowIsTouched(cfg: Config, p: Comps)
    requires forall dir :: dir in Dirs(cfg) ==> IsAbs(dir)
    ensures Touched(p, Dirs(cfg)) <==>
              Below(p, cfg.stateDir) || Below(p, cfg.configDir) || (cfg.platform.Darwin? && Below(p, cfg.logPath))
  {
    hide Split;
    assert cfg.stateDir in Dirs(cfg) && cfg.configDir in Dirs(cfg) && (cfg.platform.Darwin? ==> cfg.logPath in Dirs(cfg));
  }

  /** What a run does to the service is on its trail, and nothing else: a record only with a sink, the
      account only if it was deleted, a tree only if it is configured. */
  lemma TrailExact(cfg: Config, confirmed: bool, sink: bool, env: Env, h: Host)
    requires PurgeSpec(cfg, confirmed, sink, env, h).failure.None?
    ensures var t := PurgeSpec(cfg, confirmed, sink, env, h).trail;
            && (StopService in t <==> h.unit && h.active && !env.showFails)
            && (RemoveUnit in t <==> h.unit) && (RemoveDropIn in t <==> cfg.platform.Linux? && h.unit && h.dropIn)
            && (DeleteUser in t <==> env.lookup.Answers? && h.account == Some(Fit))
            && (sink <==> exists j :: 0 <= j < |t| && t[j].AuditIntent?)
            && (forall dir :: RemoveTree(dir) in t <==> Configured(cfg, dir))
  {
    hide Destroyed, PurgeSpec, SeenDirs, Removals, Configured, Clear, Removable;
    SuccessExact(cfg, confirmed, sink, env, h);
    ClearIsChecked(cfg, confirmed, env, h);
    TrailSplits(cfg, sink, env, h);
    BeforeExact(h, cfg, env);
    DirsExact(cfg);
    var h1 := AfterStop(h, env);
    var h2 := AfterUninstall(h1, cfg, env);
    var present := UserCheck(h.account, cfg.platform, env.lookup).value;
    var report := Report(Some(cfg.platform), SeenActive(h, env), h1.unit, false, !present, [], []);
    DestroyedWhole(cfg, sink, env, h2, present, report);
    hide AfterUninstall, AfterStop, Before, ChecksPassed, Dirs, SeenActive, UserCheck;
    RemovalsExact(Dirs(cfg));
    Joined(Before(h, cfg, env), sink, AuditIntent(present, SeenDirs(Dirs(cfg), h2.paths, env)), present, Removals(Dirs(cfg)));
  }

  /** What a trail holds, by its parts. */
  lemma Joined(b: seq<Effect>, sink: bool, intent: Effect, present: bool, trees: seq<Effect>)
    requires intent.AuditIntent? && (forall e :: e in trees ==> e.RemoveTree?)
    requires forall e :: e in b ==> e == StopService || e == RemoveUnit || e == RemoveDropIn
    ensures var t := b + ((if sink then [intent] else []) + (if present then [DeleteUser] else []) + trees);
            && (forall e :: e == StopService || e == RemoveUnit || e == RemoveDropIn ==> (e in t <==> e in b))
            && (DeleteUser in t <==> present)
            && (sink <==> exists j :: 0 <= j < |t| && t[j].AuditIntent?)
            && (forall dir :: RemoveTree(dir) in t <==> RemoveTree(dir) in trees)
  {
    var rest := (if sink then [intent] else []) + (if present then [DeleteUser] else []) + trees;
    assert forall e :: e in rest <==> (sink && e == intent) || (present && e == DeleteUser) || e in trees;
    assert forall e :: e in b + rest <==> e in b || e in rest;
    if sink { assert (b + rest)[|b|] == intent; }
    if j :| 0 <= j < |b + rest| && (b + rest)[j].AuditIntent? {
      assert (b + rest)[j] in b + rest;
    }
  }

  lemma BeforeExact(h: Host, cfg: Config, env: Env)
    requires !UninstallBlocked(AfterStop(h, env), cfg, env)
    ensures var b := Before(h, cfg, env);
            && (StopService in b <==> h.unit && h.active && !env.showFails)
            && (RemoveUnit in b <==> h.unit) && (RemoveDropIn in b <==> cfg.platform.Linux? && h.unit && h.dropIn)
            && (forall e :: e in b ==> e == StopService || e == RemoveUnit || e == RemoveDropIn)
  {}

  lemma {:induction false} RemovalsExact(dirs: seq<string>)
    ensures forall dir :: RemoveTree(dir) in Removals(dirs) <==> dir in dirs
    ensures forall e :: e in Removals(dirs) ==> e.RemoveTree?
  {
    if dirs != [] { RemovalsExact(dirs[1..]); }
  }

  lemma DestroyedWhole(cfg: Config, sink: bool, env: Env, h: Host, present: bool, report: Report)
    requires forall dir :: dir in Dirs(cfg) ==> IsAbs(dir)
    requires (present ==> env.deletion.Deleted?) && AllWhole(Dirs(cfg), env)
    ensures Destroyed(cfg, sink, env, h, present, report).trail
            == (if sink then [AuditIntent(present, SeenDirs(Dirs(cfg), h.paths, env))] else [])
               + (if present then [DeleteUser] else []) + Removals(Dirs(cfg))
  {
    hide Dirs, SeenDirs;
    SweepAll(Dirs(cfg), SeenDirs(Dirs(cfg), h.paths, env), env, h.paths);
  }

  /** A purge succeeds exactly when nothing stops it, the account of the daemon, if seen, can be
      deleted, and every configured directory can be removed. Then exactly the paths below the state and
      the configuration directory, and on Darwin the log directory, are gone. */
  lemma PurgeSucceedsExactly(cfg: Config, confirmed: bool, sink: bool, env: Env, h: Host)
    ensures var o := PurgeSpec(cfg, confirmed, sink, env, h);
            && (o.failure.None? <==>
                  && Clear(cfg, confirmed, env, h)
                  && (env.lookup.Answers? && h.account == Some(Fit) ==> env.deletion.Deleted?)
                  && env.removal(cfg.stateDir).Whole? && env.removal(cfg.configDir).Whole?
                  && (cfg.platform.Darwin? ==> env.removal(cfg.logPath).Whole?))
            && (o.failure.None? ==>
                  && (forall p :: p in o.host.paths <==>
                        p in h.paths && !Below(p, cfg.stateDir) && !Below(p, cfg.configDir)
                        && !(cfg.platform.Darwin? && Below(p, cfg.logPath)))
                  && o.host.account == (if env.lookup.Answers? then None else h.account)
                  && !o.host.unit
                  && o.host.dropIn == (h.dropIn && (cfg.platform.Darwin? || !h.unit))
                  && o.host.active == (h.active && (!h.unit || (env.showFails && env.lateStopFails))))
  {
    hide Dirs, Touched, PurgeSpec, Safe, Below;
    ClearIsChecked(cfg, confirmed, env, h);
    SuccessExact(cfg, confirmed, sink, env, h);
    DirsExact(cfg);
    if PurgeSpec(cfg, confirmed, sink, env, h).failure.None? {
      ClearIsAbs(cfg, env);
      forall p ensures Touched(p, Dirs(cfg)) <==>
                         Below(p, cfg.stateDir) || Below(p, cfg.configDir) || (cfg.platform.Darwin? && Below(p, cfg.logPath))
      {
        BelowIsTouched(cfg, p);
      }
    }
  }

  /** The report of a successful purge names every configured directory once, each as removed or as
      absent by what stat saw, and tells what was done. */
  lemma PurgeReportsExactly(cfg: Config, confirmed: bool, sink: bool, env: Env, h: Host)
    requires PurgeSpec(cfg, confirmed, sink, env, h).failure.None?
    ensures var r := PurgeSpec(cfg, confirmed, sink, env, h).report;
            && multiset(r.dirsRemoved) + multiset(r.dirsAbsent) == multiset(ConfiguredDirs(cfg))
            && (forall dir :: dir in r.dirsRemoved <==> Configured(cfg, dir) && Exists(h, dir) && dir !in env.unstatable)
            && (forall dir :: dir in r.dirsAbsent <==> Configured(cfg, dir) && !(Exists(h, dir) && dir !in env.unstatable))
            && r.platform == Some(cfg.platform)
            && r.stopped == (h.unit && h.active && !env.showFails) && r.uninstalled == h.unit
            && r.userRemoved == (env.lookup.Answers? && h.account == Some(Fit)) && r.userAbsent == !r.userRemoved
  {
    hide Dirs, Split, Removable;
    SuccessExact(cfg, confirmed, sink, env, h);
    ReportExact(cfg, confirmed, sink, env, h);
    DirsExact(cfg);
    ClearIsAbs(cfg, env);
  }

  /** Which error a purge returns, checked in this order, and what is untouched then. */
  lemma PurgeFailsExactly(cfg: Config, confirmed: bool, sink: bool, env: Env, h: Host)
    ensures var o := PurgeSpec(cfg, confirmed, sink, env, h);
            && (!env.root ==> o.failure == Some(Permission) && o.host == h && o.trail == [])
            && (env.root && !confirmed ==> o.failure == Some(NotConfirmed) && o.host == h && o.trail == [])
            && (env.root && confirmed && h.unit && h.active && !env.showFails && env.stopFails ==>
                  o.failure == Some(Unavailable) && o.host == h && o.trail == [])
            && (!Clear(cfg, confirmed, env, h) ==>
                  o.failure.Some? && o.report == NO_REPORT && o.host.paths == h.paths && o.host.account == h.account)
            && (env.root && confirmed && !Uninstalls(cfg, confirmed, env, h) ==> o.failure == Some(Unavailable))
            && (Uninstalls(cfg, confirmed, env, h) ==>
                  && (PathsUnsafe(cfg, env) ==> o.failure == Some(SuspiciousPath))
                  && (!PathsUnsafe(cfg, env) && env.lookup.Answers? && h.account == Some(Foreign) ==> o.failure == Some(UserMismatch))
                  && (!PathsUnsafe(cfg, env) && !env.lookup.Answers? && !AccountAllows(cfg.platform, env.lookup, h.account) ==>
                        o.failure == Some(Unavailable)))
            && (Clear(cfg, confirmed, env, h) && env.lookup.Answers? && h.account == Some(Fit) && !env.deletion.Deleted? ==>
                  && o.failure == Some(if env.deletion.Denied? then Permission else Unavailable)
                  && o.report == NO_REPORT && o.host.paths == h.paths && o.host.account == h.account)
  {
    hide Dirs, Removable, Sweep, SeenDirs, Safe;
    ClearIsChecked(cfg, confirmed, env, h);
    PathsUnsafeExact(cfg, env);
  }

  /** A purge that fails to remove its k-th directory has removed those before it and the account, has
      left of this one what could not be removed, has not touched those after it, and reports so. */
  lemma PurgeStopsExactly(cfg: Config, confirmed: bool, sink: bool, env: Env, h: Host, k: nat)
    requires Clear(cfg, confirmed, env, h) && (env.lookup.Answers? && h.account == Some(Fit) ==> env.deletion.Deleted?)
    requires k < |ConfiguredDirs(cfg)| && env.removal(ConfiguredDirs(cfg)[k]).Partial?
    requires forall j :: 0 <= j < k ==> env.removal(ConfiguredDirs(cfg)[j]).Whole?
    ensures var o := PurgeSpec(cfg, confirmed, sink, env, h);
            var dirs := ConfiguredDirs(cfg);
            && o.failure == Some(Unavailable)
            && o.host.account == (if env.lookup.Answers? then None else h.account)
            && (forall p :: p in o.host.paths <==>
                  p in h.paths && (forall j :: 0 <= j < k ==> !Below(p, dirs[j]))
                  && (Below(p, dirs[k]) ==> p in env.removal(dirs[k]).kept))
            && multiset(o.report.dirsRemoved) + multiset(o.report.dirsAbsent) == multiset(dirs[..k])
  {
    hide Safe, SeenDirs, Sweep, Under, Below, Removals;
    DirsExact(cfg);
    ClearIsChecked(cfg, confirmed, env, h);
    ClearIsAbs(cfg, env);
    var dirs := Dirs(cfg);
    var seen := SeenDirs(dirs, h.paths, env);
    SweepStops(dirs, seen, env, h.paths, k);
    ThosePartition(dirs[..k], seen);
    forall p, j | 0 <= j < |dirs| ensures Under(p, dirs[j]) <==> Below(p, dirs[j]) {
      UnderIsBelow(p, dirs[j]);
    }
    hide Dirs, ConfiguredDirs, Clear;
  }

  lemma UnderIsBelow(p: Comps, dir: string)
    requires IsAbs(dir)
    ensures Under(p, dir) <==> Below(p, dir)
  {}

  ghost predicate PathsUnsafe(cfg: Config, env: Env) {
    !Safe(cfg, env, cfg.stateDir) || !Safe(cfg, env, cfg.configDir) || (cfg.platform.Darwin? && !Safe(cfg, env, cfg.logPath))
  }

  lemma PathsUnsafeExact(cfg: Config, env: Env)
    ensures PathsUnsafe(cfg, env) <==> !PathsClear(cfg, env)
  {
    hide SafeToRemove, Removable;
    forall dir ensures Safe(cfg, env, dir) <==> Removable(dir, env.home, env.resolve(dir), Dirs(cfg)) {
      DirsExact(cfg);
      RemovableExact(dir, env.home, env.resolve(dir), Dirs(cfg));
    }
  }

  // ----- what no run may do -----

  /** h' is h with less of it. */
  predicate Shrinks(h: Host, h': Host) {
    && (h'.account == h.account || h'.account == None)
    && (h'.active ==> h.active) && (h'.unit ==> h.unit) && (h'.dropIn ==> h.dropIn)
    && h'.paths <= h.paths
  }

  /** In every run, failed or not, nothing is created, only paths below a configured directory that
      passed the path check disappear, and only an account of the daemon's own kind is deleted. */
  lemma OnlyConfiguredPaths(cfg: Config, confirmed: bool, sink: bool, env: Env, h: Host)
    ensures var o := PurgeSpec(cfg, confirmed, sink, env, h);
            && Shrinks(h, o.host)
            && (o.host.account != h.account ==> h.account == Some(Fit))
            && (o.host.paths != h.paths ==> PathsClear(cfg, env))
            && (forall p :: p in h.paths && p !in o.host.paths ==> PathsClear(cfg, env) && SomeDirHolds(p, cfg))
            && (o.failure.Some? ==> o.report == NO_REPORT || !AllWhole(Dirs(cfg), env))
  {
    hide Dirs, Removable, Touched, SeenDirs, Sweep;
    if ChecksPassed(cfg, confirmed, env, h) {
      ClearIsAbs(cfg, env);
      SweepBounds(Dirs(cfg), SeenDirs(Dirs(cfg), h.paths, env), env, h.paths);
      forall p | Touched(p, Dirs(cfg)) ensures SomeDirHolds(p, cfg) { TouchedHolds(p, cfg); }
    }
  }

  predicate SomeDirHolds(p: Comps, cfg: Config) {
    exists dir :: dir in Dirs(cfg) && IsAbs(dir) && Under(p, dir)
  }

  lemma TouchedHolds(p: Comps, cfg: Config)
    requires forall dir :: dir in Dirs(cfg) ==> IsAbs(dir)
    requires Touched(p, Dirs(cfg))
    ensures SomeDirHolds(p, cfg)
  {}

  // ----- repeated attempts -----

  datatype Attempt = Attempt(confirmed: bool, sink: bool, env: Env)

  function Attempts(cfg: Config, runs: seq<Attempt>, h: Host): Host {
    if runs == [] then h
    else Attempts(cfg, runs[1..], PurgeSpec(cfg, runs[0].confirmed, runs[0].sink, runs[0].env, h).host)
  }

  /** A confirmed run by root in which no step fails. */
  predicate StepsWork(a: Attempt, cfg: Config) {
    && a.env.root && a.confirmed
    && !a.env.showFails && !a.env.stopFails && !a.env.lateStopFails && !a.env.unitStuck && !a.env.dropInStuck
    && a.env.lookup.Answers? && a.env.deletion.Deleted?
    && AllWhole(Dirs(cfg), a.env)
  }

  /** And every directory passes the path check. */
  predicate Faultless(a: Attempt, cfg: Config) {
    StepsWork(a, cfg) && PathsClear(cfg, a.env)
  }

  lemma {:induction false} AttemptsShrink(cfg: Config, runs: seq<Attempt>, h: Host)
    ensures Shrinks(h, Attempts(cfg, runs, h))
  {
    if runs != [] {
      var a := runs[0];
      OnlyConfiguredPaths(cfg, a.confirmed, a.sink, a.env, h);
      AttemptsShrink(cfg, runs[1..], PurgeSpec(cfg, a.confirmed, a.sink, a.env, h).host);
    }
  }

  /** After any number of failed attempts, with any faults, one faultless run succeeds and leaves no
      account and nothing below a configured directory, unless the account is somebody else's. */
  lemma RetryConverges(cfg: Config, runs: seq<Attempt>, last: Attempt, h: Host)
    requires Faultless(last, cfg)
    requires h.account != Some(Foreign)
    ensures var o := PurgeSpec(cfg, last.confirmed, last.sink, last.env, Attempts(cfg, runs, h));
            && o.failure.None?
            && o.host.account.None? && !o.host.unit
            && (forall p :: p in o.host.paths ==> p in h.paths && !Touched(p, Dirs(cfg)))
  {
    hide Dirs, Removable, Touched, PurgeSpec;
    AttemptsShrink(cfg, runs, h);
    SuccessExact(cfg, last.confirmed, last.sink, last.env, Attempts(cfg, runs, h));
  }

  // ----- the path check of a retry -----

  /** Where $HOME is and where each path leads while it exists. */
  datatype World = World(home: Option<string>, where: string -> Resolution)

  /** The path check of this run sees the world with this host in it: a path that is gone resolves to
      "missing". */
  ghost predicate Sees(env: Env, w: World, h: Host) {
    && env.home == w.home
    && forall dir :: IsAbs(dir) ==> env.resolve(dir) == if Components(dir) in h.paths then w.where(dir) else Missing
  }

  /** What an earlier run removed never makes a later path check fail. */
  lemma ClearStays(cfg: Config, w: World, first: Env, h: Host, later: Env, h': Host)
    requires Sees(first, w, h) && Sees(later, w, h') && Shrinks(h, h') && PathsClear(cfg, first)
    ensures PathsClear(cfg, later)
  {
    forall dir | dir in Dirs(cfg) ensures Removable(dir, later.home, later.resolve(dir), Dirs(cfg)) {
      assert Removable(dir, first.home, first.resolve(dir), Dirs(cfg));
    }
  }

  /** So a retry needs nothing of the path check but that it would have passed at the start: after
      any attempts, with any faults, the first run by root in which no step fails succeeds. */
  lemma RetryFromStart(cfg: Config, w: World, first: Env, runs: seq<Attempt>, last: Attempt, h: Host)
    requires Sees(first, w, h) && PathsClear(cfg, first) && h.account != Some(Foreign)
    requires Sees(last.env, w, Attempts(cfg, runs, h))
    requires StepsWork(last, cfg)
    ensures PathsClear(cfg, last.env)
    ensures var o := PurgeSpec(cfg, last.confirmed, last.sink, last.env, Attempts(cfg, runs, h));
            && o.failure.None?
            && o.host.account.None? && !o.host.unit
            && (forall p :: p in o.host.paths ==> p in h.paths && !Touched(p, Dirs(cfg)))
  {
    hide Dirs, Removable, Touched, PurgeSpec, Sees;
    AttemptsShrink(cfg, runs, h);
    ClearStays(cfg, w, first, h, last.env, Attempts(cfg, runs, h));
    RetryConverges(cfg, runs, last, h);
  }

  /** The account is the other half: somebody else's account with the daemon's name stops every run
      whose query sees it. */
  lemma ForeignBlocks(cfg: Config, runs: seq<Attempt>, last: Attempt, h: Host)
    requires Faultless(last, cfg) && h.account == Some(Foreign)
    ensures Attempts(cfg, runs, h).account == Some(Foreign)
    ensures PurgeSpec(cfg, last.confirmed, last.sink, last.env, Attempts(cfg, runs, h)).failure == Some(UserMismatch)
  {
    hide Dirs, Removable;
    ForeignStays(cfg, runs, h);
  }

  lemma {:induction false} ForeignStays(cfg: Config, runs: seq<Attempt>, h: Host)
    requires h.account == Some(Foreign)
    ensures Attempts(cfg, runs, h).account == Some(Foreign)
    decreases |runs|
  {
    if runs != [] {
      var a := runs[0];
      OnlyConfiguredPaths(cfg, a.confirmed, a.sink, a.env, h);
      ForeignStays(cfg, runs[1..], PurgeSpec(cfg, a.confirmed, a.sink, a.env, h).host);
    }
  }

  /** The drop-in is removed only together with the unit file: once a run has removed the unit and
      then failed on the drop-in, no later run removes it, although every one of them may succeed. */
  lemma {:induction false} DropInStays(cfg: Config, runs: seq<Attempt>, h: Host)
    requires !h.unit && h.dropIn
    ensures Attempts(cfg, runs, h).dropIn && !Attempts(cfg, runs, h).unit
  {
    if runs != [] {
      var a := runs[0];
      var next := PurgeSpec(cfg, a.confirmed, a.sink, a.env, h).host;
      assert next.dropIn && !next.unit;
      DropInStays(cfg, runs[1..], next);
    }
  }

  lemma DropInLeaks(cfg: Config, a: Attempt, runs: seq<Attempt>, last: Attempt, h: Host)
    requires cfg.platform.Linux? && h.unit && h.dropIn && h.account != Some(Foreign)
    requires a.env.root && a.confirmed && !a.env.stopFails && !a.env.unitStuck && a.env.dropInStuck
    requires Faultless(last, cfg)
    ensures PurgeSpec(cfg, a.confirmed, a.sink, a.env, h).failure == Some(Unavailable)
    ensures var o := PurgeSpec(cfg, last.confirmed, last.sink, last.env, Attempts(cfg, [a] + runs, h));
            o.failure.None? && o.host.dropIn
  {
    hide Dirs, Removable, Touched;
    var h1 := PurgeSpec(cfg, a.confirmed, a.sink, a.env, h).host;
    assert !h1.unit && h1.dropIn;
    assert ([a] + runs)[1..] == runs;
    assert Attempts(cfg, [a] + runs, h) == Attempts(cfg, runs, h1);
    DropInStays(cfg, runs, h1);
    RetryConverges(cfg, [a] + runs, last, h);
    SuccessExact(cfg, last.confirmed, last.sink, last.env, Attempts(cfg, [a] + runs, h));
  }
}
