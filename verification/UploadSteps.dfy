/** Concurrent uploads: every call of Write is a thread that takes one step at a time on the shared
    tree, in any interleaving. A thread run alone does exactly what `WriteSpec` says. */
module UploadSteps {

  import opened Wrappers
  import opened UploadSpec

  datatype Pc =
    | Start | AtLock | AtOpen | AtStat | AtWalk | AtMkdir(i: nat) | AtTempName | AtCreate
    | AtChmod | AtData | AtSync | AtClose | AtRename | AtDirSync
    | AtCleanup(stage: Stage) | AtUnlock(outcome: Outcome) | Done(outcome: Outcome)

  /** One call: its arguments, its environment, where it is, and its two local variables. */
  datatype Thread = Thread(input: Input, script: Script, pc: Pc, overwritten: bool, replaced: nat)

  function Begin(input: Input, script: Script): Thread {
    Thread(input, script, Start, false, 0)
  }

  function Target(th: Thread): Path {
    if th.input.rel.Local? then th.input.rel.comps else []
  }

  function Temp(th: Thread): Path {
    TempPath(Target(th), th.script)
  }

  function Content(th: Thread): Node {
    File(th.input.data, th.input.mode)
  }

  function Quota(c: Config): bool {
    c.maxTotal > 0
  }

  /** How far a thread is from the end; the branches visit stat and mkdir in opposite orders. */
  function Phase(c: Config, pc: Pc): nat {
    match pc
    case Start => 16
    case AtLock => 15
    case AtOpen => 14
    case AtStat => if Quota(c) then 13 else 10
    case AtWalk => 12
    case AtMkdir(_) => 11
    case AtTempName => 9
    case AtCreate => 8
    case AtChmod => 7
    case AtData => 6
    case AtSync => 5
    case AtClose => 4
    case AtRename => 3
    case AtDirSync => 2
    case AtCleanup(_) => 2
    case AtUnlock(_) => 1
    case Done(_) => 0
  }

  function Remaining(th: Thread): nat {
    var n := |Parent(Target(th))|;
    if th.pc.AtMkdir? && th.pc.i < n then n - th.pc.i else 0
  }

  /** Every step brings the thread closer to its end. */
  predicate Closer(c: Config, a: Thread, b: Thread) {
    && b.input == a.input && b.script == a.script
    && (Phase(c, b.pc) < Phase(c, a.pc) || (b.pc.AtMkdir? && a.pc.AtMkdir? && Remaining(b) < Remaining(a)))
  }

  /** Returning: with a limit the deferred unlock comes first. */
  function Leave(c: Config, th: Thread, r: Outcome): Thread {
    th.(pc := if Quota(c) then AtUnlock(r) else Done(r))
  }

  function AfterMkdir(c: Config): Pc {
    if Quota(c) then AtTempName else AtStat
  }

  function StatStep(c: Config, th: Thread, t: Tree): Thread {
    match StatSpec(t, Target(th), th.input.overwrite, th.script.stat)
    case Deny(e) => Leave(c, th, Err(e))
    case Proceed(overwritten, replaced) =>
      th.(pc := if Quota(c) then AtWalk else AtTempName, overwritten := overwritten, replaced := replaced)
  }

  ghost function WalkStep(c: Config, th: Thread, t: Tree): Thread {
    if th.script.walk then Leave(c, th, Err(Io(Walk)))
    else if Total(t) - th.replaced + |th.input.data| > c.maxTotal then Leave(c, th, Err(QuotaExceeded))
    else th.(pc := AtMkdir(0))
  }

  /** One component of MkdirAll. */
  function MkdirStep(c: Config, th: Thread, t: Tree, i: nat): (r: (Thread, Tree))
    ensures th.pc == AtMkdir(i) ==> Closer(c, th, r.0)
  {
    var dir := Parent(Target(th));
    var failed := Leave(c, th, Err(Io(Mkdir)));
    if i >= |dir| then (th.(pc := AfterMkdir(c)), t)
    else if th.script.mkdir == Some(i) then (failed, t)
    else if dir[..i + 1] in t then (if t[dir[..i + 1]].Dir? then th.(pc := AtMkdir(i + 1)) else failed, t)
    else if !IsDirAt(t, dir[..i]) then (failed, t)
    else (th.(pc := AtMkdir(i + 1)), t[dir[..i + 1] := Dir])
  }

  function CreateStep(c: Config, th: Thread, t: Tree): (r: (Thread, Tree))
    ensures th.pc.AtCreate? ==> Closer(c, th, r.0)
  {
    if th.script.create || Temp(th) in t || !IsDirAt(t, Parent(Target(th))) then (Leave(c, th, Err(Io(Create))), t)
    else (th.(pc := AtChmod), t[Temp(th) := File([], OWNER_ONLY)])
  }

  function Fail(th: Thread, stage: Stage): Thread {
    th.(pc := AtCleanup(stage))
  }

  /** The calls on the open temporary file. */
  function FileStep(th: Thread, t: Tree): (r: (Thread, Tree))
    ensures forall c :: (th.pc.AtChmod? || th.pc.AtData? || th.pc.AtSync? || th.pc.AtClose? || th.pc.AtRename?)
              ==> Closer(c, th, r.0)
  {
    var tmp := Temp(th);
    if tmp !in t || t[tmp].Dir? then (Fail(th, Chmod), t) else
    match th.pc
    case AtChmod => if th.script.chmod then (Fail(th, Chmod), t)
                    else (th.(pc := AtData), t[tmp := File(t[tmp].data, th.input.mode)])
    case AtData =>
      if th.script.write.Some?
        then (Fail(th, Stage.Write), t[tmp := File(Prefix(th.input.data, th.script.write.value), t[tmp].mode)])
      else (th.(pc := AtSync), t[tmp := File(th.input.data, t[tmp].mode)])
    case AtSync => (if th.script.sync then Fail(th, Sync) else th.(pc := AtClose), t)
    case AtClose => (if th.script.close then Fail(th, Close) else th.(pc := AtRename), t)
    case AtRename =>
      if th.script.rename || IsDirAt(t, Target(th)) then (Fail(th, Rename), t)
      else (th.(pc := AtDirSync), (t - {tmp})[Target(th) := t[tmp]])
    case _ => (th, t)
  }

  ghost function Step(c: Config, th: Thread, t: Tree): (r: (Thread, Tree))
    ensures !th.pc.Done? ==> Closer(c, th, r.0)
  {
    match th.pc
    case Start =>
      if |th.input.data| > c.maxFile then (th.(pc := Done(Err(TooLarge))), t)
      else if th.input.rel.NotLocal? then (th.(pc := Done(Err(Traversal))), t)
      else (th.(pc := if Quota(c) then AtLock else AtOpen), t)
    case AtLock => (th.(pc := AtOpen), t)
    case AtOpen =>
      if th.script.openRoot then (Leave(c, th, Err(Io(OpenRoot))), t)
      else (th.(pc := if Quota(c) then AtStat else AtMkdir(0)), t)
    case AtStat => (StatStep(c, th, t), t)
    case AtWalk => (WalkStep(c, th, t), t)
    case AtMkdir(i) => MkdirStep(c, th, t, i)
    case AtTempName => (if th.script.rand then Leave(c, th, Err(Io(TempName))) else th.(pc := AtCreate), t)
    case AtCreate => CreateStep(c, th, t)
    case AtDirSync => (Leave(c, th, Ok(Written(Target(th), |th.input.data|, th.overwritten, th.input.mode))), t)
    case AtCleanup(stage) => (Leave(c, th, Err(Io(stage))), if th.script.remove then t else t - {Temp(th)})
    case AtUnlock(r) => (th.(pc := Done(r)), t)
    case Done(r) => (th, t)
    case _ => FileStep(th, t)
  }

  // ------------------------------------------------------------------ one thread alone

  /** The outcome and the tree of a thread that runs to the end undisturbed. */
  ghost function Alone(c: Config, th: Thread, t: Tree): (Outcome, Tree)
    decreases Phase(c, th.pc), Remaining(th)
  {
    if th.pc.Done? then (th.pc.outcome, t) else
    var (th', t') := Step(c, th, t);
    Alone(c, th', t')
  }

  lemma AloneStep(c: Config, th: Thread, t: Tree)
    ensures var (th', t') := Step(c, th, t);
            !th.pc.Done? ==> Alone(c, th, t) == Alone(c, th', t')
  {}

  lemma LeaveAlone(c: Config, th: Thread, t: Tree, r: Outcome)
    ensures Alone(c, Leave(c, th, r), t) == (r, t)
  {}

  lemma {:induction false} AloneMkdir(c: Config, th: Thread, t: Tree, i: nat)
    requires th.pc == AtMkdir(i) && i <= |Parent(Target(th))|
    ensures var (ok, t') := MkdirSpec(t, Parent(Target(th)), i, th.script.mkdir);
            Alone(c, th, t) == if ok then Alone(c, th.(pc := AfterMkdir(c)), t') else (Err(Io(Mkdir)), t')
    decreases |Parent(Target(th))| - i
  {
    hide Alone, Closer;
    var dir := Parent(Target(th));
    AloneStep(c, th, t);
    LeaveAlone(c, th, t, Err(Io(Mkdir)));
    var (th', t') := Step(c, th, t);
    if th'.pc == AtMkdir(i + 1) {
      AloneMkdir(c, th', t', i + 1);
    }
  }

  lemma AloneFile(c: Config, th: Thread, t: Tree)
    requires th.pc.AtChmod? && Temp(th) !in t
    ensures var now := t[Temp(th) := File([], OWNER_ONLY)];
            var tmp := Temp(th);
            Alone(c, th, now) ==
              match FirstFault(t, Target(th), th.input, th.script)
              case Some((stage, left)) => (Err(Io(stage)), if th.script.remove then t[tmp := left] else t)
              case None => (Ok(Written(Target(th), |th.input.data|, th.overwritten, th.input.mode)), t[Target(th) := Content(th)])
  {
    hide Alone, Closer, FileStep;
    var tmp, s := Temp(th), th.script;
    var now := t[tmp := File([], OWNER_ONLY)];
    AloneStep(c, th, now);
    CleanupAlone(c, th, t, tmp, File([], OWNER_ONLY), Chmod);
    ChmodStep(c, th, t);
    if !s.chmod {
      AloneData(c, th.(pc := AtData), t);
    }
  }

  lemma ChmodStep(c: Config, th: Thread, t: Tree)
    requires th.pc.AtChmod? && Temp(th) !in t
    ensures var now := t[Temp(th) := File([], OWNER_ONLY)];
            Step(c, th, now) == if th.script.chmod then (Fail(th, Chmod), now)
                                else (th.(pc := AtData), t[Temp(th) := File([], th.input.mode)])
  {
    hide Closer;
    assert t[Temp(th) := File([], OWNER_ONLY)][Temp(th) := File([], th.input.mode)] == t[Temp(th) := File([], th.input.mode)];
  }

  lemma DataStep(c: Config, th: Thread, t: Tree)
    requires th.pc.AtData? && Temp(th) !in t
    ensures var now := t[Temp(th) := File([], th.input.mode)];
            Step(c, th, now) == if th.script.write.Some?
                                  then (Fail(th, Stage.Write),
                                        t[Temp(th) := File(Prefix(th.input.data, th.script.write.value), th.input.mode)])
                                else (th.(pc := AtSync), t[Temp(th) := Content(th)])
  {
    hide Closer;
    var now := t[Temp(th) := File([], th.input.mode)];
    var whole := Content(th);
    assert now[Temp(th) := whole] == t[Temp(th) := whole];
    if th.script.write.Some? {
      var part := File(Prefix(th.input.data, th.script.write.value), th.input.mode);
      assert now[Temp(th) := part] == t[Temp(th) := part];
    }
  }

  /** From the write on. */
  lemma AloneData(c: Config, th: Thread, t: Tree)
    requires th.pc.AtData? && Temp(th) !in t
    ensures Alone(c, th, t[Temp(th) := File([], th.input.mode)]) ==
              match FirstFault(t, Target(th), th.input, th.script.(chmod := false))
              case Some((stage, left)) => (Err(Io(stage)), if th.script.remove then t[Temp(th) := left] else t)
              case None => (Ok(Written(Target(th), |th.input.data|, th.overwritten, th.input.mode)), t[Target(th) := Content(th)])
  {
    hide Alone, Closer, FileStep, Step;
    var tmp, s := Temp(th), th.script;
    AloneStep(c, th, t[tmp := File([], th.input.mode)]);
    DataStep(c, th, t);
    if s.write.Some? {
      CleanupAlone(c, th, t, tmp, File(Prefix(th.input.data, s.write.value), th.input.mode), Stage.Write);
    } else {
      CleanupAlone(c, th, t, tmp, Content(th), Sync);
      CleanupAlone(c, th, t, tmp, Content(th), Close);
      CleanupAlone(c, th, t, tmp, Content(th), Rename);
      AloneCommit(c, th.(pc := AtSync), t);
    }
  }

  lemma CleanupAlone(c: Config, th: Thread, t: Tree, tmp: Path, left: Node, stage: Stage)
    requires tmp == Temp(th) && tmp !in t
    ensures Alone(c, Fail(th, stage), t[tmp := left]) == (Err(Io(stage)), if th.script.remove then t[tmp := left] else t)
  {
    assert t[tmp := left] - {tmp} == t;
    LeaveAlone(c, Fail(th, stage), if th.script.remove then t[tmp := left] else t, Err(Io(stage)));
  }

  lemma AloneCommit(c: Config, th: Thread, t: Tree)
    requires th.pc.AtSync? && Temp(th) !in t
    ensures var now := t[Temp(th) := Content(th)];
            Alone(c, th, now) ==
              if th.script.sync then Alone(c, Fail(th, Sync), now)
              else if th.script.close then Alone(c, Fail(th, Close), now)
              else if th.script.rename || IsDirAt(t, Target(th)) then Alone(c, Fail(th, Rename), now)
              else (Ok(Written(Target(th), |th.input.data|, th.overwritten, th.input.mode)), t[Target(th) := Content(th)])
  {
    hide Alone, Closer;
    var now := t[Temp(th) := Content(th)];
    assert (now - {Temp(th)})[Target(th) := Content(th)] == t[Target(th) := Content(th)];
    var th3 := th.(pc := AtRename);
    AloneStep(c, th, now);
    AloneStep(c, th.(pc := AtClose), now);
    AloneStep(c, th3, now);
    if !th.script.sync && !th.script.close {
      assert Step(c, th.(pc := AtClose), now) == (th3, now);
      if !th.script.rename && !IsDirAt(t, Target(th)) {
        var end := th.(pc := AtDirSync);
        assert Step(c, th3, now) == (end, t[Target(th) := Content(th)]);
        AloneStep(c, end, t[Target(th) := Content(th)]);
        LeaveAlone(c, end, t[Target(th) := Content(th)], Ok(Written(Target(th), |th.input.data|, th.overwritten, th.input.mode)));
      }
    }
  }

  lemma AloneDoWrite(c: Config, th: Thread, t: Tree)
    requires th.pc.AtTempName?
    ensures Alone(c, th, t) == DoWriteSpec(t, Target(th), th.input, th.script, th.overwritten)
  {
    AloneStep(c, th, t);
    var th1 := th.(pc := AtCreate);
    AloneStep(c, th1, t);
    LeaveAlone(c, th, t, Err(Io(TempName)));
    LeaveAlone(c, th1, t, Err(Io(Create)));
    if Temp(th) !in t {
      AloneFile(c, th1.(pc := AtChmod), t);
    }
  }

  lemma AlonePlain(c: Config, th: Thread, t: Tree)
    requires th.pc.AtOpen? && !Quota(c)
    ensures Alone(c, th, t) == PlainSpec(t, Target(th), th.input, th.script)
  {
    AloneStep(c, th, t);
    LeaveAlone(c, th, t, Err(Io(OpenRoot)));
    AloneMkdir(c, th.(pc := AtMkdir(0)), t, 0);
    var (ok, t') := MkdirSpec(t, Parent(Target(th)), 0, th.script.mkdir);
    var th1 := th.(pc := AtStat);
    AloneStep(c, th1, t');
    match StatSpec(t', Target(th), th.input.overwrite, th.script.stat) {
      case Deny(e) => LeaveAlone(c, th1, t', Err(e));
      case Proceed(overwritten, replaced) =>
        AloneDoWrite(c, th.(pc := AtTempName, overwritten := overwritten, replaced := replaced), t');
    }
  }

  lemma AloneWalk(c: Config, th: Thread, t: Tree)
    requires th.pc.AtWalk? && Quota(c)
    ensures Alone(c, th, t) ==
              if th.script.walk then (Err(Io(Walk)), t)
              else if Total(t) - th.replaced + |th.input.data| > c.maxTotal then (Err(QuotaExceeded), t) else
              var (ok, t') := MkdirSpec(t, Parent(Target(th)), 0, th.script.mkdir);
              if !ok then (Err(Io(Mkdir)), t') else DoWriteSpec(t', Target(th), th.input, th.script, th.overwritten)
  {
    hide Alone, Closer, MkdirSpec, DoWriteSpec, Total;
    AloneStep(c, th, t);
    LeaveAlone(c, th, t, Err(Io(Walk)));
    LeaveAlone(c, th, t, Err(QuotaExceeded));
    AloneMkdir(c, th.(pc := AtMkdir(0)), t, 0);
    AloneDoWrite(c, th.(pc := AtTempName), MkdirSpec(t, Parent(Target(th)), 0, th.script.mkdir).1);
  }

  lemma AloneQuota(c: Config, th: Thread, t: Tree)
    requires th.pc.AtOpen? && Quota(c)
    ensures Alone(c, th, t) == QuotaSpec(c, t, Target(th), th.input, th.script)
  {
    hide Alone, Closer, MkdirSpec, DoWriteSpec, Total;
    AloneStep(c, th, t);
    LeaveAlone(c, th, t, Err(Io(OpenRoot)));
    AloneStep(c, th.(pc := AtStat), t);
    match StatSpec(t, Target(th), th.input.overwrite, th.script.stat) {
      case Deny(e) => LeaveAlone(c, th, t, Err(e));
      case Proceed(overwritten, replaced) =>
        AloneWalk(c, th.(pc := AtWalk, overwritten := overwritten, replaced := replaced), t);
    }
  }

  /** A call that nobody interrupts returns and leaves what the specification of Write says. */
  lemma AloneIsWrite(c: Config, input: Input, script: Script, t: Tree)
    ensures Alone(c, Begin(input, script), t) == WriteSpec(c, t, input, script)
  {
    hide QuotaSpec, PlainSpec;
    var th := Begin(input, script);
    AloneStep(c, th, t);
    if |input.data| <= c.maxFile && input.rel.Local? {
      var th1 := th.(pc := AtOpen);
      if Quota(c) {
        AloneStep(c, th.(pc := AtLock), t);
        AloneQuota(c, th1, t);
      } else {
        AlonePlain(c, th1, t);
      }
    }
  }
}
