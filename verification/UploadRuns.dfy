/** What holds in every interleaving of any number of uploads to one root: mutual exclusion and the
    total limit, no lost writes, and the atomic appearance of files. */
module UploadRuns {

  import opened Wrappers
  import opened UploadSpec
  import opened UploadSteps

  /** `lock` is the thread that holds the root's mutex. */
  datatype Sys = Sys(tree: Tree, lock: Option<nat>, threads: seq<Thread>)

  /** Thread i takes its next step; one that finds the mutex taken waits. */
  ghost function SysStep(c: Config, s: Sys, i: nat): Sys {
    if i >= |s.threads| || (s.threads[i].pc.AtLock? && s.lock.Some?) then s else
    var pc := s.threads[i].pc;
    var (th, t) := Step(c, s.threads[i], s.tree);
    Sys(t, if pc.AtLock? then Some(i) else if pc.AtUnlock? then None else s.lock, s.threads[i := th])
  }

  ghost function Run(c: Config, s: Sys, schedule: seq<nat>): Sys
    decreases |schedule|
  {
    if schedule == [] then s else Run(c, SysStep(c, s, schedule[0]), schedule[1..])
  }

  ghost predicate Initial(s: Sys) {
    && WellFormed(s.tree) && s.lock.None?
    && (forall i :: 0 <= i < |s.threads| ==> s.threads[i] == Begin(s.threads[i].input, s.threads[i].script))
    && FreshNames(s.threads)
  }

  /** Temporary names are random: no two agree, and none is part of a target. */
  ghost predicate FreshNames(threads: seq<Thread>) {
    && (forall i, j :: 0 <= i < |threads| && 0 <= j < |threads| ==> threads[i].script.tmp !in Target(threads[j]))
    && (forall i, j :: 0 <= i < j < |threads| ==> threads[i].script.tmp != threads[j].script.tmp)
  }

  ghost predicate SameCalls(a: seq<Thread>, b: seq<Thread>) {
    |a| == |b| && forall i :: 0 <= i < |a| ==> b[i].input == a[i].input && b[i].script == a[i].script
  }

  lemma StepSameCalls(c: Config, s: Sys, i: nat)
    ensures SameCalls(s.threads, SysStep(c, s, i).threads)
    ensures FreshNames(s.threads) ==> FreshNames(SysStep(c, s, i).threads)
  {
    hide Step, FreshNames;
    if i < |s.threads| {
      StepSameCall(c, s.threads[i], s.tree);
    }
    FreshByCalls(s.threads, SysStep(c, s, i).threads);
  }

  lemma StepSameCall(c: Config, th: Thread, t: Tree)
    ensures var th' := Step(c, th, t).0; th'.input == th.input && th'.script == th.script
  {
    if !th.pc.Done? {
      hide Step;
      assert Closer(c, th, Step(c, th, t).0);
    }
  }

  lemma FreshByCalls(a: seq<Thread>, b: seq<Thread>)
    requires SameCalls(a, b)
    ensures FreshNames(a) ==> FreshNames(b)
  {
    assert forall i :: 0 <= i < |a| ==> Target(b[i]) == Target(a[i]);
  }

  // ------------------------------------------------------------------ one at a time

  /** Between taking the mutex and releasing it. */
  predicate Busy(pc: Pc) {
    !pc.Start? && !pc.AtLock? && !pc.Done?
  }

  ghost predicate LockInv(s: Sys) {
    forall i :: 0 <= i < |s.threads| ==> (Busy(s.threads[i].pc) <==> s.lock == Some(i))
  }

  lemma StaysBusy(c: Config, th: Thread, t: Tree)
    requires Quota(c)
    ensures var pc := Step(c, th, t).0.pc;
            && (Busy(th.pc) && !th.pc.AtUnlock? ==> Busy(pc))
            && (th.pc.AtLock? ==> Busy(pc))
            && (th.pc.Start? || th.pc.AtUnlock? || th.pc.Done? ==> !Busy(pc))
  {}

  /** With a total limit, at most one thread is past its lock at any time. */
  lemma LockStep(c: Config, s: Sys, i: nat)
    requires Quota(c) && LockInv(s)
    ensures LockInv(SysStep(c, s, i))
  {
    hide Step;
    if i < |s.threads| {
      StaysBusy(c, s.threads[i], s.tree);
    }
  }

  // ------------------------------------------------------------------ the limit

  predicate HasTemp(pc: Pc) {
    pc.AtChmod? || pc.AtData? || pc.AtSync? || pc.AtClose? || pc.AtRename? || pc.AtCleanup?
  }

  /** The bytes that are not the thread's own temporary file. */
  ghost function Base(th: Thread, t: Tree): int {
    Total(t) - (if HasTemp(th.pc) then SizeAt(t, Temp(th)) else 0)
  }

  /** The comparison has been passed, and what it was about has not changed. */
  ghost predicate Room(c: Config, th: Thread, t: Tree) {
    th.replaced <= SizeAt(t, Target(th)) && Base(th, t) - th.replaced + |th.input.data| <= c.maxTotal
  }

  /** What holds for the thread inside the mutex; `bound` is the limit being defended. */
  ghost predicate Held(c: Config, th: Thread, t: Tree, bound: nat) {
    && |th.input.data| <= c.maxFile && Base(th, t) <= bound && Temp(th) != Target(th)
    && (th.pc.AtWalk? ==> th.replaced <= SizeAt(t, Target(th)))
    && (th.pc.AtMkdir? || th.pc.AtTempName? || th.pc.AtCreate? || HasTemp(th.pc) ==> Room(c, th, t))
    && (HasTemp(th.pc) ==> Temp(th) in t && t[Temp(th)].File? && SizeAt(t, Temp(th)) <= |th.input.data|)
  }

  ghost predicate SmallFiles(t: Tree, max: nat) {
    forall p :: p in t ==> Size(t[p]) <= max
  }

  /** The calls that can strand bytes: they replace a file, get all of some data or a part of it into
      their temporary file, fail after that, and cannot remove it. Only the arguments, the
      configuration and the faults of the call itself decide this. */
  predicate Strands(c: Config, th: Thread) {
    var input, s := th.input, th.script;
    && input.overwrite && s.remove
    && input.rel.Local? && Target(th) != []
    && 0 < |input.data| <= c.maxFile && |input.data| <= c.maxTotal
    && !s.openRoot && !s.stat && !s.walk && MkdirWorks(th) && !s.rand && !s.create && !s.chmod
    && FailsHolding(s)
  }

  predicate MkdirWorks(th: Thread) {
    th.script.mkdir.None? || th.script.mkdir.value >= |Parent(Target(th))|
  }

  /** Something fails once bytes are in the temporary file. */
  predicate FailsHolding(s: Script) {
    if s.write.Some? then s.write.value > 0 else s.sync || s.close || s.rename
  }

  /** Past the check of the target and on the way to the rename. */
  predicate UnderWay(pc: Pc) {
    pc.AtWalk? || pc.AtMkdir? || pc.AtTempName? || pc.AtCreate? || HasTemp(pc)
  }

  /** How the thread inside the mutex came to where it is: the faults it has not met. */
  ghost predicate Came(th: Thread, t: Tree) {
    var pc, s, held := th.pc, th.script, SizeAt(t, Temp(th));
    && (Busy(pc) ==> th.input.rel.Local?)
    && (pc.AtStat? || UnderWay(pc) ==> !s.openRoot)
    && (UnderWay(pc) && th.replaced > 0 ==> th.input.overwrite && !s.stat && Target(th) != [])
    && (UnderWay(pc) && !pc.AtWalk? ==> !s.walk)
    && (pc.AtMkdir? ==> pc.i <= |Parent(Target(th))| && (s.mkdir.None? || s.mkdir.value >= pc.i))
    && (pc.AtTempName? || pc.AtCreate? || HasTemp(pc) ==> MkdirWorks(th))
    && (pc.AtCreate? || HasTemp(pc) ==> !s.rand)
    && (HasTemp(pc) ==> !s.create)
    && CameWithTemp(pc, s, held, th.replaced)
  }

  /** The same for the steps on the temporary file, which holds `held` bytes. */
  predicate CameWithTemp(pc: Pc, s: Script, held: nat, replaced: nat) {
    && (pc.AtChmod? || pc.AtData? ==> held == 0)
    && (pc.AtData? || pc.AtSync? || pc.AtClose? || pc.AtRename? ==> !s.chmod)
    && (pc.AtSync? || pc.AtClose? || pc.AtRename? ==> s.write.None?)
    && (pc.AtClose? || pc.AtRename? ==> !s.sync) && (pc.AtRename? ==> !s.close)
    && (pc.AtCleanup? && held > 0 && replaced > 0 ==> !s.chmod && FailsHolding(s))
  }

  /** What makes up for a temporary file that cannot be removed. */
  ghost predicate Slack(c: Config, th: Thread, t: Tree, bound: nat) {
    bound >= c.maxTotal && (th.pc.AtCleanup? && th.script.remove ==> Total(t) <= bound)
  }

  lemma TotalBounds(t: Tree, p: Path, q: Path)
    requires p != q
    ensures SizeAt(t, p) + SizeAt(t, q) <= Total(t)
  {
    TotalWithout(t, p);
    TotalWithout(t - {p}, q);
  }

  /** A thread that strands nothing leaves its cleanup within the bound even if nothing is removed. */
  lemma NothingStranded(c: Config, th: Thread, t: Tree, bound: nat)
    requires Held(c, th, t, bound) && Came(th, t) && th.pc.AtCleanup? && th.script.remove && bound >= c.maxTotal
    requires !Strands(c, th)
    ensures Total(t) <= bound
  {
    hide Total;
    TotalBounds(t, Temp(th), Target(th));
  }

  /** A step inside the mutex keeps the account of how it was reached. */
  lemma CameFile(c: Config, th: Thread, t: Tree, bound: nat)
    requires Held(c, th, t, bound) && Came(th, t) && HasTemp(th.pc) && Quota(c)
    ensures var (th', t') := Step(c, th, t); Came(th', t')
  {
    hide Total, Closer;
  }

  lemma CameMkdir(c: Config, th: Thread, t: Tree)
    requires Came(th, t) && th.pc.AtMkdir? && Quota(c)
    ensures var (th', t') := Step(c, th, t); Came(th', t')
  {
    hide Total, Closer;
  }

  lemma CameStat(c: Config, th: Thread, t: Tree)
    requires Came(th, t) && th.pc.AtStat? && IsDirAt(t, []) && Quota(c)
    ensures var (th', t') := Step(c, th, t); Came(th', t')
  {
    hide Total, Closer, MkdirWorks, MkdirStep, FileStep, CreateStep, WalkStep;
  }

  lemma CameOther(c: Config, th: Thread, t: Tree)
    requires Came(th, t) && Busy(th.pc) && !HasTemp(th.pc) && !th.pc.AtMkdir? && !th.pc.AtStat? && Quota(c)
    ensures var (th', t') := Step(c, th, t); Came(th', t')
  {
    hide Total, Closer, MkdirStep, FileStep, StatStep;
  }

  /** The root stays a directory: temporary names are not empty and a rename onto it fails. */
  lemma RootStays(c: Config, th: Thread, t: Tree)
    requires IsDirAt(t, [])
    ensures IsDirAt(Step(c, th, t).1, [])
  {
    hide Total, Closer;
    assert Temp(th) != [];
  }

  lemma HeldOutside(c: Config, th: Thread, t: Tree, bound: nat)
    requires Held(c, th, t, bound) && !HasTemp(th.pc) && !th.pc.AtMkdir? && !th.pc.AtCreate? && Busy(th.pc) && Quota(c)
    ensures var (th', t') := Step(c, th, t); t' == t && Held(c, th', t', bound)
  {
    hide Total;
  }

  /** A step of MkdirAll leaves every file and every size alone. */
  lemma MkdirSizes(c: Config, th: Thread, t: Tree)
    requires th.pc.AtMkdir? && Quota(c)
    ensures var (th', t') := Step(c, th, t);
            && Total(t') == Total(t) && (forall p :: SizeAt(t', p) == SizeAt(t, p))
            && (forall p :: p in t' ==> Size(t'[p]) == 0 || (p in t && t'[p] == t[p]))
            && th' == th.(pc := th'.pc)
            && (th'.pc.AtMkdir? || th'.pc.AtTempName? || th'.pc.AtUnlock?)
  {
    hide Total, Closer;
    var dir := Parent(Target(th));
    if th.pc.i < |dir| && dir[..th.pc.i + 1] !in t {
      TotalPut(t, dir[..th.pc.i + 1], Dir);
    }
  }

  lemma HeldMkdir(c: Config, th: Thread, t: Tree, bound: nat)
    requires Held(c, th, t, bound) && th.pc.AtMkdir? && Quota(c)
    ensures var (th', t') := Step(c, th, t); Held(c, th', t', bound)
    ensures forall n :: SmallFiles(t, n) ==> SmallFiles(Step(c, th, t).1, n)
  {
    hide Total, Step;
    MkdirSizes(c, th, t);
  }

  lemma HeldCreate(c: Config, th: Thread, t: Tree, bound: nat)
    requires Held(c, th, t, bound) && th.pc.AtCreate? && Quota(c)
    ensures var (th', t') := Step(c, th, t); Held(c, th', t', bound) && Total(t') == Total(t)
    ensures forall n :: SmallFiles(t, n) ==> SmallFiles(Step(c, th, t).1, n)
  {
    hide Total, Closer;
    if Temp(th) !in t {
      TotalPut(t, Temp(th), File([], OWNER_ONLY));
    }
  }

  lemma HeldFile(c: Config, th: Thread, t: Tree, bound: nat)
    requires Held(c, th, t, bound) && HasTemp(th.pc) && !th.pc.AtCleanup? && !th.pc.AtRename? && Quota(c)
    ensures var (th', t') := Step(c, th, t); Held(c, th', t', bound)
    ensures forall n :: c.maxFile <= n && SmallFiles(t, n) ==> SmallFiles(Step(c, th, t).1, n)
  {
    hide Total;
    var tmp := Temp(th);
    TotalPut(t, tmp, File(t[tmp].data, th.input.mode));
    TotalPut(t, tmp, File(th.input.data, t[tmp].mode));
    if th.script.write.Some? {
      TotalPut(t, tmp, File(Prefix(th.input.data, th.script.write.value), t[tmp].mode));
    }
  }

  lemma HeldRename(c: Config, th: Thread, t: Tree, bound: nat)
    requires Held(c, th, t, bound) && Slack(c, th, t, bound) && (th.pc.AtRename? || th.pc.AtCleanup?) && Quota(c)
    ensures var (th', t') := Step(c, th, t); Held(c, th', t', bound)
    ensures forall n :: SmallFiles(t, n) ==> SmallFiles(Step(c, th, t).1, n)
  {
    hide Total;
    var tmp := Temp(th);
    TotalWithout(t, tmp);
    TotalPut(t - {tmp}, Target(th), t[tmp]);
  }

  /** The files the run may have to leave behind when a temporary file cannot be removed: none, or
      ones the bound has room for. */
  ghost predicate Provision(c: Config, s: Sys, bound: nat, slack: nat) {
    && bound >= c.maxTotal
    && ((forall i :: 0 <= i < |s.threads| ==> !Strands(c, s.threads[i]))
        || (SmallFiles(s.tree, slack) && c.maxFile <= slack && bound >= c.maxTotal + slack))
  }

  ghost predicate QuotaInv(c: Config, s: Sys, bound: nat, slack: nat) {
    && Quota(c) && LockInv(s) && FreshNames(s.threads) && Provision(c, s, bound, slack) && IsDirAt(s.tree, [])
    && match s.lock
       case None => Total(s.tree) <= bound
       case Some(i) => i < |s.threads| && Busy(s.threads[i].pc) && Held(c, s.threads[i], s.tree, bound)
                       && Came(s.threads[i], s.tree)
  }

  lemma TempIsNotTarget(threads: seq<Thread>, i: nat)
    requires FreshNames(threads) && i < |threads|
    ensures Temp(threads[i]) != Target(threads[i])
  {
    var th := threads[i];
    assert Temp(th)[|Temp(th)| - 1] == th.script.tmp;
  }

  lemma HeldStep(c: Config, th: Thread, t: Tree, bound: nat)
    requires Held(c, th, t, bound) && Slack(c, th, t, bound) && Busy(th.pc) && Quota(c)
    ensures var (th', t') := Step(c, th, t); Held(c, th', t', bound)
    ensures forall n :: c.maxFile <= n && SmallFiles(t, n) ==> SmallFiles(Step(c, th, t).1, n)
  {
    hide Step, Held, Slack, SmallFiles, Total;
    if th.pc.AtMkdir? {
      HeldMkdir(c, th, t, bound);
    } else if th.pc.AtCreate? {
      HeldCreate(c, th, t, bound);
    } else if th.pc.AtRename? || th.pc.AtCleanup? {
      HeldRename(c, th, t, bound);
    } else if HasTemp(th.pc) {
      HeldFile(c, th, t, bound);
    } else {
      HeldOutside(c, th, t, bound);
    }
  }

  lemma CameStep(c: Config, th: Thread, t: Tree, bound: nat)
    requires Held(c, th, t, bound) && Came(th, t) && Busy(th.pc) && IsDirAt(t, []) && Quota(c)
    ensures var (th', t') := Step(c, th, t); Came(th', t')
  {
    hide Step, Held, Came, Total;
    if HasTemp(th.pc) {
      CameFile(c, th, t, bound);
    } else if th.pc.AtMkdir? {
      CameMkdir(c, th, t);
    } else if th.pc.AtStat? {
      CameStat(c, th, t);
    } else {
      CameOther(c, th, t);
    }
  }

  /** Outside the mutex a thread only looks at its own arguments. */
  lemma OutsideStep(c: Config, th: Thread, t: Tree)
    requires !Busy(th.pc) && Quota(c)
    ensures var (th', t') := Step(c, th, t);
            t' == t && (th'.pc.AtOpen? <==> th.pc.AtLock?)
            && (th.pc.Start? && th'.pc.AtLock? ==> |th.input.data| <= c.maxFile && th.input.rel.Local?)
  {}

  ghost predicate Checked(c: Config, s: Sys) {
    forall i :: 0 <= i < |s.threads| && s.threads[i].pc.AtLock? ==>
      |s.threads[i].input.data| <= c.maxFile && s.threads[i].input.rel.Local?
  }

  lemma NotBackToLock(c: Config, th: Thread, t: Tree)
    requires Quota(c)
    ensures var th' := Step(c, th, t).0;
            th'.pc.AtLock? && !th.pc.AtLock? ==> |th'.input.data| <= c.maxFile && th'.input.rel.Local?
  {}

  lemma CheckedStep(c: Config, s: Sys, i: nat)
    requires Checked(c, s) && Quota(c)
    ensures Checked(c, SysStep(c, s, i))
  {
    hide Step;
    if i < |s.threads| {
      NotBackToLock(c, s.threads[i], s.tree);
      StepSameCall(c, s.threads[i], s.tree);
    }
  }

  lemma QuotaStep(c: Config, s: Sys, i: nat, bound: nat, slack: nat)
    requires QuotaInv(c, s, bound, slack) && Checked(c, s)
    ensures QuotaInv(c, SysStep(c, s, i), bound, slack)
  {
    hide Step, Held, Came, Total, FreshNames, SmallFiles, Strands;
    StepSameCalls(c, s, i);
    LockStep(c, s, i);
    if i < |s.threads| {
      var th := s.threads[i];
      TempIsNotTarget(s.threads, i);
      StaysBusy(c, th, s.tree);
      RootStays(c, th, s.tree);
      StrandsByCall(c, th, s.tree);
      if Busy(th.pc) {
        SlackFromProvision(c, s, i, bound, slack);
        HeldStep(c, th, s.tree, bound);
        CameStep(c, th, s.tree, bound);
        ReleaseBound(c, th, s.tree, bound);
      } else {
        OutsideStep(c, th, s.tree);
        if th.pc.AtLock? && s.lock.None? {
          AcquireHeld(c, th, s.tree, bound);
        }
      }
    }
  }

  lemma StrandsByCall(c: Config, th: Thread, t: Tree)
    ensures Strands(c, Step(c, th, t).0) <==> Strands(c, th)
  {
    hide Step;
    StepSameCall(c, th, t);
  }

  lemma SlackFromProvision(c: Config, s: Sys, i: nat, bound: nat, slack: nat)
    requires Provision(c, s, bound, slack) && i < |s.threads|
    requires Held(c, s.threads[i], s.tree, bound) && Came(s.threads[i], s.tree)
    ensures Slack(c, s.threads[i], s.tree, bound)
  {
    hide Total, Strands, Came;
    var th := s.threads[i];
    if th.pc.AtCleanup? && th.script.remove && !Strands(c, th) {
      NothingStranded(c, th, s.tree, bound);
    }
  }

  lemma ReleaseBound(c: Config, th: Thread, t: Tree, bound: nat)
    requires Held(c, th, t, bound)
    ensures th.pc.AtUnlock? ==> Step(c, th, t).1 == t && Total(t) <= bound
  {}

  lemma AcquireHeld(c: Config, th: Thread, t: Tree, bound: nat)
    requires th.pc.AtLock? && Total(t) <= bound && Temp(th) != Target(th)
    requires |th.input.data| <= c.maxFile && th.input.rel.Local? && Quota(c)
    ensures var th' := Step(c, th, t).0; Held(c, th', t, bound) && Came(th', t) && Busy(th'.pc)
  {}

  lemma {:induction false} QuotaRun(c: Config, s: Sys, schedule: seq<nat>, bound: nat, slack: nat)
    requires QuotaInv(c, s, bound, slack) && Checked(c, s)
    ensures QuotaInv(c, Run(c, s, schedule), bound, slack)
    decreases |schedule|
  {
    if schedule != [] {
      QuotaStep(c, s, schedule[0], bound, slack);
      CheckedStep(c, s, schedule[0]);
      QuotaRun(c, SysStep(c, s, schedule[0]), schedule[1..], bound, slack);
    }
  }

  function Max(a: nat, b: nat): nat {
    if a < b then b else a
  }

  /** With the mutex free the files take no more than the limit, or than they took to begin with. */
  ghost predicate WithinLimit(c: Config, t0: Tree, s: Sys) {
    s.lock.None? ==> Total(s.tree) <= Max(c.maxTotal, Total(t0))
  }

  /** In every interleaving of calls that cannot strand bytes, any step failing: whenever the mutex
      is free the limit is kept, and inside the mutex it is exceeded by at most the file being
      replaced, and only while the temporary file exists. */
  lemma LimitKept(c: Config, s0: Sys, schedule: seq<nat>)
    requires Quota(c) && Initial(s0)
    requires forall i :: 0 <= i < |s0.threads| ==> !Strands(c, s0.threads[i])
    ensures var s := Run(c, s0, schedule);
            var bound := Max(c.maxTotal, Total(s0.tree));
            && WithinLimit(c, s0.tree, s)
            && (s.lock.Some? ==>
                  s.lock.value < |s.threads|
                  && var th := s.threads[s.lock.value];
                     && Total(s.tree) <= bound + (if HasTemp(th.pc) then th.replaced else 0)
                     && (HasTemp(th.pc) ==> th.replaced <= SizeAt(s.tree, Target(th))))
  {
    hide Strands;
    var bound := Max(c.maxTotal, Total(s0.tree));
    QuotaRun(c, s0, schedule, bound, 0);
    var s := Run(c, s0, schedule);
    if s.lock.Some? {
      InsideBound(c, s.threads[s.lock.value], s.tree, bound);
    }
  }

  lemma InsideBound(c: Config, th: Thread, t: Tree, bound: nat)
    requires Held(c, th, t, bound) && bound >= c.maxTotal
    ensures Total(t) <= bound + (if HasTemp(th.pc) then th.replaced else 0)
    ensures HasTemp(th.pc) ==> th.replaced <= SizeAt(t, Target(th))
  {}

  /** Even when removals fail, what they leave behind is bounded by one file: the size limit of a
      single upload, or the largest file there was. */
  lemma LimitWithLeftovers(c: Config, s0: Sys, schedule: seq<nat>, largest: nat)
    requires Quota(c) && Initial(s0) && SmallFiles(s0.tree, largest) && c.maxFile <= largest
    ensures var s := Run(c, s0, schedule);
            s.lock.None? ==> Total(s.tree) <= Max(c.maxTotal + largest, Total(s0.tree))
  {
    hide Strands;
    QuotaRun(c, s0, schedule, Max(c.maxTotal + largest, Total(s0.tree)), largest);
  }
}
