/** Overwrite=false under concurrency: with a total limit the mutex makes it hold, without one two
    uploads of one path can both succeed. */
module UploadNoClobber {

  import opened Wrappers
  import opened UploadSpec
  import opened UploadSteps
  import opened UploadRuns
  import opened UploadVisibility

  /** Every upload of p refuses to overwrite and gets an answer from its stat. */
  ghost predicate Polite(threads: seq<Thread>, p: Path) {
    forall i :: 0 <= i < |threads| && Target(threads[i]) == p ==>
      !threads[i].input.overwrite && !threads[i].script.stat
  }

  /** The target has been checked and the rename has not happened. */
  predicate Decided(pc: Pc) {
    pc.AtWalk? || pc.AtMkdir? || pc.AtTempName? || pc.AtCreate? || HasTemp(pc)
  }

  ghost predicate NoClobberInv(s: Sys, p: Path) {
    && LockInv(s) && FreshNames(s.threads) && Polite(s.threads, p)
    && (forall i :: 0 <= i < |s.threads| ==> Filled(s.threads[i], s.tree))
    && (forall i :: 0 <= i < |s.threads| && Target(s.threads[i]) == p ==>
          && (Succeeded(s.threads[i].pc) ==> WroteIt(s, i, p))
          && (Decided(s.threads[i].pc) ==> p !in s.tree))
    && (forall i, j :: 0 <= i < j < |s.threads| && Target(s.threads[i]) == p && Target(s.threads[j]) == p ==>
          !(Succeeded(s.threads[i].pc) && Succeeded(s.threads[j].pc)))
  }

  /** A polite upload gets past its check only when nothing is there. */
  lemma DecidedStep(c: Config, th: Thread, t: Tree)
    requires Quota(c) && (!th.input.overwrite && !th.script.stat) && (Decided(th.pc) ==> Target(th) !in t)
    ensures Decided(Step(c, th, t).0.pc) && !Decided(th.pc) ==> Target(th) !in t && Step(c, th, t).1 == t
    ensures Decided(Step(c, th, t).0.pc) ==> Busy(th.pc)
  {
    hide Total;
  }

  lemma NoClobberStep(c: Config, s: Sys, p: Path, k: nat)
    requires Quota(c) && NoClobberInv(s, p)
    ensures NoClobberInv(SysStep(c, s, k), p)
  {
    hide Step, StepOk;
    LockStep(c, s, k);
    StepSameCalls(c, s, k);
    var s' := SysStep(c, s, k);
    if k < |s.threads| && s' != s {
      var th := s.threads[k];
      var ch := StepChanges(c, th, s.tree);
      FilledStep(c, s, k, ch);
      TargetStep(c, s, p, k, ch);
    }
  }

  lemma TargetStep(c: Config, s: Sys, p: Path, k: nat, ch: Change)
    requires Quota(c) && NoClobberInv(s, p) && k < |s.threads| && SysStep(c, s, k) != s
    requires StepOk(c, s.threads[k], s.tree, ch)
    ensures var s' := SysStep(c, s, k);
            && (forall i :: 0 <= i < |s'.threads| && Target(s'.threads[i]) == p ==>
                  && (Succeeded(s'.threads[i].pc) ==> WroteIt(s', i, p))
                  && (Decided(s'.threads[i].pc) ==> p !in s'.tree))
            && (forall i, j :: 0 <= i < j < |s'.threads| && Target(s'.threads[i]) == p && Target(s'.threads[j]) == p ==>
                  !(Succeeded(s'.threads[i].pc) && Succeeded(s'.threads[j].pc)))
  {
    hide StepOk, NoClobberInv, Decided, Succeeded, WroteIt, Step;
    OwnTarget(c, s, p, k, ch);
    forall i | 0 <= i < |s.threads| && i != k && Target(s.threads[i]) == p
      ensures Succeeded(s.threads[i].pc) ==> WroteIt(SysStep(c, s, k), i, p)
      ensures Decided(s.threads[i].pc) ==> p !in SysStep(c, s, k).tree
      ensures Target(SysStep(c, s, k).threads[k]) == p && Succeeded(SysStep(c, s, k).threads[k].pc) ==>
                !Succeeded(s.threads[i].pc)
    {
      OthersTarget(c, s, p, k, ch, i);
    }
    PairsBefore(s, p);
  }

  lemma PairsBefore(s: Sys, p: Path)
    requires NoClobberInv(s, p)
    ensures forall i, j :: 0 <= i < j < |s.threads| && Target(s.threads[i]) == p && Target(s.threads[j]) == p ==>
              !(Succeeded(s.threads[i].pc) && Succeeded(s.threads[j].pc))
  {}

  /** What a step does to its own thread's standing. */
  lemma OwnTarget(c: Config, s: Sys, p: Path, k: nat, ch: Change)
    requires Quota(c) && NoClobberInv(s, p) && k < |s.threads| && SysStep(c, s, k) != s
    requires StepOk(c, s.threads[k], s.tree, ch)
    ensures var s' := SysStep(c, s, k);
            && Target(s'.threads[k]) == Target(s.threads[k])
            && (Target(s.threads[k]) == p ==>
                  && (Succeeded(s'.threads[k].pc) ==> WroteIt(s', k, p))
                  && (Decided(s'.threads[k].pc) ==> p !in s'.tree))
  {
    TempIsNotTarget(s.threads, k);
    StepSameCalls(c, s, k);
    if Target(s.threads[k]) == p { DecidedChange(c, s, p, k, ch); }
    hide Step;
  }

  lemma DecidedChange(c: Config, s: Sys, p: Path, k: nat, ch: Change)
    requires Quota(c) && NoClobberInv(s, p) && k < |s.threads| && SysStep(c, s, k) != s
    requires StepOk(c, s.threads[k], s.tree, ch) && Target(s.threads[k]) == p
    ensures Decided(SysStep(c, s, k).threads[k].pc) ==> p !in s.tree && !ch.Renamed?
  {
    var th := s.threads[k];
    assert Decided(th.pc) ==> p !in s.tree;
    DecidedStep(c, th, s.tree);
    hide Step;
  }

  /** What it does to the others. */
  lemma OthersTarget(c: Config, s: Sys, p: Path, k: nat, ch: Change, i: nat)
    requires Quota(c) && NoClobberInv(s, p) && k < |s.threads| && SysStep(c, s, k) != s
    requires StepOk(c, s.threads[k], s.tree, ch)
    requires i < |s.threads| && i != k && Target(s.threads[i]) == p
    ensures var s' := SysStep(c, s, k);
            && (Succeeded(s.threads[i].pc) ==> WroteIt(s', i, p))
            && (Decided(s.threads[i].pc) ==> p !in s'.tree)
            && (Target(s'.threads[k]) == p && Succeeded(s'.threads[k].pc) ==> !Succeeded(s.threads[i].pc))
  {
  }

  lemma {:induction false} NoClobberRun(c: Config, s: Sys, p: Path, schedule: seq<nat>)
    requires Quota(c) && NoClobberInv(s, p)
    ensures NoClobberInv(Run(c, s, schedule), p)
    decreases |schedule|
  {
    if schedule != [] {
      NoClobberStep(c, s, p, schedule[0]);
      NoClobberRun(c, SysStep(c, s, schedule[0]), p, schedule[1..]);
    }
  }

  /** With a total limit, of any set of concurrent Overwrite=false uploads of one path at most one
      succeeds, and what it wrote is never replaced. */
  lemma NoClobber(c: Config, s0: Sys, p: Path, schedule: seq<nat>)
    requires Quota(c) && Initial(s0) && Polite(s0.threads, p)
    ensures var s := Run(c, s0, schedule);
            && (forall i :: 0 <= i < |s.threads| && Target(s.threads[i]) == p && Succeeded(s.threads[i].pc) ==> WroteIt(s, i, p))
            && (forall i, j :: 0 <= i < j < |s.threads| && Target(s.threads[i]) == p && Target(s.threads[j]) == p ==>
                  !(Succeeded(s.threads[i].pc) && Succeeded(s.threads[j].pc)))
  {
    NoClobberRun(c, s0, p, schedule);
  }

  // ------------------------------------------------------------------ the overwritten flag

  ghost predicate InformedInv(s: Sys) {
    && LockInv(s) && FreshNames(s.threads)
    && (forall i :: 0 <= i < |s.threads| ==> Filled(s.threads[i], s.tree) && Informed(s.threads[i], s.tree))
  }

  ghost predicate Informed(th: Thread, t: Tree) {
    Decided(th.pc) ==> (th.overwritten <==> Target(th) in t && !th.script.stat)
  }

  lemma InformedStep(c: Config, th: Thread, t: Tree, ch: Change)
    requires Quota(c) && Informed(th, t) && StepOk(c, th, t, ch) && Temp(th) != Target(th)
    ensures var (th', t') := Step(c, th, t); Informed(th', t')
  {
    hide Total, Filled;
  }

  lemma InformedSysStep(c: Config, s: Sys, k: nat)
    requires Quota(c) && InformedInv(s)
    ensures InformedInv(SysStep(c, s, k))
  {
    hide Step, StepOk;
    LockStep(c, s, k);
    StepSameCalls(c, s, k);
    if k < |s.threads| {
      var ch := StepChanges(c, s.threads[k], s.tree);
      FilledStep(c, s, k, ch);
      TempIsNotTarget(s.threads, k);
      InformedStep(c, s.threads[k], s.tree, ch);
      StillTree(c, s.threads[k], s.tree);
    }
  }

  lemma StillTree(c: Config, th: Thread, t: Tree)
    requires Quota(c)
    ensures !Busy(th.pc) ==> Step(c, th, t).1 == t
  {}

  lemma {:induction false} InformedRun(c: Config, s: Sys, schedule: seq<nat>)
    requires Quota(c) && InformedInv(s)
    ensures InformedInv(Run(c, s, schedule))
    decreases |schedule|
  {
    if schedule != [] {
      InformedSysStep(c, s, schedule[0]);
      InformedRun(c, SysStep(c, s, schedule[0]), schedule[1..]);
    }
  }

  /** With a total limit, an upload about to rename will report "overwritten" exactly when its
      target exists at that moment, unless its stat failed: then it reports a new file. */
  lemma OverwrittenIsExact(c: Config, s0: Sys, schedule: seq<nat>, i: nat)
    requires Quota(c) && Initial(s0) && i < |Run(c, s0, schedule).threads|
    requires Run(c, s0, schedule).threads[i].pc.AtRename?
    ensures var s := Run(c, s0, schedule);
            s.threads[i].overwritten <==> Target(s.threads[i]) in s.tree && !s.threads[i].script.stat
  {
    InformedRun(c, s0, schedule);
  }

  // ------------------------------------------------------------------ where it fails

  /** Nothing keeps thread i waiting: with a limit it holds the mutex or the mutex is free. */
  ghost predicate FreeToRun(c: Config, s: Sys, i: nat)
    requires i < |s.threads|
  {
    if Quota(c) then LockInv(s) && (s.lock.None? || s.lock == Some(i))
    else !s.threads[i].pc.AtLock? && !s.threads[i].pc.AtUnlock?
  }

  lemma StaysFree(c: Config, s: Sys, i: nat)
    requires i < |s.threads| && FreeToRun(c, s, i)
    ensures FreeToRun(c, SysStep(c, s, i), i)
    ensures !(s.threads[i].pc.AtLock? && s.lock.Some?)
  {
    hide Step;
    if Quota(c) {
      LockStep(c, s, i);
    } else {
      NoLocks(c, s.threads[i], s.tree);
    }
  }

  /** A thread that nothing keeps waiting, scheduled by itself from wherever it is, runs to its end
      as if it were alone, and with a limit leaves the mutex free. */
  lemma {:induction false} RunToEnd(c: Config, s: Sys, i: nat) returns (schedule: seq<nat>)
    requires i < |s.threads| && FreeToRun(c, s, i)
    ensures var s' := Run(c, s, schedule);
            var (r, t) := Alone(c, s.threads[i], s.tree);
            && s'.tree == t && |s'.threads| == |s.threads| && s'.threads[i].pc == Done(r)
            && (Quota(c) ==> s'.lock.None?)
            && forall j :: 0 <= j < |s.threads| && j != i ==> s'.threads[j] == s.threads[j]
    decreases Phase(c, s.threads[i].pc), Remaining(s.threads[i])
  {
    if s.threads[i].pc.Done? {
      schedule := [];
    } else {
      StaysFree(c, s, i);
      AloneStep(c, s.threads[i], s.tree);
      assert Closer(c, s.threads[i], Step(c, s.threads[i], s.tree).0);
      hide Step, Alone, FreeToRun;
      var s1 := SysStep(c, s, i);
      var rest := RunToEnd(c, s1, i);
      schedule := [i] + rest;
      assert schedule[1..] == rest;
    }
  }

  lemma NoLocks(c: Config, th: Thread, t: Tree)
    requires !Quota(c) && !th.pc.AtLock? && !th.pc.AtUnlock?
    ensures var pc := Step(c, th, t).0.pc; !pc.AtLock? && !pc.AtUnlock?
  {}

  lemma RunConcat(c: Config, s: Sys, xs: seq<nat>, ys: seq<nat>)
    ensures Run(c, s, xs + ys) == Run(c, Run(c, s, xs), ys)
    decreases |xs|
  {
    if xs == [] {
      assert xs + ys == ys;
    } else {
      assert (xs + ys)[1..] == xs[1..] + ys;
      RunConcat(c, SysStep(c, s, xs[0]), xs[1..], ys);
    }
  }

  function Smooth(tmp: string): Script {
    Script(false, false, false, None, false, tmp, false, false, None, false, false, false, false)
  }

  /** An upload of "f" that refuses to overwrite and meets no failure. */
  function Careful(data: Bytes, tmp: string): Thread {
    Begin(Input(Local(["f"]), data, false, OWNER_ONLY), Smooth(tmp))
  }

  function OnlyRoot(): Tree {
    map[[] := Dir]
  }

  lemma CarefulSpec(c: Config, t: Tree, data: Bytes, tmp: string)
    requires !Quota(c) && |data| <= c.maxFile && IsDirAt(t, []) && [tmp] !in t && !IsDirAt(t, ["f"])
    ensures DoWriteSpec(t, ["f"], Careful(data, tmp).input, Smooth(tmp), false)
         == (Ok(Written(["f"], |data|, false, OWNER_ONLY)), t[["f"] := File(data, OWNER_ONLY)])
    ensures ["f"] !in t ==>
              WriteSpec(c, t, Careful(data, tmp).input, Smooth(tmp))
              == (Ok(Written(["f"], |data|, false, OWNER_ONLY)), t[["f"] := File(data, OWNER_ONLY)])
  {
    assert Parent(["f"]) == [] && [] + [tmp] == [tmp];
    assert MkdirSpec(t, [], 0, None) == (true, t);
  }

  /** The first four steps take a careful upload past its check of the target. */
  lemma FourSteps(c: Config, other: Thread)
    requires !Quota(c) && 1 <= c.maxFile
    ensures Run(c, Sys(OnlyRoot(), None, [Careful("a", "t1"), other]), [0, 0, 0, 0])
         == Sys(OnlyRoot(), None, [Careful("a", "t1").(pc := AtTempName), other])
  {
    hide Step;
    var t, th := OnlyRoot(), Careful("a", "t1");
    CarefulSteps(c, t);
    var s0 := Sys(t, None, [th, other]);
    var s1 := Sys(t, None, [th.(pc := AtOpen), other]);
    var s2 := Sys(t, None, [th.(pc := AtMkdir(0)), other]);
    var s3 := Sys(t, None, [th.(pc := AtStat), other]);
    var s4 := Sys(t, None, [th.(pc := AtTempName), other]);
    assert SysStep(c, s0, 0) == s1 && SysStep(c, s1, 0) == s2;
    assert SysStep(c, s2, 0) == s3 && SysStep(c, s3, 0) == s4;
    assert Run(c, s4, []) == s4;
    assert [0, 0, 0, 0][1..] == [0, 0, 0] && [0, 0, 0][1..] == [0, 0] && [0, 0][1..] == [0] && [0][1..] == [];
    assert Run(c, s3, [0]) == s4;
    assert Run(c, s2, [0, 0]) == s4;
    assert Run(c, s1, [0, 0, 0]) == s4;
  }

  lemma CarefulSteps(c: Config, t: Tree)
    requires !Quota(c) && 1 <= c.maxFile && t == OnlyRoot()
    ensures var th := Careful("a", "t1");
            && Step(c, th, t) == (th.(pc := AtOpen), t)
            && Step(c, th.(pc := AtOpen), t) == (th.(pc := AtMkdir(0)), t)
            && Step(c, th.(pc := AtMkdir(0)), t) == (th.(pc := AtStat), t)
            && Step(c, th.(pc := AtStat), t) == (th.(pc := AtTempName), t)
  {
    assert Parent(["f"]) == [];
  }

  ghost predicate BothSucceed(s: Sys) {
    |s.threads| == 2 && s.threads[0].pc.Done? && s.threads[0].pc.outcome.Ok?
    && s.threads[1].pc.Done? && s.threads[1].pc.outcome.Ok?
  }

  /** Once the first upload has passed its check, the second can run to its end, and then the
      first. */
  lemma ThenBoth(c: Config) returns (schedule: seq<nat>)
    requires !Quota(c) && 1 <= c.maxFile
    ensures BothSucceed(Run(c, Sys(OnlyRoot(), None, [Careful("a", "t1").(pc := AtTempName), Careful("b", "t2")]), schedule))
  {
    hide Step, Alone, WriteSpec, DoWriteSpec, Run;
    var a, b := Careful("a", "t1").(pc := AtTempName), Careful("b", "t2");
    var s1 := Sys(OnlyRoot(), None, [a, b]);
    var second := RunToEnd(c, s1, 1);
    AloneIsWrite(c, b.input, b.script, OnlyRoot());
    CarefulSpec(c, OnlyRoot(), "b", "t2");
    var s2 := Run(c, s1, second);
    assert s2.tree == OnlyRoot()[["f"] := File("b", OWNER_ONLY)];
    var first := RunToEnd(c, s2, 0);
    AloneDoWrite(c, a, s2.tree);
    CarefulSpec(c, s2.tree, "a", "t1");
    RunConcat(c, s1, second, first);
    schedule := second + first;
  }

  lemma CarefulInitial()
    ensures Initial(Sys(OnlyRoot(), None, [Careful("a", "t1"), Careful("b", "t2")]))
  {}

  /** Without a limit two Overwrite=false uploads of one path can both report success, for a new
      file, and only one of them is there afterwards. */
  lemma BothCanSucceed(c: Config)
    requires !Quota(c) && 1 <= c.maxFile
    ensures exists s0, schedule ::
              && Initial(s0) && Polite(s0.threads, ["f"]) && |s0.threads| == 2
              && Target(s0.threads[0]) == Target(s0.threads[1]) == ["f"]
              && BothSucceed(Run(c, s0, schedule))
  {
    hide Run, SysStep, Initial;
    var s0 := Sys(OnlyRoot(), None, [Careful("a", "t1"), Careful("b", "t2")]);
    CarefulInitial();
    FourSteps(c, Careful("b", "t2"));
    var rest := ThenBoth(c);
    RunConcat(c, s0, [0, 0, 0, 0], rest);
    assert BothSucceed(Run(c, s0, [0, 0, 0, 0] + rest));
  }

  ghost predicate OneWinner(s: Sys, p: Path) {
    forall i, j :: 0 <= i < j < |s.threads| && Target(s.threads[i]) == p && Target(s.threads[j]) == p ==>
      !(Succeeded(s.threads[i].pc) && Succeeded(s.threads[j].pc))
  }

  ghost predicate AlwaysOneWinner(c: Config) {
    forall s0, p, schedule :: Initial(s0) && Polite(s0.threads, p) ==> OneWinner(Run(c, s0, schedule), p)
  }

  /** Refusing to overwrite is safe under concurrency exactly when a total limit is configured. */
  lemma OneWinnerIffLimited(c: Config)
    requires 1 <= c.maxFile
    ensures AlwaysOneWinner(c) <==> Quota(c)
  {
    hide Run, SysStep, Initial;
    if Quota(c) {
      forall s0, p, schedule | Initial(s0) && Polite(s0.threads, p) ensures OneWinner(Run(c, s0, schedule), p) {
        NoClobber(c, s0, p, schedule);
      }
    } else {
      BothCanSucceed(c);
      var s0, schedule :| Initial(s0) && Polite(s0.threads, ["f"]) && |s0.threads| == 2
                          && Target(s0.threads[0]) == Target(s0.threads[1]) == ["f"]
                          && BothSucceed(Run(c, s0, schedule));
      RunSameCalls(c, s0, schedule);
      assert !OneWinner(Run(c, s0, schedule), ["f"]);
    }
  }

  lemma {:induction false} RunSameCalls(c: Config, s: Sys, schedule: seq<nat>)
    ensures SameCalls(s.threads, Run(c, s, schedule).threads)
    decreases |schedule|
  {
    if schedule != [] {
      StepSameCalls(c, s, schedule[0]);
      RunSameCalls(c, SysStep(c, s, schedule[0]), schedule[1..]);
    }
  }

  /** With a limit too, a failing stat is taken for "no such file": an Overwrite=false upload then
      replaces what is there, and says it did not. */
  lemma FailedStatClobbers(c: Config, t: Tree, p: Path, input: Input, s: Script)
    requires WellFormed(t) && Quota(c) && |input.data| <= c.maxFile && p in t && t[p].File?
    requires input.rel == Local(p) && !input.overwrite && Total(t) + |input.data| <= c.maxTotal
    requires s == Smooth(s.tmp).(stat := true) && TempPath(p, s) !in t
    ensures WriteSpec(c, t, input, s) == (Ok(Written(p, |input.data|, false, input.mode)), t[p := File(input.data, input.mode)])
  {
    MkdirMakes(t, p, None);
  }

  // ------------------------------------------------------------------ the exact condition

  /** Every upload of p refuses to overwrite, and its stat may fail only if `statsFail`. */
  ghost predicate Refusing(threads: seq<Thread>, p: Path, statsFail: bool) {
    forall i :: 0 <= i < |threads| && Target(threads[i]) == p ==>
      !threads[i].input.overwrite && (threads[i].script.stat ==> statsFail)
  }

  ghost predicate OneWinnerUnder(c: Config, statsFail: bool) {
    forall s0, p, schedule :: Initial(s0) && Refusing(s0.threads, p, statsFail) ==> OneWinner(Run(c, s0, schedule), p)
  }

  /** An upload of an empty "f" whose stat fails. */
  function Blind(tmp: string): Thread {
    Begin(Input(Local(["f"]), "", false, OWNER_ONLY), Smooth(tmp).(stat := true))
  }

  lemma FirstUpload(c: Config)
    requires Quota(c) && 0 <= c.maxFile
    ensures var th := Careful("", "t1");
            WriteSpec(c, OnlyRoot(), th.input, th.script)
            == (Ok(Written(["f"], 0, false, OWNER_ONLY)), OnlyRoot()[["f"] := File("", OWNER_ONLY)])
    ensures Total(OnlyRoot()[["f"] := File("", OWNER_ONLY)]) == 0
  {
    var t := OnlyRoot();
    assert Parent(["f"]) == [] && TempPath(["f"], Smooth("t1")) == ["t1"];
    assert MkdirSpec(t, [], 0, None) == (true, t);
    TotalSplit(t, []);
    assert t - {[]} == map[];
    TotalEmpty();
    TotalPut(t, ["f"], File("", OWNER_ONLY));
  }

  /** With a limit, one upload after the other: the second does not see the first. */
  lemma BlindWinsToo(c: Config) returns (schedule: seq<nat>)
    requires Quota(c) && 0 <= c.maxFile
    ensures var s0 := Sys(OnlyRoot(), None, [Careful("", "t1"), Blind("t2")]);
            Initial(s0) && BothSucceed(Run(c, s0, schedule))
  {
    hide Step, Alone, WriteSpec, Run, Total;
    var a, b := Careful("", "t1"), Blind("t2");
    var s0 := Sys(OnlyRoot(), None, [a, b]);
    var first := RunToEnd(c, s0, 0);
    AloneIsWrite(c, a.input, a.script, OnlyRoot());
    FirstUpload(c);
    var s1 := Run(c, s0, first);
    LockRun(c, s0, first);
    var second := RunToEnd(c, s1, 1);
    AloneIsWrite(c, b.input, b.script, s1.tree);
    assert TempPath(["f"], b.script) == ["t2"];
    FailedStatClobbers(c, s1.tree, ["f"], b.input, b.script);
    RunConcat(c, s0, first, second);
    schedule := first + second;
  }

  lemma {:induction false} LockRun(c: Config, s: Sys, schedule: seq<nat>)
    requires Quota(c) && LockInv(s)
    ensures LockInv(Run(c, s, schedule))
    decreases |schedule|
  {
    if schedule != [] {
      LockStep(c, s, schedule[0]);
      LockRun(c, SysStep(c, s, schedule[0]), schedule[1..]);
    }
  }

  /** Whatever else fails, of concurrent Overwrite=false uploads of one path at most one succeeds in
      every run exactly when a total limit is configured and no stat of theirs fails. */
  lemma OneWinnerIffLimitedAndSeen(c: Config, statsFail: bool)
    requires 1 <= c.maxFile
    ensures OneWinnerUnder(c, statsFail) <==> Quota(c) && !statsFail
  {
    hide Run, SysStep, Initial;
    if Quota(c) && !statsFail {
      forall s0, p, schedule | Initial(s0) && Refusing(s0.threads, p, statsFail) ensures OneWinner(Run(c, s0, schedule), p) {
        NoClobber(c, s0, p, schedule);
      }
    } else {
      var s0: Sys, schedule: seq<nat>;
      if Quota(c) {
        s0 := Sys(OnlyRoot(), None, [Careful("", "t1"), Blind("t2")]);
        schedule := BlindWinsToo(c);
      } else {
        BothCanSucceed(c);
        s0, schedule :| Initial(s0) && Polite(s0.threads, ["f"]) && |s0.threads| == 2
                        && Target(s0.threads[0]) == Target(s0.threads[1]) == ["f"]
                        && BothSucceed(Run(c, s0, schedule));
      }
      assert Refusing(s0.threads, ["f"], statsFail);
      RunSameCalls(c, s0, schedule);
      assert !OneWinner(Run(c, s0, schedule), ["f"]);
    }
  }
}
