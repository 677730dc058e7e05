/** Atomic replacement under concurrency, with or without the mutex: no reader of the tree ever
    sees part of an upload, and without a limit that is all that is promised. */
module UploadVisibility {

  import opened UploadSpec
  import opened UploadSteps
  import opened UploadRuns

  /** The rename has happened. */
  predicate Succeeded(pc: Pc) {
    pc.AtDirSync? || (pc.AtUnlock? && pc.outcome.Ok?) || (pc.Done? && pc.outcome.Ok?)
  }

  ghost predicate IsTemp(threads: seq<Thread>, p: Path) {
    exists i :: 0 <= i < |threads| && p == Temp(threads[i])
  }

  /** What a thread's temporary file holds while it has one. */
  ghost predicate Filled(th: Thread, t: Tree) {
    HasTemp(th.pc) ==>
      && Temp(th) in t && t[Temp(th)].File?
      && (th.pc.AtData? ==> t[Temp(th)].mode == th.input.mode)
      && (th.pc.AtSync? || th.pc.AtClose? || th.pc.AtRename? ==> t[Temp(th)] == Content(th))
  }

  /** p is as it was, or a directory made on the way to some target, or all of some upload that
      got as far as its rename. */
  ghost predicate Explained(t0: Tree, s: Sys, p: Path)
    requires p in s.tree
  {
    || (p in t0 && s.tree[p] == t0[p])
    || (p !in t0 && s.tree[p].Dir?)
    || (!IsDirAt(t0, p) && exists i :: WroteIt(s, i, p))
  }

  ghost predicate WroteIt(s: Sys, i: int, p: Path) {
    && 0 <= i < |s.threads| && Target(s.threads[i]) == p && Succeeded(s.threads[i].pc)
    && p in s.tree && s.tree[p] == Content(s.threads[i])
  }

  ghost predicate Landed(s: Sys, i: int, p: Path) {
    0 <= i < |s.threads| && Target(s.threads[i]) == p && Succeeded(s.threads[i].pc)
  }

  /** Once an upload of p has been renamed there, p holds all of some such upload. */
  ghost predicate Settled(s: Sys, p: Path) {
    (exists i :: Landed(s, i, p)) ==> exists i :: WroteIt(s, i, p)
  }

  ghost predicate Visible(t0: Tree, s: Sys) {
    && (forall p :: !IsTemp(s.threads, p) ==> Settled(s, p))
    && (forall p :: p in s.tree && !IsTemp(s.threads, p) ==> Explained(t0, s, p))
    && (forall p :: p in t0 && !IsTemp(s.threads, p) ==> p in s.tree)
  }

  ghost predicate AtomicInv(t0: Tree, s: Sys) {
    && FreshNames(s.threads) && Visible(t0, s)
    && (forall i :: 0 <= i < |s.threads| ==> Filled(s.threads[i], s.tree))
  }

  // ------------------------------------------------------------------ one step

  /** Where a step of a thread can touch the tree. */
  datatype Change = Nothing | Made(dir: Path) | Temporary | Renamed

  ghost predicate Changes(th: Thread, th': Thread, t: Tree, t': Tree, ch: Change) {
    match ch
    case Nothing => t' == t
    case Made(a) => a !in t && IsPrefix(a, Parent(Target(th))) && a != [] && t' == t[a := Dir]
    case Temporary => (forall p :: p != Temp(th) ==> (p in t' <==> p in t) && (p in t ==> t'[p] == t[p]))
    case Renamed => th.pc.AtRename? && th'.pc.AtDirSync? && Temp(th) in t && !IsDirAt(t, Target(th))
                    && t' == (t - {Temp(th)})[Target(th) := t[Temp(th)]]
  }

  ghost predicate StepOk(c: Config, th: Thread, t: Tree, ch: Change) {
    var (th', t') := Step(c, th, t);
    && Changes(th, th', t, t', ch) && Filled(th', t')
    && (Succeeded(th'.pc) <==> Succeeded(th.pc) || ch.Renamed?)
  }

  lemma MkdirChanges(c: Config, th: Thread, t: Tree) returns (ch: Change)
    requires th.pc.AtMkdir?
    ensures StepOk(c, th, t, ch)
  {
    var dir := Parent(Target(th));
    return if Step(c, th, t).1 == t then Nothing else Made(dir[..th.pc.i + 1]);
  }

  lemma FileChanges(c: Config, th: Thread, t: Tree) returns (ch: Change)
    requires Filled(th, t) && HasTemp(th.pc)
    ensures StepOk(c, th, t, ch)
  {
    return if Step(c, th, t).0.pc.AtDirSync? then Renamed else Temporary;
  }

  lemma StatStays(c: Config, th: Thread, t: Tree)
    ensures var th' := StatStep(c, th, t);
            th'.input == th.input && th'.script == th.script && !HasTemp(th'.pc) && !Succeeded(th'.pc)
  {}

  lemma WalkStays(c: Config, th: Thread, t: Tree)
    ensures var th' := WalkStep(c, th, t);
            th'.input == th.input && th'.script == th.script && !HasTemp(th'.pc) && !Succeeded(th'.pc)
  {
    hide Total;
  }

  lemma StillOutsideFiles(c: Config, th: Thread, t: Tree)
    requires !HasTemp(th.pc) && !th.pc.AtMkdir? && !th.pc.AtCreate?
    ensures var (th', t') := Step(c, th, t);
            t' == t && th'.input == th.input && th'.script == th.script && !HasTemp(th'.pc)
            && (Succeeded(th'.pc) <==> Succeeded(th.pc))
  {
    hide Closer, MkdirStep, FileStep, CreateStep, StatStep, WalkStep, Phase;
    StatStays(c, th, t);
    WalkStays(c, th, t);
  }

  lemma OtherChanges(c: Config, th: Thread, t: Tree) returns (ch: Change)
    requires !HasTemp(th.pc) && !th.pc.AtMkdir?
    ensures StepOk(c, th, t, ch)
  {
    hide Total, Closer, MkdirStep, FileStep;
    ch := if th.pc.AtCreate? then Temporary else Nothing;
    if !th.pc.AtCreate? { StillOutsideFiles(c, th, t); }
  }

  /** Every step touches the tree in one of four ways, keeps its own temporary file as described,
      and a thread counts as successful from its rename on. */
  lemma StepChanges(c: Config, th: Thread, t: Tree) returns (ch: Change)
    requires Filled(th, t)
    ensures StepOk(c, th, t, ch)
  {
    hide StepOk, Filled;
    if th.pc.AtMkdir? {
      ch := MkdirChanges(c, th, t);
    } else if HasTemp(th.pc) {
      ch := FileChanges(c, th, t);
    } else {
      ch := OtherChanges(c, th, t);
    }
  }

  lemma TempsDiffer(threads: seq<Thread>, i: nat, j: nat)
    requires FreshNames(threads) && i < |threads| && j < |threads|
    ensures i != j ==> Temp(threads[i]) != Temp(threads[j])
    ensures forall a :: IsPrefix(a, Target(threads[j])) ==> a != Temp(threads[i])
  {
    var t := Temp(threads[i]);
    assert t[|t| - 1] == threads[i].script.tmp;
    var u := Temp(threads[j]);
    assert u[|u| - 1] == threads[j].script.tmp;
  }

  // ------------------------------------------------------------------ the system

  lemma FilledStep(c: Config, s: Sys, k: nat, ch: Change)
    requires FreshNames(s.threads) && k < |s.threads| && StepOk(c, s.threads[k], s.tree, ch)
    requires forall i :: 0 <= i < |s.threads| ==> Filled(s.threads[i], s.tree)
    ensures var s' := SysStep(c, s, k);
            forall i :: 0 <= i < |s'.threads| ==> Filled(s'.threads[i], s'.tree)
  {
    hide Step;
    var s' := SysStep(c, s, k);
    forall i | 0 <= i < |s'.threads| ensures Filled(s'.threads[i], s'.tree) {
      if i != k && s' != s {
        TempsDiffer(s.threads, i, k);
        assert s'.threads[i] == s.threads[i] && Filled(s.threads[i], s.tree);
        ParentPrefix(Target(s.threads[k]));
        assert Temp(s.threads[i]) in s.tree && HasTemp(s.threads[i].pc) ==>
          Temp(s.threads[i]) in s'.tree && s'.tree[Temp(s.threads[i])] == s.tree[Temp(s.threads[i])];
      }
    }
  }

  lemma ParentPrefix(p: Path)
    ensures forall a :: IsPrefix(a, Parent(p)) ==> IsPrefix(a, p)
    ensures IsPrefix(p, p)
  {
    forall a | IsPrefix(a, Parent(p)) ensures IsPrefix(a, p) {
      assert Parent(p) == p[..|Parent(p)|];
    }
  }

  /** At a path that is nobody's temporary name, a step leaves what was there, makes a directory
      where nothing was, or puts all of its own upload there. */
  lemma AtPath(c: Config, s: Sys, k: nat, ch: Change, p: Path)
    requires FreshNames(s.threads) && k < |s.threads| && StepOk(c, s.threads[k], s.tree, ch)
    requires Filled(s.threads[k], s.tree) && !IsTemp(s.threads, p)
    ensures var s' := SysStep(c, s, k);
            || ((p in s.tree <==> p in s'.tree) && (p in s.tree ==> s'.tree[p] == s.tree[p]))
            || (p !in s.tree && IsDirAt(s'.tree, p) && IsPrefix(p, Target(s.threads[k])) && p != Target(s.threads[k]))
            || (ch.Renamed? && p == Target(s.threads[k]) && !IsDirAt(s.tree, p) && WroteIt(s', k, p))
  {
    hide Step;
    var th := s.threads[k];
    assert p != Temp(th);
    ParentPrefix(Target(th));
  }

  lemma SucceededStays(c: Config, s: Sys, k: nat, ch: Change, i: int, p: Path)
    requires k < |s.threads| && StepOk(c, s.threads[k], s.tree, ch) && WroteIt(s, i, p)
    ensures var s' := SysStep(c, s, k);
            p in s'.tree && s'.tree[p] == s.tree[p] ==> WroteIt(s', i, p)
  {
    hide Step;
    StepSameCalls(c, s, k);
  }

  lemma SameTemps(c: Config, s: Sys, k: nat)
    ensures forall p :: IsTemp(s.threads, p) <==> IsTemp(SysStep(c, s, k).threads, p)
  {
    StepSameCalls(c, s, k);
    hide Step;
    var a, b := s.threads, SysStep(c, s, k).threads;
    forall p ensures IsTemp(a, p) <==> IsTemp(b, p) {
      if i :| 0 <= i < |a| && p == Temp(a[i]) { assert p == Temp(b[i]); }
      if i :| 0 <= i < |b| && p == Temp(b[i]) { assert p == Temp(a[i]); }
    }
  }

  lemma ExplainedStep(c: Config, t0: Tree, s: Sys, k: nat, ch: Change, p: Path)
    requires AtomicInv(t0, s) && k < |s.threads| && StepOk(c, s.threads[k], s.tree, ch) && !IsTemp(s.threads, p)
    ensures var s' := SysStep(c, s, k);
            (p in s'.tree ==> Explained(t0, s', p)) && (p in t0 ==> p in s'.tree)
  {
    hide SysStep, StepOk, FreshNames;
    var s' := SysStep(c, s, k);
    AtPath(c, s, k, ch, p);
    if p in s.tree && p in s'.tree && s'.tree[p] == s.tree[p] {
      assert Explained(t0, s, p);
      if i :| WroteIt(s, i, p) {
        SucceededStays(c, s, k, ch, i, p);
      }
    }
  }

  lemma SettledStep(c: Config, s: Sys, k: nat, ch: Change, p: Path)
    requires FreshNames(s.threads) && k < |s.threads| && StepOk(c, s.threads[k], s.tree, ch)
    requires Filled(s.threads[k], s.tree) && !IsTemp(s.threads, p) && Settled(s, p)
    ensures Settled(SysStep(c, s, k), p)
  {
    hide Step, FreshNames;
    var s' := SysStep(c, s, k);
    AtPath(c, s, k, ch, p);
    StepSameCalls(c, s, k);
    if j :| Landed(s', j, p) {
      if j == k && ch.Renamed? {
        assert WroteIt(s', k, p);
      } else {
        assert Landed(s, j, p);
        var i :| WroteIt(s, i, p);
        SucceededStays(c, s, k, ch, i, p);
      }
    }
  }

  lemma AtomicStep(c: Config, t0: Tree, s: Sys, k: nat)
    requires AtomicInv(t0, s)
    ensures AtomicInv(t0, SysStep(c, s, k))
  {
    hide StepOk, Explained, Step, Settled;
    if k < |s.threads| {
      var ch := StepChanges(c, s.threads[k], s.tree);
      StepSameCalls(c, s, k);
      SameTemps(c, s, k);
      FilledStep(c, s, k, ch);
      var s' := SysStep(c, s, k);
      forall p | !IsTemp(s.threads, p) ensures (p in s'.tree ==> Explained(t0, s', p)) && (p in t0 ==> p in s'.tree) {
        ExplainedStep(c, t0, s, k, ch, p);
      }
      forall p | !IsTemp(s.threads, p) ensures Settled(s', p) {
        SettledStep(c, s, k, ch, p);
      }
    }
  }

  lemma {:induction false} AtomicRun(c: Config, t0: Tree, s: Sys, schedule: seq<nat>)
    requires AtomicInv(t0, s)
    ensures AtomicInv(t0, Run(c, s, schedule))
    decreases |schedule|
  {
    if schedule != [] {
      AtomicStep(c, t0, s, schedule[0]);
      AtomicRun(c, t0, SysStep(c, s, schedule[0]), schedule[1..]);
    }
  }

  /** In every interleaving of every set of uploads, with or without a limit and whatever fails: at
      every moment each path that is not a temporary name holds what it held at the start, or is a
      new directory, or holds all of the data of one upload that has been renamed there, with its
      mode; once an upload of a path has succeeded, the path holds all of one that has; and nothing
      that was there is gone. */
  lemma AtomicReplacement(c: Config, s0: Sys, schedule: seq<nat>)
    requires Initial(s0)
    ensures Visible(s0.tree, Run(c, s0, schedule))
  {
    AtomicRun(c, s0.tree, s0, schedule);
  }
}
