/** Exactly which uploads keep the total limit: a set of calls keeps it in every run on every tree
    if and only if none of them can strand bytes in a temporary file. */
module UploadLimit {

  import opened Wrappers
  import opened UploadSpec
  import opened UploadSteps
  import opened UploadRuns
  import opened UploadNoClobber

  // ------------------------------------------------------------------ a tree with one file

  ghost predicate OnlyFile(t: Tree, p: Path) {
    forall q :: q in t && q != p ==> t[q].Dir?
  }

  lemma {:induction false} TotalOnly(t: Tree, p: Path)
    requires OnlyFile(t, p)
    ensures Total(t) == SizeAt(t, p)
    decreases |t|
  {
    if q :| q in t && q != p {
      TotalWithout(t, q);
      TotalOnly(t - {q}, p);
    } else if p in t {
      TotalWithout(t, p);
      assert t - {p} == map[];
    } else {
      assert t == map[];
    }
  }

  function Prefixes(p: Path): (r: set<Path>)
    ensures forall q :: q in r <==> IsPrefix(q, p)
  {
    var r := set i | 0 <= i <= |p| :: p[..i];
    assert forall q :: IsPrefix(q, p) ==> q == p[..|q|];
    r
  }

  /** The directories above p, and at p a file. */
  function FileAt(p: Path, f: Node): (t: Tree)
    requires p != []
    ensures p in t && t[p] == f
    ensures forall q :: q in t && q != p ==> t[q].Dir?
    ensures forall q :: q in t <==> IsPrefix(q, p)
  {
    map q | q in Prefixes(p) :: if q == p then f else Dir
  }

  lemma FileAtShape(p: Path, f: Node)
    requires p != [] && f.File?
    ensures WellFormed(FileAt(p, f)) && IsDirAt(FileAt(p, f), Parent(p)) && Total(FileAt(p, f)) == Size(f)
  {
    var t := FileAt(p, f);
    assert IsPrefix([], p) && [] != p;
    forall q | q in t && q != [] ensures IsDirAt(t, Parent(q)) {
      assert q == p[..|q|];
      assert Parent(q) == p[..|q| - 1];
      assert IsPrefix(Parent(q), p);
    }
    TotalOnly(t, p);
  }

  // ------------------------------------------------------------------ a call that strands bytes

  /** A root filled to its limit by the file the call is to replace. */
  function Full(c: Config, th: Thread): Tree
    requires Target(th) != []
  {
    FileAt(Target(th), File(seq(c.maxTotal, _ => 'x'), OWNER_ONLY))
  }

  lemma PrefixLast(q: Path, p: Path)
    requires q != []
    ensures IsPrefix(q, p) ==> q[|q| - 1] in p
  {}

  lemma FaultFound(c: Config, th: Thread, t: Tree)
    requires Strands(c, th)
    ensures var fault := FirstFault(t, Target(th), th.input, th.script);
            fault.Some? && Size(fault.value.1) > 0
  {}

  /** Alone on that tree the call fails and leaves what it had written. */
  lemma StrandsOnFull(c: Config, th: Thread)
    requires Quota(c) && Strands(c, th) && th.script.tmp !in Target(th)
    ensures WellFormed(Full(c, th)) && Total(Full(c, th)) == c.maxTotal
    ensures Total(WriteSpec(c, Full(c, th), th.input, th.script).1) > c.maxTotal
  {
    hide WellFormed, Total, FirstFault;
    var t, p, s := Full(c, th), Target(th), th.script;
    var tmp := Temp(th);
    FileAtShape(p, File(seq(c.maxTotal, _ => 'x'), OWNER_ONLY));
    assert tmp[|tmp| - 1] == s.tmp;
    PrefixLast(tmp, p);
    assert tmp !in t;
    MkdirNothingToDo(t, Parent(p), 0, s.mkdir);
    FaultFound(c, th, t);
    var left := FirstFault(t, p, th.input, s).value.1;
    TotalPut(t, tmp, left);
    assert DoWriteSpec(t, p, th.input, s, true).1 == t[tmp := left];
    assert QuotaSpec(c, t, p, th.input, s).1 == t[tmp := left];
  }

  /** Calls at their beginning, with temporary names of their own. */
  ghost predicate Beginning(threads: seq<Thread>) {
    && (forall i :: 0 <= i < |threads| ==> threads[i] == Begin(threads[i].input, threads[i].script))
    && FreshNames(threads)
  }

  /** Every call that strands bytes takes some root over its limit, whatever the calls beside it. */
  lemma LimitNeedsCleanup(c: Config, threads: seq<Thread>, i: nat) returns (t: Tree, schedule: seq<nat>)
    requires Quota(c) && i < |threads| && Strands(c, threads[i])
    requires Beginning(threads)
    ensures Initial(Sys(t, None, threads)) && Total(t) <= c.maxTotal
    ensures !WithinLimit(c, t, Run(c, Sys(t, None, threads), schedule))
  {
    var th := threads[i];
    hide Strands, Total, WellFormed, Alone, WriteSpec, Run;
    StrandsTarget(c, th);
    t := Full(c, th);
    StrandsOnFull(c, th);
    schedule := RunToEnd(c, Sys(t, None, threads), i);
    AloneIsWrite(c, th.input, th.script, t);
  }

  lemma StrandsTarget(c: Config, th: Thread)
    requires Strands(c, th)
    ensures Target(th) != []
  {}

  // ------------------------------------------------------------------ the exact condition

  ghost predicate AlwaysWithinLimit(c: Config, threads: seq<Thread>) {
    forall t, schedule :: WellFormed(t) ==> WithinLimit(c, t, Run(c, Sys(t, None, threads), schedule))
  }

  /** These calls keep the total limit, on every tree and in every interleaving, exactly when none of
      them strands bytes. */
  lemma LimitKeptIff(c: Config, threads: seq<Thread>)
    requires Quota(c) && Beginning(threads)
    ensures AlwaysWithinLimit(c, threads) <==> forall i :: 0 <= i < |threads| ==> !Strands(c, threads[i])
  {
    hide Run, Strands, WellFormed, WithinLimit;
    if i :| 0 <= i < |threads| && Strands(c, threads[i]) {
      var t, schedule := LimitNeedsCleanup(c, threads, i);
    } else {
      forall t, schedule | WellFormed(t) ensures WithinLimit(c, t, Run(c, Sys(t, None, threads), schedule)) {
        LimitKept(c, Sys(t, None, threads), schedule);
      }
    }
  }

  /** A rule for calls: whether they may overwrite, and whether removals may fail. */
  ghost predicate Allowed(threads: seq<Thread>, overwrites: bool, removalsFail: bool) {
    forall i :: 0 <= i < |threads| ==>
      (threads[i].input.overwrite ==> overwrites) && (threads[i].script.remove ==> removalsFail)
  }

  ghost predicate RuleKeepsLimit(c: Config, overwrites: bool, removalsFail: bool) {
    forall threads :: Beginning(threads) && Allowed(threads, overwrites, removalsFail) ==> AlwaysWithinLimit(c, threads)
  }

  /** A replacement of "f" that fails at its sync and cannot remove its temporary file. */
  function Stranding(): Thread {
    Begin(Input(Local(["f"]), "y", true, OWNER_ONLY), Smooth("tmp").(sync := true, remove := true))
  }

  /** Over all runs, whatever else fails, the limit is kept exactly when removals work or no upload
      overwrites. */
  lemma LimitKeptByRule(c: Config, overwrites: bool, removalsFail: bool)
    requires Quota(c) && 1 <= c.maxFile
    ensures RuleKeepsLimit(c, overwrites, removalsFail) <==> !overwrites || !removalsFail
  {
    hide AlwaysWithinLimit;
    if overwrites && removalsFail {
      var threads := [Stranding()];
      assert Strands(c, threads[0]);
      LimitKeptIff(c, threads);
      assert Beginning(threads) && Allowed(threads, true, true);
    } else {
      forall threads | Beginning(threads) && Allowed(threads, overwrites, removalsFail)
        ensures AlwaysWithinLimit(c, threads)
      {
        LimitKeptIff(c, threads);
      }
    }
  }
}
