/** Which answer a call of Write gives, for every argument, every tree and every fault: each error
    and the success by the condition under which it is returned. */
module UploadAnswers {

  import opened Wrappers
  import opened UploadSpec

  /** Every piece of the path from component i on that exists is a directory. */
  ghost predicate OpenWay(t: Tree, dir: Path, i: nat) {
    forall j :: i < j <= |dir| && dir[..j] in t ==> t[dir[..j]].Dir?
  }

  /** MkdirAll works exactly when it meets no fault and no file. */
  lemma {:induction false} MkdirSucceedsIff(t: Tree, dir: Path, i: nat, failAt: Option<nat>)
    requires i <= |dir| && IsDirAt(t, dir[..i])
    ensures MkdirSpec(t, dir, i, failAt).0
            <==> (failAt.None? || failAt.value < i || failAt.value >= |dir|) && OpenWay(t, dir, i)
    decreases |dir| - i
  {
    if i < |dir| {
      var a := dir[..i + 1];
      if a in t {
        if t[a].Dir? {
          MkdirSucceedsIff(t, dir, i + 1, failAt);
          assert OpenWay(t, dir, i) <==> OpenWay(t, dir, i + 1) by { WayFrom(t, dir, i); }
        } else {
          assert !OpenWay(t, dir, i);
        }
      } else {
        var t1 := t[a := Dir];
        MkdirSucceedsIff(t1, dir, i + 1, failAt);
        assert OpenWay(t, dir, i) <==> OpenWay(t1, dir, i + 1) by {
          WayFrom(t, dir, i);
          assert forall j :: i + 1 < j <= |dir| ==> dir[..j] != a;
        }
      }
    }
  }

  lemma WayFrom(t: Tree, dir: Path, i: nat)
    requires i < |dir| && (dir[..i + 1] in t ==> t[dir[..i + 1]].Dir?)
    ensures OpenWay(t, dir, i) <==> OpenWay(t, dir, i + 1)
  {}

  /** The directories above p can be made. */
  ghost predicate Ways(t: Tree, p: Path, s: Script) {
    (s.mkdir.None? || s.mkdir.value >= |Parent(p)|) && OpenWay(t, Parent(p), 0)
  }

  /** Stat sees a file at p. */
  predicate Seen(t: Tree, p: Path, s: Script) {
    !s.stat && p in t
  }

  ghost predicate Refused(t: Tree, p: Path, input: Input, s: Script) {
    Seen(t, p, s) && (t[p].Dir? || !input.overwrite)
  }

  /** What the total would come to. */
  ghost function Coming(t: Tree, p: Path, input: Input, s: Script): int {
    Total(t) - (if Seen(t, p, s) && t[p].File? then |t[p].data| else 0) + |input.data|
  }

  /** The answer of the steps from the temporary name on. */
  ghost predicate TempAnswers(t: Tree, p: Path, input: Input, s: Script, r: Outcome) {
    var tmp := Parent(p) + [s.tmp];
    var made := !s.rand && !s.create && tmp !in t;
    && (r == Err(Io(TempName)) <==> s.rand)
    && (r == Err(Io(Create)) <==> !s.rand && (s.create || tmp in t))
    && (r == Err(Io(Chmod)) <==> made && s.chmod)
    && (r == Err(Io(Stage.Write)) <==> made && !s.chmod && s.write.Some?)
    && (r == Err(Io(Sync)) <==> made && !s.chmod && s.write.None? && s.sync)
    && (r == Err(Io(Close)) <==> made && !s.chmod && s.write.None? && !s.sync && s.close)
    && (r == Err(Io(Rename)) <==>
          made && !s.chmod && s.write.None? && !s.sync && !s.close && (s.rename || (p in t && t[p].Dir?)))
    && (r.Ok? <==>
          made && !s.chmod && s.write.None? && !s.sync && !s.close && !s.rename && !(p in t && t[p].Dir?))
  }

  lemma DoWriteAnswers(t: Tree, t1: Tree, p: Path, input: Input, s: Script, overwritten: bool)
    requires MadeFor(p, t, t1) && IsDirAt(t1, Parent(p))
    ensures TempAnswers(t, p, input, s, DoWriteSpec(t1, p, input, s, overwritten).0)
    ensures DoWriteSpec(t1, p, input, s, overwritten).0.Err? ==> DoWriteSpec(t1, p, input, s, overwritten).0.error.Io?
  {
    hide WellFormed;
    var tmp := Parent(p) + [s.tmp];
    assert tmp in t1 <==> tmp in t by { assert |tmp| > |Parent(p)|; }
    assert p in t1 <==> p in t;
    assert p in t ==> t1[p] == t[p];
  }

  /** All answers but those of the steps from the temporary name on. */
  ghost predicate Answers(c: Config, t: Tree, p: Path, input: Input, s: Script, r: Outcome) {
    var limited := c.maxTotal > 0;
    var looks := !s.openRoot && (limited || Ways(t, p, s));
    var passes := looks && !Refused(t, p, input, s);
    var room := !limited || (!s.walk && Coming(t, p, input, s) <= c.maxTotal);
    && (r == Err(Io(OpenRoot)) <==> s.openRoot)
    && (r == Err(IsDir) <==> looks && Seen(t, p, s) && t[p].Dir?)
    && (r == Err(Exists) <==> looks && Seen(t, p, s) && t[p].File? && !input.overwrite)
    && (r == Err(Io(Walk)) <==> limited && passes && s.walk)
    && (r == Err(QuotaExceeded) <==> limited && passes && !s.walk && Coming(t, p, input, s) > c.maxTotal)
    && (r == Err(Io(Mkdir)) <==> !s.openRoot && !Ways(t, p, s) && (limited ==> passes && room))
    && (passes && room && Ways(t, p, s) ==> TempAnswers(t, p, input, s, r))
    && (r.Ok? ==> passes && room && Ways(t, p, s))
    && r != Err(TooLarge) && r != Err(Traversal)
  }

  lemma MkdirMet(t: Tree, p: Path, s: Script)
    requires WellFormed(t)
    ensures var (ok, t1) := MkdirSpec(t, Parent(p), 0, s.mkdir);
            && (ok <==> Ways(t, p, s)) && MadeFor(p, t, t1) && (ok ==> IsDirAt(t1, Parent(p)))
            && (p in t1 <==> p in t) && (p in t ==> t1[p] == t[p])
  {
    assert Parent(p)[..0] == [];
    MkdirSucceedsIff(t, Parent(p), 0, s.mkdir);
    MkdirMakes(t, p, s.mkdir);
    MkdirEffect(t, Parent(p), 0, s.mkdir);
    hide WellFormed, MkdirSpec, OpenWay;
  }

  lemma PlainAnswers(c: Config, t: Tree, p: Path, input: Input, s: Script)
    requires WellFormed(t) && c.maxTotal == 0
    ensures Answers(c, t, p, input, s, PlainSpec(t, p, input, s).0)
  {
    hide WellFormed, MkdirSpec, DoWriteSpec, TempAnswers, MadeFor, Ways, Total;
    MkdirMet(t, p, s);
    var (ok, t1) := MkdirSpec(t, Parent(p), 0, s.mkdir);
    if ok {
      DoWriteAnswers(t, t1, p, input, s, true);
      DoWriteAnswers(t, t1, p, input, s, false);
      StagesDiffer(t, p, input, s, DoWriteSpec(t1, p, input, s, true).0);
      StagesDiffer(t, p, input, s, DoWriteSpec(t1, p, input, s, false).0);
    }
  }

  lemma LimitedAnswers(c: Config, t: Tree, p: Path, input: Input, s: Script)
    requires WellFormed(t) && c.maxTotal > 0
    ensures Answers(c, t, p, input, s, QuotaSpec(c, t, p, input, s).0)
  {
    hide WellFormed, MkdirSpec, DoWriteSpec, TempAnswers, MadeFor, Ways, Total;
    MkdirMet(t, p, s);
    var (ok, t1) := MkdirSpec(t, Parent(p), 0, s.mkdir);
    if ok {
      DoWriteAnswers(t, t1, p, input, s, true);
      DoWriteAnswers(t, t1, p, input, s, false);
      StagesDiffer(t, p, input, s, DoWriteSpec(t1, p, input, s, true).0);
      StagesDiffer(t, p, input, s, DoWriteSpec(t1, p, input, s, false).0);
    }
  }

  /** An answer of the later steps is none of the earlier ones. */
  lemma StagesDiffer(t: Tree, p: Path, input: Input, s: Script, r: Outcome)
    requires TempAnswers(t, p, input, s, r) && (r.Err? ==> r.error.Io?)
    ensures r != Err(Io(OpenRoot)) && r != Err(Io(Walk)) && r != Err(Io(Mkdir))
  {}

  /** The answer of a call, case by case and in both branches. */
  lemma WriteAnswersExactly(c: Config, t: Tree, input: Input, s: Script)
    requires WellFormed(t)
    ensures var r := WriteSpec(c, t, input, s).0;
            && (r == Err(TooLarge) <==> |input.data| > c.maxFile)
            && (r == Err(Traversal) <==> |input.data| <= c.maxFile && input.rel.NotLocal?)
            && (|input.data| <= c.maxFile && input.rel.Local? ==> Answers(c, t, input.rel.comps, input, s, r))
            && (r.Ok? ==> r == Ok(Written(input.rel.comps, |input.data|, Seen(t, input.rel.comps, s), input.mode)))
  {
    hide WellFormed, PlainSpec, QuotaSpec, Answers;
    WriteEffect(c, t, input, s);
    if |input.data| <= c.maxFile && input.rel.Local? {
      if c.maxTotal == 0 {
        PlainAnswers(c, t, input.rel.comps, input, s);
      } else {
        LimitedAnswers(c, t, input.rel.comps, input, s);
      }
      NeitherEarly(c, t, input.rel.comps, input, s, WriteSpec(c, t, input, s).0);
    }
  }

  lemma NeitherEarly(c: Config, t: Tree, p: Path, input: Input, s: Script, r: Outcome)
    requires Answers(c, t, p, input, s, r)
    ensures r != Err(TooLarge) && r != Err(Traversal)
  {
    hide Total, OpenWay;
  }
}
