/** The upload writer of internal/fileupload as a function of the tree under the upload root: what
    one call of Write returns and leaves behind, for every failure of every step.

    The tree holds directories and regular files only, and relative paths are in cleaned form:
    lists of components. What the environment decides about a call is its `Script`. */
module UploadSpec {

  import opened Wrappers

  type Bytes = seq<char>

  type Path = seq<string>

  datatype Node = Dir | File(data: Bytes, mode: nat)

  type Tree = map<Path, Node>

  /** A cleaned relative path; NotLocal covers the empty, absolute and escaping ones. */
  datatype RelPath = Local(comps: Path) | NotLocal

  datatype Config = Config(maxFile: int, maxTotal: nat)

  datatype Input = Input(rel: RelPath, data: Bytes, overwrite: bool, mode: nat)

  datatype Stage = OpenRoot | Walk | Mkdir | TempName | Create | Chmod | Write | Sync | Close | Rename

  datatype WriteError = TooLarge | Traversal | IsDir | Exists | QuotaExceeded | Io(stage: Stage)

  datatype Written = Written(path: Path, size: nat, overwritten: bool, mode: nat)

  type Outcome = Result<Written, WriteError>

  /** Which steps fail, after how many bytes a failing write stops, and the random temporary name. */
  datatype Script = Script(
    openRoot: bool, stat: bool, walk: bool, mkdir: Option<nat>, rand: bool, tmp: string, create: bool,
    chmod: bool, write: Option<nat>, sync: bool, close: bool, rename: bool, remove: bool)

  const OWNER_ONLY: nat := 0x180 // 0600

  predicate IsDirAt(t: Tree, p: Path) {
    p in t && t[p].Dir?
  }

  /** filepath.Dir: the root is its own parent. */
  function Parent(p: Path): Path {
    if p == [] then [] else p[..|p| - 1]
  }

  ghost predicate WellFormed(t: Tree) {
    [] in t && forall p :: p in t ==> IsDirAt(t, []) && (p != [] ==> IsDirAt(t, Parent(p)))
  }

  // ------------------------------------------------------------------ bytes under the root

  function Size(n: Node): nat {
    if n.File? then |n.data| else 0
  }

  function SizeAt(t: Tree, p: Path): nat {
    if p in t then Size(t[p]) else 0
  }

  /** The bytes of all regular files. */
  ghost function Total(t: Tree): nat {
    if t == map[] then 0 else
    var p :| p in t;
    Size(t[p]) + Total(t - {p})
  }

  lemma {:induction false} TotalWithout(t: Tree, p: Path)
    ensures Total(t) == SizeAt(t, p) + Total(t - {p})
    decreases |t|
  {
    if p !in t {
      assert t - {p} == t;
    } else {
      var q :| q in t && Total(t) == Size(t[q]) + Total(t - {q});
      if q != p {
        TotalWithout(t - {q}, p);
        TotalWithout(t - {p}, q);
        assert t - {q} - {p} == t - {p} - {q};
      }
    }
  }

  lemma TotalSplit(t: Tree, p: Path)
    requires p in t
    ensures Total(t) == Total(t - {p}) + (if t[p].File? then |t[p].data| else 0)
  {
    TotalWithout(t, p);
  }

  lemma TotalEmpty()
    ensures Total(map[]) == 0
  {}

  /** Putting a node at p replaces what p contributed and nothing else. */
  lemma TotalPut(t: Tree, p: Path, n: Node)
    ensures Total(t[p := n]) == Total(t) - SizeAt(t, p) + Size(n)
  {
    TotalWithout(t, p);
    TotalWithout(t[p := n], p);
    assert t[p := n] - {p} == t - {p};
  }

  // ------------------------------------------------------------------ the steps of Write

  datatype Found = Deny(error: WriteError) | Proceed(overwritten: bool, replaced: nat)

  /** The check of the target. A failing Stat counts as "no such file". */
  function StatSpec(t: Tree, p: Path, overwrite: bool, fails: bool): Found {
    if fails || p !in t then Proceed(false, 0)
    else if t[p].Dir? then Deny(IsDir)
    else if !overwrite then Deny(Exists)
    else Proceed(true, Size(t[p]))
  }

  /** Root.MkdirAll from component i on: directories that exist are stepped over, files are not. */
  function MkdirSpec(t: Tree, dir: Path, i: nat, failAt: Option<nat>): (r: (bool, Tree))
    requires i <= |dir|
    decreases |dir| - i
  {
    if i == |dir| then (true, t)
    else if failAt == Some(i) then (false, t)
    else if dir[..i + 1] in t then
      if t[dir[..i + 1]].Dir? then MkdirSpec(t, dir, i + 1, failAt) else (false, t)
    else if !IsDirAt(t, dir[..i]) then (false, t)
    else MkdirSpec(t[dir[..i + 1] := Dir], dir, i + 1, failAt)
  }

  function Prefix(data: Bytes, n: nat): Bytes {
    if n < |data| then data[..n] else data
  }

  /** The first step after the temporary file exists that fails, with what the file holds then. */
  function FirstFault(t: Tree, p: Path, input: Input, s: Script): Option<(Stage, Node)> {
    if s.chmod then Some((Chmod, File([], OWNER_ONLY)))
    else if s.write.Some? then Some((Write, File(Prefix(input.data, s.write.value), input.mode)))
    else if s.sync then Some((Sync, File(input.data, input.mode)))
    else if s.close then Some((Close, File(input.data, input.mode)))
    else if s.rename || IsDirAt(t, p) then Some((Rename, File(input.data, input.mode)))
    else None
  }

  function TempPath(p: Path, s: Script): Path {
    Parent(p) + [s.tmp]
  }

  function DoWriteSpec(t: Tree, p: Path, input: Input, s: Script, overwritten: bool): (Outcome, Tree) {
    var tmp := TempPath(p, s);
    if s.rand then (Err(Io(TempName)), t)
    else if s.create || tmp in t || !IsDirAt(t, Parent(p)) then (Err(Io(Create)), t)
    else match FirstFault(t, p, input, s)
         case Some((stage, left)) => (Err(Io(stage)), if s.remove then t[tmp := left] else t)
         case None => (Ok(Written(p, |input.data|, overwritten, input.mode)), t[p := File(input.data, input.mode)])
  }

  /** The branch with a total limit: stat, walk, compare, mkdir, write. */
  ghost function QuotaSpec(c: Config, t: Tree, p: Path, input: Input, s: Script): (Outcome, Tree) {
    if s.openRoot then (Err(Io(OpenRoot)), t) else
    match StatSpec(t, p, input.overwrite, s.stat)
    case Deny(e) => (Err(e), t)
    case Proceed(overwritten, replaced) =>
      if s.walk then (Err(Io(Walk)), t)
      else if Total(t) - replaced + |input.data| > c.maxTotal then (Err(QuotaExceeded), t) else
      var (ok, t') := MkdirSpec(t, Parent(p), 0, s.mkdir);
      if !ok then (Err(Io(Mkdir)), t') else DoWriteSpec(t', p, input, s, overwritten)
  }

  /** The branch without one: mkdir, stat, write. */
  function PlainSpec(t: Tree, p: Path, input: Input, s: Script): (Outcome, Tree) {
    if s.openRoot then (Err(Io(OpenRoot)), t) else
    var (ok, t') := MkdirSpec(t, Parent(p), 0, s.mkdir);
    if !ok then (Err(Io(Mkdir)), t') else
    match StatSpec(t', p, input.overwrite, s.stat)
    case Deny(e) => (Err(e), t')
    case Proceed(overwritten, _) => DoWriteSpec(t', p, input, s, overwritten)
  }

  ghost function WriteSpec(c: Config, t: Tree, input: Input, s: Script): (Outcome, Tree) {
    if |input.data| > c.maxFile then (Err(TooLarge), t)
    else if input.rel.NotLocal? then (Err(Traversal), t)
    else if c.maxTotal == 0 then PlainSpec(t, input.rel.comps, input, s)
    else QuotaSpec(c, t, input.rel.comps, input, s)
  }

  // ------------------------------------------------------------------ what a call changes

  /** Everything in a is still there, and everything new is a directory. */
  ghost predicate GrowsByDirs(a: Tree, b: Tree) {
    && (forall p :: p in a ==> p in b && b[p] == a[p])
    && (forall p :: p in b && p !in a ==> b[p].Dir?)
  }

  ghost predicate IsPrefix(a: Path, b: Path) {
    |a| <= |b| && a == b[..|a|]
  }

  lemma {:induction false} MkdirEffect(t: Tree, dir: Path, i: nat, failAt: Option<nat>)
    requires i <= |dir| && WellFormed(t)
    ensures var (ok, t') := MkdirSpec(t, dir, i, failAt);
            && WellFormed(t') && GrowsByDirs(t, t')
            && (forall p :: p in t' && p !in t ==> IsPrefix(p, dir))
            && (ok && IsDirAt(t, dir[..i]) ==> IsDirAt(t', dir))
    decreases |dir| - i
  {
    if i == |dir| {
      assert dir[..i] == dir;
    } else if failAt != Some(i) {
      var a := dir[..i + 1];
      assert Parent(a) == dir[..i];
      if IsDirAt(t, a) {
        MkdirEffect(t, dir, i + 1, failAt);
      } else if a !in t && IsDirAt(t, dir[..i]) {
        MkdirEffect(t[a := Dir], dir, i + 1, failAt);
      }
    }
  }

  /** An existing path has all its ancestors, so making them changes nothing and only an outright
      failure can stop it. */
  lemma {:induction false} MkdirNothingToDo(t: Tree, dir: Path, i: nat, failAt: Option<nat>)
    requires i <= |dir| && WellFormed(t) && IsDirAt(t, dir)
    ensures MkdirSpec(t, dir, i, failAt) == (failAt.None? || !(i <= failAt.value < |dir|), t)
    decreases |dir| - i
  {
    hide WellFormed;
    if i < |dir| {
      AncestorIsDir(t, dir, i + 1);
      MkdirNothingToDo(t, dir, i + 1, failAt);
    }
  }

  lemma {:induction false} AncestorIsDir(t: Tree, p: Path, i: nat)
    requires WellFormed(t) && IsDirAt(t, p) && i <= |p|
    ensures IsDirAt(t, p[..i])
    decreases |p| - i
  {
    if i < |p| {
      AncestorIsDir(t, p, i + 1);
      assert Parent(p[..i + 1]) == p[..i];
    } else {
      assert p[..i] == p;
    }
  }

  predicate IsDeny(e: WriteError) {
    !e.Io?
  }

  /** On an error every file is as it was and nothing is new but directories above the target and,
      if its removal failed, the temporary file; after a denial nothing is new at all. */
  ghost predicate FailureEffect(t: Tree, p: Path, s: Script, e: WriteError, t': Tree) {
    && (forall q :: q in t ==> q in t' && t'[q] == t[q])
    && (forall q :: q in t' && q !in t ==>
          (t'[q].Dir? && IsPrefix(q, Parent(p))) || (s.remove && q == TempPath(p, s)))
    && (IsDeny(e) ==> t' == t)
  }

  /** On success the target holds all of the data with the mode, nothing else is changed, and
      nothing else is new but directories above the target. */
  ghost predicate SuccessEffect(t: Tree, p: Path, input: Input, w: Written, t': Tree) {
    && p in t' && t'[p] == File(input.data, input.mode)
    && (forall q :: q in t && q != p ==> q in t' && t'[q] == t[q])
    && (forall q :: q in t' && q !in t && q != p ==> t'[q].Dir? && IsPrefix(q, Parent(p)))
    && (p in t ==> t[p].File?)
    && w.path == p && w.size == |input.data| && w.mode == input.mode
  }

  /** Directories made on the way to p do not include p. */
  ghost predicate MadeFor(p: Path, t: Tree, t1: Tree) {
    WellFormed(t1) && GrowsByDirs(t, t1) && forall q :: q in t1 && q !in t ==> IsPrefix(q, Parent(p)) && q != p
  }

  lemma MkdirMakes(t: Tree, p: Path, failAt: Option<nat>)
    requires WellFormed(t)
    ensures MadeFor(p, t, MkdirSpec(t, Parent(p), 0, failAt).1)
    ensures p in t ==> MkdirSpec(t, Parent(p), 0, failAt) == (failAt.None? || failAt.value >= |Parent(p)|, t)
  {
    MkdirEffect(t, Parent(p), 0, failAt);
    if p in t {
      MkdirNothingToDo(t, Parent(p), 0, failAt);
    }
  }

  lemma PutKeepsShape(t: Tree, q: Path, f: Node)
    requires WellFormed(t) && f.File? && IsDirAt(t, Parent(q)) && !IsDirAt(t, q)
    ensures WellFormed(t[q := f])
  {}

  /** A failure before there is a temporary file, or after its removal. */
  lemma NothingLeftEffect(t: Tree, t1: Tree, p: Path, s: Script, stage: Stage)
    requires MadeFor(p, t, t1)
    ensures FailureEffect(t, p, s, Io(stage), t1)
  {
    hide WellFormed, IsPrefix;
  }

  /** A failure that leaves the temporary file. */
  lemma TempLeftEffect(t: Tree, t1: Tree, p: Path, s: Script, stage: Stage, left: Node)
    requires MadeFor(p, t, t1) && s.remove && left.File?
    requires TempPath(p, s) !in t1 && IsDirAt(t1, Parent(p))
    ensures WellFormed(t1[TempPath(p, s) := left]) && FailureEffect(t, p, s, Io(stage), t1[TempPath(p, s) := left])
  {
    assert Parent(TempPath(p, s)) == Parent(p);
    PutKeepsShape(t1, TempPath(p, s), left);
    hide WellFormed, IsPrefix, TempPath;
  }

  lemma CommitEffect(t: Tree, t1: Tree, p: Path, input: Input, overwritten: bool)
    requires MadeFor(p, t, t1) && IsDirAt(t1, Parent(p)) && !IsDirAt(t1, p)
    ensures var t' := t1[p := File(input.data, input.mode)];
            WellFormed(t') && SuccessEffect(t, p, input, Written(p, |input.data|, overwritten, input.mode), t')
  {
    PutKeepsShape(t1, p, File(input.data, input.mode));
    hide WellFormed, IsPrefix;
  }

  lemma DoWriteEffect(t: Tree, t1: Tree, p: Path, input: Input, s: Script, overwritten: bool)
    requires WellFormed(t) && MadeFor(p, t, t1)
    ensures var (r, t') := DoWriteSpec(t1, p, input, s, overwritten);
            && WellFormed(t')
            && (r.Err? ==> FailureEffect(t, p, s, r.error, t') && !IsDeny(r.error))
            && (r.Ok? ==> SuccessEffect(t, p, input, r.value, t') && r.value.overwritten == overwritten)
  {
    assert WellFormed(t1);
    hide WellFormed, MadeFor, FailureEffect, SuccessEffect, TempPath, FirstFault;
    if s.rand {
      NothingLeftEffect(t, t1, p, s, TempName);
    } else if s.create || TempPath(p, s) in t1 || !IsDirAt(t1, Parent(p)) {
      NothingLeftEffect(t, t1, p, s, Create);
    } else {
      FaultLeaves(t1, p, input, s);
      match FirstFault(t1, p, input, s) {
        case Some((stage, left)) =>
          if s.remove {
            TempLeftEffect(t, t1, p, s, stage, left);
          } else {
            NothingLeftEffect(t, t1, p, s, stage);
          }
        case None => CommitEffect(t, t1, p, input, overwritten);
      }
    }
  }

  lemma FaultLeaves(t: Tree, p: Path, input: Input, s: Script)
    ensures FirstFault(t, p, input, s).Some? ==> FirstFault(t, p, input, s).value.1.File?
    ensures FirstFault(t, p, input, s).None? ==> !IsDirAt(t, p)
  {}

  lemma PlainEffect(t: Tree, p: Path, input: Input, s: Script)
    requires WellFormed(t)
    ensures var (r, t') := PlainSpec(t, p, input, s);
            && WellFormed(t')
            && (r.Err? ==> FailureEffect(t, p, s, r.error, t'))
            && (r.Ok? ==> SuccessEffect(t, p, input, r.value, t'))
            && (r.Ok? ==> (r.value.overwritten <==> p in t && !s.stat) && (p in t && !s.stat ==> input.overwrite))
  {
    hide MkdirSpec, DoWriteSpec;
    var t1 := MkdirSpec(t, Parent(p), 0, s.mkdir).1;
    MkdirMakes(t, p, s.mkdir);
    DoWriteEffect(t, t1, p, input, s, true);
    DoWriteEffect(t, t1, p, input, s, false);
  }

  lemma QuotaEffect(c: Config, t: Tree, p: Path, input: Input, s: Script)
    requires WellFormed(t)
    ensures var (r, t') := QuotaSpec(c, t, p, input, s);
            && WellFormed(t')
            && (r.Err? ==> FailureEffect(t, p, s, r.error, t'))
            && (r.Ok? ==> SuccessEffect(t, p, input, r.value, t'))
            && (r.Ok? ==> (r.value.overwritten <==> p in t && !s.stat) && (p in t && !s.stat ==> input.overwrite))
  {
    hide MkdirSpec, DoWriteSpec, Total;
    var t1 := MkdirSpec(t, Parent(p), 0, s.mkdir).1;
    MkdirMakes(t, p, s.mkdir);
    DoWriteEffect(t, t1, p, input, s, true);
    DoWriteEffect(t, t1, p, input, s, false);
  }

  /** Every call of Write, in both branches and under every failure: a denial leaves no trace, a
      failure changes no file, a success changes exactly the target and says what it did. */
  lemma WriteEffect(c: Config, t: Tree, input: Input, s: Script)
    requires WellFormed(t)
    ensures var (r, t') := WriteSpec(c, t, input, s);
            && WellFormed(t')
            && (input.rel.NotLocal? ==> r.Err? && IsDeny(r.error) && t' == t)
            && (input.rel.Local? && r.Err? ==> FailureEffect(t, input.rel.comps, s, r.error, t'))
            && (input.rel.Local? && r.Ok? ==> SuccessEffect(t, input.rel.comps, input, r.value, t'))
            && (input.rel.Local? && r.Ok? ==>
                  && (r.value.overwritten <==> input.rel.comps in t && !s.stat)
                  && (input.rel.comps in t && !s.stat ==> input.overwrite))
  {
    hide PlainSpec, QuotaSpec;
    if input.rel.Local? {
      PlainEffect(t, input.rel.comps, input, s);
      QuotaEffect(c, t, input.rel.comps, input, s);
    }
  }

  // ------------------------------------------------------------------ the two branches

  /** What decides whether a limit changes anything: a binding limit, a failed walk, or a denial
      that the other branch never reaches because making directories failed first. */
  ghost predicate SameBehaviour(c: Config, t: Tree, input: Input, s: Script) {
    || |input.data| > c.maxFile || input.rel.NotLocal? || s.openRoot
    || (var p := input.rel.comps;
        match StatSpec(t, p, input.overwrite, s.stat)
        case Deny(_) => s.mkdir.None? || s.mkdir.value >= |Parent(p)|
        case Proceed(_, replaced) => !s.walk && Total(t) - replaced + |input.data| <= c.maxTotal)
  }

  /** Statting before or after making the directories comes to the same: the branch with a limit
      returns and leaves exactly what the branch without one does, if and only if the limit does
      not bind, the walk succeeds, and no directory failure hides a denial. */
  lemma BranchesAgreeIff(c: Config, t: Tree, input: Input, s: Script)
    requires WellFormed(t) && c.maxTotal > 0
    ensures WriteSpec(c, t, input, s) == WriteSpec(c.(maxTotal := 0), t, input, s) <==> SameBehaviour(c, t, input, s)
  {
    hide MkdirSpec, DoWriteSpec, Total;
    if input.rel.Local? {
      var p := input.rel.comps;
      MkdirMakes(t, p, s.mkdir);
      DoWriteStages(MkdirSpec(t, Parent(p), 0, s.mkdir).1, p, input, s);
    }
  }

  lemma DoWriteStages(t: Tree, p: Path, input: Input, s: Script)
    ensures forall b :: var r := DoWriteSpec(t, p, input, s, b).0;
              r.Err? ==> r.error.Io? && !r.error.stage.Walk? && !r.error.stage.Mkdir?
  {}
}
