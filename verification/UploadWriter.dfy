/** The upload writer as internal/fileupload writes it: calls on an opened root that change the
    tree step by step, a deferred cleanup, one mutex per root. */
module UploadWriter {

  import opened Wrappers
  import opened UploadSpec

  /** os.Root: the tree under the upload root. Each call can fail. */
  class Root {
    var tree: Tree

    constructor (tree: Tree)
      ensures this.tree == tree
    {
      this.tree := tree;
    }

    method Stat(p: Path, fails: bool) returns (r: Option<Node>)
      ensures r == if !fails && p in tree then Some(tree[p]) else None
    {
      r := if !fails && p in tree then Some(tree[p]) else None;
    }

    method MkdirAll(dir: Path, failAt: Option<nat>) returns (ok: bool)
      modifies this
      ensures (ok, tree) == MkdirSpec(old(tree), dir, 0, failAt)
    {
      for i := 0 to |dir|
        invariant MkdirSpec(old(tree), dir, 0, failAt) == MkdirSpec(tree, dir, i, failAt)
      {
        var a := dir[..i + 1];
        if failAt == Some(i) {
          return false;
        }
        if a in tree {
          if tree[a].File? {
            return false;
          }
        } else if IsDirAt(tree, dir[..i]) {
          tree := tree[a := Dir];
        } else {
          return false;
        }
      }
      return true;
    }

    /** OpenFile with O_CREATE|O_EXCL. */
    method CreateExclusive(p: Path, fails: bool) returns (ok: bool)
      requires p != []
      modifies this
      ensures ok == (!fails && p !in old(tree) && IsDirAt(old(tree), Parent(p)))
      ensures tree == if ok then old(tree)[p := File([], OWNER_ONLY)] else old(tree)
    {
      ok := !fails && p !in tree && IsDirAt(tree, Parent(p));
      if ok {
        tree := tree[p := File([], OWNER_ONLY)];
      }
    }

    method Chmod(p: Path, mode: nat, fails: bool) returns (ok: bool)
      requires p in tree && tree[p].File?
      modifies this
      ensures ok == !fails
      ensures tree == if ok then old(tree)[p := File(old(tree)[p].data, mode)] else old(tree)
    {
      ok := !fails;
      if ok {
        tree := tree[p := tree[p].(mode := mode)];
      }
    }

    /** A failing write may leave a prefix behind. */
    method WriteData(p: Path, data: Bytes, failAfter: Option<nat>) returns (ok: bool)
      requires p in tree && tree[p].File? && tree[p].data == []
      modifies this
      ensures ok == failAfter.None?
      ensures tree == old(tree)[p := File(if ok then data else Prefix(data, failAfter.value), old(tree)[p].mode)]
    {
      ok := failAfter.None?;
      var out := data;
      if failAfter.Some? && failAfter.value < |data| {
        out := data[..failAfter.value];
      }
      tree := tree[p := tree[p].(data := out)];
    }

    method Rename(from: Path, to: Path, fails: bool) returns (ok: bool)
      requires from in tree && tree[from].File?
      modifies this
      ensures ok == (!fails && !IsDirAt(old(tree), to))
      ensures tree == if ok then (old(tree) - {from})[to := old(tree)[from]] else old(tree)
    {
      ok := !fails && !IsDirAt(tree, to);
      if ok {
        tree := (tree - {from})[to := tree[from]];
      }
    }

    method Remove(p: Path, fails: bool)
      modifies this
      ensures tree == if fails then old(tree) else old(tree) - {p}
    {
      if !fails {
        tree := tree - {p};
      }
    }
  }

  class Mutex {
    var held: bool

    constructor ()
      ensures !held
    {
      held := false;
    }

    method Lock()
      requires !held
      modifies this
      ensures held
    {
      held := true;
    }

    method Unlock()
      requires held
      modifies this
      ensures !held
    {
      held := false;
    }
  }

  /** The package: its registry of mutexes and its writers. */
  class FileUpload {
    var rootLocks: map<string, Mutex>

    /** Different roots never share a mutex, and none is held between calls. */
    ghost predicate Valid()
      reads this, rootLocks.Values
    {
      && (forall a, b :: a in rootLocks && b in rootLocks && rootLocks[a] == rootLocks[b] ==> a == b)
      && (forall a :: a in rootLocks ==> !rootLocks[a].held)
    }

    constructor ()
      ensures Valid() && rootLocks == map[]
    {
      rootLocks := map[];
    }

    /** LoadOrStore: every caller for a root gets the one mutex that was stored first. */
    method RootMutex(absRoot: string) returns (mu: Mutex)
      requires Valid()
      modifies this
      ensures Valid() && mu in rootLocks.Values && !mu.held
      ensures rootLocks == old(rootLocks)[absRoot := mu]
      ensures if absRoot in old(rootLocks) then mu == old(rootLocks)[absRoot] else fresh(mu)
    {
      mu := new Mutex();
      if absRoot in rootLocks {
        mu := rootLocks[absRoot];
      } else {
        rootLocks := rootLocks[absRoot := mu];
      }
      assert absRoot in rootLocks && rootLocks[absRoot] == mu;
    }

    /** The walk over all entries, in an unspecified order, adding up regular files. */
    method CurrentBytes(root: Root, fails: bool) returns (r: Result<int, WriteError>)
      requires [] in root.tree
      ensures r == if fails then Err(Io(Walk)) else Ok(Total(root.tree))
    {
      hide Total;
      var total := 0;
      var rest := root.tree;
      while rest != map[]
        invariant total + Total(rest) == Total(root.tree)
        invariant fails ==> [] in rest
        decreases |rest|
      {
        if fails {
          return Err(Io(Walk));
        }
        var p :| p in rest;
        TotalSplit(rest, p);
        if rest[p].File? {
          total := total + |rest[p].data|;
        }
        rest := rest - {p};
      }
      TotalEmpty();
      return Ok(total);
    }

    /** doWrite: temporary file, chmod, write, sync, close, rename; anything that goes wrong after
        the temporary file exists removes it again. */
    method DoWrite(root: Root, p: Path, input: Input, overwritten: bool, s: Script) returns (r: Outcome)
      modifies root
      ensures (r, root.tree) == DoWriteSpec(old(root.tree), p, input, s, overwritten)
    {
      if s.rand {
        return Err(Io(TempName));
      }
      var tmp := Parent(p) + [s.tmp];
      assert Parent(tmp) == Parent(p);
      ghost var before := root.tree;
      var ok := root.CreateExclusive(tmp, s.create);
      if !ok {
        return Err(Io(Create));
      }
      var committed := false;
      r := Err(Io(Rename));
      label Attempt: {
        ok := root.Chmod(tmp, input.mode, s.chmod);
        if !ok {
          r := Err(Io(Chmod));
          break Attempt;
        }
        ok := root.WriteData(tmp, input.data, s.write);
        if !ok {
          r := Err(Io(Stage.Write));
          break Attempt;
        }
        if s.sync {
          r := Err(Io(Sync));
          break Attempt;
        }
        if s.close {
          r := Err(Io(Close));
          break Attempt;
        }
        ok := root.Rename(tmp, p, s.rename);
        if !ok {
          break Attempt;
        }
        assert root.tree == before[p := File(input.data, input.mode)];
        committed := true;
      }
      if !committed {
        assert tmp in root.tree && root.tree == before[tmp := root.tree[tmp]];
        assert root.tree - {tmp} == before;
        root.Remove(tmp, s.remove);
        return;
      }
      return Ok(Written(p, |input.data|, overwritten, input.mode));
    }

    method WriteWithQuota(c: Config, root: Root, p: Path, input: Input, s: Script) returns (r: Outcome)
      requires [] in root.tree
      modifies root
      ensures (r, root.tree) == QuotaSpec(c, old(root.tree), p, input, s)
    {
      if s.openRoot {
        return Err(Io(OpenRoot));
      }
      var overwritten, replaced := false, 0;
      var fi := root.Stat(p, s.stat);
      if fi.Some? {
        if fi.value.Dir? {
          return Err(IsDir);
        }
        if !input.overwrite {
          return Err(Exists);
        }
        replaced := |fi.value.data|;
        overwritten := true;
      }
      var current := CurrentBytes(root, s.walk);
      if current.Err? {
        return Err(current.error);
      }
      if current.value - replaced + |input.data| > c.maxTotal {
        return Err(QuotaExceeded);
      }
      var ok := root.MkdirAll(Parent(p), s.mkdir);
      if !ok {
        return Err(Io(Mkdir));
      }
      r := DoWrite(root, p, input, overwritten, s);
    }

    method WriteUnderRoot(root: Root, p: Path, input: Input, s: Script) returns (r: Outcome)
      modifies root
      ensures (r, root.tree) == PlainSpec(old(root.tree), p, input, s)
    {
      if s.openRoot {
        return Err(Io(OpenRoot));
      }
      var ok := root.MkdirAll(Parent(p), s.mkdir);
      if !ok {
        return Err(Io(Mkdir));
      }
      var overwritten := false;
      var fi := root.Stat(p, s.stat);
      if fi.Some? {
        if fi.value.Dir? {
          return Err(IsDir);
        }
        if !input.overwrite {
          return Err(Exists);
        }
        overwritten := true;
      }
      r := DoWrite(root, p, input, overwritten, s);
    }

    /** Write, for the root kept at absRoot; with a total limit the root's mutex is held from before
        the root is opened until the outcome is fixed, and released on every path. */
    method Write(c: Config, absRoot: string, root: Root, input: Input, s: Script) returns (r: Outcome)
      requires Valid() && [] in root.tree
      modifies this, root, rootLocks.Values
      ensures Valid()
      ensures (r, root.tree) == WriteSpec(c, old(root.tree), input, s)
    {
      if |input.data| > c.maxFile {
        return Err(TooLarge);
      }
      if input.rel.NotLocal? {
        return Err(Traversal);
      }
      if c.maxTotal == 0 {
        r := WriteUnderRoot(root, input.rel.comps, input, s);
        return;
      }
      var mu := RootMutex(absRoot);
      mu.Lock();
      r := WriteWithQuota(c, root, input.rel.comps, input, s);
      mu.Unlock();
    }
  }
}
