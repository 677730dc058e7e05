/** The directory that holds keys.db, seen through the system calls the store makes, and the
    atomic replacement protocol of writeDB.

    A file remembers whether its bytes have been synced, and the directory remembers every file
    the path may still name after a power loss. `moments` lists the directory as it was after every
    call, in order, so that a crash during an operation finds one of those it added. */
module KeyDisk {

  import opened Wrappers
  import opened KeyDb

  datatype File = File(data: Bytes, mode: nat, synced: bool)

  type Entries = map<string, File>

  /** What a crash leaves: `entries` when only the process dies, and one of `survivors` under the
      path when the power goes. */
  datatype Snapshot = Snapshot(entries: Entries, survivors: set<Option<File>>)

  function At(entries: Entries, path: string): Option<File> {
    if path in entries then Some(entries[path]) else None
  }

  function Content(f: Option<File>): Option<Bytes> {
    if f.None? then None else Some(f.value.data)
  }

  /** The bytes the path may show after a power loss; the bytes of an unsynced file can be
      anything. */
  ghost predicate MayShow(s: Snapshot, content: Option<Bytes>) {
    exists f :: f in s.survivors && (if f.Some? && !f.value.synced then content.Some? else content == Content(f))
  }

  /** The seven calls of writeDB that can fail before the rename has taken effect. */
  datatype WriteStep = Marshal | CreateTemp | Chmod | Write | Sync | Close | Rename

  /** What the environment decides about one writeDB: the step that fails, if any, how much a
      failing write got out, whether the cleanup and the final directory sync fail, and the mode
      the umask leaves a new file. */
  datatype Faults = Faults(at: Option<WriteStep>, written: nat, remove: bool, syncDir: bool, umasked: nat)

  const OWNER_ONLY: nat := 0x180 // 0600

  /** The database file a completed writeDB leaves. */
  function Written(data: Bytes): File {
    File(data, OWNER_ONLY, true)
  }

  /** One moment of replacing the file at path by f through the temporary name tmp: path is bound
      to the old file or to all of f, nothing but path and tmp is touched, and a power loss can
      show nothing new but all of f. */
  ghost predicate Replacing(before: Snapshot, path: string, tmp: string, f: File, s: Snapshot) {
    && (At(s.entries, path) == At(before.entries, path) || At(s.entries, path) == Some(f))
    && (forall n :: n != path && n != tmp ==> At(s.entries, n) == At(before.entries, n))
    && s.survivors <= before.survivors + {Some(f)}
  }

  /** Nothing but the temporary name differs. */
  ghost predicate OnlyTemp(before: Snapshot, tmp: string, s: Snapshot) {
    && (forall n :: n != tmp ==> At(s.entries, n) == At(before.entries, n))
    && s.survivors == before.survivors
  }

  /** The temporary file never holds anything under a mode wider than 0600. */
  ghost predicate Private(s: Snapshot, tmp: string) {
    tmp in s.entries && s.entries[tmp].data != [] ==> s.entries[tmp].mode == 0x180
  }

  class Disk {
    const path: string
    var entries: Entries
    var survivors: set<Option<File>>
    ghost var moments: seq<Snapshot>

    ghost function Now(): Snapshot
      reads this
    {
      Snapshot(entries, survivors)
    }

    ghost predicate Valid()
      reads this
    {
      At(entries, path) in survivors && moments != [] && moments[|moments| - 1] == Now()
    }

    constructor (path: string)
      ensures Valid() && this.path == path && Now() == Snapshot(map[], {None})
    {
      this.path := path;
      entries, survivors := map[], {None};
      moments := [Snapshot(map[], {None})];
    }

    /** Ends a system call: the directory as it is now becomes a moment of the history. */
    ghost method Tick()
      modifies this`moments
      ensures moments == old(moments) + [Now()]
    {
      moments := moments + [Now()];
    }

    method ReadFile() returns (content: Option<Bytes>)
      ensures content == Content(At(entries, path))
    {
      content := if path in entries then Some(entries[path].data) else None;
    }

    /** open(O_RDWR|O_CREATE): an absent file comes into being empty. */
    method OpenOrCreate()
      requires Valid()
      modifies this
      ensures Valid() && moments == old(moments) + [Now()]
      ensures path in old(entries) ==> entries == old(entries) && survivors == old(survivors)
      ensures path !in old(entries) ==>
                entries == old(entries)[path := Written([])] && survivors == old(survivors) + {Some(Written([]))}
    {
      if path !in entries {
        entries := entries[path := Written([])];
        survivors := survivors + {Some(entries[path])};
      }
      Tick();
    }

    method CreateTemp(tmp: string, mode: nat, fails: bool) returns (ok: bool)
      requires Valid() && tmp != path && tmp !in entries
      modifies this
      ensures Valid() && moments == old(moments) + [Now()] && OnlyTemp(old(Now()), tmp, Now())
      ensures ok == !fails
      ensures At(entries, tmp) == if ok then Some(File([], mode, false)) else None
    {
      ok := !fails;
      if ok {
        entries := entries[tmp := File([], mode, false)];
      }
      Tick();
    }

    method Chmod(tmp: string, mode: nat, fails: bool) returns (ok: bool)
      requires Valid() && tmp != path && tmp in entries
      modifies this
      ensures Valid() && moments == old(moments) + [Now()] && OnlyTemp(old(Now()), tmp, Now())
      ensures ok == !fails
      ensures At(entries, tmp) == Some(if ok then old(entries)[tmp].(mode := mode) else old(entries)[tmp])
    {
      ok := !fails;
      if ok {
        entries := entries[tmp := entries[tmp].(mode := mode)];
      }
      Tick();
    }

    /** write(2) on a fresh file; a failing write may have got any prefix of the data out. */
    method Write(tmp: string, data: Bytes, fails: bool, got: nat) returns (ok: bool)
      requires Valid() && tmp != path && tmp in entries && entries[tmp].data == []
      modifies this
      ensures Valid() && moments == old(moments) + [Now()] && OnlyTemp(old(Now()), tmp, Now())
      ensures ok == !fails && tmp in entries
      ensures ok ==> entries[tmp] == File(data, old(entries)[tmp].mode, false)
      ensures entries[tmp].mode == old(entries)[tmp].mode
    {
      ok := !fails;
      var out := if ok || got > |data| then data else data[..got];
      entries := entries[tmp := entries[tmp].(data := out, synced := false)];
      Tick();
    }

    method Sync(tmp: string, fails: bool) returns (ok: bool)
      requires Valid() && tmp != path && tmp in entries
      modifies this
      ensures Valid() && moments == old(moments) + [Now()] && OnlyTemp(old(Now()), tmp, Now())
      ensures ok == !fails
      ensures At(entries, tmp) == Some(if ok then old(entries)[tmp].(synced := true) else old(entries)[tmp])
    {
      ok := !fails;
      if ok {
        entries := entries[tmp := entries[tmp].(synced := true)];
      }
      Tick();
    }

    /** rename(tmp, path): a single step for every reader, which a power loss may still undo until
        the directory is synced. */
    method Rename(tmp: string, fails: bool) returns (ok: bool)
      requires Valid() && tmp != path && tmp in entries
      modifies this
      ensures Valid() && moments == old(moments) + [Now()]
      ensures ok == !fails
      ensures ok ==> entries == old(entries)[path := old(entries)[tmp]] - {tmp}
      ensures ok ==> survivors == old(survivors) + {Some(old(entries)[tmp])}
      ensures !ok ==> entries == old(entries) && survivors == old(survivors)
    {
      ok := !fails;
      if ok {
        var f := entries[tmp];
        entries := entries[path := f] - {tmp};
        survivors := survivors + {Some(f)};
      }
      Tick();
    }

    method Remove(tmp: string, fails: bool)
      requires Valid() && tmp != path
      modifies this
      ensures Valid() && moments == old(moments) + [Now()] && OnlyTemp(old(Now()), tmp, Now())
      ensures At(entries, tmp) == if fails then old(At(entries, tmp)) else None
    {
      if !fails {
        entries := entries - {tmp};
      }
      Tick();
    }

    method SyncDir(fails: bool)
      requires Valid()
      modifies this
      ensures Valid() && moments == old(moments) + [Now()] && entries == old(entries)
      ensures survivors == if fails then old(survivors) else {At(entries, path)}
    {
      if !fails {
        survivors := {if path in entries then Some(entries[path]) else None};
      }
      Tick();
    }

    /** The steps of writeDB on the open temporary file, up to the first that fails. */
    method FillTemp(data: Bytes, tmp: string, faults: Faults) returns (ok: bool)
      requires Valid() && tmp != path && tmp in entries && entries[tmp].data == []
      modifies this
      ensures Valid() && OnlyTemp(old(Now()), tmp, Now())
      ensures ok <==> faults.at.None? || faults.at.value.Marshal? || faults.at.value.CreateTemp? || faults.at.value.Rename?
      ensures ok ==> At(entries, tmp) == Some(Written(data))
      ensures old(moments) <= moments && forall i :: |old(moments)| <= i < |moments| ==> OnlyTemp(old(Now()), tmp, moments[i])
      ensures forall i :: |old(moments)| <= i < |moments| ==> Private(moments[i], tmp)
    {
      ok := Chmod(tmp, OWNER_ONLY, faults.at == Some(WriteStep.Chmod));
      if !ok { return; }
      ok := Write(tmp, data, faults.at == Some(WriteStep.Write), faults.written);
      if !ok { return; }
      ok := Sync(tmp, faults.at == Some(WriteStep.Sync));
      if !ok { return; }
      return faults.at != Some(WriteStep.Close);
    }

    /** writeDB up to the rename: on success the temporary file holds all of the data, synced. The
        original repeats the removal after each step that can fail. */
    method WriteTemp(data: Bytes, tmp: string, faults: Faults) returns (ok: bool)
      requires Valid() && tmp != path && tmp !in entries
      modifies this
      ensures Valid() && OnlyTemp(old(Now()), tmp, Now())
      ensures ok <==> faults.at.None? || faults.at == Some(WriteStep.Rename)
      ensures ok ==> At(entries, tmp) == Some(Written(data))
      ensures !ok && tmp in entries ==> faults.remove
      ensures old(moments) <= moments && forall i :: |old(moments)| <= i < |moments| ==> OnlyTemp(old(Now()), tmp, moments[i])
      ensures forall i :: |old(moments)| <= i < |moments| ==> Private(moments[i], tmp)
    {
      if faults.at == Some(WriteStep.Marshal) {
        return false;
      }
      ok := CreateTemp(tmp, faults.umasked, faults.at == Some(WriteStep.CreateTemp));
      if !ok {
        return;
      }
      ok := FillTemp(data, tmp, faults);
      if !ok {
        Remove(tmp, faults.remove);
      }
    }

    /** writeDB, with the failures of this call given by `faults`. */
    method WriteDB(data: Bytes, tmp: string, faults: Faults) returns (ok: bool)
      requires Valid() && tmp != path && tmp !in entries
      modifies this
      ensures Valid()
      ensures ok <==> faults.at.None?
      ensures ok ==> At(entries, path) == Some(Written(data)) && forall n :: n != path ==> At(entries, n) == old(At(entries, n))
      ensures ok ==> At(entries, path) == Some(File(data, 0x180, true))
      ensures ok ==> survivors == if faults.syncDir then old(survivors) + {Some(Written(data))} else {Some(Written(data))}
      ensures !ok ==> OnlyTemp(old(Now()), tmp, Now())
      ensures !ok ==> forall i :: |old(moments)| <= i < |moments| ==> OnlyTemp(old(Now()), tmp, moments[i])
      ensures tmp in entries ==> !ok && faults.remove
      ensures old(moments) <= moments
      ensures forall i :: |old(moments)| <= i < |moments| ==> Replacing(old(Now()), path, tmp, Written(data), moments[i])
      ensures forall i :: |old(moments)| <= i < |moments| ==> Private(moments[i], tmp)
    {
      ok := WriteTemp(data, tmp, faults);
      if !ok {
        return;
      }
      ok := Rename(tmp, faults.at == Some(WriteStep.Rename));
      if !ok {
        Remove(tmp, faults.remove);
        return;
      }
      SyncDir(faults.syncDir);
    }
  }

  // ------------------------------------------------------------------ crashes

  /** Everything the path can decode to at this moment: read by a process that starts after the
      writer died, or after the power went. */
  ghost predicate MayDecode(lib: Lib, path: string, s: Snapshot, db: Result<Database, StoreError>) {
    || db == Decode(lib, Content(At(s.entries, path)))
    || exists content :: MayShow(s, content) && db == Decode(lib, content)
  }

  /** Death or power loss at any moment of a replacement shows all of the new database or
      something that could be seen before it started: never a mixture, never a prefix. */
  lemma CrashShowsOldOrNew(lib: Lib, before: Snapshot, path: string, tmp: string, db: Database, s: Snapshot,
                           seen: Result<Database, StoreError>)
    requires FaithfulJson(lib) && Replacing(before, path, tmp, Written(lib.marshal(db)), s)
    requires MayDecode(lib, path, s, seen)
    ensures seen == Ok(db) || MayDecode(lib, path, before, seen)
  {
    var f := Written(lib.marshal(db));
    assert Decode(lib, Some(f.data)) == Ok(db);
    if content :| MayShow(s, content) && seen == Decode(lib, content) {
      var g :| g in s.survivors && (if g.Some? && !g.value.synced then content.Some? else content == Content(g));
      if g != Some(f) {
        assert MayShow(before, content);
      }
    }
  }

  /** Every database that can be read at s can be read at `before`, or is this one. */
  ghost predicate ShowsOldOr(lib: Lib, path: string, before: Snapshot, s: Snapshot, db: Result<Database, StoreError>) {
    forall seen :: MayDecode(lib, path, s, seen) ==> seen == db || MayDecode(lib, path, before, seen)
  }

  /** A whole replacement shows the old or the new database at every moment. */
  lemma ReplacingShows(lib: Lib, before: Snapshot, path: string, tmp: string, db: Database, s: Snapshot)
    requires FaithfulJson(lib) && Replacing(before, path, tmp, Written(lib.marshal(db)), s)
    ensures ShowsOldOr(lib, path, before, s, Ok(db))
  {
    forall seen | MayDecode(lib, path, s, seen) ensures seen == Ok(db) || MayDecode(lib, path, before, seen) {
      CrashShowsOldOrNew(lib, before, path, tmp, db, s, seen);
    }
  }

  /** A temporary file shows nothing. */
  lemma TempShows(lib: Lib, before: Snapshot, path: string, tmp: string, s: Snapshot, db: Result<Database, StoreError>)
    requires OnlyTemp(before, tmp, s) && tmp != path
    ensures ShowsOldOr(lib, path, before, s, db)
  {
    assert At(s.entries, path) == At(before.entries, path);
    forall content | MayShow(s, content) ensures MayShow(before, content) {}
  }

  /** Neither does the empty file that taking the exclusive lock creates. */
  lemma EmptyFileShows(lib: Lib, before: Snapshot, path: string, s: Snapshot, db: Result<Database, StoreError>)
    requires path !in before.entries
    requires s == Snapshot(before.entries[path := Written([])], before.survivors + {Some(Written([]))})
    ensures ShowsOldOr(lib, path, before, s, db)
  {
    AbsentIsEmpty(lib);
    forall seen | MayDecode(lib, path, s, seen) ensures MayDecode(lib, path, before, seen) {
      if content :| MayShow(s, content) && seen == Decode(lib, content) {
        var g :| g in s.survivors && (if g.Some? && !g.value.synced then content.Some? else content == Content(g));
        if g != Some(Written([])) {
          assert MayShow(before, content);
        }
      }
    }
  }

  /** A missing file and an empty one are the same store. */
  lemma AbsentIsEmpty(lib: Lib)
    ensures Decode(lib, None) == Decode(lib, Some([])) == Ok(EMPTY_DB)
  {}
}
