/** The key store object of internal/keystore/keystore.go: read-modify-write of the database under
    an advisory lock, and last-used times buffered in memory between flushes.

    Random values, the clock and failures are parameters of the calls. Another process never holds
    the lock in a conflicting mode, as lock.go promises; KeyLock shows where that promise ends. */
module KeyStore {

  import opened Wrappers
  import opened KeyDb
  import opened KeyDisk

  datatype Lock = Unlocked | Shared | Exclusive

  /** What acquireLock meets. */
  datatype LockFault = NoFault | OpenFails | FlockFails

  /** What the environment decides about one operation on the file. */
  datatype Env = Env(lock: LockFault, read: bool, tmp: string, write: Faults)

  /** Nothing fails before the write. */
  predicate Reads(env: Env) {
    env.lock.NoFault? && !env.read
  }

  predicate Writes(env: Env) {
    Reads(env) && env.write.at.None?
  }

  class Store {
    const lib: Lib
    const disk: Disk
    var lock: Lock
    var usageBuf: map<string, Time>

    ghost predicate Valid()
      reads this, disk
    {
      disk.Valid() && lock.Unlocked?
    }

    /** The database every reader of the path sees. */
    function Db(): Result<Database, StoreError>
      reads disk
    {
      Decode(lib, Content(At(disk.entries, disk.path)))
    }

    /** The history goes on from `past`, and a crash or power loss at any moment after it shows what
        could be read at its end or what can be read now. */
    ghost predicate CrashSafe(past: seq<Snapshot>)
      requires past != []
      reads this, disk
    {
      && past <= disk.moments
      && forall i :: |past| <= i < |disk.moments| ==>
           ShowsOldOr(lib, disk.path, past[|past| - 1], disk.moments[i], Db())
    }

    /** The file at the path holds bytes that do not parse. */
    ghost predicate Damaged()
      reads disk
    {
      && disk.path in disk.entries && disk.entries[disk.path].data != []
      && lib.unmarshal(disk.entries[disk.path].data).None?
    }

    /** os.CreateTemp retries until the name is new. */
    ghost predicate FreshName(tmp: string)
      reads disk
    {
      tmp != disk.path && tmp !in disk.entries
    }

    constructor (lib: Lib, disk: Disk)
      requires disk.Valid()
      ensures Valid() && this.lib == lib && this.disk == disk && usageBuf == map[]
    {
      this.lib, this.disk := lib, disk;
      lock, usageBuf := Unlocked, map[];
    }

    // ---------------------------------------------------------------- lock, read, write

    /** acquireLock: exclusive mode creates a missing file; shared mode takes no lock on one. */
    method AcquireLock(mode: Lock, fault: LockFault) returns (r: Result<bool, StoreError>)
      requires Valid() && !mode.Unlocked?
      modifies this`lock, disk
      ensures disk.Valid() && Db() == old(Db())
      ensures CrashSafe(old(disk.moments))
      ensures ShowsOldOr(lib, disk.path, old(disk.Now()), disk.Now(), Db())
      ensures mode.Shared? ==> disk.entries == old(disk.entries) && disk.survivors == old(disk.survivors)
      ensures forall n :: n != disk.path && n !in old(disk.entries) ==> n !in disk.entries
      ensures disk.path in old(disk.entries) ==> disk.entries == old(disk.entries)
      ensures lock == if r == Ok(true) then mode else Unlocked
      ensures r == if mode.Shared? && disk.path !in old(disk.entries) then Ok(false)
                   else if fault.NoFault? then Ok(true) else Err(Unavailable)
    {
      if mode.Shared? {
        if disk.path !in disk.entries {
          return Ok(false);
        }
      } else if !fault.OpenFails? {
        disk.OpenOrCreate();
        if disk.path !in old(disk.entries) {
          EmptyFileShows(lib, old(disk.Now()), disk.path, disk.Now(), Db());
        }
      }
      if !fault.NoFault? {
        return Err(Unavailable);
      }
      lock := mode;
      return Ok(true);
    }

    method ReleaseLock()
      requires !lock.Unlocked?
      modifies this`lock
      ensures lock.Unlocked?
    {
      lock := Unlocked;
    }

    /** readDB, only ever called with the lock held. */
    method ReadDB(fails: bool) returns (r: Result<Database, StoreError>)
      requires !lock.Unlocked?
      ensures r == if fails then Err(Corrupt) else Db()
      ensures fails || Damaged() ==> r == Err(Corrupt)
      ensures !fails && (disk.path !in disk.entries || disk.entries[disk.path].data == []) ==> r == Ok(Database(1, []))
    {
      if fails {
        return Err(Corrupt);
      }
      var data := disk.ReadFile();
      if data.None? || data.value == [] {
        return Ok(Database(DB_VERSION, []));
      }
      var db := lib.unmarshal(data.value);
      if db.None? {
        return Err(Corrupt);
      }
      return Ok(db.value);
    }

    /** writeDB, only ever called with the lock held exclusively. */
    method WriteDB(db: Database, env: Env) returns (r: Result<(), StoreError>)
      requires disk.Valid() && lock.Exclusive? && FaithfulJson(lib) && FreshName(env.tmp)
      modifies disk
      ensures disk.Valid()
      ensures r == if env.write.at.None? then Ok(()) else Err(Unavailable)
      ensures Db() == if r.Ok? then Ok(db) else old(Db())
      ensures CrashSafe(old(disk.moments))
      ensures r.Err? ==> At(disk.entries, disk.path) == old(At(disk.entries, disk.path))
    {
      var ok := disk.WriteDB(lib.marshal(db), env.tmp, env.write);
      forall i | |old(disk.moments)| <= i < |disk.moments|
        ensures ShowsOldOr(lib, disk.path, old(disk.Now()), disk.moments[i], Db())
      {
        if ok {
          ReplacingShows(lib, old(disk.Now()), disk.path, env.tmp, db, disk.moments[i]);
        } else {
          TempShows(lib, old(disk.Now()), disk.path, env.tmp, disk.moments[i], Db());
        }
      }
      r := if ok then Ok(()) else Err(Unavailable);
    }

    // ---------------------------------------------------------------- operations

    /** generateID: the first draw that is not among the existing ids. */
    method GenerateID(existing: set<string>, draws: seq<string>) returns (id: string)
      requires exists i :: 0 <= i < |draws| && draws[i] !in existing
      ensures id !in existing
      ensures exists n :: 0 <= n < |draws| && id == draws[n] && forall j :: 0 <= j < n ==> draws[j] in existing
    {
      var n := 0;
      while draws[n] in existing
        invariant 0 <= n < |draws|
        invariant forall j :: 0 <= j < n ==> draws[j] in existing
        decreases |draws| - n
      {
        n := n + 1;
      }
      return draws[n];
    }

    /** Create either appends exactly the new record, under an id no record had, or changes nothing. */
    method Create(tag: string, body: Bytes, salt: Bytes, draws: seq<string>, now: Time, env: Env)
      returns (r: Result<(Bytes, Record), StoreError>)
      requires Valid() && FaithfulJson(lib) && FreshName(env.tmp)
      requires Db().Ok? ==> exists i :: 0 <= i < |draws| && draws[i] !in Ids(Db().value.keys)
      modifies this`lock, disk
      ensures Valid()
      ensures CrashSafe(old(disk.moments))
      ensures r == Err(LabelTooLong) <==> |tag| > 64
      ensures |tag| <= 64 && !env.lock.NoFault? ==> r == Err(Unavailable)
      ensures |tag| <= 64 && env.lock.NoFault? && (env.read || old(Damaged())) ==> r == Err(Corrupt)
      ensures |tag| <= 64 && env.lock.NoFault? && !env.read && !old(Damaged()) ==>
                if env.write.at.Some? then r == Err(Unavailable) else r.Ok?
      ensures r.Err? && disk.path in old(disk.entries) ==> At(disk.entries, disk.path) == old(At(disk.entries, disk.path))
      ensures r.Ok? <==> |tag| <= MAX_LABEL && Writes(env) && old(Db()).Ok?
      ensures r.Err? ==> Db() == old(Db())
      ensures r.Ok? ==>
                var (plain, rec) := r.value;
                && plain == body && rec.id !in Ids(old(Db()).value.keys)
                && rec == NewRecord(lib, tag, body, salt, rec.id, now)
                && rec == Record(rec.id, tag, now, ZERO_TIME, ZERO_TIME, false, lib.fingerprint(body), lib.sha(body + salt), salt)
                && Db() == Ok(Appended(old(Db()).value, rec))
                && Db() == Ok(Database(old(Db()).value.version, old(Db()).value.keys + [rec]))
    {
      if |tag| > MAX_LABEL {
        return Err(LabelTooLong);
      }
      var lf := AcquireLock(Exclusive, env.lock);
      if lf.Err? {
        return Err(lf.error);
      }
      var read := ReadDB(env.read);
      if read.Err? {
        ReleaseLock();
        return Err(read.error);
      }
      var db := read.value;
      var existing: set<string> := {};
      for i := 0 to |db.keys|
        invariant existing == Ids(db.keys[..i])
      {
        assert db.keys[..i + 1] == db.keys[..i] + [db.keys[i]];
        existing := existing + {db.keys[i].id};
      }
      assert db.keys[..|db.keys|] == db.keys;
      var id := GenerateID(existing, draws);
      var rec := Record(id, tag, now, ZERO_TIME, ZERO_TIME, false, lib.fingerprint(body), HashKey(lib, body, salt), salt);
      var written := WriteDB(db.(keys := db.keys + [rec]), env);
      ReleaseLock();
      if written.Err? {
        return Err(written.error);
      }
      return Ok((body, rec));
    }

    /** Revoke marks the one record with this id, or changes nothing and says why. */
    method Revoke(id: string, now: Time, env: Env) returns (r: Result<(), StoreError>)
      requires Valid() && FaithfulJson(lib) && FreshName(env.tmp)
      modifies this`lock, disk
      ensures Valid()
      ensures CrashSafe(old(disk.moments))
      ensures r.Err? ==> Db() == old(Db())
      ensures Reads(env) && old(Db()).Ok? ==>
                match Revoked(old(Db()).value, id, now)
                case Err(e) => r == Err(e)
                case Ok(db) => r.Ok? == Writes(env) && (r.Ok? ==> Db() == Ok(db))
      ensures r.Ok? ==> Writes(env) && old(Db()).Ok?
      ensures !env.lock.NoFault? ==> r == Err(Unavailable)
      ensures env.lock.NoFault? && (env.read || old(Damaged())) ==> r == Err(Corrupt)
      ensures env.lock.NoFault? && !env.read && old(Db()).Ok? ==>
                var db := old(Db()).value;
                && (r == Err(NotFound) <==> forall k :: k in db.keys ==> k.id != id)
                && forall i :: FirstWith(db.keys, id, i) ==>
                     if db.keys[i].revoked then r == Err(AlreadyRevoked)
                     else if env.write.at.Some? then r == Err(Unavailable)
                     else r.Ok? && Db() == Ok(Database(db.version, db.keys[i := db.keys[i].(revoked := true, revokedAt := now)]))
      ensures r.Err? && disk.path in old(disk.entries) ==> At(disk.entries, disk.path) == old(At(disk.entries, disk.path))
    {
      if Db().Ok? { RevokedExact(Db().value, id, now); }
      var lf := AcquireLock(Exclusive, env.lock);
      if lf.Err? {
        return Err(lf.error);
      }
      var read := ReadDB(env.read);
      if read.Err? {
        ReleaseLock();
        return Err(read.error);
      }
      var db := read.value;
      var found := false;
      var i := 0;
      while i < |db.keys|
        invariant 0 <= i <= |db.keys| && !found
        invariant forall j :: 0 <= j < i ==> db.keys[j].id != id
      {
        if db.keys[i].id == id {
          found := true;
          if db.keys[i].revoked {
            ReleaseLock();
            return Err(AlreadyRevoked);
          }
          db := db.(keys := db.keys[i := db.keys[i].(revoked := true, revokedAt := now)]);
          break;
        }
        i := i + 1;
      }
      if !found {
        ReleaseLock();
        return Err(NotFound);
      }
      r := WriteDB(db, env);
      ReleaseLock();
    }

    /** Verify reports the last active record that matches and notes the time under its id; the
        file is never written. */
    method Verify(presented: Bytes, now: Time, env: Env) returns (r: Result<Option<Record>, StoreError>)
      requires Valid()
      modifies this, disk
      ensures Valid() && disk.entries == old(disk.entries) && disk.survivors == old(disk.survivors)
      ensures disk.path !in old(disk.entries) ==> r == Ok(None)
      ensures disk.path in old(disk.entries) ==>
                if !env.lock.NoFault? then r == Err(Unavailable)
                else if env.read then r == Err(Corrupt)
                else match old(Db())
                     case Err(e) => r == Err(e)
                     case Ok(db) =>
                       match Scan(lib, presented, db.keys)
                       case None => r == Ok(None)
                       case Some(rec) => r == Ok(Some(rec.(lastUsed := now)))
      ensures usageBuf == if r.Ok? && r.value.Some? then old(usageBuf)[r.value.value.id := now] else old(usageBuf)
      ensures env.lock.NoFault? && old(Damaged()) ==> r == Err(Corrupt)
      ensures disk.path in old(disk.entries) && env.lock.NoFault? && !env.read && old(Db()).Ok? ==>
                var keys := old(Db()).value.keys;
                && (r == Ok(None) <==> forall i :: 0 <= i < |keys| ==> !Opens(lib, presented, keys[i]))
                && forall i :: LastOpened(lib, presented, keys, i) ==>
                     r == Ok(Some(keys[i].(lastUsed := now))) && usageBuf == old(usageBuf)[keys[i].id := now]
    {
      if Db().Ok? { ScanExact(lib, presented, Db().value.keys); }
      var lf := AcquireLock(Shared, env.lock);
      if lf.Err? {
        return Err(lf.error);
      }
      if !lf.value {
        return Ok(None);
      }
      var read := ReadDB(env.read);
      if read.Err? {
        ReleaseLock();
        return Err(read.error);
      }
      var keys := read.value.keys;
      var matched: Option<Record> := None;
      for i := 0 to |keys|
        invariant matched == Scan(lib, presented, keys[..i])
      {
        assert keys[..i + 1][..i] == keys[..i];
        if !keys[i].revoked {
          var candidate := HashKey(lib, presented, keys[i].salt);
          if candidate == keys[i].hash {
            matched := Some(keys[i]);
          }
        }
      }
      assert keys[..|keys|] == keys;
      if matched.Some? {
        usageBuf := usageBuf[matched.value.id := now];
        matched := Some(matched.value.(lastUsed := now));
      }
      ReleaseLock();
      return Ok(matched);
    }

    // ---------------------------------------------------------------- flushing

    /** The first phase of FlushUsage, atomic under mu: the buffer moves into the snapshot. */
    method TakeSnapshot() returns (snapshot: map<string, Time>)
      modifies this`usageBuf
      ensures snapshot == old(usageBuf) && usageBuf == map[]
    {
      snapshot := usageBuf;
      usageBuf := map[];
    }

    /** Puts a snapshot back, keeping anything noted since it was taken. */
    method Restore(snapshot: map<string, Time>)
      modifies this`usageBuf
      ensures usageBuf == Restored(old(usageBuf), snapshot)
    {
      ghost var was := usageBuf;
      var todo := snapshot.Keys;
      while todo != {}
        invariant todo <= snapshot.Keys
        invariant forall id :: id in was ==> id in usageBuf && usageBuf[id] == was[id]
        invariant forall id :: id in snapshot.Keys - todo && id !in was ==> id in usageBuf && usageBuf[id] == snapshot[id]
        invariant forall id :: id in usageBuf ==> id in was || id in snapshot.Keys - todo
        decreases |todo|
      {
        var id :| id in todo;
        if id !in usageBuf {
          usageBuf := usageBuf[id := snapshot[id]];
        }
        todo := todo - {id};
      }
      assert usageBuf.Keys == (snapshot + was).Keys;
    }

    /** The second phase of FlushUsage, under the exclusive lock: the snapshot is merged into the
        file as it is now. A lock or read failure puts it back; a write failure does not. */
    method Persist(snapshot: map<string, Time>, env: Env) returns (r: Result<(), StoreError>)
      requires Valid() && FaithfulJson(lib) && FreshName(env.tmp)
      modifies this, disk
      ensures Valid()
      ensures CrashSafe(old(disk.moments))
      ensures r.Ok? <==> Writes(env) && old(Db()).Ok?
      ensures Db() == if r.Ok? then Ok(Flushed(old(Db()).value, snapshot)) else old(Db())
      ensures usageBuf == if Reads(env) && old(Db()).Ok? then old(usageBuf) else Restored(old(usageBuf), snapshot)
      ensures !env.lock.NoFault? ==> r == Err(Unavailable)
      ensures env.lock.NoFault? && (env.read || old(Damaged())) ==> r == Err(Corrupt)
      ensures env.lock.NoFault? && !env.read && !old(Damaged()) ==>
                if env.write.at.Some? then r == Err(Unavailable) else r.Ok?
      ensures r.Ok? ==>
                var was, now := old(Db()).value, Db().value;
                && now.version == was.version && |now.keys| == |was.keys|
                && forall i :: 0 <= i < |was.keys| ==>
                     now.keys[i] == if was.keys[i].id in snapshot && !was.keys[i].revoked
                                    then was.keys[i].(lastUsed := snapshot[was.keys[i].id]) else was.keys[i]
      ensures !env.lock.NoFault? || env.read || old(Damaged()) ==>
                forall id :: id in snapshot || id in old(usageBuf) ==>
                  id in usageBuf && usageBuf[id] == if id in old(usageBuf) then old(usageBuf)[id] else snapshot[id]
      ensures env.lock.NoFault? && !env.read && !old(Damaged()) ==> usageBuf == old(usageBuf)
      ensures r.Err? && disk.path in old(disk.entries) ==> At(disk.entries, disk.path) == old(At(disk.entries, disk.path))
    {
      var lf := AcquireLock(Exclusive, env.lock);
      if lf.Err? {
        Restore(snapshot);
        return Err(lf.error);
      }
      var read := ReadDB(env.read);
      if read.Err? {
        Restore(snapshot);
        ReleaseLock();
        return Err(read.error);
      }
      var db := read.value;
      var was := db.keys;
      for i := 0 to |was|
        invariant |db.keys| == |was| && db.version == read.value.version
        invariant forall j :: 0 <= j < |was| ==> db.keys[j] == if j < i then Stamp(was[j], snapshot) else was[j]
      {
        var k := db.keys[i];
        if k.id in snapshot {
          if !k.revoked {
            db := db.(keys := db.keys[i := k.(lastUsed := snapshot[k.id])]);
          }
        }
      }
      assert db == Flushed(read.value, snapshot);
      r := WriteDB(db, env);
      ReleaseLock();
    }

    /** FlushUsage with nothing in between its two phases. */
    method FlushUsage(env: Env) returns (r: Result<(), StoreError>)
      requires Valid() && FaithfulJson(lib) && FreshName(env.tmp)
      modifies this, disk
      ensures Valid()
      ensures CrashSafe(old(disk.moments))
      ensures old(usageBuf) == map[] ==> r.Ok? && usageBuf == map[] && Db() == old(Db())
      ensures old(usageBuf) != map[] ==>
                if Writes(env) && old(Db()).Ok? then
                  r.Ok? && usageBuf == map[] && Db() == Ok(Flushed(old(Db()).value, old(usageBuf)))
                else
                  r.Err? && Db() == old(Db()) && usageBuf == if Reads(env) && old(Db()).Ok? then map[] else old(usageBuf)
    {
      if |usageBuf| == 0 {
        return Ok(());
      }
      var snapshot := TakeSnapshot();
      r := Persist(snapshot, env);
    }
  }
}
