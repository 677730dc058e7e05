/** Whole runs of the key store: any interleaving of Create, Revoke and Verify with flushes that
    are split into their two phases, any step failing. Operations on the file are atomic here
    because each holds the lock from its read to its write. */
module KeyRuns {

  import opened Wrappers
  import opened KeyDb
  import opened KeyStore

  /** `db` is what the path decodes to, `flights` the snapshots between the two phases of a flush.
      The rest is history: the body issued under each id, the time of each id's latest successful
      Verify, and the ids whose latest time went down with a failed write. */
  datatype State = State(
    db: Database, buf: map<string, Time>, flights: seq<map<string, Time>>,
    bodies: map<string, Bytes>, latest: map<string, Time>, lost: set<string>)

  datatype Op =
    | Create(tag: string, body: Bytes, salt: Bytes, id: string, now: Time, ok: bool)
    | Revoke(id: string, now: Time, ok: bool)
    | Verify(presented: Bytes, now: Time)
    | Snapshot
    | PersistBlocked(flight: nat)
    | PersistWrite(flight: nat, ok: bool)

  const INIT := State(EMPTY_DB, map[], [], map[], map[], {})

  function Without<T>(s: seq<T>, i: nat): seq<T>
    requires i < |s|
  {
    s[..i] + s[i + 1..]
  }

  /** The newest snapshot in flight that holds id; -1 when none does. */
  function Newest(flights: seq<map<string, Time>>, id: string): (i: int)
    ensures -1 <= i < |flights|
    ensures i >= 0 ==> id in flights[i]
    ensures forall j :: i < j < |flights| ==> id !in flights[j]
  {
    if flights == [] then -1
    else if id in flights[|flights| - 1] then |flights| - 1
    else Newest(flights[..|flights| - 1], id)
  }

  /** The ids whose latest time is in snapshot i. */
  function LastCopies(s: State, i: nat): set<string>
    requires i < |s.flights|
  {
    set id | id in s.flights[i] && id !in s.buf && Newest(s.flights, id) == i
  }

  /** What random generation and the program structure guarantee: salts have their length, an id
      is not in use, a body was never issued before, and a flush is persisted once. */
  ghost predicate Enabled(s: State, op: Op) {
    match op
    case Create(_, body, salt, id, _, _) => |salt| == SALT_BYTES && id !in Ids(s.db.keys) && body !in s.bodies.Values
    case PersistBlocked(i) => i < |s.flights|
    case PersistWrite(i, _) => i < |s.flights|
    case _ => true
  }

  function Step(lib: Lib, s: State, op: Op): State {
    match op
    case Create(tag, body, salt, id, now, ok) =>
      if !ok || |tag| > MAX_LABEL then s else
      s.(db := Appended(s.db, NewRecord(lib, tag, body, salt, id, now)), bodies := s.bodies[id := body])
    case Revoke(id, now, ok) =>
      var r := Revoked(s.db, id, now);
      if !ok || r.Err? then s else s.(db := r.value)
    case Verify(presented, now) =>
      match Scan(lib, presented, s.db.keys) {
        case None => s
        case Some(r) => s.(buf := s.buf[r.id := now], latest := s.latest[r.id := now], lost := s.lost - {r.id})
      }
    case Snapshot =>
      if s.buf == map[] then s else s.(buf := map[], flights := s.flights + [s.buf])
    case PersistBlocked(i) =>
      if i >= |s.flights| then s else
      s.(buf := Restored(s.buf, s.flights[i]), flights := Without(s.flights, i))
    case PersistWrite(i, ok) =>
      if i >= |s.flights| then s
      else if ok then s.(db := Flushed(s.db, s.flights[i]), flights := Without(s.flights, i))
      else s.(flights := Without(s.flights, i), lost := s.lost + LastCopies(s, i))
  }

  function Run(lib: Lib, s: State, ops: seq<Op>): State
    decreases |ops|
  {
    if ops == [] then s else Run(lib, Step(lib, s, ops[0]), ops[1..])
  }

  ghost predicate Legal(lib: Lib, s: State, ops: seq<Op>)
    decreases |ops|
  {
    ops == [] || (Enabled(s, ops[0]) && Legal(lib, Step(lib, s, ops[0]), ops[1..]))
  }

  // ------------------------------------------------------------------ the object takes these steps

  ghost predicate Agrees(store: Store, s: State)
    reads store, store.disk
  {
    store.Db() == Ok(s.db) && store.usageBuf == s.buf
  }

  /** Each call on a store is one step of the machine (a flush is two). */
  method StepCreate(store: Store, ghost s: State, tag: string, body: Bytes, salt: Bytes, draws: seq<string>, now: Time, env: Env)
    returns (ghost op: Op)
    requires store.Valid() && FaithfulJson(store.lib) && store.FreshName(env.tmp) && Agrees(store, s)
    requires |salt| == SALT_BYTES && body !in s.bodies.Values
    requires exists i :: 0 <= i < |draws| && draws[i] !in Ids(s.db.keys)
    modifies store`lock, store.disk
    ensures store.Valid() && op.Create? && Enabled(s, op) && Agrees(store, Step(store.lib, s, op))
  {
    ghost var unused :| unused in draws && unused !in Ids(s.db.keys);
    var r := store.Create(tag, body, salt, draws, now, env);
    op := Create(tag, body, salt, if r.Ok? then r.value.1.id else unused, now, r.Ok?);
  }

  method StepRevoke(store: Store, ghost s: State, id: string, now: Time, env: Env)
    requires store.Valid() && FaithfulJson(store.lib) && store.FreshName(env.tmp) && Agrees(store, s)
    modifies store`lock, store.disk
    ensures store.Valid() && Agrees(store, Step(store.lib, s, Revoke(id, now, Writes(env))))
  {
    var r := store.Revoke(id, now, env);
  }

  method StepVerify(store: Store, ghost s: State, presented: Bytes, now: Time, env: Env)
    returns (r: Result<Option<Record>, StoreError>)
    requires store.Valid() && Agrees(store, s)
    modifies store, store.disk
    ensures store.Valid()
    ensures r.Err? ==> Agrees(store, s)
    ensures r.Ok? ==> Agrees(store, Step(store.lib, s, Verify(presented, now)))
    ensures r.Ok? ==> (r.value.Some? <==> Scan(store.lib, presented, s.db.keys).Some?)
  {
    r := store.Verify(presented, now, env);
  }

  method StepFlush(store: Store, ghost s: State, env: Env)
    requires store.Valid() && FaithfulJson(store.lib) && store.FreshName(env.tmp) && Agrees(store, s) && s.flights == []
    modifies store, store.disk
    ensures store.Valid()
    ensures var mid := Step(store.lib, s, Snapshot);
            Agrees(store, if s.buf == map[] then s
                          else if Reads(env) then Step(store.lib, mid, PersistWrite(0, Writes(env)))
                          else Step(store.lib, mid, PersistBlocked(0)))
  {
    var r := store.FlushUsage(env);
  }

  /** The two phases of a flush by themselves, with anything in between and any number of other
      flushes in flight. */
  method StepSnapshot(store: Store, ghost s: State) returns (snapshot: map<string, Time>)
    requires store.Valid() && Agrees(store, s)
    modifies store`usageBuf
    ensures store.Valid() && Agrees(store, Step(store.lib, s, Snapshot))
    ensures var flights := Step(store.lib, s, Snapshot).flights;
            snapshot != map[] ==> flights == s.flights + [snapshot]
  {
    snapshot := store.TakeSnapshot();
  }

  method StepPersist(store: Store, ghost s: State, ghost i: nat, snapshot: map<string, Time>, env: Env)
    requires store.Valid() && FaithfulJson(store.lib) && store.FreshName(env.tmp) && Agrees(store, s)
    requires i < |s.flights| && snapshot == s.flights[i]
    modifies store, store.disk
    ensures store.Valid()
    ensures var op := if Reads(env) then PersistWrite(i, Writes(env)) else PersistBlocked(i);
            Enabled(s, op) && Agrees(store, Step(store.lib, s, op))
  {
    var r := store.Persist(snapshot, env);
  }

  // ------------------------------------------------------------------ history

  ghost predicate Inv(lib: Lib, s: State) {
    Issued(lib, s.db, s.bodies) && s.latest.Keys <= s.bodies.Keys
  }

  ghost predicate Grows(a: map<string, Bytes>, b: map<string, Bytes>) {
    forall k :: k in a ==> k in b && b[k] == a[k]
  }

  lemma SameIds(a: seq<Record>, b: seq<Record>)
    requires |a| == |b| && forall i :: 0 <= i < |a| ==> a[i].id == b[i].id
    ensures Ids(a) == Ids(b)
  {
    forall k | k in a ensures k.id in Ids(b) {
      var i :| 0 <= i < |a| && a[i] == k;
      assert b[i] in b;
    }
    forall k | k in b ensures k.id in Ids(a) {
      var i :| 0 <= i < |b| && b[i] == k;
      assert a[i] in a;
    }
  }

  lemma CreateKeeps(lib: Lib, db: Database, bodies: map<string, Bytes>, r: Record, body: Bytes)
    requires Issued(lib, db, bodies) && r.id !in Ids(db.keys) && body !in bodies.Values
    requires |r.salt| == SALT_BYTES && r.hash == HashKey(lib, body, r.salt) && r.fingerprint == lib.fingerprint(body)
    ensures Issued(lib, Appended(db, r), bodies[r.id := body]) && Extends(db, Appended(db, r))
    ensures Grows(bodies, bodies[r.id := body])
  {
    var keys, bodies' := db.keys + [r], bodies[r.id := body];
    assert r.id !in bodies;
    assert keys[|db.keys|] == r;
    assert Ids(keys) == Ids(db.keys) + {r.id} by {
      assert forall k :: k in keys <==> k in db.keys || k == r;
    }
    forall i | 0 <= i < |db.keys| ensures keys[i].id != r.id {
      assert db.keys[i] in db.keys;
    }
  }

  /** Changing records in place, each only as history allows, keeps everything else. */
  lemma InPlaceKeeps(lib: Lib, db: Database, db': Database, bodies: map<string, Bytes>)
    requires Issued(lib, db, bodies) && Extends(db, db') && |db.keys| == |db'.keys|
    ensures Issued(lib, db', bodies)
  {
    forall i | 0 <= i < |db.keys| ensures db'.keys[i].id == db.keys[i].id {
      assert Evolves(db.keys[i], db'.keys[i]);
    }
    SameIds(db.keys, db'.keys);
  }

  lemma StepKeepsHistory(lib: Lib, s: State, op: Op)
    requires Inv(lib, s) && Enabled(s, op)
    ensures var s' := Step(lib, s, op);
            Inv(lib, s') && Extends(s.db, s'.db) && Grows(s.bodies, s'.bodies)
  {
    hide Issued, Extends;
    var s' := Step(lib, s, op);
    if s'.db == s.db {
      ExtendsReflexive(s.db);
      if op.Verify? {
        VerifyKeepsKnown(lib, s, op.presented);
      }
    } else if op.Create? {
      CreateKeeps(lib, s.db, s.bodies, NewRecord(lib, op.tag, op.body, op.salt, op.id, op.now), op.body);
    } else {
      if op.Revoke? {
        RevokeExtends(s.db, op.id, op.now);
      } else {
        FlushExtends(s.db, s.flights[op.flight]);
      }
      InPlaceKeeps(lib, s.db, s'.db, s.bodies);
    }
  }

  lemma VerifyKeepsKnown(lib: Lib, s: State, presented: Bytes)
    requires Issued(lib, s.db, s.bodies)
    ensures var found := Scan(lib, presented, s.db.keys);
            found.Some? ==> found.value.id in s.bodies
  {
    ScanFindsLast(lib, presented, s.db.keys);
  }

  lemma ExtendsReflexive(db: Database)
    ensures Extends(db, db)
  {}

  lemma RevokeExtends(db: Database, id: string, now: Time)
    requires Revoked(db, id, now).Ok?
    ensures var db' := Revoked(db, id, now).value;
            Extends(db, db') && |db'.keys| == |db.keys|
  {}

  lemma FlushExtends(db: Database, snapshot: map<string, Time>)
    ensures Extends(db, Flushed(db, snapshot)) && |Flushed(db, snapshot).keys| == |db.keys|
  {}

  /** From any state of any run to any later one: records are only appended, ids stay distinct,
      identity and credentials never change, revocation is final and freezes the record. */
  lemma {:induction false} HistoryRun(lib: Lib, s: State, ops: seq<Op>)
    requires Inv(lib, s) && Legal(lib, s, ops)
    ensures var s' := Run(lib, s, ops);
            Inv(lib, s') && Extends(s.db, s'.db) && Grows(s.bodies, s'.bodies)
    decreases |ops|
  {
    if ops != [] {
      var s1 := Step(lib, s, ops[0]);
      StepKeepsHistory(lib, s, ops[0]);
      HistoryRun(lib, s1, ops[1..]);
      ExtendsTransitive(s.db, s1.db, Run(lib, s, ops).db);
    }
  }

  // ------------------------------------------------------------------ what the history variables say

  /** The time of the last successful Verify of id in a run from s. */
  function LastUse(lib: Lib, s: State, ops: seq<Op>, id: string): Option<Time>
    decreases |ops|
  {
    if ops == [] then None
    else
      var later := LastUse(lib, Step(lib, s, ops[0]), ops[1..], id);
      if later.Some? then later
      else if ops[0].Verify? && Scan(lib, ops[0].presented, s.db.keys).Some?
              && Scan(lib, ops[0].presented, s.db.keys).value.id == id then Some(ops[0].now)
      else None
  }

  /** `latest` is the time of the last successful Verify of each id. */
  lemma {:induction false} LatestIsLastUse(lib: Lib, s: State, ops: seq<Op>, id: string)
    ensures var latest := Run(lib, s, ops).latest;
            match LastUse(lib, s, ops, id)
            case Some(t) => id in latest && latest[id] == t
            case None => (id in latest <==> id in s.latest) && (id in latest ==> latest[id] == s.latest[id])
    decreases |ops|
  {
    hide Scan, Appended, Flushed, Revoked;
    if ops != [] { LatestIsLastUse(lib, Step(lib, s, ops[0]), ops[1..], id); }
  }

  /** The body handed out by the last successful Create of id in a run from s. */
  function LastIssue(lib: Lib, s: State, ops: seq<Op>, id: string): Option<Bytes>
    decreases |ops|
  {
    if ops == [] then None
    else
      var later := LastIssue(lib, Step(lib, s, ops[0]), ops[1..], id);
      if later.Some? then later
      else if ops[0].Create? && ops[0].ok && |ops[0].tag| <= 64 && ops[0].id == id then Some(ops[0].body)
      else None
  }

  /** `bodies` holds what Create handed out. */
  lemma {:induction false} BodiesAreIssued(lib: Lib, s: State, ops: seq<Op>, id: string)
    ensures var bodies := Run(lib, s, ops).bodies;
            match LastIssue(lib, s, ops, id)
            case Some(body) => id in bodies && bodies[id] == body
            case None => (id in bodies <==> id in s.bodies) && (id in bodies ==> bodies[id] == s.bodies[id])
    decreases |ops|
  {
    hide Scan, Appended, Flushed, Revoked;
    if ops != [] { BodiesAreIssued(lib, Step(lib, s, ops[0]), ops[1..], id); }
  }

  // ------------------------------------------------------------------ verification over runs

  ghost predicate RevokedIn(db: Database, id: string) {
    exists i :: 0 <= i < |db.keys| && db.keys[i].id == id && db.keys[i].revoked
  }

  ghost predicate ActiveIn(db: Database, id: string) {
    exists i :: 0 <= i < |db.keys| && db.keys[i].id == id && !db.keys[i].revoked
  }

  /** A successful Revoke leaves the key revoked. */
  lemma RevokeRevokes(lib: Lib, s: State, id: string, now: Time)
    requires Revoked(s.db, id, now).Ok?
    ensures RevokedIn(Step(lib, s, Revoke(id, now, true)).db, id)
  {
    var db := Revoked(s.db, id, now).value;
    assert db.keys[Find(s.db.keys, id)].revoked;
  }

  lemma IssuedAt(lib: Lib, s: State, id: string) returns (i: nat)
    requires Inv(lib, s) && id in s.bodies
    ensures FirstWith(s.db.keys, id, i)
    ensures ActiveIn(s.db, id) ==> !s.db.keys[i].revoked
  {
    assert id in Ids(s.db.keys);
    var k :| k in s.db.keys && k.id == id;
    i :| 0 <= i < |s.db.keys| && s.db.keys[i] == k;
    forall j | 0 <= j < |s.db.keys| && s.db.keys[j].id == id ensures j == i {}
  }

  /** Revoking an issued id, with a write that works, always leaves it revoked: an active key is
      revoked now, and any other was before. */
  lemma RevokeWorks(lib: Lib, s: State, id: string, now: Time)
    requires Inv(lib, s) && id in s.bodies
    ensures ActiveIn(s.db, id) ==> Revoked(s.db, id, now).Ok?
    ensures RevokedIn(Step(lib, s, Revoke(id, now, true)).db, id)
  {
    var i := IssuedAt(lib, s, id);
    RevokedExact(s.db, id, now);
    hide Inv, Revoked, FirstWith;
    var end := Step(lib, s, Revoke(id, now, true)).db;
    assert end.keys[i].id == id && end.keys[i].revoked;
  }

  /** Once revoked, a key is never found again, whatever happens in between. */
  lemma RevokedNeverVerifies(lib: Lib, s: State, ops: seq<Op>, id: string)
    requires CollisionFree(lib) && Inv(lib, s) && Legal(lib, s, ops) && RevokedIn(s.db, id)
    ensures id in s.bodies && Scan(lib, s.bodies[id], Run(lib, s, ops).db.keys) == None
  {
    var s' := Run(lib, s, ops);
    HistoryRun(lib, s, ops);
    var i :| 0 <= i < |s.db.keys| && s.db.keys[i].id == id && s.db.keys[i].revoked;
    assert Evolves(s.db.keys[i], s'.db.keys[i]);
    forall r | r in s'.db.keys && s'.bodies[r.id] == s'.bodies[id] ensures r.revoked {
      var j :| 0 <= j < |s'.db.keys| && s'.db.keys[j] == r;
      assert i == j;
    }
    VerifyIsOwnership(lib, s'.db, s'.bodies, s'.bodies[id]);
  }

  /** Between its creation and its revocation a key verifies, to its own record. */
  lemma ActiveVerifies(lib: Lib, s: State, id: string)
    requires CollisionFree(lib) && Inv(lib, s) && ActiveIn(s.db, id)
    ensures id in s.bodies
    ensures var found := Scan(lib, s.bodies[id], s.db.keys);
            found.Some? && found.value.id == id && !found.value.revoked
  {
    var i :| 0 <= i < |s.db.keys| && s.db.keys[i].id == id && !s.db.keys[i].revoked;
    VerifyIsOwnership(lib, s.db, s.bodies, s.bodies[id]);
    assert Owns(s.db, s.bodies, s.bodies[id], s.db.keys[i]);
  }

  /** A body that was never issued verifies to nothing. */
  lemma UnissuedNeverVerifies(lib: Lib, s: State, presented: Bytes)
    requires CollisionFree(lib) && Inv(lib, s) && presented !in s.bodies.Values
    ensures Scan(lib, presented, s.db.keys) == None
  {
    VerifyIsOwnership(lib, s.db, s.bodies, presented);
  }
}
