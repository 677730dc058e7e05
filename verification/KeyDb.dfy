/** The key database of internal/keystore as a value: what each store operation does to it, and
    what every operation keeps. SHA-256, the fingerprint and JSON are parameters (`Lib`). */
module KeyDb {

  import opened Wrappers

  type Bytes = seq<char>

  type Time = int

  const ZERO_TIME: Time := 0

  const DB_VERSION := 1

  const SALT_BYTES := 16

  const MAX_LABEL := 64

  datatype Record = Record(
    id: string, tag: string, created: Time, lastUsed: Time, revokedAt: Time, revoked: bool,
    fingerprint: string, hash: Bytes, salt: Bytes)

  datatype Database = Database(version: int, keys: seq<Record>)

  /** The libraries the store calls: SHA-256, the 12-hex-digit fingerprint, and JSON both ways. */
  datatype Lib = Lib(
    sha: Bytes -> Bytes, fingerprint: Bytes -> string,
    marshal: Database -> Bytes, unmarshal: Bytes -> Option<Database>)

  ghost predicate CollisionFree(lib: Lib) {
    forall x, y :: lib.sha(x) == lib.sha(y) ==> x == y
  }

  ghost predicate FaithfulJson(lib: Lib) {
    forall db :: |lib.marshal(db)| > 0 && lib.unmarshal(lib.marshal(db)) == Some(db)
  }

  datatype StoreError = LabelTooLong | NotFound | AlreadyRevoked | Corrupt | Unavailable

  // ------------------------------------------------------------------ operations

  const EMPTY_DB := Database(DB_VERSION, [])

  /** readDB on the bytes found at the path, None when there is no file. */
  function Decode(lib: Lib, content: Option<Bytes>): Result<Database, StoreError> {
    if content.None? || content.value == [] then Ok(EMPTY_DB) else
    match lib.unmarshal(content.value)
    case Some(db) => Ok(db)
    case None => Err(Corrupt)
  }

  function HashKey(lib: Lib, presented: Bytes, salt: Bytes): Bytes {
    lib.sha(presented + salt)
  }

  function Ids(keys: seq<Record>): set<string> {
    set k | k in keys :: k.id
  }

  function NewRecord(lib: Lib, tag: string, body: Bytes, salt: Bytes, id: string, now: Time): Record {
    Record(id, tag, now, ZERO_TIME, ZERO_TIME, false, lib.fingerprint(body), HashKey(lib, body, salt), salt)
  }

  function Appended(db: Database, r: Record): Database {
    db.(keys := db.keys + [r])
  }

  /** The position of the first record with this id; |keys| when there is none. */
  function Find(keys: seq<Record>, id: string): (i: nat)
    ensures i <= |keys|
    ensures i < |keys| ==> keys[i].id == id
    ensures forall j :: 0 <= j < i ==> keys[j].id != id
  {
    if keys == [] || keys[0].id == id then 0 else 1 + Find(keys[1..], id)
  }

  function Revoked(db: Database, id: string, now: Time): Result<Database, StoreError> {
    var i := Find(db.keys, id);
    if i == |db.keys| then Err(NotFound)
    else if db.keys[i].revoked then Err(AlreadyRevoked)
    else Ok(db.(keys := db.keys[i := db.keys[i].(revoked := true, revokedAt := now)]))
  }

  predicate Matches(lib: Lib, presented: Bytes, r: Record) {
    !r.revoked && HashKey(lib, presented, r.salt) == r.hash
  }

  /** The full scan of Verify: a later match overwrites an earlier one. */
  function Scan(lib: Lib, presented: Bytes, keys: seq<Record>): Option<Record> {
    if keys == [] then None else
    var last := keys[|keys| - 1];
    if Matches(lib, presented, last) then Some(last) else Scan(lib, presented, keys[..|keys| - 1])
  }

  function Stamp(r: Record, snapshot: map<string, Time>): Record {
    if r.id in snapshot && !r.revoked then r.(lastUsed := snapshot[r.id]) else r
  }

  /** What the locked phase of FlushUsage writes. */
  function Flushed(db: Database, snapshot: map<string, Time>): Database {
    db.(keys := seq(|db.keys|, i requires 0 <= i < |db.keys| => Stamp(db.keys[i], snapshot)))
  }

  /** Restoring a snapshot after a failed flush never overwrites a newer entry. */
  function Restored(buf: map<string, Time>, snapshot: map<string, Time>): map<string, Time> {
    snapshot + buf
  }

  // ------------------------------------------------------------------ what the operations answer

  /** No file and an empty one are the empty store, bytes that do not parse are an error, and bytes
      that do are what they parse to. */
  lemma DecodeExact(lib: Lib, content: Option<Bytes>)
    ensures content.None? || content.value == [] ==> Decode(lib, content) == Ok(Database(1, []))
    ensures content.Some? && content.value != [] && lib.unmarshal(content.value).None? ==>
              Decode(lib, content) == Err(Corrupt)
    ensures content.Some? && content.value != [] && lib.unmarshal(content.value).Some? ==>
              Decode(lib, content) == Ok(lib.unmarshal(content.value).value)
  {}

  ghost predicate FirstWith(keys: seq<Record>, id: string, i: int) {
    0 <= i < |keys| && keys[i].id == id && forall j :: 0 <= j < i ==> keys[j].id != id
  }

  /** Revoke fails for an unknown id and for a revoked record, and otherwise changes the revocation
      of the first record with the id and nothing else. */
  lemma RevokedExact(db: Database, id: string, now: Time)
    ensures Revoked(db, id, now) == Err(NotFound) <==> forall k :: k in db.keys ==> k.id != id
    ensures forall i :: FirstWith(db.keys, id, i) ==>
              Revoked(db, id, now) == if db.keys[i].revoked then Err(AlreadyRevoked)
                                      else Ok(Database(db.version, db.keys[i := db.keys[i].(revoked := true, revokedAt := now)]))
  {
    var f := Find(db.keys, id);
    if f < |db.keys| { assert db.keys[f] in db.keys; }
    forall i | FirstWith(db.keys, id, i) ensures i == f {}
  }

  /** Flushing gives every active record the time the snapshot has for it and changes nothing else. */
  lemma FlushedExact(db: Database, snapshot: map<string, Time>)
    ensures Flushed(db, snapshot).version == db.version && |Flushed(db, snapshot).keys| == |db.keys|
    ensures forall i :: 0 <= i < |db.keys| ==>
              Flushed(db, snapshot).keys[i] ==
                if db.keys[i].id in snapshot && !db.keys[i].revoked then db.keys[i].(lastUsed := snapshot[db.keys[i].id])
                else db.keys[i]
  {}

  lemma RestoredExact(buf: map<string, Time>, snapshot: map<string, Time>)
    ensures Restored(buf, snapshot).Keys == buf.Keys + snapshot.Keys
    ensures forall id :: id in Restored(buf, snapshot) ==>
              Restored(buf, snapshot)[id] == if id in buf then buf[id] else snapshot[id]
  {}

  // ------------------------------------------------------------------ scanning

  ghost predicate IsLastMatch(lib: Lib, presented: Bytes, keys: seq<Record>, i: int) {
    && 0 <= i < |keys| && Matches(lib, presented, keys[i])
    && forall j :: i < j < |keys| ==> !Matches(lib, presented, keys[j])
  }

  /** Verify finds a key exactly when some active record matches, and then reports the last. */
  lemma {:induction false} ScanFindsLast(lib: Lib, presented: Bytes, keys: seq<Record>)
    ensures Scan(lib, presented, keys).None? <==> forall i :: 0 <= i < |keys| ==> !Matches(lib, presented, keys[i])
    ensures Scan(lib, presented, keys).Some? ==>
              exists i :: IsLastMatch(lib, presented, keys, i) && Scan(lib, presented, keys) == Some(keys[i])
  {
    if keys != [] {
      var n := |keys| - 1;
      if Matches(lib, presented, keys[n]) {
        assert IsLastMatch(lib, presented, keys, n);
      } else {
        ScanFindsLast(lib, presented, keys[..n]);
        if i :| IsLastMatch(lib, presented, keys[..n], i) && Scan(lib, presented, keys[..n]) == Some(keys[..n][i]) {
          assert IsLastMatch(lib, presented, keys, i);
        }
        if i :| 0 <= i < |keys| && Matches(lib, presented, keys[i]) {
          assert keys[..n][i] == keys[i];
        }
      }
    }
  }

  /** The record is active and its hash is that of the presented key behind its salt. */
  ghost predicate Opens(lib: Lib, presented: Bytes, r: Record) {
    !r.revoked && lib.sha(presented + r.salt) == r.hash
  }

  ghost predicate LastOpened(lib: Lib, presented: Bytes, keys: seq<Record>, i: int) {
    0 <= i < |keys| && Opens(lib, presented, keys[i]) && forall j :: i < j < |keys| ==> !Opens(lib, presented, keys[j])
  }

  lemma ScanExact(lib: Lib, presented: Bytes, keys: seq<Record>)
    ensures Scan(lib, presented, keys) == None <==> forall i :: 0 <= i < |keys| ==> !Opens(lib, presented, keys[i])
    ensures forall i :: LastOpened(lib, presented, keys, i) ==> Scan(lib, presented, keys) == Some(keys[i])
  {
    ScanFindsLast(lib, presented, keys);
    assert forall r: Record {:trigger Opens(lib, presented, r)} :: Opens(lib, presented, r) <==> Matches(lib, presented, r);
    forall i | LastOpened(lib, presented, keys, i)
      ensures Scan(lib, presented, keys) == Some(keys[i])
    {
      assert Matches(lib, presented, keys[i]);
      var j :| IsLastMatch(lib, presented, keys, j) && Scan(lib, presented, keys) == Some(keys[j]);
      assert Opens(lib, presented, keys[j]);
    }
  }

  /** Concatenation with salts of one fixed length loses nothing. */
  lemma SaltedInjective(x: Bytes, sx: Bytes, y: Bytes, sy: Bytes)
    requires x + sx == y + sy && |sx| == |sy|
    ensures x == y && sx == sy
  {
    assert x == (x + sx)[..|x|] && y == (y + sy)[..|y|];
    assert sx == (x + sx)[|x|..] && sy == (y + sy)[|y|..];
  }

  /** Every record is the hash of the body issued under its id; no two records share an id and no
      two ids share a body. */
  ghost predicate Issued(lib: Lib, db: Database, bodies: map<string, Bytes>) {
    && (forall i :: 0 <= i < |db.keys| ==>
          var r := db.keys[i];
          && r.id in bodies && |r.salt| == SALT_BYTES
          && r.hash == HashKey(lib, bodies[r.id], r.salt)
          && r.fingerprint == lib.fingerprint(bodies[r.id]))
    && (forall i, j :: 0 <= i < j < |db.keys| ==> db.keys[i].id != db.keys[j].id)
    && (forall a, b :: a in bodies && b in bodies && bodies[a] == bodies[b] ==> a == b)
    && (forall a :: a in bodies ==> a in Ids(db.keys))
  }

  ghost predicate Owns(db: Database, bodies: map<string, Bytes>, presented: Bytes, r: Record) {
    r in db.keys && !r.revoked && r.id in bodies && bodies[r.id] == presented
  }

  /** A presented key verifies exactly when it is the body issued under an id that is still
      active, and Verify then reports that id's record. */
  lemma VerifyIsOwnership(lib: Lib, db: Database, bodies: map<string, Bytes>, presented: Bytes)
    requires CollisionFree(lib) && Issued(lib, db, bodies)
    ensures var found := Scan(lib, presented, db.keys);
            && (found.Some? ==> Owns(db, bodies, presented, found.value))
            && (forall r :: Owns(db, bodies, presented, r) ==> found == Some(r))
  {
    hide Issued, Scan, Matches, CollisionFree, Owns;
    var found := Scan(lib, presented, db.keys);
    ScanFindsLast(lib, presented, db.keys);
    forall i | 0 <= i < |db.keys|
      ensures Matches(lib, presented, db.keys[i]) <==> Owns(db, bodies, presented, db.keys[i])
    {
      MatchIsOwnership(lib, db, bodies, presented, i);
    }
    forall r | Owns(db, bodies, presented, r)
      ensures found == Some(r)
    {
      OwnsAt(db, bodies, presented, r);
      var j :| IsLastMatch(lib, presented, db.keys, j) && found == Some(db.keys[j]);
      assert Owns(db, bodies, presented, db.keys[j]);
      OneOwned(lib, db, bodies, presented, r, db.keys[j]);
    }
  }

  lemma MatchIsOwnership(lib: Lib, db: Database, bodies: map<string, Bytes>, presented: Bytes, i: nat)
    requires CollisionFree(lib) && Issued(lib, db, bodies) && i < |db.keys|
    ensures Matches(lib, presented, db.keys[i]) <==> Owns(db, bodies, presented, db.keys[i])
  {
    var r := db.keys[i];
    if Matches(lib, presented, r) {
      SaltedInjective(presented, r.salt, bodies[r.id], r.salt);
    }
  }

  lemma OwnsAt(db: Database, bodies: map<string, Bytes>, presented: Bytes, r: Record)
    requires Owns(db, bodies, presented, r)
    ensures exists i :: 0 <= i < |db.keys| && db.keys[i] == r
  {}

  /** Nobody but one record can own a body. */
  lemma OneOwned(lib: Lib, db: Database, bodies: map<string, Bytes>, presented: Bytes, r: Record, r': Record)
    requires Issued(lib, db, bodies) && Owns(db, bodies, presented, r) && Owns(db, bodies, presented, r')
    ensures r == r'
  {
    var i :| 0 <= i < |db.keys| && db.keys[i] == r;
    var j :| 0 <= j < |db.keys| && db.keys[j] == r';
    assert r.id == r'.id;
  }

  // ------------------------------------------------------------------ history

  /** r' is a later state of record r: identity and credentials are fixed, revocation is final, and
      a revoked record is frozen. */
  ghost predicate Evolves(r: Record, r': Record) {
    && r' == r.(lastUsed := r'.lastUsed, revoked := r'.revoked, revokedAt := r'.revokedAt)
    && (r.revoked ==> r' == r)
  }

  ghost predicate Extends(a: Database, b: Database) {
    && a.version == b.version && |a.keys| <= |b.keys|
    && forall i :: 0 <= i < |a.keys| ==> Evolves(a.keys[i], b.keys[i])
  }

  lemma ExtendsTransitive(a: Database, b: Database, c: Database)
    requires Extends(a, b) && Extends(b, c)
    ensures Extends(a, c)
  {
    forall i | 0 <= i < |a.keys| ensures Evolves(a.keys[i], c.keys[i]) {
      assert Evolves(a.keys[i], b.keys[i]) && Evolves(b.keys[i], c.keys[i]);
    }
  }
}
