/** Where the last-used times go: through the buffer, the snapshot in flight and the file, with
    failures at every step. */
module KeyUsage {

  import opened Wrappers
  import opened KeyDb
  import opened KeyRuns

  /** The time recorded for r: in the buffer, else in the newest snapshot in flight that has one,
      else on disk. */
  ghost function Noted(s: State, r: Record): Time {
    var i := Newest(s.flights, r.id);
    if r.id in s.buf then s.buf[r.id]
    else if i >= 0 then s.flights[i][r.id]
    else r.lastUsed
  }

  ghost predicate Tracked(s: State, r: Record) {
    !r.revoked && r.id in s.latest
  }

  /** No active key's latest use is missing, except those a failed write threw away. */
  ghost predicate Conserved(s: State) {
    forall r :: r in s.db.keys && Tracked(s, r) && r.id !in s.lost ==> Noted(s, r) == s.latest[r.id]
  }

  lemma KnownIds(lib: Lib, s: State)
    requires Inv(lib, s)
    ensures s.latest.Keys <= Ids(s.db.keys)
  {}

  /** The record a record of the next database comes from, if any, and what the step made of it. */
  lemma Origin(lib: Lib, s: State, op: Op, r': Record) returns (r: Option<Record>)
    requires Inv(lib, s) && Enabled(s, op) && r' in Step(lib, s, op).db.keys
    ensures r.None? ==> op.Create? && r'.id !in s.latest && r'.lastUsed == ZERO_TIME
    ensures r.Some? ==> r.value in s.db.keys && r.value.id == r'.id && (r.value.revoked ==> r'.revoked)
    ensures r.Some? ==> r'.lastUsed == if op.PersistWrite? && op.ok then Stamp(r.value, s.flights[op.flight]).lastUsed
                                       else r.value.lastUsed
  {
    hide Issued;
    var keys := Step(lib, s, op).db.keys;
    var i :| 0 <= i < |keys| && keys[i] == r';
    KnownIds(lib, s);
    if op.Create? {
      if i < |s.db.keys| {
        return Some(s.db.keys[i]);
      }
      return None;
    }
    assert |keys| == |s.db.keys|;
    return Some(s.db.keys[i]);
  }

  /** The step puts an older time of id in front of the one that counts: it writes the newest
      snapshot while an older one is still in flight, or takes an older one back into the buffer. */
  ghost predicate Displaces(s: State, op: Op, id: string) {
    && id !in s.buf
    && (op.PersistWrite? && op.ok && op.flight < |s.flights| ==>
          Newest(s.flights, id) == op.flight && exists j :: 0 <= j < op.flight && id in s.flights[j])
    && (op.PersistBlocked? && op.flight < |s.flights| ==>
          id in s.flights[op.flight] && Newest(s.flights, id) > op.flight)
    && ((op.PersistWrite? && op.ok) || op.PersistBlocked?) && op.flight < |s.flights|
  }

  ghost predicate Orderly(s: State, op: Op) {
    forall r :: r in s.db.keys && Tracked(s, r) && r.id !in s.lost ==> !Displaces(s, op, r.id)
  }

  /** What becomes of the newest copy when snapshot i leaves. */
  lemma NewestWithout(flights: seq<map<string, Time>>, i: nat, id: string)
    requires i < |flights|
    ensures var n, m := Newest(flights, id), Newest(Without(flights, i), id);
            && (n > i ==> m == n - 1) && (n < i ==> m == n)
            && (n == i ==> m < i && (m >= 0 <==> exists j :: 0 <= j < i && id in flights[j]))
            && (m >= 0 ==> Without(flights, i)[m] == flights[if m < i then m else m + 1])
  {
    var rest := Without(flights, i);
    assert forall j :: 0 <= j < |rest| ==> rest[j] == flights[if j < i then j else j + 1];
    assert forall j :: 0 <= j < |rest| ==> (j < i ==> rest[j] == flights[j]) && (j >= i ==> rest[j] == flights[j + 1]);
    var n, m := Newest(flights, id), Newest(rest, id);
    if n > i {
      assert id in rest[n - 1];
      if m >= 0 { assert id in flights[if m < i then m else m + 1]; }
    } else {
      if 0 <= n < i { assert id in rest[n]; }
      if j :| 0 <= j < i && id in flights[j] { assert id in rest[j]; }
    }
  }

  lemma NewestPushed(flights: seq<map<string, Time>>, buf: map<string, Time>, id: string)
    ensures Newest(flights + [buf], id) == if id in buf then |flights| else Newest(flights, id)
  {
    assert (flights + [buf])[..|flights|] == flights;
  }

  lemma WithoutAt(flights: seq<map<string, Time>>, i: nat)
    requires i < |flights|
    ensures |Without(flights, i)| == |flights| - 1
    ensures forall j :: 0 <= j < |flights| - 1 ==> Without(flights, i)[j] == flights[if j < i then j else j + 1]
  {}

  lemma SnapshotNoted(lib: Lib, s: State, r: Record)
    ensures Noted(Step(lib, s, Snapshot), r) == Noted(s, r)
  {
    hide Newest;
    NewestPushed(s.flights, s.buf, r.id);
  }

  lemma BlockedNoted(lib: Lib, s: State, i: nat, r: Record)
    requires i < |s.flights| && !Displaces(s, PersistBlocked(i), r.id)
    ensures Noted(Step(lib, s, PersistBlocked(i)), r) == Noted(s, r)
  {
    hide Newest, Without;
    NewestWithout(s.flights, i, r.id);
  }

  lemma WriteNoted(lib: Lib, s: State, i: nat, ok: bool, r: Record, r': Record)
    requires i < |s.flights| && r.id == r'.id && !r.revoked && !Displaces(s, PersistWrite(i, ok), r.id)
    requires r'.lastUsed == if ok then Stamp(r, s.flights[i]).lastUsed else r.lastUsed
    requires r.id !in LastCopies(s, i) || ok
    ensures Noted(Step(lib, s, PersistWrite(i, ok)), r') == Noted(s, r)
  {
    hide Newest, Without, Flushed;
    NewestWithout(s.flights, i, r.id);
  }

  /** No step but a use changes the recorded time of a key that it does not displace or lose. */
  lemma NotedStep(lib: Lib, s: State, op: Op, r: Record, r': Record)
    requires Enabled(s, op) && r.id == r'.id && !r.revoked && !Displaces(s, op, r.id) && !op.Verify?
    requires r'.lastUsed == if op.PersistWrite? && op.ok then Stamp(r, s.flights[op.flight]).lastUsed else r.lastUsed
    requires r.id in s.lost || r.id !in Step(lib, s, op).lost
    ensures r.id !in s.lost ==> Noted(Step(lib, s, op), r') == Noted(s, r)
  {
    hide Scan, Appended, Flushed, Revoked, Newest, Displaces, Without, LastCopies, Stamp;
    if r.id !in s.lost {
      match op {
        case Snapshot => SnapshotNoted(lib, s, r');
        case PersistBlocked(i) => BlockedNoted(lib, s, i, r');
        case PersistWrite(i, ok) => WriteNoted(lib, s, i, ok, r, r');
        case _ =>
      }
    }
  }

  lemma UseConserves(lib: Lib, s: State, op: Op)
    requires Conserved(s) && op.Verify?
    ensures Conserved(Step(lib, s, op))
  {
    hide Newest, Scan;
    var s' := Step(lib, s, op);
    forall r | r in s'.db.keys && Tracked(s', r) && r.id !in s'.lost
      ensures Noted(s', r) == s'.latest[r.id]
    {
      if s' != s && r.id != Scan(lib, op.presented, s.db.keys).value.id {
        assert Tracked(s, r);
      }
    }
  }

  lemma StepConserves(lib: Lib, s: State, op: Op)
    requires Inv(lib, s) && Enabled(s, op) && Conserved(s) && Orderly(s, op)
    ensures Conserved(Step(lib, s, op))
  {
    if op.Verify? {
      UseConserves(lib, s, op);
    } else {
      hide Inv, Scan, Appended, Flushed, Revoked, Newest, Displaces, Noted, LastCopies;
      var s' := Step(lib, s, op);
      forall r' | r' in s'.db.keys && Tracked(s', r') && r'.id !in s'.lost
        ensures Noted(s', r') == s'.latest[r'.id]
      {
        var r := Origin(lib, s, op, r');
        assert Tracked(s, r.value);
        NotedStep(lib, s, op, r.value, r');
      }
    }
  }

  /** No step of the run displaces a time that counts. */
  ghost predicate Undisturbed(lib: Lib, s: State, ops: seq<Op>)
    decreases |ops|
  {
    ops == [] || (Orderly(s, ops[0]) && Undisturbed(lib, Step(lib, s, ops[0]), ops[1..]))
  }

  /** At most k flushes are between their phases, at every moment of the run. */
  ghost predicate AtMost(lib: Lib, s: State, ops: seq<Op>, k: nat)
    decreases |ops|
  {
    |s.flights| <= k && (ops == [] || AtMost(lib, Step(lib, s, ops[0]), ops[1..], k))
  }

  ghost predicate OneFlusher(lib: Lib, s: State, ops: seq<Op>) {
    AtMost(lib, s, ops, 1)
  }

  /** One flusher at a time displaces nothing. */
  lemma {:induction false} OneFlusherUndisturbed(lib: Lib, s: State, ops: seq<Op>)
    requires OneFlusher(lib, s, ops)
    ensures Undisturbed(lib, s, ops)
    decreases |ops|
  {
    if ops != [] {
      OneFlusherUndisturbed(lib, Step(lib, s, ops[0]), ops[1..]);
    }
  }

  /** With any number of flushers, every active key's latest successful Verify is in the buffer, else
      in the newest snapshot in flight that has one, else on disk, through every failure but a
      failed write of that time, as long as no older time is put in front of it. */
  lemma {:induction false} UsageConserved(lib: Lib, s: State, ops: seq<Op>)
    requires Inv(lib, s) && Conserved(s) && Legal(lib, s, ops) && Undisturbed(lib, s, ops)
    ensures Conserved(Run(lib, s, ops))
    decreases |ops|
  {
    if ops != [] {
      StepConserves(lib, s, ops[0]);
      StepKeepsHistory(lib, s, ops[0]);
      UsageConserved(lib, Step(lib, s, ops[0]), ops[1..]);
    }
  }

  // ------------------------------------------------------------------ exactly what is lost

  /** Every successful Verify is later than all before it. */
  ghost predicate StrictClock(lib: Lib, s: State, ops: seq<Op>)
    decreases |ops|
  {
    ops == [] || (Ticks(s, ops[0]) && StrictClock(lib, Step(lib, s, ops[0]), ops[1..]))
  }

  ghost predicate Ticks(s: State, op: Op) {
    op.Verify? ==> ZERO_TIME < op.now && forall id :: id in s.latest ==> s.latest[id] < op.now
  }

  ghost predicate InFlight(s: State, id: string) {
    s.flights != [] && id in s.flights[0]
  }

  /** Times only move forward on their way from the buffer through the snapshot to the file. */
  ghost predicate Forward(s: State, r: Record) {
    if r.id !in s.latest then r.lastUsed == ZERO_TIME else
    var latest := s.latest[r.id];
    && r.lastUsed <= latest
    && (r.id in s.buf ==> r.lastUsed < s.buf[r.id] == latest)
    && (InFlight(s, r.id) ==>
          var flying := s.flights[0][r.id];
          r.lastUsed < flying <= latest && if r.id in s.buf then flying < s.buf[r.id] else flying == latest)
    && (r.id in s.lost ==> r.id !in s.buf && !InFlight(s, r.id) && r.lastUsed < latest)
  }

  ghost predicate AllForward(s: State) {
    && s.buf.Keys + s.lost <= s.latest.Keys
    && (s.flights != [] ==> s.flights[0].Keys <= s.latest.Keys)
    && forall r :: r in s.db.keys && !r.revoked ==> Forward(s, r)
  }

  lemma UseForward(lib: Lib, s: State, op: Op, r: Record)
    requires AllForward(s) && Ticks(s, op) && op.Verify? && Forward(s, r)
    ensures Forward(Step(lib, s, op), r)
  {
    hide Scan;
  }

  lemma FlightForward(lib: Lib, s: State, op: Op, r: Record, r': Record)
    requires Enabled(s, op) && Forward(s, r) && r.id == r'.id && !r.revoked
    requires op.Snapshot? || op.PersistBlocked? || op.PersistWrite?
    requires |s.flights| <= 1 && |Step(lib, s, op).flights| <= 1
    requires s.buf.Keys <= s.latest.Keys && (s.flights != [] ==> s.flights[0].Keys <= s.latest.Keys)
    requires r'.lastUsed == if op.PersistWrite? && op.ok then Stamp(r, s.flights[op.flight]).lastUsed else r.lastUsed
    ensures Forward(Step(lib, s, op), r')
  {
    hide Flushed, Newest, Without;
    if !op.Snapshot? {
      WithoutAt(s.flights, 0);
    }
  }

  lemma RecordForward(lib: Lib, s: State, op: Op, r: Record, r': Record)
    requires Enabled(s, op) && AllForward(s) && Ticks(s, op) && r in s.db.keys && r.id == r'.id && !r.revoked
    requires |s.flights| <= 1 && |Step(lib, s, op).flights| <= 1
    requires r'.lastUsed == if op.PersistWrite? && op.ok then Stamp(r, s.flights[op.flight]).lastUsed else r.lastUsed
    ensures Forward(Step(lib, s, op), r')
  {
    assert Forward(s, r);
    assert s.buf.Keys <= s.latest.Keys && (s.flights != [] ==> s.flights[0].Keys <= s.latest.Keys);
    if op.Verify? {
      UseForward(lib, s, op, r);
      hide Step, AllForward;
      SameForward(Step(lib, s, op), r, r');
    } else if op.Snapshot? || op.PersistBlocked? || op.PersistWrite? {
      hide Step, AllForward, Forward;
      FlightForward(lib, s, op, r, r');
    } else {
      hide Appended, Revoked, AllForward;
    }
  }

  lemma SameForward(s: State, r: Record, r': Record)
    requires Forward(s, r) && r.id == r'.id && r.lastUsed == r'.lastUsed
    ensures Forward(s, r')
  {}

  lemma StepForward(lib: Lib, s: State, op: Op)
    requires Inv(lib, s) && Enabled(s, op) && AllForward(s) && Ticks(s, op)
    requires |s.flights| <= 1 && |Step(lib, s, op).flights| <= 1
    ensures AllForward(Step(lib, s, op))
  {
    hide Inv, Scan, Appended, Flushed, Revoked, Newest, Forward;
    var s' := Step(lib, s, op);
    forall r' | r' in s'.db.keys && !r'.revoked ensures Forward(s', r') {
      var r := Origin(lib, s, op, r');
      if r.Some? {
        RecordForward(lib, s, op, r.value, r');
      } else {
        assert Forward(s', r') by { NewForward(lib, s, op, r'); }
      }
    }
  }

  lemma NewForward(lib: Lib, s: State, op: Op, r': Record)
    requires op.Create? && r'.id !in s.latest && r'.lastUsed == ZERO_TIME
    ensures Forward(Step(lib, s, op), r')
  {}

  lemma {:induction false} ForwardRun(lib: Lib, s: State, ops: seq<Op>)
    requires Inv(lib, s) && AllForward(s) && Conserved(s)
    requires Legal(lib, s, ops) && OneFlusher(lib, s, ops) && StrictClock(lib, s, ops)
    ensures AllForward(Run(lib, s, ops)) && Conserved(Run(lib, s, ops))
    decreases |ops|
  {
    hide Inv, Conserved, AllForward, Step, Enabled, Ticks, Orderly;
    if ops != [] {
      assert AtMost(lib, Step(lib, s, ops[0]), ops[1..], 1);
      StepForward(lib, s, ops[0]);
      OneFlusherUndisturbed(lib, s, ops);
      StepConserves(lib, s, ops[0]);
      StepKeepsHistory(lib, s, ops[0]);
      ForwardRun(lib, Step(lib, s, ops[0]), ops[1..]);
    }
  }

  /** Every copy of r's time but the one that counts is older than its latest use, and after a loss
      that one is too. */
  ghost predicate Superseded(s: State, r: Record) {
    if r.id !in s.latest then r.lastUsed == ZERO_TIME else
    var latest, n := s.latest[r.id], Newest(s.flights, r.id);
    && (r.id in s.buf ==> s.buf[r.id] <= latest)
    && (forall j :: 0 <= j < |s.flights| && r.id in s.flights[j] ==>
          s.flights[j][r.id] <= latest && (r.id in s.buf || j != n ==> s.flights[j][r.id] < latest))
    && r.lastUsed <= latest && (r.id in s.buf || n >= 0 ==> r.lastUsed < latest)
    && (r.id in s.lost ==> Noted(s, r) < latest)
  }

  /** Only ids with a successful use are buffered, in flight or lost. */
  ghost predicate OnlyUsed(s: State) {
    && s.buf.Keys + s.lost <= s.latest.Keys
    && forall j :: 0 <= j < |s.flights| ==> s.flights[j].Keys <= s.latest.Keys
  }

  ghost predicate AllSuperseded(s: State) {
    OnlyUsed(s) && forall r :: r in s.db.keys && !r.revoked ==> Superseded(s, r)
  }

  lemma StepOnlyUsed(lib: Lib, s: State, op: Op)
    requires OnlyUsed(s) && Enabled(s, op)
    ensures OnlyUsed(Step(lib, s, op))
  {
    hide Scan, Appended, Flushed, Revoked, Newest;
  }

  lemma UseSupersedes(lib: Lib, s: State, op: Op, r: Record)
    requires op.Verify? && Ticks(s, op) && Superseded(s, r) && OnlyUsed(s)
    ensures Superseded(Step(lib, s, op), r)
  {
    hide Scan;
  }

  /** What r's copies are like before a step that neither loses nor displaces its latest use. */
  ghost predicate Steady(s: State, op: Op, r: Record) {
    && !r.revoked && Superseded(s, r) && OnlyUsed(s)
    && (r.id in s.latest ==> r.id in s.lost || (Noted(s, r) == s.latest[r.id] && !Displaces(s, op, r.id)))
  }

  lemma SnapshotSupersedes(lib: Lib, s: State, r: Record)
    requires Steady(s, Snapshot, r)
    ensures Superseded(Step(lib, s, Snapshot), r)
  {
    hide Newest;
    NewestPushed(s.flights, s.buf, r.id);
  }

  lemma BlockedSupersedes(lib: Lib, s: State, i: nat, r: Record)
    requires Steady(s, PersistBlocked(i), r) && i < |s.flights|
    ensures Superseded(Step(lib, s, PersistBlocked(i)), r)
  {
    hide Newest;
    NewestWithout(s.flights, i, r.id);
    WithoutAt(s.flights, i);
  }

  lemma WriteSupersedes(lib: Lib, s: State, i: nat, ok: bool, r: Record, r': Record)
    requires Steady(s, PersistWrite(i, ok), r) && i < |s.flights| && r'.id == r.id
    requires r'.lastUsed == if ok then Stamp(r, s.flights[i]).lastUsed else r.lastUsed
    ensures Superseded(Step(lib, s, PersistWrite(i, ok)), r')
  {
    hide Newest, Flushed, Without;
    NewestWithout(s.flights, i, r.id);
    WithoutAt(s.flights, i);
  }

  lemma StepSuperseded(lib: Lib, s: State, op: Op, r: Record, r': Record)
    requires Enabled(s, op) && !op.Verify? && r.id == r'.id && Steady(s, op, r)
    requires r'.lastUsed == if op.PersistWrite? && op.ok then Stamp(r, s.flights[op.flight]).lastUsed else r.lastUsed
    ensures Superseded(Step(lib, s, op), r')
  {
    hide Scan, Appended, Flushed, Revoked, Newest;
    match op {
      case Snapshot => SnapshotSupersedes(lib, s, r);
      case PersistBlocked(i) => BlockedSupersedes(lib, s, i, r);
      case PersistWrite(i, ok) => WriteSupersedes(lib, s, i, ok, r, r');
      case _ =>
    }
  }

  lemma StepAllSuperseded(lib: Lib, s: State, op: Op)
    requires Inv(lib, s) && Enabled(s, op) && AllSuperseded(s) && Conserved(s) && Orderly(s, op) && Ticks(s, op)
    ensures AllSuperseded(Step(lib, s, op))
  {
    hide Inv, Scan, Appended, Flushed, Revoked, Newest, Displaces, Noted, LastCopies, Superseded, OnlyUsed;
    var s' := Step(lib, s, op);
    StepOnlyUsed(lib, s, op);
    forall r' | r' in s'.db.keys && !r'.revoked ensures Superseded(s', r') {
      if op.Verify? {
        UseSupersedes(lib, s, op, r');
      } else {
        var r := Origin(lib, s, op, r');
        if r.Some? {
          StepSuperseded(lib, s, op, r.value, r');
        } else {
          NewSuperseded(lib, s, op, r');
        }
      }
    }
  }

  lemma NewSuperseded(lib: Lib, s: State, op: Op, r': Record)
    requires op.Create? && r'.id !in s.latest && r'.lastUsed == ZERO_TIME
    ensures Superseded(Step(lib, s, op), r')
  {}

  /** A step that displaces a time that counts leaves that key with an older one. */
  lemma DisplacedIsOlder(lib: Lib, s: State, op: Op, r: Record)
    requires Enabled(s, op) && AllSuperseded(s) && r in s.db.keys && Tracked(s, r) && r.id !in s.lost
    requires Displaces(s, op, r.id)
    ensures !Conserved(Step(lib, s, op))
  {
    hide Scan, Newest;
    var s' := Step(lib, s, op);
    NewestWithout(s.flights, op.flight, r.id);
    var i :| 0 <= i < |s.db.keys| && s.db.keys[i] == r;
    var r' := s'.db.keys[i];
    assert r' in s'.db.keys && Tracked(s', r') && r'.id == r.id && r.id !in s'.lost;
    assert Superseded(s, r);
    assert Noted(s', r') < s'.latest[r.id];
  }

  /** On a ticking clock one step keeps the latest uses exactly when it displaces none. */
  lemma StepConservesIff(lib: Lib, s: State, op: Op)
    requires Inv(lib, s) && Enabled(s, op) && Conserved(s) && AllSuperseded(s)
    ensures Conserved(Step(lib, s, op)) <==> Orderly(s, op)
  {
    hide Inv, Step, Conserved, AllSuperseded, Displaces;
    if Orderly(s, op) {
      StepConserves(lib, s, op);
    } else {
      var r :| r in s.db.keys && Tracked(s, r) && r.id !in s.lost && Displaces(s, op, r.id);
      DisplacedIsOlder(lib, s, op, r);
    }
  }

  ghost predicate AlwaysConserved(lib: Lib, s: State, ops: seq<Op>)
    decreases |ops|
  {
    Conserved(s) && (ops == [] || AlwaysConserved(lib, Step(lib, s, ops[0]), ops[1..]))
  }

  lemma {:induction false} ConservedRunIff(lib: Lib, s: State, ops: seq<Op>)
    requires Inv(lib, s) && AllSuperseded(s) && Conserved(s)
    requires Legal(lib, s, ops) && StrictClock(lib, s, ops)
    ensures AlwaysConserved(lib, s, ops) <==> Undisturbed(lib, s, ops)
    ensures Undisturbed(lib, s, ops) ==> AllSuperseded(Run(lib, s, ops)) && Conserved(Run(lib, s, ops))
    decreases |ops|
  {
    hide Inv, Step, Conserved, AllSuperseded, Orderly, Enabled, Ticks;
    if ops != [] {
      StepConservesIff(lib, s, ops[0]);
      StepKeepsHistory(lib, s, ops[0]);
      if Orderly(s, ops[0]) {
        StepAllSuperseded(lib, s, ops[0]);
        ConservedRunIff(lib, Step(lib, s, ops[0]), ops[1..]);
      }
    }
  }

  /** For any number of flushers, any failures and a clock that ticks between uses: the latest use of
      every active key is on record at every moment of a run, up to failed writes, exactly when no
      flush puts an older time in front of it. */
  lemma ConservedIffUndisturbed(lib: Lib, ops: seq<Op>)
    requires Legal(lib, INIT, ops) && StrictClock(lib, INIT, ops)
    ensures AlwaysConserved(lib, INIT, ops) <==> Undisturbed(lib, INIT, ops)
  {
    ConservedRunIff(lib, INIT, ops);
  }

  /** In such a run an active key's latest use is missing exactly when a failed write had its only
      copy in hand and no use followed. */
  lemma LossIsExact(lib: Lib, ops: seq<Op>, r: Record)
    requires Legal(lib, INIT, ops) && Undisturbed(lib, INIT, ops) && StrictClock(lib, INIT, ops)
    requires r in Run(lib, INIT, ops).db.keys && Tracked(Run(lib, INIT, ops), r)
    ensures var s := Run(lib, INIT, ops);
            Noted(s, r) == s.latest[r.id] <==> r.id !in s.lost
  {
    ConservedRunIff(lib, INIT, ops);
    var s := Run(lib, INIT, ops);
    assert Superseded(s, r);
  }

  ghost predicate NoFailedWrite(ops: seq<Op>) {
    forall i :: 0 <= i < |ops| && ops[i].PersistWrite? ==> ops[i].ok
  }

  lemma {:induction false} NothingLost(lib: Lib, s: State, ops: seq<Op>)
    requires s.lost == {} && NoFailedWrite(ops)
    ensures Run(lib, s, ops).lost == {}
    decreases |ops|
  {
    if ops != [] {
      assert ops[0] == ops[0..][0];
      NothingLost(lib, Step(lib, s, ops[0]), ops[1..]);
    }
  }

  lemma StartConserved(lib: Lib)
    ensures Conserved(INIT) && Inv(lib, INIT)
  {}

  /** With nothing buffered and nothing in flight, what is on record is on disk. */
  lemma OnDisk(s: State)
    requires Conserved(s) && s.buf == map[] && s.flights == []
    ensures forall r :: r in s.db.keys && Tracked(s, r) && r.id !in s.lost ==> r.lastUsed == s.latest[r.id]
  {}

  lemma FlushShape(lib: Lib, s: State)
    requires s.flights == []
    ensures var mid := Step(lib, s, Snapshot);
            var end := Step(lib, mid, PersistWrite(0, true));
            && Orderly(s, Snapshot) && Orderly(mid, PersistWrite(0, true)) && mid.buf == map[] && mid.lost == s.lost
            && (mid.flights == [] || |mid.flights| == 1) && (mid.flights == [] ==> end == mid)
            && end.buf == map[] && end.flights == [] && end.lost == s.lost
  {
    hide Newest, Flushed, Tracked;
  }

  /** A whole successful flush from a state with nothing in flight. */
  lemma FinalFlush(lib: Lib, s: State)
    requires Inv(lib, s) && Conserved(s) && s.flights == []
    ensures var end := Step(lib, Step(lib, s, Snapshot), PersistWrite(0, true));
            && end.buf == map[] && end.flights == [] && end.lost == s.lost
            && (forall r :: r in end.db.keys && Tracked(end, r) && r.id !in end.lost ==> r.lastUsed == end.latest[r.id])
  {
    var mid := Step(lib, s, Snapshot);
    FlushShape(lib, s);
    assert Enabled(s, Snapshot) && (mid.flights != [] ==> Enabled(mid, PersistWrite(0, true)));
    hide Step, Inv, Conserved, Orderly, Enabled, Noted, Tracked;
    StepConserves(lib, s, Snapshot);
    if mid.flights != [] {
      StepKeepsHistory(lib, s, Snapshot);
      StepConserves(lib, mid, PersistWrite(0, true));
    }
    OnDisk(Step(lib, mid, PersistWrite(0, true)));
  }

  /** After a drained shutdown whose flush succeeds, every active key's latest use is on disk, except
      what earlier failed writes threw away; if none failed, all of it. */
  lemma DrainedFlush(lib: Lib, ops: seq<Op>)
    requires Legal(lib, INIT, ops) && Undisturbed(lib, INIT, ops)
    requires Run(lib, INIT, ops).flights == []
    ensures var s := Run(lib, INIT, ops);
            var end := Step(lib, Step(lib, s, Snapshot), PersistWrite(0, true));
            && end.buf == map[] && end.flights == [] && end.lost == s.lost
            && (forall r :: r in end.db.keys && Tracked(end, r) && r.id !in end.lost ==> r.lastUsed == end.latest[r.id])
            && (NoFailedWrite(ops) ==> end.lost == {})
  {
    hide Legal, Undisturbed, Conserved, Noted, Flushed, Run;
    var s := Run(lib, INIT, ops);
    assert Conserved(INIT) && Inv(lib, INIT) by { StartConserved(lib); }
    UsageConserved(lib, INIT, ops);
    HistoryRun(lib, INIT, ops);
    if NoFailedWrite(ops) { NothingLost(lib, INIT, ops); }
    FinalFlush(lib, s);
  }

  /** From s, the run is legal, on a ticking clock, free of failed writes, has at most two flushes in
      flight, and ends in end. */
  ghost predicate CleanRun(lib: Lib, s: State, ops: seq<Op>, end: State) {
    AtMost(lib, s, ops, 2) && Legal(lib, s, ops) && StrictClock(lib, s, ops) && NoFailedWrite(ops) && Run(lib, s, ops) == end
  }

  lemma CleanStep(lib: Lib, s: State, op: Op, s': State, rest: seq<Op>, end: State)
    requires Enabled(s, op) && Ticks(s, op) && Step(lib, s, op) == s' && (op.PersistWrite? ==> op.ok) && |s.flights| <= 2
    requires CleanRun(lib, s', rest, end)
    ensures CleanRun(lib, s, [op] + rest, end)
  {
    assert ([op] + rest)[1..] == rest;
  }

  /** A store with the single key "body", unused buffer, and the given snapshots in flight. */
  function OneKey(lib: Lib, used: Time, buf: map<string, Time>, flights: seq<map<string, Time>>, latest: map<string, Time>): State {
    var r := NewRecord(lib, "", "body", seq(SALT_BYTES, _ => '0'), "id", 1);
    State(Database(DB_VERSION, [r.(lastUsed := used)]), buf, flights, map["id" := "body"], latest, {})
  }

  lemma UseFirst(lib: Lib, flights: seq<map<string, Time>>, latest: map<string, Time>, now: Time, rest: seq<Op>, end: State)
    requires |flights| <= 1
    requires 0 < now && forall id :: id in latest ==> id == "id" && latest[id] < now
    requires CleanRun(lib, OneKey(lib, ZERO_TIME, map["id" := now], flights, map["id" := now]), rest, end)
    ensures CleanRun(lib, OneKey(lib, ZERO_TIME, map[], flights, latest), [Verify("body", now)] + rest, end)
  {
    var s := OneKey(lib, ZERO_TIME, map[], flights, latest);
    assert Scan(lib, "body", s.db.keys) == Some(s.db.keys[0]);
    CleanStep(lib, s, Verify("body", now), OneKey(lib, ZERO_TIME, map["id" := now], flights, map["id" := now]), rest, end);
  }

  lemma SnapshotFirst(lib: Lib, flights: seq<map<string, Time>>, latest: map<string, Time>, t: Time, rest: seq<Op>, end: State)
    requires |flights| <= 1
    requires CleanRun(lib, OneKey(lib, ZERO_TIME, map[], flights + [map["id" := t]], latest), rest, end)
    ensures CleanRun(lib, OneKey(lib, ZERO_TIME, map["id" := t], flights, latest), [Snapshot] + rest, end)
  {
    assert "id" in map["id" := t];
    CleanStep(lib, OneKey(lib, ZERO_TIME, map["id" := t], flights, latest), Snapshot,
              OneKey(lib, ZERO_TIME, map[], flights + [map["id" := t]], latest), rest, end);
  }

  lemma PersistFirst(lib: Lib, used: Time, flights: seq<map<string, Time>>, latest: map<string, Time>, t: Time, rest: seq<Op>, end: State)
    requires |flights| <= 1
    requires CleanRun(lib, OneKey(lib, t, map[], flights, latest), rest, end)
    ensures CleanRun(lib, OneKey(lib, used, map[], flights + [map["id" := t]], latest), [PersistWrite(|flights|, true)] + rest, end)
  {
    var s := OneKey(lib, used, map[], flights + [map["id" := t]], latest);
    assert Without(s.flights, |flights|) == flights;
    assert Flushed(s.db, map["id" := t]).keys == [s.db.keys[0].(lastUsed := t)];
    CleanStep(lib, s, PersistWrite(|flights|, true), OneKey(lib, t, map[], flights, latest), rest, end);
  }

  /** With two flushers at once the guarantee fails without any failure: the older snapshot,
      written last, takes the file back. */
  lemma TwoFlushersLose(lib: Lib)
    ensures exists ops :: Legal(lib, INIT, ops) && StrictClock(lib, INIT, ops) && NoFailedWrite(ops)
              && AtMost(lib, INIT, ops, 2) && !Conserved(Run(lib, INIT, ops))
  {
    var end := OneKey(lib, 2, map[], [], map["id" := 3]);
    assert CleanRun(lib, end, [], end);
    assert end.db.keys[0] in end.db.keys && Noted(end, end.db.keys[0]) == 2;
    var ops := OverlappingFlushes(lib, end);
    var create := Create("", "body", seq(SALT_BYTES, _ => '0'), "id", 1, true);
    CleanStep(lib, INIT, create, OneKey(lib, ZERO_TIME, map[], [], map[]), ops, end);
  }

  /** Every run on a ticking clock with at most k flushes in flight keeps the latest uses on record. */
  ghost predicate FlushersConserve(lib: Lib, k: nat) {
    forall ops :: Legal(lib, INIT, ops) && StrictClock(lib, INIT, ops) && AtMost(lib, INIT, ops, k) ==>
      AlwaysConserved(lib, INIT, ops)
  }

  lemma {:induction false} AlwaysConservedEnd(lib: Lib, s: State, ops: seq<Op>)
    requires AlwaysConserved(lib, s, ops)
    ensures Conserved(Run(lib, s, ops))
    decreases |ops|
  {
    hide Conserved, Step;
    if ops != [] { AlwaysConservedEnd(lib, Step(lib, s, ops[0]), ops[1..]); }
  }

  lemma {:induction false} AtMostMore(lib: Lib, s: State, ops: seq<Op>, k: nat, n: nat)
    requires AtMost(lib, s, ops, k) && k <= n
    ensures AtMost(lib, s, ops, n)
    decreases |ops|
  {
    hide Step;
    if ops != [] { AtMostMore(lib, Step(lib, s, ops[0]), ops[1..], k, n); }
  }

  /** The rule for callers: whatever fails, the latest uses stay on record, up to failed writes,
      exactly when flushes never overlap. */
  lemma ConservedIffOneFlusher(lib: Lib, k: nat)
    ensures FlushersConserve(lib, k) <==> k <= 1
  {
    hide Legal, StrictClock, AlwaysConserved, AtMost, Conserved, Run;
    if k <= 1 {
      forall ops | Legal(lib, INIT, ops) && StrictClock(lib, INIT, ops) && AtMost(lib, INIT, ops, k)
        ensures AlwaysConserved(lib, INIT, ops)
      {
        AtMostMore(lib, INIT, ops, k, 1);
        OneFlusherUndisturbed(lib, INIT, ops);
        ConservedIffUndisturbed(lib, ops);
      }
    } else {
      TwoFlushersLose(lib);
      var ops :| Legal(lib, INIT, ops) && StrictClock(lib, INIT, ops) && NoFailedWrite(ops)
                 && AtMost(lib, INIT, ops, 2) && !Conserved(Run(lib, INIT, ops));
      AtMostMore(lib, INIT, ops, 2, k);
      if AlwaysConserved(lib, INIT, ops) { AlwaysConservedEnd(lib, INIT, ops); }
    }
  }

  /** Two uses, each snapshotted by a flusher of its own, persisted in the wrong order. */
  lemma OverlappingFlushes(lib: Lib, end: State) returns (ops: seq<Op>)
    requires end == OneKey(lib, 2, map[], [], map["id" := 3]) && CleanRun(lib, end, [], end)
    ensures CleanRun(lib, OneKey(lib, ZERO_TIME, map[], [], map[]), ops, end)
  {
    hide OneKey, CleanRun;
    var use2, use3 := map["id" := 2], map["id" := 3];
    ops := [];
    PersistFirst(lib, 3, [], use3, 2, ops, end);
    ops := [PersistWrite(0, true)] + ops;
    assert [] + [use2] == [use2];
    PersistFirst(lib, ZERO_TIME, [use2], use3, 3, ops, end);
    ops := [PersistWrite(1, true)] + ops;
    SnapshotFirst(lib, [use2], use3, 3, ops, end);
    ops := [Snapshot] + ops;
    UseFirst(lib, [use2], use2, 3, ops, end);
    ops := [Verify("body", 3)] + ops;
    SnapshotFirst(lib, [], use2, 2, ops, end);
    ops := [Snapshot] + ops;
    UseFirst(lib, [], map[], 2, ops, end);
    ops := [Verify("body", 2)] + ops;
  }
}
