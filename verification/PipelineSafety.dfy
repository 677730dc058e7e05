/** What the server promises over whole runs: one record for every request, no service behind a
    revoked key, limiters that only issued keys can grow, and the rate bound on success records. */
module PipelineSafety {

  import opened Wrappers
  import opened KeyDb
  import opened KeyRuns
  import RL = RateLimit
  import opened Pipeline
  import opened PipelineRuns

  // ----- one record for every request -----

  function LogSerials(log: seq<Logged>): multiset<nat> {
    if log == [] then multiset{} else LogSerials(log[..|log| - 1]) + multiset{log[|log| - 1].serial}
  }

  function TicketSerials(pending: seq<Ticket>): multiset<nat> {
    if pending == [] then multiset{} else TicketSerials(pending[..|pending| - 1]) + multiset{pending[|pending| - 1].serial}
  }

  function Upto(n: nat): multiset<nat> {
    if n == 0 then multiset{} else Upto(n - 1) + multiset{n - 1}
  }

  /** The success records of the log, as the calls they stand for. */
  function Successes(log: seq<Logged>): seq<(nat, Call)> {
    if log == [] then []
    else
      var last := log[|log| - 1];
      Successes(log[..|log| - 1])
      + (if last.record.verdict.Success? then [(last.serial, Call(last.record.fp, last.record.remote))] else [])
  }

  function MuxCalls(mux: seq<Served>): seq<(nat, Call)> {
    if mux == [] then []
    else
      var last := mux[|mux| - 1];
      MuxCalls(mux[..|mux| - 1]) + [(last.serial, Call(last.fp, last.remote))]
  }

  lemma LogPush(log: seq<Logged>, x: Logged)
    ensures LogSerials(log + [x]) == LogSerials(log) + multiset{x.serial}
    ensures Successes(log + [x])
            == Successes(log) + (if x.record.verdict.Success? then [(x.serial, Call(x.record.fp, x.record.remote))] else [])
  {
    assert (log + [x])[..|log|] == log;
  }

  lemma MuxPush(mux: seq<Served>, x: Served)
    ensures MuxCalls(mux + [x]) == MuxCalls(mux) + [(x.serial, Call(x.fp, x.remote))]
  {
    assert (mux + [x])[..|mux|] == mux;
  }

  lemma {:induction false} TicketTaken(pending: seq<Ticket>, i: nat)
    requires i < |pending|
    ensures TicketSerials(pending) == TicketSerials(Without(pending, i)) + multiset{pending[i].serial}
    decreases |pending|
  {
    hide TicketSerials, Without;
    var n := |pending| - 1;
    var init, last := pending[..n], pending[n];
    assert pending == init + [last];
    WithoutLast(init, last, i);
    TicketPush(init, last);
    if i < n {
      TicketTaken(init, i);
      TicketPush(Without(init, i), last);
    }
  }

  lemma WithoutLast<T>(s: seq<T>, x: T, i: nat)
    requires i <= |s|
    ensures Without(s + [x], i) == if i == |s| then s else Without(s, i) + [x]
  {
    var t := s + [x];
    assert t[..i] == s[..i];
    if i < |s| {
      assert t[i + 1..] == s[i + 1..] + [x];
    } else {
      assert t[i + 1..] == [];
    }
  }

  lemma TicketPush(pending: seq<Ticket>, x: Ticket)
    ensures TicketSerials(pending + [x]) == TicketSerials(pending) + multiset{x.serial}
  {
    assert (pending + [x])[..|pending|] == pending;
  }

  /** Every request that arrived is logged or waiting, once; the mux was called for the logged
      successes, in their order. */
  ghost predicate Accounted(w: World) {
    && LogSerials(w.log) + TicketSerials(w.pending) == Upto(w.arrivals)
    && Successes(w.log) == MuxCalls(w.mux)
  }

  lemma StepAccounted(u: Setup, w: World, e: Event)
    requires Accounted(w)
    ensures Accounted(Next(u, w, e))
  {
    hide RL.AllowStep, Turned, KeyRuns.Step, LogSerials, TicketSerials, Successes, MuxCalls;
    var w' := Next(u, w, e);
    match e {
      case Keys(op) =>
      case Gc(at) =>
      case Arrive(req, now, fault) => ArriveAccounted(u, w, req, now, fault);
      case Charge(i, at) =>
        if i < |w.pending| {
          TicketTaken(w.pending, i);
          LogPush(w.log, w'.log[|w.log|]);
          if w'.mux != w.mux { MuxPush(w.mux, w'.mux[|w.mux|]); }
        }
    }
  }

  lemma ArriveAccounted(u: Setup, w: World, req: Request, now: Time, fault: Option<StoreError>)
    requires Accounted(w)
    ensures Accounted(Arrived(u, w, req, now, fault))
  {
    hide KeyRuns.Step, LogSerials, TicketSerials, Successes, MuxCalls, Listed, OriginListed;
    match RulingOf(u, w, req, now, fault) {
      case Refused(_, record) => LogPush(w.log, Logged(w.arrivals, record));
      case Passed(fp, _) =>
        TicketPush(w.pending, Ticket(w.arrivals, Bearer(u.gate.text, req.authorization).value, Shown(fp), req.remote, req));
    }
  }

  lemma {:induction false} AccountedRun(u: Setup, w: World, evs: seq<Event>)
    requires Accounted(w)
    ensures Accounted(Play(u, w, evs))
    decreases |evs|
  {
    if evs != [] {
      StepAccounted(u, w, evs[0]);
      AccountedRun(u, Next(u, w, evs[0]), evs[1..]);
    }
  }

  lemma {:induction false} UptoCounts(n: nat, k: nat)
    ensures Upto(n)[k] == if k < n then 1 else 0
  {
    if n > 0 { UptoCounts(n - 1, k); }
  }

  /** In every run, a request that has arrived has one audit record or is still waiting for its
      charge, never both, and the mux has been called for the success records exactly. */
  lemma OneRecordEach(u: Setup, evs: seq<Event>, serial: nat)
    ensures var w := Play(u, START, evs);
            && LogSerials(w.log)[serial] + TicketSerials(w.pending)[serial] == (if serial < w.arrivals then 1 else 0)
            && Successes(w.log) == MuxCalls(w.mux)
  {
    AccountedRun(u, START, evs);
    UptoCounts(Play(u, START, evs).arrivals, serial);
  }

  // ----- the gate -----

  /** The request a ticket or a service stands for passed the gate with this token, from this address. */
  ghost predicate Gated(gate: Gate, req: Request, token: Bytes, remote: string) {
    HostKnown(gate, req) && OriginFits(gate, req) && Presents(gate, req, token) && remote == req.remote
  }

  ghost predicate AllGated(u: Setup, w: World) {
    && (forall t :: t in w.pending ==> Gated(u.gate, t.req, t.token, t.remote))
    && (forall s :: s in w.mux ==> Gated(u.gate, s.req, s.token, s.remote))
  }

  lemma StepGated(u: Setup, w: World, e: Event)
    requires AllGated(u, w)
    ensures AllGated(u, Next(u, w, e))
  {
    hide RL.AllowStep, RL.GcStep, KeyRuns.Step, Gated, Turned, Judged, Bearer;
    match e {
      case Arrive(req, now, fault) =>
        GateExact(u.gate, req);
        assert RulingOf(u, w, req, now, fault).Passed? ==>
          Gated(u.gate, req, Bearer(u.gate.text, req.authorization).value, req.remote) by { PassedIsGated(u, w, req, now, fault); }
      case Charge(i, at) => if i < |w.pending| { WithoutIn(w.pending, i); }
      case Keys(_) =>
      case Gc(_) =>
    }
  }

  lemma PassedIsGated(u: Setup, w: World, req: Request, now: Time, fault: Option<StoreError>)
    ensures RulingOf(u, w, req, now, fault).Passed? ==>
              Bearer(u.gate.text, req.authorization).Some?
              && Gated(u.gate, req, Bearer(u.gate.text, req.authorization).value, req.remote)
  {
    hide HostKnown, OriginFits;
    GateExact(u.gate, req);
  }

  lemma {:induction false} GatedRun(u: Setup, w: World, evs: seq<Event>)
    requires AllGated(u, w)
    ensures AllGated(u, Play(u, w, evs))
    decreases |evs|
  {
    if evs != [] {
      StepGated(u, w, evs[0]);
      GatedRun(u, Next(u, w, evs[0]), evs[1..]);
    }
  }

  /** In every run no request with an unlisted host, an unlisted origin or without a bearer token is
      ever waiting for its charge or served. */
  lemma OnlyGated(u: Setup, evs: seq<Event>)
    ensures AllGated(u, Play(u, START, evs))
  {
    GatedRun(u, START, evs);
  }

  // ----- revocation -----

  /** Every ticket and every served request presented an issued body, and goes by its fingerprint;
      the limiter has no key entry for anybody else. */
  ghost predicate Honest(u: Setup, w: World) {
    && Inv(u.lib, w.keys)
    && (forall t :: t in w.pending ==> t.token in w.keys.bodies.Values && t.fp == Shown(u.lib.fingerprint(t.token)))
    && (forall s :: s in w.mux ==> s.token in w.keys.bodies.Values && s.fp == Shown(u.lib.fingerprint(s.token)))
    && (forall fp :: fp in w.tables.perKey ==> IssuedPrint(u.lib, w.keys.bodies, fp))
    && (forall t :: t in w.pending ==> t.serial < w.arrivals)
  }

  ghost predicate IssuedPrint(lib: Lib, bodies: map<string, Bytes>, fp: string) {
    exists body :: body in bodies.Values && fp == Shown(lib.fingerprint(body))
  }

  lemma ValuesGrow(a: map<string, Bytes>, b: map<string, Bytes>)
    requires Grows(a, b)
    ensures a.Values <= b.Values
  {
    forall v | v in a.Values ensures v in b.Values {
      var k :| k in a && a[k] == v;
      assert b[k] == v;
    }
  }

  /** The key side of one event is one step of the key machine, or none. */
  ghost function KeyOps(u: Setup, w: World, e: Event): seq<Op> {
    match e
    case Keys(op) => [op]
    case Arrive(req, now, fault) =>
      if RulingOf(u, w, req, now, fault).Passed? then [Verify(Bearer(u.gate.text, req.authorization).value, now)] else []
    case _ => []
  }

  lemma KeySide(u: Setup, w: World, e: Event)
    requires Fits(u, w, e)
    ensures Next(u, w, e).keys == KeyRuns.Run(u.lib, w.keys, KeyOps(u, w, e))
    ensures KeyRuns.Legal(u.lib, w.keys, KeyOps(u, w, e))
  {
    hide KeyRuns.Step, RL.AllowStep, Turned, Judged;
    var ops := KeyOps(u, w, e);
    if ops != [] {
      assert ops == [ops[0]];
      assert KeyRuns.Run(u.lib, w.keys, ops) == KeyRuns.Run(u.lib, KeyRuns.Step(u.lib, w.keys, ops[0]), []);
    }
  }

  lemma KeysHistory(u: Setup, w: World, e: Event)
    requires Inv(u.lib, w.keys) && Fits(u, w, e)
    ensures var s' := Next(u, w, e).keys;
            && Inv(u.lib, s') && Extends(w.keys.db, s'.db)
            && Grows(w.keys.bodies, s'.bodies) && w.keys.bodies.Values <= s'.bodies.Values
  {
    hide Extends, Issued;
    KeySide(u, w, e);
    HistoryRun(u.lib, w.keys, KeyOps(u, w, e));
    ValuesGrow(w.keys.bodies, Next(u, w, e).keys.bodies);
  }

  /** Whoever passes holds an issued body. */
  lemma PassHolds(u: Setup, w: World, req: Request, now: Time, fault: Option<StoreError>)
    requires CollisionFree(u.lib) && Inv(u.lib, w.keys)
    requires RulingOf(u, w, req, now, fault).Passed?
    ensures var token := Bearer(u.gate.text, req.authorization).value;
            && Bearer(u.gate.text, req.authorization).Some?
            && Scan(u.lib, token, w.keys.db.keys).Some?
            && token in w.keys.bodies.Values
            && RulingOf(u, w, req, now, fault).fp == u.lib.fingerprint(token)
  {
    hide Listed, OriginListed, Issued, Scan;
    var token := Bearer(u.gate.text, req.authorization).value;
    PassIsOwnership(u.lib, w.keys.db, w.keys.bodies, token, req.remote, now);
    var ruling := RulingOf(u, w, req, now, fault);
    assert w.keys.bodies[ruling.id] == token;
  }

  lemma WithoutIn<T>(s: seq<T>, i: nat)
    requires i < |s|
    ensures forall x :: x in Without(s, i) ==> x in s
  {}

  lemma PrintsGrow(lib: Lib, a: map<string, Bytes>, b: map<string, Bytes>, fp: string)
    requires a.Values <= b.Values && IssuedPrint(lib, a, fp)
    ensures IssuedPrint(lib, b, fp)
  {}

  /** A charge adds at most its own fingerprint to the key table. */
  lemma ChargeKeys(c: RL.Limits, s: RL.Tables, fp: string, ip: string, at: real)
    ensures RL.AllowStep(c, s, fp, ip, at).0.perKey.Keys == s.perKey.Keys + {fp}
    ensures RL.GcStep(c, s, at).perKey.Keys <= s.perKey.Keys
  {}

  lemma StepHonest(u: Setup, w: World, e: Event)
    requires CollisionFree(u.lib) && Honest(u, w) && Fits(u, w, e)
    ensures Honest(u, Next(u, w, e))
  {
    hide RL.AllowStep, RL.GcStep, RulingOf, Inv, Extends, Grows, KeyRuns.Step;
    var w' := Next(u, w, e);
    KeysHistory(u, w, e);
    forall fp | fp in w.tables.perKey ensures IssuedPrint(u.lib, w'.keys.bodies, fp) {
      PrintsGrow(u.lib, w.keys.bodies, w'.keys.bodies, fp);
    }
    match e {
      case Keys(op) =>
      case Arrive(req, now, fault) =>
        if RulingOf(u, w, req, now, fault).Passed? { PassHolds(u, w, req, now, fault); }
      case Charge(i, at) =>
        if i < |w.pending| {
          var t := w.pending[i];
          WithoutIn(w.pending, i);
          ChargeKeys(u.limits, w.tables, t.fp, HostOf(u.gate.text, t.remote), at);
          assert t.token in w.keys.bodies.Values && IssuedPrint(u.lib, w'.keys.bodies, t.fp);
        }
      case Gc(at) => ChargeKeys(u.limits, w.tables, "", "", at);
    }
  }

  lemma {:induction false} HonestRun(u: Setup, w: World, evs: seq<Event>)
    requires CollisionFree(u.lib) && Honest(u, w) && Lawful(u, w, evs)
    ensures Honest(u, Play(u, w, evs))
    decreases |evs|
  {
    if evs != [] {
      StepHonest(u, w, evs[0]);
      HonestRun(u, Next(u, w, evs[0]), evs[1..]);
    }
  }

  /** Only holders of issued keys reach the mux, and only their fingerprints ever take a place in the
      limiter's key table: nobody else can make it grow. */
  lemma OnlyIssuedKeys(u: Setup, evs: seq<Event>)
    requires CollisionFree(u.lib) && Lawful(u, START, evs)
    ensures var w := Play(u, START, evs);
            && (forall s :: s in w.mux ==> s.token in w.keys.bodies.Values && s.fp == Shown(u.lib.fingerprint(s.token)))
            && (forall fp :: fp in w.tables.perKey ==> IssuedPrint(u.lib, w.keys.bodies, fp))
  {
    HonestRun(u, START, evs);
  }

  /** No request numbered `base` or later holds a ticket for this token or has been served with it. */
  ghost predicate Absent(w: World, base: nat, token: Bytes) {
    && base <= w.arrivals
    && (forall t :: t in w.pending && t.serial >= base ==> t.token != token)
    && (forall s :: s in w.mux && s.serial >= base ==> s.token != token)
  }

  lemma RevokedStays(a: Database, b: Database, id: string)
    requires Extends(a, b) && RevokedIn(a, id)
    ensures RevokedIn(b, id)
  {
    var i :| 0 <= i < |a.keys| && a.keys[i].id == id && a.keys[i].revoked;
    assert Evolves(a.keys[i], b.keys[i]);
  }

  lemma StepAbsent(u: Setup, w: World, e: Event, base: nat, id: string)
    requires CollisionFree(u.lib) && Honest(u, w) && Fits(u, w, e)
    requires RevokedIn(w.keys.db, id) && id in w.keys.bodies && Absent(w, base, w.keys.bodies[id])
    ensures var w' := Next(u, w, e);
            RevokedIn(w'.keys.db, id) && id in w'.keys.bodies && w'.keys.bodies[id] == w.keys.bodies[id]
            && Absent(w', base, w.keys.bodies[id])
  {
    hide RL.AllowStep, RL.GcStep, RulingOf, Inv, Extends, KeyRuns.Step, RevokedIn;
    var w' := Next(u, w, e);
    KeysHistory(u, w, e);
    RevokedStays(w.keys.db, w'.keys.db, id);
    match e {
      case Keys(op) =>
      case Arrive(req, now, fault) =>
        if RulingOf(u, w, req, now, fault).Passed? {
          PassHolds(u, w, req, now, fault);
          RevokedNeverVerifies(u.lib, w.keys, [], id);
        }
      case Charge(i, at) =>
        if i < |w.pending| { WithoutIn(w.pending, i); }
      case Gc(at) =>
    }
  }

  lemma {:induction false} AbsentRun(u: Setup, w: World, evs: seq<Event>, base: nat, id: string)
    requires CollisionFree(u.lib) && Honest(u, w) && Lawful(u, w, evs)
    requires RevokedIn(w.keys.db, id) && id in w.keys.bodies && Absent(w, base, w.keys.bodies[id])
    ensures Absent(Play(u, w, evs), base, w.keys.bodies[id])
    decreases |evs|
  {
    hide Next, Honest, RevokedIn, Absent, Fits;
    if evs != [] {
      StepHonest(u, w, evs[0]);
      StepAbsent(u, w, evs[0], base, id);
      AbsentRun(u, Next(u, w, evs[0]), evs[1..], base, id);
    }
  }

  lemma {:induction false} PlayConcat(u: Setup, w: World, xs: seq<Event>, ys: seq<Event>)
    ensures Play(u, w, xs + ys) == Play(u, Play(u, w, xs), ys)
    ensures Lawful(u, w, xs + ys) ==> Lawful(u, w, xs) && Lawful(u, Play(u, w, xs), ys)
    decreases |xs|
  {
    if xs == [] {
      assert xs + ys == ys;
    } else {
      PlayConcat(u, Next(u, w, xs[0]), xs[1..], ys);
      assert (xs + ys)[1..] == xs[1..] + ys;
    }
  }

  lemma {:induction false} MuxBounded(u: Setup, w: World, evs: seq<Event>)
    requires forall t :: t in w.pending ==> t.serial < w.arrivals
    requires forall s :: s in w.mux ==> s.serial < w.arrivals
    ensures var w' := Play(u, w, evs);
            (forall t :: t in w'.pending ==> t.serial < w'.arrivals) && (forall s :: s in w'.mux ==> s.serial < w'.arrivals)
    decreases |evs|
  {
    hide RL.AllowStep, RL.GcStep, RulingOf, KeyRuns.Step;
    if evs != [] {
      var e := evs[0];
      if e.Charge? && e.i < |w.pending| { WithoutIn(w.pending, e.i); }
      MuxBounded(u, Next(u, w, e), evs[1..]);
    }
  }

  /** In any run from the start: once an issued key has been revoked, no request whose Verify comes
      later is ever served with it. Requests already past their Verify may still be. */
  lemma RevokeShutsOut(u: Setup, before: seq<Event>, id: string, now: Time, after: seq<Event>)
    requires CollisionFree(u.lib)
    requires Lawful(u, START, before + ([Keys(Revoke(id, now, true))] + after))
    requires id in Play(u, START, before).keys.bodies
    ensures var w := Play(u, START, before);
            var end := Play(u, START, before + ([Keys(Revoke(id, now, true))] + after));
            forall s :: s in end.mux && s.serial >= w.arrivals ==> s.token != w.keys.bodies[id]
  {
    hide Play, Honest, RevokedIn, Issued;
    var e := Keys(Revoke(id, now, true));
    var w := Play(u, START, before);
    PlayConcat(u, START, before, [e] + after);
    PlayConcat(u, w, [e], after);
    StartFacts(u, before);
    var w1 := Next(u, w, e);
    assert Play(u, w, [e]) == w1 by { OneStep(u, w, e); }
    StepHonest(u, w, e);
    HonestInv(u, w);
    RevokeWorks(u.lib, w.keys, id, now);
    AbsentRun(u, w1, after, w.arrivals, id);
  }

  lemma HonestInv(u: Setup, w: World)
    requires Honest(u, w)
    ensures Inv(u.lib, w.keys)
  {}

  lemma OneStep(u: Setup, w: World, e: Event)
    ensures Play(u, w, [e]) == Next(u, w, e)
  {
    assert [e][1..] == [];
  }

  lemma StartFacts(u: Setup, evs: seq<Event>)
    requires CollisionFree(u.lib) && Lawful(u, START, evs)
    ensures var w := Play(u, START, evs);
            && Honest(u, w)
            && (forall t :: t in w.pending ==> t.serial < w.arrivals) && (forall s :: s in w.mux ==> s.serial < w.arrivals)
  {
    HonestRun(u, START, evs);
    MuxBounded(u, START, evs);
  }

  /** The other side: a request already past its Verify is served after the Revoke, if its charge
      is accepted. */
  lemma InFlightIsServed(u: Setup, w: World, i: nat, id: string, now: Time, at: real)
    requires i < |w.pending| && id in w.keys.bodies && w.pending[i].token == w.keys.bodies[id]
    requires Inv(u.lib, w.keys)
    requires RL.AllowStep(u.limits, w.tables, w.pending[i].fp, HostOf(u.gate.text, w.pending[i].remote), at).1
    ensures var end := Play(u, w, [Keys(Revoke(id, now, true)), Charge(i, at)]);
            && RevokedIn(end.keys.db, id)
            && end.mux != [] && end.mux[|end.mux| - 1].token == w.keys.bodies[id]
            && end.mux[|end.mux| - 1].serial == w.pending[i].serial
  {
    hide RL.AllowStep, RevokedIn;
    var e, f := Keys(Revoke(id, now, true)), Charge(i, at);
    var w1 := Next(u, w, e);
    RevokeWorks(u.lib, w.keys, id, now);
    assert [e, f] == [e] + [f];
    PlayConcat(u, w, [e], [f]);
    OneStep(u, w, e);
    OneStep(u, w1, f);
  }

  // ----- the reason of a rate-limit record -----

  ghost predicate NoAddressReason(w: World) {
    forall l :: l in w.log ==> l.record.reason != IP_LIMIT
  }

  lemma StepReason(u: Setup, w: World, e: Event)
    requires Honest(u, w) && NoAddressReason(w)
    requires forall body :: Shown(u.lib.fingerprint(body)) != "-"
    ensures NoAddressReason(Next(u, w, e))
  {
    hide RL.AllowStep, RL.GcStep, KeyRuns.Step, Listed, OriginListed, Inv;
    assert IP_LIMIT[21] == 'i' && KEY_LIMIT[21] == 'k';
    assert |BAD_HOST| < 24 && |BAD_ORIGIN| < 24 && |NO_HEADER| < 24 && |AUTH_FAILED| < 24 && |STORE_DOWN| < 24;
    var w' := Next(u, w, e);
    if e.Charge? && e.i < |w.pending| {
      assert w.pending[e.i] in w.pending;
    }
  }

  /** Behind authentication every caller has a fingerprint, so a rejection is always put down to the
      key, even where only the address has run out: the address reason is dead. */
  lemma {:induction false} AddressReasonUnused(u: Setup, w: World, evs: seq<Event>)
    requires CollisionFree(u.lib) && Honest(u, w) && Lawful(u, w, evs) && NoAddressReason(w)
    requires forall body :: Shown(u.lib.fingerprint(body)) != "-"
    ensures NoAddressReason(Play(u, w, evs))
    decreases |evs|
  {
    if evs != [] {
      StepReason(u, w, evs[0]);
      StepHonest(u, w, evs[0]);
      AddressReasonUnused(u, Next(u, w, evs[0]), evs[1..]);
    }
  }

  // ----- the rate bound -----

  /** The limiter's share of a run. */
  ghost function Charges(u: Setup, w: World, evs: seq<Event>): seq<RL.Event>
    decreases |evs|
  {
    if evs == [] then []
    else
      (match evs[0]
       case Charge(i, at) =>
         if i < |w.pending| then [RL.Allow(w.pending[i].fp, HostOf(u.gate.text, w.pending[i].remote), at)] else []
       case Gc(at) => [RL.Gc(at)]
       case _ => [])
      + Charges(u, Next(u, w, evs[0]), evs[1..])
  }

  /** Charges and sweeps happen at non-decreasing times. */
  ghost predicate Timed(evs: seq<Event>, from: real) {
    evs == [] || (match evs[0]
                  case Charge(_, at) => from <= at && Timed(evs[1..], at)
                  case Gc(at) => from <= at && Timed(evs[1..], at)
                  case _ => Timed(evs[1..], from))
  }

  predicate Within(u: Setup, s: Served, who: RL.Who, from: real, to: real) {
    from <= s.at <= to && (if who.Key? then s.fp == who.fp else HostOf(u.gate.text, s.remote) == who.ip)
  }

  /** How many served requests, and so success records, a key or an address has in a window. */
  function Granted(u: Setup, mux: seq<Served>, who: RL.Who, from: real, to: real): nat {
    if mux == [] then 0
    else Granted(u, mux[..|mux| - 1], who, from, to) + (if Within(u, mux[|mux| - 1], who, from, to) then 1 else 0)
  }

  lemma GrantedPush(u: Setup, mux: seq<Served>, x: Served, who: RL.Who, from: real, to: real)
    ensures Granted(u, mux + [x], who, from, to) == Granted(u, mux, who, from, to) + (if Within(u, x, who, from, to) then 1 else 0)
  {
    assert (mux + [x])[..|mux|] == mux;
  }

  lemma {:induction false} ChargesTimed(u: Setup, w: World, evs: seq<Event>, t: real, t0: real)
    requires Timed(evs, t) && t0 <= t
    ensures RL.Ordered(Charges(u, w, evs), t0)
    decreases |evs|
  {
    hide Next;
    if evs != [] {
      var w' := Next(u, w, evs[0]);
      var rest := Charges(u, w', evs[1..]);
      match evs[0] {
        case Charge(i, at) =>
          ChargesTimed(u, w', evs[1..], at, if i < |w.pending| then at else t0);
          if i < |w.pending| { assert Charges(u, w, evs)[1..] == rest; } else { assert Charges(u, w, evs) == rest; }
        case Gc(at) =>
          ChargesTimed(u, w', evs[1..], at, at);
          assert Charges(u, w, evs)[1..] == rest;
        case Keys(_) =>
          ChargesTimed(u, w', evs[1..], t, t0);
          assert Charges(u, w, evs) == rest;
        case Arrive(_, _, _) =>
          ChargesTimed(u, w', evs[1..], t, t0);
          assert Charges(u, w, evs) == rest;
      }
    }
  }

  lemma StepGranted(u: Setup, w: World, e: Event, who: RL.Who, from: real, to: real)
    ensures var w' := Next(u, w, e);
            var head := Charges(u, w, [e]);
            && |head| <= 1
            && w'.tables == (if head == [] then w.tables else RL.Step(u.limits, w.tables, head[0]))
            && Granted(u, w'.mux, who, from, to) == Granted(u, w.mux, who, from, to)
               + (if head != [] && RL.Counts(u.limits, w.tables, head[0], who, from, to) then 1 else 0)
  {
    hide RL.AllowStep, RL.GcStep, Granted, KeyRuns.Step, Turned, Judged;
    assert [e][1..] == [];
    var w' := Next(u, w, e);
    if e.Charge? && e.i < |w.pending| && w'.mux != w.mux {
      GrantedPush(u, w.mux, w'.mux[|w.mux|], who, from, to);
    }
  }

  /** A run grants what the limiter alone would accept. */
  lemma {:induction false} GrantedIsAccepted(u: Setup, w: World, evs: seq<Event>, who: RL.Who, from: real, to: real)
    ensures Granted(u, Play(u, w, evs).mux, who, from, to)
            == Granted(u, w.mux, who, from, to) + RL.Accepted(u.limits, w.tables, Charges(u, w, evs), who, from, to)
    decreases |evs|
  {
    hide RL.AllowStep, RL.Step, RL.Counts, Granted, Next;
    if evs != [] {
      var e := evs[0];
      var w' := Next(u, w, e);
      var head, rest := Charges(u, w, [e]), Charges(u, w', evs[1..]);
      StepGranted(u, w, e, who, from, to);
      GrantedIsAccepted(u, w', evs[1..], who, from, to);
      assert [e][1..] == [] && head + [] == head;
      assert Charges(u, w, evs) == head + rest;
      if head != [] {
        assert (head + rest)[1..] == rest;
      } else {
        assert head + rest == rest;
      }
    }
  }

  /** In every run and every window, the success records of a key, and likewise of an address, number
      at most its burst plus what the window refills, if the TTL is no shorter than a full refill. */
  lemma SuccessesBounded(u: Setup, evs: seq<Event>, who: RL.Who, from: real, to: real)
    requires RL.ValidLimits(u.limits) && u.limits.ttl * u.limits.rate >= u.limits.burst as real
    requires Timed(evs, 0.0) && from <= to
    ensures Granted(u, Play(u, START, evs).mux, who, from, to) as real
            <= u.limits.burst as real + u.limits.rate * (to - from)
  {
    hide RL.Accepted, Play, Charges;
    ChargesTimed(u, START, evs, 0.0, 0.0);
    GrantedIsAccepted(u, START, evs, who, from, to);
    RL.WindowStart(u.limits, Charges(u, START, evs), who, from, to);
  }
}
