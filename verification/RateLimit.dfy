/** The two-level rate limiter of internal/server/ratelimit.go: one token bucket per key
    fingerprint and one per IP address, both created on first use and dropped by `Gc` once idle
    for longer than a TTL.

    Time is a real number of seconds. Buckets follow golang.org/x/time/rate over the reals. */
module RateLimit {

  datatype Limits = Limits(rate: real, burst: nat, ttl: real)

  /** tokens as of time `last`; the tokens at a later time are computed on demand. */
  datatype Bucket = Bucket(tokens: real, last: real)

  datatype Entry = Entry(bucket: Bucket, lastSeen: real)

  type Table = map<string, Entry>

  datatype Tables = Tables(perKey: Table, perIP: Table)

  ghost predicate ValidLimits(c: Limits) {
    c.rate > 0.0 && c.ttl >= 0.0
  }

  // ------------------------------------------------------------------ one bucket

  /** Tokens in the bucket at time t (Limiter.advance). */
  function Advance(c: Limits, b: Bucket, t: real): real {
    var elapsed := if t < b.last then 0.0 else t - b.last;
    var tokens := b.tokens + c.rate * elapsed;
    if tokens > c.burst as real then c.burst as real else tokens
  }

  /** Limiter.Allow: takes one token if there is one, and otherwise leaves the bucket alone. */
  function Take(c: Limits, b: Bucket, t: real): (Bucket, bool) {
    var tokens := Advance(c, b, t) - 1.0;
    if 1 <= c.burst && tokens >= 0.0 then (Bucket(tokens, t), true) else (b, false)
  }

  // ------------------------------------------------------------------ tables

  /** The entry for k, created full if absent, with its last-seen time set. */
  function Touch(c: Limits, m: Table, k: string, now: real): Table {
    if k in m then m[k := m[k].(lastSeen := now)]
    else m[k := Entry(Bucket(c.burst as real, now), now)]
  }

  function Spend(c: Limits, m: Table, k: string, now: real): (Table, bool) {
    var m1 := Touch(c, m, k, now);
    var (b, ok) := Take(c, m1[k].bucket, now);
    (m1[k := m1[k].(bucket := b)], ok)
  }

  function Sweep(c: Limits, m: Table, now: real): Table {
    map k | k in m && !(now - m[k].lastSeen > c.ttl) :: m[k]
  }

  function AllowStep(c: Limits, s: Tables, fp: string, ip: string, now: real): (Tables, bool) {
    var (keys, keyOk) := Spend(c, s.perKey, fp, now);
    if !keyOk then (s.(perKey := keys), false) else
    var (ips, ipOk) := Spend(c, s.perIP, ip, now);
    (Tables(keys, ips), ipOk)
  }

  function GcStep(c: Limits, s: Tables, now: real): Tables {
    Tables(Sweep(c, s.perKey, now), Sweep(c, s.perIP, now))
  }

  // ------------------------------------------------------------------ the object

  class Limiters {
    var perKey: Table
    var perIP: Table
    const limits: Limits

    function Contents(): Tables
      reads this
    {
      Tables(perKey, perIP)
    }

    constructor (limits: Limits)
      ensures this.limits == limits && Contents() == Tables(map[], map[])
    {
      this.limits := limits;
      perKey, perIP := map[], map[];
    }

    method Allow(fp: string, ip: string, now: real) returns (ok: bool)
      modifies this
      ensures (Contents(), ok) == AllowStep(limits, old(Contents()), fp, ip, now)
      ensures perKey.Keys == old(perKey.Keys) + {fp} && perKey[fp].lastSeen == now
      ensures forall k :: k in perKey && k != fp ==> perKey[k] == old(perKey)[k]
      ensures ValidLimits(limits) && Valid(limits, old(Contents()), now) ==>
                Charges(limits, old(Contents()), Contents(), fp, ip, now, ok)
    {
      ghost var before := Contents();
      if ValidLimits(limits) && Valid(limits, before, now) { AllowCharges(limits, before, fp, ip, now); }
      perKey := GetOrCreate(perKey, fp, now);
      var bucket, keyOk := TakeToken(perKey[fp].bucket, now);
      perKey := perKey[fp := perKey[fp].(bucket := bucket)];
      if !keyOk {
        return false;
      }
      perIP := GetOrCreate(perIP, ip, now);
      var ipOk;
      bucket, ipOk := TakeToken(perIP[ip].bucket, now);
      perIP := perIP[ip := perIP[ip].(bucket := bucket)];
      return ipOk;
    }

    method TakeToken(b: Bucket, now: real) returns (b': Bucket, ok: bool)
      ensures (b', ok) == Take(limits, b, now)
    {
      var tokens := Advance(limits, b, now) - 1.0;
      ok := 1 <= limits.burst && tokens >= 0.0;
      b' := b;
      if ok {
        b' := Bucket(tokens, now);
      }
    }

    method GetOrCreate(m: Table, key: string, now: real) returns (m': Table)
      ensures m' == Touch(limits, m, key, now)
    {
      if key !in m {
        m' := m[key := Entry(Bucket(limits.burst as real, now), now)];
      } else {
        m' := m[key := m[key].(lastSeen := now)];
      }
    }

    method Gc(now: real)
      modifies this
      ensures Contents() == GcStep(limits, old(Contents()), now)
      ensures forall k :: k in perKey <==> k in old(perKey) && now - old(perKey)[k].lastSeen <= limits.ttl
      ensures forall k :: k in perIP <==> k in old(perIP) && now - old(perIP)[k].lastSeen <= limits.ttl
      ensures (forall k :: k in perKey ==> perKey[k] == old(perKey)[k]) && (forall k :: k in perIP ==> perIP[k] == old(perIP)[k])
    {
      perKey := DropIdle(perKey, now);
      perIP := DropIdle(perIP, now);
    }

    /** The deletion loop of gc, run once per table; map iteration order is unspecified. */
    method DropIdle(m: Table, now: real) returns (m': Table)
      ensures m' == Sweep(limits, m, now)
    {
      m' := m;
      var todo := m.Keys;
      while todo != {}
        invariant todo <= m.Keys && m'.Keys <= m.Keys
        invariant forall k :: k in m' ==> m'[k] == m[k]
        invariant forall k :: k in m ==> (k in m' <==> k in todo || !(now - m[k].lastSeen > limits.ttl))
        decreases |todo|
      {
        var k :| k in todo;
        if now - m[k].lastSeen > limits.ttl {
          m' := m' - {k};
        }
        todo := todo - {k};
      }
    }
  }

  // ------------------------------------------------------------------ levels

  /** Tokens k has at time t in table m; a key without an entry counts as full. */
  ghost function Level(c: Limits, m: Table, k: string, t: real): real {
    if k in m then Advance(c, m[k].bucket, t) else c.burst as real
  }

  ghost predicate ValidEntry(c: Limits, e: Entry, t: real) {
    0.0 <= e.bucket.tokens <= c.burst as real && e.bucket.last <= e.lastSeen <= t
  }

  ghost predicate ValidTable(c: Limits, m: Table, t: real) {
    forall k :: k in m ==> ValidEntry(c, m[k], t)
  }

  ghost predicate Valid(c: Limits, s: Tables, t: real) {
    ValidTable(c, s.perKey, t) && ValidTable(c, s.perIP, t)
  }

  lemma MulNonNegative(a: real, b: real)
    requires a >= 0.0 && b >= 0.0
    ensures a * b >= 0.0
  {}

  lemma LevelRange(c: Limits, m: Table, k: string, t: real)
    requires ValidLimits(c) && ValidTable(c, m, t)
    ensures 0.0 <= Level(c, m, k, t) <= c.burst as real
  {
    if k in m {
      MulNonNegative(c.rate, t - m[k].bucket.last);
    }
  }

  /** The level at a later time is a function of the level now: refill, capped at the burst. */
  lemma LevelLater(c: Limits, m: Table, k: string, t: real, u: real)
    requires ValidLimits(c) && ValidTable(c, m, t) && t <= u
    ensures var full := c.burst as real;
            var refilled := Level(c, m, k, t) + c.rate * (u - t);
            Level(c, m, k, u) == if refilled > full then full else refilled
  {
    MulNonNegative(c.rate, u - t);
    if k in m {
      var b := m[k].bucket;
      assert c.rate * (u - b.last) == c.rate * (t - b.last) + c.rate * (u - t);
    }
  }

  /** What Spend does, in terms of levels: it succeeds exactly when a token is there, costs k
      that token, and costs nobody else anything. */
  lemma SpendLevels(c: Limits, m: Table, k: string, now: real)
    requires ValidLimits(c) && ValidTable(c, m, now)
    ensures var (m', ok) := Spend(c, m, k, now);
            && ValidTable(c, m', now)
            && (ok <==> Level(c, m, k, now) >= 1.0)
            && Level(c, m', k, now) == Level(c, m, k, now) - (if ok then 1.0 else 0.0)
            && forall j :: j != k ==> Level(c, m', j, now) == Level(c, m, j, now)
  {
    LevelRange(c, m, k, now);
  }

  /** What a call costs: it is allowed exactly when the key and the address both hold a token. The key
      pays whenever it can, whatever the address says; the address pays, or is noticed at all, only
      if the key could; nobody else pays anything. */
  ghost predicate Charges(c: Limits, s: Tables, s': Tables, fp: string, ip: string, now: real, ok: bool) {
    var key, addr := Level(c, s.perKey, fp, now), Level(c, s.perIP, ip, now);
    && (ok <==> key >= 1.0 && addr >= 1.0)
    && Level(c, s'.perKey, fp, now) == (if key >= 1.0 then key - 1.0 else key)
    && (key < 1.0 ==> s'.perIP == s.perIP)
    && (key >= 1.0 ==>
          && Level(c, s'.perIP, ip, now) == (if addr >= 1.0 then addr - 1.0 else addr)
          && s'.perIP.Keys == s.perIP.Keys + {ip} && s'.perIP[ip].lastSeen == now)
    && (forall k :: k != fp ==> Level(c, s'.perKey, k, now) == Level(c, s.perKey, k, now))
    && (forall k :: k != ip ==> Level(c, s'.perIP, k, now) == Level(c, s.perIP, k, now))
  }

  lemma AllowCharges(c: Limits, s: Tables, fp: string, ip: string, now: real)
    requires ValidLimits(c) && Valid(c, s, now)
    ensures var (s', ok) := AllowStep(c, s, fp, ip, now);
            Valid(c, s', now) && Charges(c, s, s', fp, ip, now, ok)
  {
    SpendLevels(c, s.perKey, fp, now);
    SpendLevels(c, s.perIP, ip, now);
    hide Level;
  }

  lemma SweepLevels(c: Limits, m: Table, now: real)
    requires ValidLimits(c) && ValidTable(c, m, now) && c.ttl * c.rate >= c.burst as real
    ensures ValidTable(c, Sweep(c, m, now), now)
    ensures forall k :: Level(c, Sweep(c, m, now), k, now) == Level(c, m, k, now)
  {
    forall k ensures Level(c, Sweep(c, m, now), k, now) == Level(c, m, k, now) {
      if k in m && k !in Sweep(c, m, now) {
        var idle := now - m[k].bucket.last;
        MulNonNegative(c.rate, idle - c.ttl);
        assert c.rate * idle == c.rate * (idle - c.ttl) + c.ttl * c.rate;
      }
    }
  }

  // ------------------------------------------------------------------ runs

  datatype Event = Allow(fp: string, ip: string, at: real) | Gc(at: real)

  ghost predicate Ordered(evs: seq<Event>, from: real) {
    evs == [] || (from <= evs[0].at && Ordered(evs[1..], evs[0].at))
  }

  function Step(c: Limits, s: Tables, e: Event): Tables {
    match e
    case Allow(fp, ip, at) => AllowStep(c, s, fp, ip, at).0
    case Gc(at) => GcStep(c, s, at)
  }

  function Answer(c: Limits, s: Tables, e: Event): seq<bool> {
    if e.Allow? then [AllowStep(c, s, e.fp, e.ip, e.at).1] else []
  }

  /** The answers given, in order, to the Allow events of a run. */
  function Answers(c: Limits, s: Tables, evs: seq<Event>): seq<bool>
    decreases |evs|
  {
    if evs == [] then [] else Answer(c, s, evs[0]) + Answers(c, Step(c, s, evs[0]), evs[1..])
  }

  function WithoutGc(evs: seq<Event>): seq<Event> {
    if evs == [] then []
    else (if evs[0].Gc? then [] else [evs[0]]) + WithoutGc(evs[1..])
  }

  const EMPTY := Tables(map[], map[])

  ghost predicate SameLevels(c: Limits, a: Table, b: Table, t: real) {
    forall k :: Level(c, a, k, t) == Level(c, b, k, t)
  }

  /** The simulation: the tables a swept run holds and those a never-swept run holds agree on
      every level, an absent entry standing for a full bucket. */
  ghost predicate Simulates(c: Limits, a: Tables, b: Tables, t: real) {
    && Valid(c, a, t) && Valid(c, b, t)
    && SameLevels(c, a.perKey, b.perKey, t)
    && SameLevels(c, a.perIP, b.perIP, t)
  }

  lemma SimulationLater(c: Limits, a: Tables, b: Tables, t: real, u: real)
    requires ValidLimits(c) && Simulates(c, a, b, t) && t <= u
    ensures Simulates(c, a, b, u)
  {
    forall k ensures Level(c, a.perKey, k, u) == Level(c, b.perKey, k, u) {
      LevelLater(c, a.perKey, k, t, u);
      LevelLater(c, b.perKey, k, t, u);
    }
    forall k ensures Level(c, a.perIP, k, u) == Level(c, b.perIP, k, u) {
      LevelLater(c, a.perIP, k, t, u);
      LevelLater(c, b.perIP, k, t, u);
    }
  }

  lemma SimulationSpend(c: Limits, a: Table, b: Table, k: string, t: real)
    requires ValidLimits(c) && ValidTable(c, a, t) && ValidTable(c, b, t) && SameLevels(c, a, b, t)
    ensures var (a', okA) := Spend(c, a, k, t);
            var (b', okB) := Spend(c, b, k, t);
            okA == okB && ValidTable(c, a', t) && ValidTable(c, b', t) && SameLevels(c, a', b', t)
  {
    SpendLevels(c, a, k, t);
    SpendLevels(c, b, k, t);
    var a', b' := Spend(c, a, k, t).0, Spend(c, b, k, t).0;
    forall j ensures Level(c, a', j, t) == Level(c, b', j, t) {
      assert Level(c, a, j, t) == Level(c, b, j, t);
    }
  }

  lemma {:induction false} SimulationRun(c: Limits, a: Tables, b: Tables, t: real, evs: seq<Event>)
    requires ValidLimits(c) && c.ttl * c.rate >= c.burst as real
    requires Simulates(c, a, b, t) && Ordered(evs, t)
    ensures Answers(c, a, evs) == Answers(c, b, WithoutGc(evs))
    decreases |evs|
  {
    if evs != [] {
      var e := evs[0];
      SimulationLater(c, a, b, t, e.at);
      match e {
        case Gc(at) =>
          SweepLevels(c, a.perKey, at);
          SweepLevels(c, a.perIP, at);
          SimulationRun(c, Step(c, a, e), b, at, evs[1..]);
          assert WithoutGc(evs) == WithoutGc(evs[1..]);
        case Allow(fp, ip, at) =>
          SimulationSpend(c, a.perKey, b.perKey, fp, at);
          SimulationSpend(c, a.perIP, b.perIP, ip, at);
          SimulationRun(c, Step(c, a, e), Step(c, b, e), at, evs[1..]);
          assert WithoutGc(evs) == [e] + WithoutGc(evs[1..]);
          assert ([e] + WithoutGc(evs[1..]))[1..] == WithoutGc(evs[1..]);
      }
    }
  }

  /** A call refused because its key has no token. */
  ghost predicate Starved(c: Limits, s: Tables, e: Event) {
    e.Allow? && Level(c, s.perKey, e.fp, e.at) < 1.0
  }

  /** The run without its starved calls. */
  ghost function Fed(c: Limits, s: Tables, evs: seq<Event>): seq<Event>
    decreases |evs|
  {
    if evs == [] then []
    else (if Starved(c, s, evs[0]) then [] else [evs[0]]) + Fed(c, Step(c, s, evs[0]), evs[1..])
  }

  /** The answers the run gives to its other calls. */
  ghost function FedAnswers(c: Limits, s: Tables, evs: seq<Event>): seq<bool>
    decreases |evs|
  {
    if evs == [] then []
    else (if Starved(c, s, evs[0]) then [] else Answer(c, s, evs[0])) + FedAnswers(c, Step(c, s, evs[0]), evs[1..])
  }

  lemma StarvedStep(c: Limits, a: Tables, b: Tables, e: Event)
    requires ValidLimits(c) && Simulates(c, a, b, e.at) && Starved(c, a, e)
    ensures Simulates(c, Step(c, a, e), b, e.at)
    ensures !AllowStep(c, a, e.fp, e.ip, e.at).1
  {
    AllowCharges(c, a, e.fp, e.ip, e.at);
    hide Level, AllowStep;
    forall k ensures Level(c, Step(c, a, e).perKey, k, e.at) == Level(c, b.perKey, k, e.at) {
      assert Level(c, a.perKey, k, e.at) == Level(c, b.perKey, k, e.at);
    }
  }

  lemma FedStep(c: Limits, a: Tables, b: Tables, e: Event)
    requires ValidLimits(c) && c.ttl * c.rate >= c.burst as real && Simulates(c, a, b, e.at)
    ensures Simulates(c, Step(c, a, e), Step(c, b, e), e.at) && Answer(c, a, e) == Answer(c, b, e)
  {
    match e {
      case Gc(at) =>
        SweepLevels(c, a.perKey, at);
        SweepLevels(c, a.perIP, at);
        SweepLevels(c, b.perKey, at);
        SweepLevels(c, b.perIP, at);
      case Allow(fp, ip, at) =>
        SimulationSpend(c, a.perKey, b.perKey, fp, at);
        SimulationSpend(c, a.perIP, b.perIP, ip, at);
    }
    hide Level;
  }

  lemma {:induction false} StarvedRun(c: Limits, a: Tables, b: Tables, t: real, evs: seq<Event>)
    requires ValidLimits(c) && c.ttl * c.rate >= c.burst as real
    requires Simulates(c, a, b, t) && Ordered(evs, t)
    ensures Answers(c, b, Fed(c, a, evs)) == FedAnswers(c, a, evs)
    decreases |evs|
  {
    hide Step, Answer, Simulates, Starved;
    if evs != [] {
      var e := evs[0];
      SimulationLater(c, a, b, t, e.at);
      var rest := Fed(c, Step(c, a, e), evs[1..]);
      if Starved(c, a, e) {
        StarvedStep(c, a, b, e);
        StarvedRun(c, Step(c, a, e), b, e.at, evs[1..]);
        assert Fed(c, a, evs) == [] + rest == rest;
      } else {
        FedStep(c, a, b, e);
        StarvedRun(c, Step(c, a, e), Step(c, b, e), e.at, evs[1..]);
        assert Fed(c, a, evs) == [e] + rest && ([e] + rest)[1..] == rest;
      }
    }
  }

  /** A key out of tokens disturbs nobody: taking all calls that were refused for want of a key token
      out of a run changes no other answer in it. */
  lemma StarvedCallsInvisible(c: Limits, evs: seq<Event>)
    requires ValidLimits(c) && c.ttl * c.rate >= c.burst as real && Ordered(evs, 0.0)
    ensures Answers(c, EMPTY, Fed(c, EMPTY, evs)) == FedAnswers(c, EMPTY, evs)
  {
    StarvedRun(c, EMPTY, EMPTY, 0.0, evs);
  }

  // ------------------------------------------------------------------ window bound

  datatype Who = Key(fp: string) | Addr(ip: string)

  function TableOf(s: Tables, w: Who): Table {
    if w.Key? then s.perKey else s.perIP
  }

  function NameOf(w: Who): string {
    if w.Key? then w.fp else w.ip
  }

  predicate By(e: Event, w: Who) {
    e.Allow? && (if w.Key? then e.fp == w.fp else e.ip == w.ip)
  }

  predicate Counts(c: Limits, s: Tables, e: Event, w: Who, from: real, to: real) {
    By(e, w) && from <= e.at <= to && AllowStep(c, s, e.fp, e.ip, e.at).1
  }

  /** How many calls by w in the window [from, to] the run accepts. */
  function Accepted(c: Limits, s: Tables, evs: seq<Event>, w: Who, from: real, to: real): nat
    decreases |evs|
  {
    if evs == [] then 0 else
    (if Counts(c, s, evs[0], w, from, to) then 1 else 0)
    + Accepted(c, Step(c, s, evs[0]), evs[1..], w, from, to)
  }

  function Later(a: real, b: real): real {
    if a < b then b else a
  }

  /** One event, at its own time, for any party w: an accepted call by w costs w a token, and no
      event gives w any. */
  lemma StepLevel(c: Limits, s: Tables, e: Event, w: Who)
    requires ValidLimits(c) && c.ttl * c.rate >= c.burst as real && Valid(c, s, e.at)
    ensures Valid(c, Step(c, s, e), e.at)
    ensures var before := Level(c, TableOf(s, w), NameOf(w), e.at);
            var after := Level(c, TableOf(Step(c, s, e), w), NameOf(w), e.at);
            && after <= before
            && (By(e, w) && AllowStep(c, s, e.fp, e.ip, e.at).1 ==> after == before - 1.0)
  {
    match e {
      case Gc(at) =>
        SweepLevels(c, s.perKey, at);
        SweepLevels(c, s.perIP, at);
      case Allow(fp, ip, at) =>
        SpendLevels(c, s.perKey, fp, at);
        SpendLevels(c, s.perIP, ip, at);
    }
  }

  lemma {:induction false} NoneAfterWindow(c: Limits, s: Tables, evs: seq<Event>, w: Who, from: real, to: real, t: real)
    requires Ordered(evs, t) && t > to
    ensures Accepted(c, s, evs, w, from, to) == 0
    decreases |evs|
  {
    if evs != [] {
      NoneAfterWindow(c, Step(c, s, evs[0]), evs[1..], w, from, to, evs[0].at);
    }
  }

  /** What w can still be granted until `to`: its tokens when the window is entered and the refill
      until it closes. */
  ghost function Potential(c: Limits, s: Tables, w: Who, t: real, from: real, to: real): real {
    Level(c, TableOf(s, w), NameOf(w), Later(t, from)) + c.rate * (to - Later(t, from))
  }

  lemma PotentialWaits(c: Limits, s: Tables, w: Who, t: real, u: real, from: real, to: real)
    requires ValidLimits(c) && Valid(c, s, t) && t <= u
    ensures Potential(c, s, w, u, from, to) <= Potential(c, s, w, t, from, to)
  {
    var p, q := Later(t, from), Later(u, from);
    LevelLater(c, TableOf(s, w), NameOf(w), p, q);
    assert c.rate * (to - p) == c.rate * (q - p) + c.rate * (to - q);
  }

  lemma LevelSpent(c: Limits, s: Tables, e: Event, w: Who, u: real)
    requires ValidLimits(c) && c.ttl * c.rate >= c.burst as real && Valid(c, s, e.at) && e.at <= u
    ensures var before := Level(c, TableOf(s, w), NameOf(w), u);
            var after := Level(c, TableOf(Step(c, s, e), w), NameOf(w), u);
            && after <= before
            && (By(e, w) && AllowStep(c, s, e.fp, e.ip, e.at).1 && u == e.at ==> after == before - 1.0)
  {
    hide Step, Advance;
    StepLevel(c, s, e, w);
    LevelLater(c, TableOf(s, w), NameOf(w), e.at, u);
    LevelLater(c, TableOf(Step(c, s, e), w), NameOf(w), e.at, u);
  }

  lemma PotentialSpent(c: Limits, s: Tables, e: Event, w: Who, from: real, to: real)
    requires ValidLimits(c) && c.ttl * c.rate >= c.burst as real && Valid(c, s, e.at)
    ensures Potential(c, Step(c, s, e), w, e.at, from, to)
         <= Potential(c, s, w, e.at, from, to) - (if Counts(c, s, e, w, from, to) then 1.0 else 0.0)
  {
    LevelSpent(c, s, e, w, Later(e.at, from));
  }

  lemma PotentialRange(c: Limits, s: Tables, w: Who, t: real, from: real, to: real)
    requires ValidLimits(c) && Valid(c, s, t) && Later(t, from) <= to
    ensures 0.0 <= Potential(c, s, w, t, from, to) <= c.burst as real + c.rate * (to - Later(t, from))
  {
    hide Level;
    var rest := c.rate * (to - Later(t, from));
    LevelRange(c, TableOf(s, w), NameOf(w), Later(t, from));
    assert rest >= 0.0 by { MulNonNegative(c.rate, to - Later(t, from)); }
    assert Potential(c, s, w, t, from, to) == Level(c, TableOf(s, w), NameOf(w), Later(t, from)) + rest;
  }

  /** From any valid state, a run accepts no more calls by w in the window than w's potential. */
  lemma {:induction false} WindowRun(c: Limits, s: Tables, t: real, evs: seq<Event>, w: Who, from: real, to: real)
    requires ValidLimits(c) && c.ttl * c.rate >= c.burst as real
    requires Valid(c, s, t) && Ordered(evs, t) && Later(t, from) <= to
    ensures Accepted(c, s, evs, w, from, to) as real <= Potential(c, s, w, t, from, to)
    decreases |evs|
  {
    hide Step, AllowStep, Potential, Level;
    PotentialRange(c, s, w, t, from, to);
    if evs != [] {
      var e := evs[0];
      if e.at > to {
        NoneAfterWindow(c, Step(c, s, e), evs[1..], w, from, to, e.at);
      } else {
        PotentialWaits(c, s, w, t, e.at, from, to);
        PotentialSpent(c, s, e, w, from, to);
        StepLevel(c, s, e, w);
        WindowRun(c, Step(c, s, e), e.at, evs[1..], w, from, to);
      }
    }
  }

  // ------------------------------------------------------------------ main results

  /** Nobody can tell that idle entries are dropped. */
  ghost predicate EvictionInvisible(c: Limits) {
    forall evs :: Ordered(evs, 0.0) ==> Answers(c, EMPTY, evs) == Answers(c, EMPTY, WithoutGc(evs))
  }

  /** In every run and every window, no key and no address gets more than its burst plus what the
      window refills. */
  ghost predicate WindowBounded(c: Limits) {
    forall evs, w, from, to :: Ordered(evs, 0.0) && from <= to ==>
      Accepted(c, EMPTY, evs, w, from, to) as real <= c.burst as real + c.rate * (to - from)
  }

  function Burst(n: nat, fp: string, ip: string, t: real): seq<Event> {
    if n == 0 then [] else [Allow(fp, ip, t)] + Burst(n - 1, fp, ip, t)
  }

  function StepAll(c: Limits, s: Tables, evs: seq<Event>): Tables
    decreases |evs|
  {
    if evs == [] then s else StepAll(c, Step(c, s, evs[0]), evs[1..])
  }

  lemma {:induction false} AnswersConcat(c: Limits, s: Tables, xs: seq<Event>, ys: seq<Event>)
    ensures Answers(c, s, xs + ys) == Answers(c, s, xs) + Answers(c, StepAll(c, s, xs), ys)
    decreases |xs|
  {
    hide Step, Answer;
    if xs == [] {
      assert xs + ys == ys && [] + Answers(c, s, ys) == Answers(c, s, ys);
    } else {
      AnswersConcat(c, Step(c, s, xs[0]), xs[1..], ys);
      assert (xs + ys)[1..] == xs[1..] + ys;
    }
  }

  lemma {:induction false} AcceptedConcat(c: Limits, s: Tables, xs: seq<Event>, ys: seq<Event>, w: Who, from: real, to: real)
    ensures Accepted(c, s, xs + ys, w, from, to)
         == Accepted(c, s, xs, w, from, to) + Accepted(c, StepAll(c, s, xs), ys, w, from, to)
    decreases |xs|
  {
    hide Step, Counts;
    if xs == [] {
      assert xs + ys == ys;
    } else {
      AcceptedConcat(c, Step(c, s, xs[0]), xs[1..], ys, w, from, to);
      assert (xs + ys)[1..] == xs[1..] + ys;
    }
  }

  lemma BurstCons(n: nat, fp: string, ip: string, t: real, rest: seq<Event>)
    requires n > 0
    ensures Burst(n, fp, ip, t) + rest == [Allow(fp, ip, t)] + (Burst(n - 1, fp, ip, t) + rest)
  {}

  lemma {:induction false} BurstOrdered(n: nat, fp: string, ip: string, t: real, from: real, rest: seq<Event>)
    requires from <= t && Ordered(rest, t)
    ensures Ordered(Burst(n, fp, ip, t) + rest, from)
    ensures WithoutGc(Burst(n, fp, ip, t) + rest) == Burst(n, fp, ip, t) + WithoutGc(rest)
  {
    if n == 0 {
      assert Burst(n, fp, ip, t) + rest == rest;
      assert Burst(n, fp, ip, t) + WithoutGc(rest) == WithoutGc(rest);
      if rest != [] { assert from <= rest[0].at; }
    } else {
      BurstOrdered(n - 1, fp, ip, t, t, rest);
      BurstCons(n, fp, ip, t, rest);
      BurstCons(n, fp, ip, t, WithoutGc(rest));
      hide Burst;
      var evs := Burst(n, fp, ip, t) + rest;
      assert evs[0] == Allow(fp, ip, t) && evs[1..] == Burst(n - 1, fp, ip, t) + rest;
    }
  }

  ghost predicate AllTrue(bs: seq<bool>) {
    forall i :: 0 <= i < |bs| ==> bs[i]
  }

  /** One call by a key and an address that hold the same tokens. */
  lemma OneCall(c: Limits, s: Tables, fp: string, ip: string, t: real)
    requires ValidLimits(c) && Valid(c, s, t)
    requires Level(c, s.perKey, fp, t) == Level(c, s.perIP, ip, t)
    ensures var (s', ok) := AllowStep(c, s, fp, ip, t);
            && Valid(c, s', t)
            && (ok <==> Level(c, s.perKey, fp, t) >= 1.0)
            && (ok ==> Level(c, s'.perKey, fp, t) == Level(c, s'.perIP, ip, t) == Level(c, s.perKey, fp, t) - 1.0)
  {
    SpendLevels(c, s.perKey, fp, t);
    SpendLevels(c, s.perIP, ip, t);
  }

  /** n simultaneous calls by one caller are all accepted exactly when it holds n tokens, and
      leave it with n fewer. */
  lemma {:induction false} BurstRun(c: Limits, s: Tables, n: nat, fp: string, ip: string, t: real)
    requires ValidLimits(c) && Valid(c, s, t)
    requires Level(c, s.perKey, fp, t) == Level(c, s.perIP, ip, t)
    ensures var s' := StepAll(c, s, Burst(n, fp, ip, t));
            var bs := Answers(c, s, Burst(n, fp, ip, t));
            var had := Level(c, s.perKey, fp, t);
            && Valid(c, s', t) && |bs| == n
            && (AllTrue(bs) <==> had >= n as real)
            && (AllTrue(bs) ==> Level(c, s'.perKey, fp, t) == Level(c, s'.perIP, ip, t) == had - n as real)
    decreases n
  {
    hide AllowStep, Level;
    LevelRange(c, s.perKey, fp, t);
    if n > 0 {
      var s1, ok := AllowStep(c, s, fp, ip, t).0, AllowStep(c, s, fp, ip, t).1;
      OneCall(c, s, fp, ip, t);
      assert Burst(n, fp, ip, t)[1..] == Burst(n - 1, fp, ip, t);
      var bs, rest := Answers(c, s, Burst(n, fp, ip, t)), Answers(c, s1, Burst(n - 1, fp, ip, t));
      assert bs == [ok] + rest;
      BurstRunLength(c, s1, n - 1, fp, ip, t);
      if ok {
        BurstRun(c, s1, n - 1, fp, ip, t);
        assert AllTrue(bs) <==> AllTrue(rest) by {
          assert forall i :: 0 <= i < |rest| ==> rest[i] == bs[i + 1];
        }
      } else {
        assert !bs[0];
      }
    }
  }

  /** A burst answered yes throughout counts in full in any window around it. */
  lemma {:induction false} BurstCount(c: Limits, s: Tables, n: nat, fp: string, ip: string, t: real, from: real, to: real)
    requires from <= t <= to && AllTrue(Answers(c, s, Burst(n, fp, ip, t)))
    ensures Accepted(c, s, Burst(n, fp, ip, t), Key(fp), from, to) == n
    decreases n
  {
    if n > 0 {
      var s1, ok := AllowStep(c, s, fp, ip, t).0, AllowStep(c, s, fp, ip, t).1;
      assert Burst(n, fp, ip, t)[1..] == Burst(n - 1, fp, ip, t);
      var bs, rest := Answers(c, s, Burst(n, fp, ip, t)), Answers(c, s1, Burst(n - 1, fp, ip, t));
      assert bs == [ok] + rest && bs[0];
      assert forall i :: 0 <= i < |rest| ==> rest[i] == bs[i + 1];
      BurstCount(c, s1, n - 1, fp, ip, t, from, to);
    }
  }

  lemma {:induction false} BurstRunLength(c: Limits, s: Tables, n: nat, fp: string, ip: string, t: real)
    requires ValidLimits(c) && Valid(c, s, t)
    ensures |Answers(c, s, Burst(n, fp, ip, t))| == n && Valid(c, StepAll(c, s, Burst(n, fp, ip, t)), t)
    decreases n
  {
    if n > 0 {
      SpendLevels(c, s.perKey, fp, t);
      SpendLevels(c, s.perIP, ip, t);
      assert Burst(n, fp, ip, t)[1..] == Burst(n - 1, fp, ip, t);
      BurstRunLength(c, Step(c, s, Allow(fp, ip, t)), n - 1, fp, ip, t);
    }
  }

  /** A moment after the TTL has passed but before an emptied bucket is full again; there is one
      whenever the TTL is shorter than the refill time. */
  ghost function TooSoon(c: Limits): real
    requires c.rate > 0.0
  {
    (c.ttl + c.burst as real / c.rate) / 2.0
  }

  lemma TooSoonBetween(c: Limits)
    requires ValidLimits(c) && c.ttl * c.rate < c.burst as real
    ensures c.ttl < TooSoon(c) && c.rate * TooSoon(c) < c.burst as real
  {
    var fill := c.burst as real / c.rate;
    assert c.rate * fill == c.burst as real;
    if fill <= c.ttl {
      MulNonNegative(c.rate, c.ttl - fill);
      assert c.rate * (c.ttl - fill) == c.rate * c.ttl - c.rate * fill;
    }
    assert c.rate * TooSoon(c) == (c.rate * c.ttl + c.rate * fill) / 2.0;
  }

  /** The run that shows a short TTL: empty a bucket, let the sweep drop it, empty it again. */
  ghost function DoubleBurst(c: Limits, fp: string, ip: string): seq<Event>
    requires c.rate > 0.0
  {
    Burst(c.burst, fp, ip, 0.0) + ([Gc(TooSoon(c))] + Burst(c.burst, fp, ip, TooSoon(c)))
  }

  /** After the first burst both buckets are empty, the sweep forgets them, and a bucket that had
      been kept would not yet hold a full burst again. */
  lemma AfterFirstBurst(c: Limits, fp: string, ip: string)
    requires ValidLimits(c) && c.ttl * c.rate < c.burst as real
    ensures var n, t := c.burst, TooSoon(c);
            var s := StepAll(c, EMPTY, Burst(n, fp, ip, 0.0));
            && AllTrue(Answers(c, EMPTY, Burst(n, fp, ip, 0.0)))
            && Valid(c, s, t) && GcStep(c, s, t) == EMPTY
            && Level(c, s.perKey, fp, t) == Level(c, s.perIP, ip, t) < n as real
  {
    hide AllowStep, Step, Answers, Advance, TooSoon, GcStep;
    var n, t := c.burst, TooSoon(c);
    var s := StepAll(c, EMPTY, Burst(n, fp, ip, 0.0));
    TooSoonBetween(c);
    EmptyIsFull(c, fp, ip);
    BurstRun(c, EMPTY, n, fp, ip, 0.0);
    BurstEntries(c, EMPTY, n, fp, ip, 0.0);
    LevelLater(c, s.perKey, fp, 0.0, t);
    LevelLater(c, s.perIP, ip, 0.0, t);
    AllIdle(c, s, t);
  }

  lemma EmptyIsFull(c: Limits, fp: string, ip: string)
    ensures Valid(c, EMPTY, 0.0)
    ensures Level(c, EMPTY.perKey, fp, 0.0) == Level(c, EMPTY.perIP, ip, 0.0) == c.burst as real
  {}

  /** Tables last used at time 0 are swept empty once the TTL has passed. */
  lemma AllIdle(c: Limits, s: Tables, t: real)
    requires ValidLimits(c) && Valid(c, s, 0.0) && SeenAt(s.perKey, 0.0) && SeenAt(s.perIP, 0.0) && t > c.ttl
    ensures Valid(c, s, t) && GcStep(c, s, t) == EMPTY
  {}

  ghost predicate SeenAt(m: Table, t: real) {
    forall k :: k in m ==> m[k].lastSeen == t
  }

  /** After a burst every entry was last seen at the burst. */
  lemma {:induction false} BurstEntries(c: Limits, s: Tables, n: nat, fp: string, ip: string, t: real)
    requires SeenAt(s.perKey, t) && SeenAt(s.perIP, t)
    ensures var s' := StepAll(c, s, Burst(n, fp, ip, t));
            SeenAt(s'.perKey, t) && SeenAt(s'.perIP, t)
    decreases n
  {
    if n > 0 {
      assert Burst(n, fp, ip, t)[1..] == Burst(n - 1, fp, ip, t);
      BurstEntries(c, Step(c, s, Allow(fp, ip, t)), n - 1, fp, ip, t);
    }
  }

  /** The swept run answers both bursts in full; without the sweep the second burst is cut. */
  lemma DoubleBurstAnswers(c: Limits, fp: string, ip: string)
    requires ValidLimits(c) && c.ttl * c.rate < c.burst as real
    ensures Ordered(DoubleBurst(c, fp, ip), 0.0)
    ensures Answers(c, EMPTY, DoubleBurst(c, fp, ip)) != Answers(c, EMPTY, WithoutGc(DoubleBurst(c, fp, ip)))
    ensures Accepted(c, EMPTY, DoubleBurst(c, fp, ip), Key(fp), 0.0, TooSoon(c)) == 2 * c.burst
  {
    hide Advance, AllowStep, TooSoon;
    var n, t := c.burst, TooSoon(c);
    var first, second := Burst(n, fp, ip, 0.0), Burst(n, fp, ip, t);
    var rest := [Gc(t)] + second;
    var s := StepAll(c, EMPTY, first);
    AfterFirstBurst(c, fp, ip);
    TooSoonBetween(c);
    assert rest[1..] == second && second + [] == second;
    BurstOrdered(n, fp, ip, t, t, []);
    BurstOrdered(n, fp, ip, 0.0, 0.0, rest);
    BurstRunLength(c, EMPTY, n, fp, ip, 0.0);
    BurstRun(c, EMPTY, n, fp, ip, t);
    BurstRun(c, s, n, fp, ip, t);
    AnswersConcat(c, EMPTY, first, rest);
    AnswersConcat(c, EMPTY, first, second);
    BurstCount(c, EMPTY, n, fp, ip, 0.0, 0.0, t);
    BurstCount(c, EMPTY, n, fp, ip, t, 0.0, t);
    AcceptedConcat(c, EMPTY, first, rest, Key(fp), 0.0, t);
    assert Step(c, s, Gc(t)) == EMPTY;
    assert WithoutGc(rest) == second;
    var yes, all, cut := Answers(c, EMPTY, first), Answers(c, EMPTY, second), Answers(c, s, second);
    var i :| 0 <= i < |cut| && !cut[i];
    assert (yes + all)[n + i] && !(yes + cut)[n + i];
  }

  /** Dropping idle entries changes no answer in any run exactly when an entry idle for the TTL
      has refilled completely. Nothing in the configuration checks this. */
  lemma EvictionInvisibleIff(c: Limits)
    requires ValidLimits(c)
    ensures EvictionInvisible(c) <==> c.ttl * c.rate >= c.burst as real
  {
    if c.ttl * c.rate >= c.burst as real {
      forall evs | Ordered(evs, 0.0)
        ensures Answers(c, EMPTY, evs) == Answers(c, EMPTY, WithoutGc(evs))
      {
        SimulationRun(c, EMPTY, EMPTY, 0.0, evs);
      }
    } else {
      DoubleBurstAnswers(c, "k", "k");
    }
  }

  lemma WindowStart(c: Limits, evs: seq<Event>, w: Who, from: real, to: real)
    requires ValidLimits(c) && c.ttl * c.rate >= c.burst as real && Ordered(evs, 0.0) && from <= to
    ensures Accepted(c, EMPTY, evs, w, from, to) as real <= c.burst as real + c.rate * (to - from)
  {
    hide Step, AllowStep, Level, Counts, Potential;
    MulNonNegative(c.rate, to - from);
    if to < 0.0 {
      NoneAfterWindow(c, EMPTY, evs, w, from, to, 0.0);
    } else {
      var p := Later(0.0, from);
      WindowRun(c, EMPTY, 0.0, evs, w, from, to);
      PotentialRange(c, EMPTY, w, 0.0, from, to);
      MulNonNegative(c.rate, p - from);
      assert c.rate * (to - from) == c.rate * (p - from) + c.rate * (to - p);
      assert c.rate * (to - p) <= c.rate * (to - from);
    }
  }

  /** A short TTL lets two whole bursts through in less time than one burst takes to refill. */
  lemma DoubleBurstExceeds(c: Limits, fp: string, ip: string)
    requires ValidLimits(c) && c.ttl * c.rate < c.burst as real
    ensures 0.0 <= TooSoon(c) && Ordered(DoubleBurst(c, fp, ip), 0.0)
    ensures Accepted(c, EMPTY, DoubleBurst(c, fp, ip), Key(fp), 0.0, TooSoon(c)) as real
            > c.burst as real + c.rate * (TooSoon(c) - 0.0)
  {
    hide Step, AllowStep, Accepted, TooSoon;
    DoubleBurstAnswers(c, fp, ip);
    TooSoonBetween(c);
    assert TooSoon(c) - 0.0 == TooSoon(c);
  }

  lemma WindowBroken(c: Limits)
    requires ValidLimits(c) && c.ttl * c.rate < c.burst as real
    ensures !WindowBounded(c)
  {
    hide Step, AllowStep, Accepted, TooSoon;
    DoubleBurstExceeds(c, "k", "k");
    var evs, to := DoubleBurst(c, "k", "k"), TooSoon(c);
    assert !(Accepted(c, EMPTY, evs, Key("k"), 0.0, to) as real <= c.burst as real + c.rate * (to - 0.0));
  }

  /** The promised rate holds in every window of every run, for every key and every address,
      under exactly the same condition. */
  lemma WindowBoundedIff(c: Limits)
    requires ValidLimits(c)
    ensures WindowBounded(c) <==> c.ttl * c.rate >= c.burst as real
  {
    hide Accepted;
    if c.ttl * c.rate >= c.burst as real {
      forall evs, w, from, to | Ordered(evs, 0.0) && from <= to
        ensures Accepted(c, EMPTY, evs, w, from, to) as real <= c.burst as real + c.rate * (to - from)
      {
        WindowStart(c, evs, w, from, to);
      }
    } else {
      WindowBroken(c);
    }
  }
}
