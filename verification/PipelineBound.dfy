/** The rate bound on success records holds for the whole server exactly under the condition of the
    limiter: every run of the limiter with one key and one address is a run of the server. */
module PipelineBound {

  import opened Wrappers
  import opened KeyDb
  import opened KeyRuns
  import RL = RateLimit
  import opened Pipeline
  import opened PipelineRuns
  import opened PipelineSafety

  /** The gate lets this request through to the key store. */
  ghost predicate Admits(u: Setup, req: Request) {
    Turned(u.gate, req).None?
  }

  function TokenOf(u: Setup, req: Request): string {
    var token := Bearer(u.gate.text, req.authorization);
    if token.None? then "" else token.value
  }

  function PrintOf(u: Setup, req: Request): string {
    Shown(u.lib.fingerprint(TokenOf(u, req)))
  }

  function AddrOf(u: Setup, req: Request): string {
    HostOf(u.gate.text, req.remote)
  }

  /** Events of the limiter that this request can cause, and sweeps. */
  predicate From(u: Setup, req: Request, evs: seq<RL.Event>) {
    forall i :: 0 <= i < |evs| ==> evs[i].Allow? ==> evs[i].fp == PrintOf(u, req) && evs[i].ip == AddrOf(u, req)
  }

  /** Each call of the limiter is the request arriving and being charged. */
  function Played(req: Request, evs: seq<RL.Event>): seq<Event> {
    if evs == [] then []
    else
      (match evs[0]
       case Allow(_, _, at) => [Arrive(req, 1, None), Charge(0, at)]
       case Gc(at) => [Gc(at)])
      + Played(req, evs[1..])
  }

  const SALT: Bytes := "0123456789abcdef"

  /** The key that the request presents is created first. */
  function Issue(u: Setup, req: Request): Event {
    Keys(Create("", TokenOf(u, req), SALT, "id", 1, true))
  }

  function Stored(u: Setup, req: Request): Record {
    NewRecord(u.lib, "", TokenOf(u, req), SALT, "id", 1)
  }

  /** The key is in the store, nobody is waiting, no request has been served before. */
  ghost predicate Ready(u: Setup, w: World, req: Request) {
    w.keys.db.keys == [Stored(u, req)] && w.pending == []
  }

  lemma Passes(u: Setup, w: World, req: Request)
    requires Admits(u, req) && Ready(u, w, req)
    ensures RulingOf(u, w, req, 1, None).Passed? && Shown(RulingOf(u, w, req, 1, None).fp) == PrintOf(u, req)
  {
    hide Listed, OriginListed;
    assert w.keys.db.keys[|w.keys.db.keys| - 1] == Stored(u, req);
  }

  /** One request, served alone. */
  lemma OneRequest(u: Setup, w: World, req: Request, at: real)
    requires Admits(u, req) && Ready(u, w, req)
    ensures var w1 := Next(u, w, Arrive(req, 1, None));
            var w2 := Next(u, w1, Charge(0, at));
            && w1.tables == w.tables && |w1.pending| == 1
            && w1.pending[0].fp == PrintOf(u, req) && w1.pending[0].remote == req.remote
            && Ready(u, w2, req)
  {
    hide RL.AllowStep, Scan, RulingOf;
    Passes(u, w, req);
  }

  lemma {:induction false} PlayedCharges(u: Setup, w: World, req: Request, evs: seq<RL.Event>)
    requires Admits(u, req) && Ready(u, w, req) && From(u, req, evs)
    ensures Charges(u, w, Played(req, evs)) == evs
    decreases |evs|
  {
    hide Ready, Admits, Next;
    if evs != [] {
      var rest := Played(req, evs[1..]);
      match evs[0] {
        case Gc(at) =>
          var w1 := Next(u, w, Gc(at));
          assert Ready(u, w1, req) by { SweepReady(u, w, req, at); }
          PlayedCharges(u, w1, req, evs[1..]);
          assert Played(req, evs) == [Gc(at)] + rest && ([Gc(at)] + rest)[1..] == rest;
          assert evs == [RL.Gc(at)] + evs[1..];
        case Allow(fp, ip, at) =>
          var w1 := Next(u, w, Arrive(req, 1, None));
          var w2 := Next(u, w1, Charge(0, at));
          OneRequest(u, w, req, at);
          PlayedCharges(u, w2, req, evs[1..]);
          var played := Played(req, evs);
          assert played == [Arrive(req, 1, None), Charge(0, at)] + rest;
          assert played[1..] == [Charge(0, at)] + rest && played[1..][1..] == rest;
          assert Charges(u, w, played) == [] + Charges(u, w1, played[1..]);
          assert Charges(u, w1, played[1..]) == [RL.Allow(fp, ip, at)] + evs[1..];
          assert evs == [RL.Allow(fp, ip, at)] + evs[1..];
      }
    }
  }

  lemma SweepReady(u: Setup, w: World, req: Request, at: real)
    requires Ready(u, w, req)
    ensures Ready(u, Next(u, w, Gc(at)), req)
  {}

  lemma {:induction false} PlayedTimed(req: Request, evs: seq<RL.Event>, from: real)
    requires RL.Ordered(evs, from)
    ensures Timed(Played(req, evs), from)
    decreases |evs|
  {
    if evs != [] {
      PlayedTimed(req, evs[1..], evs[0].at);
      var rest, played := Played(req, evs[1..]), Played(req, evs);
      match evs[0] {
        case Gc(at) => assert played[1..] == rest;
        case Allow(_, _, at) => assert played[1..] == [Charge(0, at)] + rest && played[1..][1..] == rest;
      }
    }
  }

  lemma {:induction false} PlayedLawful(u: Setup, w: World, req: Request, evs: seq<RL.Event>)
    ensures Lawful(u, w, Played(req, evs))
    decreases |evs|
  {
    hide Next;
    if evs != [] {
      var rest, played := Played(req, evs[1..]), Played(req, evs);
      match evs[0] {
        case Gc(at) =>
          assert played[1..] == rest;
          PlayedLawful(u, Next(u, w, Gc(at)), req, evs[1..]);
        case Allow(_, _, at) =>
          assert played[1..] == [Charge(0, at)] + rest && played[1..][1..] == rest;
          var w1 := Next(u, w, Arrive(req, 1, None));
          PlayedLawful(u, Next(u, w1, Charge(0, at)), req, evs[1..]);
          assert Lawful(u, w1, played[1..]);
      }
    }
  }

  lemma IssueReady(u: Setup, req: Request)
    ensures var w := Next(u, START, Issue(u, req));
            Fits(u, START, Issue(u, req)) && Ready(u, w, req) && w.tables == RL.EMPTY && w.mux == []
  {}

  /** What the limiter accepts in a run of this one key and address, the server serves. */
  lemma ServedAsAccepted(u: Setup, req: Request, evs: seq<RL.Event>, who: RL.Who, from: real, to: real)
    returns (run: seq<Event>)
    requires Admits(u, req) && From(u, req, evs) && RL.Ordered(evs, 0.0)
    ensures Lawful(u, START, run) && Timed(run, 0.0)
    ensures Granted(u, Play(u, START, run).mux, who, from, to) == RL.Accepted(u.limits, RL.EMPTY, evs, who, from, to)
  {
    hide Next, Ready, Admits, RL.Accepted, Issue;
    var e := Issue(u, req);
    var w, rest := Next(u, START, e), Played(req, evs);
    IssueReady(u, req);
    PlayedCharges(u, w, req, evs);
    PlayedTimed(req, evs, 0.0);
    PlayedLawful(u, w, req, evs);
    GrantedIsAccepted(u, w, rest, who, from, to);
    run := [e] + rest;
    assert run[1..] == rest;
    assert e.Keys? by { IssueIsKeys(u, req); }
    assert Granted(u, w.mux, who, from, to) == 0;
  }

  lemma IssueIsKeys(u: Setup, req: Request)
    ensures Issue(u, req).Keys?
  {}

  /** In every run of the server, every window and for every key and address. */
  ghost predicate ServerBounded(u: Setup) {
    forall evs, who, from, to :: Lawful(u, START, evs) && Timed(evs, 0.0) && from <= to ==>
      Granted(u, Play(u, START, evs).mux, who, from, to) as real <= u.limits.burst as real + u.limits.rate * (to - from)
  }

  lemma {:induction false} BurstFrom(u: Setup, req: Request, n: nat, t: real)
    ensures From(u, req, RL.Burst(n, PrintOf(u, req), AddrOf(u, req), t))
  {
    if n > 0 { BurstFrom(u, req, n - 1, t); }
  }

  /** If the gate admits any request at all, the promised rate holds for the success records of the
      whole server exactly when an entry idle for the TTL has refilled completely. */
  lemma SuccessesBoundedIff(u: Setup, req: Request)
    requires RL.ValidLimits(u.limits) && Admits(u, req)
    ensures ServerBounded(u) <==> u.limits.ttl * u.limits.rate >= u.limits.burst as real
  {
    hide RL.Accepted, Play, Lawful, Granted, Timed, Admits;
    if u.limits.ttl * u.limits.rate >= u.limits.burst as real {
      forall evs, who, from, to | Lawful(u, START, evs) && Timed(evs, 0.0) && from <= to
        ensures Granted(u, Play(u, START, evs).mux, who, from, to) as real
                <= u.limits.burst as real + u.limits.rate * (to - from)
      {
        SuccessesBounded(u, evs, who, from, to);
      }
    } else {
      var fp, ip, to := PrintOf(u, req), AddrOf(u, req), RL.TooSoon(u.limits);
      RL.DoubleBurstExceeds(u.limits, fp, ip);
      BurstFrom(u, req, u.limits.burst, 0.0);
      BurstFrom(u, req, u.limits.burst, to);
      var run := ServedAsAccepted(u, req, RL.DoubleBurst(u.limits, fp, ip), RL.Key(fp), 0.0, to);
      assert !(Granted(u, Play(u, START, run).mux, RL.Key(fp), 0.0, to) as real
               <= u.limits.burst as real + u.limits.rate * (to - 0.0));
    }
  }
}
