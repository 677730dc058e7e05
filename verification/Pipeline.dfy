/** The request chain that New builds in internal/server/server.go: host and origin checks, then
    authentication, then rate limiting, then the success record, then the mux. */
module Pipeline {

  import opened Wrappers
  import opened KeyDb
  import opened KeyStore
  import RateLimit

  /** The parts of a request the chain reads; a missing header is the empty string. */
  datatype Request = Request(host: string, hostHeader: string, origin: string, authorization: string, remote: string)

  /** strings.ToLower, strings.TrimSpace, the host of net.SplitHostPort, and the hostname of a parsed
      URL, which fail on malformed input. */
  datatype Text = Text(
    lower: string -> string, trim: string -> string,
    splitHost: string -> Option<string>, urlHost: string -> Option<string>)

  datatype Gate = Gate(text: Text, hosts: seq<string>, origins: seq<string>)

  datatype Verdict = Success | Deny | Fail | RateLimited

  datatype AuditRecord = AuditRecord(fp: string, remote: string, verdict: Verdict, reason: string)

  const FORBIDDEN: nat := 403
  const UNAUTHORIZED: nat := 401
  const TOO_MANY: nat := 429

  const BAD_HOST := "invalid host header"
  const BAD_ORIGIN := "invalid origin header"
  const NO_HEADER := "no authorization header"
  const AUTH_FAILED := "authentication failed"
  const STORE_DOWN := "key store unavailable"
  const KEY_LIMIT := "rate limit exceeded (key)"
  const IP_LIMIT := "rate limit exceeded (ip)"

  const BEARER := "Bearer "

  /** What a layer in front of the limiter decides. */
  datatype Ruling = Refused(status: nat, record: AuditRecord) | Passed(fp: string, id: string)

  // ----- pure parts -----

  ghost predicate Listed(text: Text, names: seq<string>, s: string) {
    exists i :: 0 <= i < |names| && text.lower(names[i]) == text.lower(s)
  }

  function HostOf(text: Text, s: string): string {
    match text.splitHost(s)
    case Some(host) => host
    case None => s
  }

  function HostName(text: Text, req: Request): string {
    HostOf(text, if req.host == "" then req.hostHeader else req.host)
  }

  ghost predicate OriginListed(gate: Gate, origin: string) {
    var name := gate.text.urlHost(origin);
    && name.Some? && gate.text.lower(name.value) != ""
    && Listed(gate.text, gate.origins, gate.text.lower(name.value))
  }

  /** bearerToken. */
  function Bearer(text: Text, header: string): Option<string> {
    if header == "" then None
    else if !(BEARER <= header) then None
    else
      var token := text.trim(header[|BEARER|..]);
      if token == "" then None else Some(token)
  }

  /** The record of a refusal before the store is asked, if there is one. */
  ghost function Turned(gate: Gate, req: Request): Option<Ruling> {
    if !Listed(gate.text, gate.hosts, HostName(gate.text, req)) then
      Some(Refused(FORBIDDEN, AuditRecord("-", req.remote, Deny, BAD_HOST)))
    else if req.origin != "" && !OriginListed(gate, req.origin) then
      Some(Refused(FORBIDDEN, AuditRecord("-", req.remote, Deny, BAD_ORIGIN)))
    else if Bearer(gate.text, req.authorization).None? then
      Some(Refused(UNAUTHORIZED, AuditRecord("-", req.remote, Fail, NO_HEADER)))
    else None
  }

  // ----- what the gate demands, in terms of the request and the lists alone -----

  /** Some listed host agrees, up to case, with the request's host without its port. */
  ghost predicate HostKnown(gate: Gate, req: Request) {
    var raw := if req.host == "" then req.hostHeader else req.host;
    var cut := gate.text.splitHost(raw);
    var host := if cut.Some? then cut.value else raw;
    exists i :: 0 <= i < |gate.hosts| && gate.text.lower(gate.hosts[i]) == gate.text.lower(host)
  }

  /** There is no origin, or it parses to a non-empty host that some listed origin agrees with. */
  ghost predicate OriginFits(gate: Gate, req: Request) {
    req.origin != "" ==>
      var name := gate.text.urlHost(req.origin);
      && name.Some? && gate.text.lower(name.value) != ""
      && exists i :: 0 <= i < |gate.origins| && gate.text.lower(gate.origins[i]) == gate.text.lower(gate.text.lower(name.value))
  }

  ghost predicate Presents(gate: Gate, req: Request, token: string) {
    "Bearer " <= req.authorization && token == gate.text.trim(req.authorization[7..]) && token != ""
  }

  /** The address a request is limited by: its remote address without the port. */
  ghost predicate ComesFrom(gate: Gate, req: Request, ip: string) {
    var cut := gate.text.splitHost(req.remote);
    ip == if cut.Some? then cut.value else req.remote
  }

  lemma GateExact(gate: Gate, req: Request)
    ensures !HostKnown(gate, req) ==>
              Turned(gate, req) == Some(Refused(403, AuditRecord("-", req.remote, Deny, "invalid host header")))
    ensures HostKnown(gate, req) && !OriginFits(gate, req) ==>
              Turned(gate, req) == Some(Refused(403, AuditRecord("-", req.remote, Deny, "invalid origin header")))
    ensures HostKnown(gate, req) && OriginFits(gate, req) && (forall token :: !Presents(gate, req, token)) ==>
              Turned(gate, req) == Some(Refused(401, AuditRecord("-", req.remote, Fail, "no authorization header")))
              && Bearer(gate.text, req.authorization) == None
    ensures forall token :: Presents(gate, req, token) ==> Bearer(gate.text, req.authorization) == Some(token)
    ensures HostKnown(gate, req) && OriginFits(gate, req) && Bearer(gate.text, req.authorization).Some? ==>
              Turned(gate, req) == None && Presents(gate, req, Bearer(gate.text, req.authorization).value)
    ensures ComesFrom(gate, req, HostOf(gate.text, req.remote))
  {
    assert HostKnown(gate, req) <==> Listed(gate.text, gate.hosts, HostName(gate.text, req));
    assert OriginFits(gate, req) <==> req.origin == "" || OriginListed(gate, req.origin);
    var token := Bearer(gate.text, req.authorization);
    if token.Some? { assert Presents(gate, req, token.value); }
    assert Presents(gate, req, gate.text.trim(if "Bearer " <= req.authorization then req.authorization[7..] else ""))
           ==> token.Some?;
  }

  /** What the answer of Verify means for a request. */
  function Judged(lib: Lib, token: string, remote: string, answer: Result<Option<Record>, StoreError>): Ruling {
    match answer
    case Err(e) =>
      Refused(FORBIDDEN, AuditRecord(if e.Corrupt? then "-" else lib.fingerprint(token), remote, Deny, STORE_DOWN))
    case Ok(None) => Refused(UNAUTHORIZED, AuditRecord(lib.fingerprint(token), remote, Fail, AUTH_FAILED))
    case Ok(Some(r)) => Passed(if r.fingerprint == "" then lib.fingerprint(token) else r.fingerprint, r.id)
  }

  /** fingerprintFromCtx. */
  function Shown(fp: string): string {
    if fp == "" then "-" else fp
  }

  function LimitRecord(fp: string, remote: string): AuditRecord {
    AuditRecord(fp, remote, RateLimited, if fp != "-" then KEY_LIMIT else IP_LIMIT)
  }

  function SuccessRecord(fp: string, remote: string): AuditRecord {
    AuditRecord(fp, remote, Success, "")
  }

  /** What Verify answers in this state of the store. */
  function Lookup(store: Store, token: string, now: Time, env: Env): Result<Option<Record>, StoreError>
    reads store.disk
  {
    if store.disk.path !in store.disk.entries then Ok(None)
    else if !env.lock.NoFault? then Err(Unavailable)
    else if env.read then Err(Corrupt)
    else
      match store.Db()
      case Err(e) => Err(e)
      case Ok(db) =>
        match Scan(store.lib, token, db.keys)
        case None => Ok(None)
        case Some(r) => Ok(Some(r.(lastUsed := now)))
  }

  lemma BearerPresents(gate: Gate, req: Request)
    ensures Bearer(gate.text, req.authorization).Some? ==> Presents(gate, req, Bearer(gate.text, req.authorization).value)
  {}

  // ----- the layers -----

  datatype Call = Call(fp: string, remote: string)

  class Server {
    const store: Store
    const limiters: RateLimit.Limiters
    const gate: Gate
    var audit: seq<AuditRecord>
    var calls: seq<Call>

    constructor (store: Store, limiters: RateLimit.Limiters, gate: Gate)
      ensures this.store == store && this.limiters == limiters && this.gate == gate
      ensures audit == [] && calls == []
    {
      this.store, this.limiters, this.gate := store, limiters, gate;
      audit, calls := [], [];
    }

    /** Everything in front of the limiter. */
    ghost function Ruled(req: Request, now: Time, env: Env): Ruling
      reads store, store.disk
    {
      var turned := Turned(gate, req);
      if turned.Some? then turned.value
      else
        var token := Bearer(gate.text, req.authorization).value;
        Judged(store.lib, token, req.remote, Lookup(store, token, now, env))
    }

    /** The file is there, and nothing keeps it from being read. */
    ghost predicate Readable(env: Env)
      reads store, store.disk
    {
      store.disk.path in store.disk.entries && env.lock.NoFault? && !env.read && store.Db().Ok?
    }

    ghost function Keys(): seq<Record>
      reads store, store.disk
    {
      if store.Db().Ok? then store.Db().value.keys else []
    }

    method Contains(names: seq<string>, s: string) returns (found: bool)
      ensures found <==> Listed(gate.text, names, s)
    {
      var low := gate.text.lower(s);
      for i := 0 to |names|
        invariant forall j :: 0 <= j < i ==> gate.text.lower(names[j]) != low
      {
        if gate.text.lower(names[i]) == low { return true; }
      }
      return false;
    }

    method OriginAllowed(origin: string) returns (ok: bool)
      ensures ok <==> OriginListed(gate, origin)
    {
      var name := gate.text.urlHost(origin);
      if name.None? { return false; }
      var low := gate.text.lower(name.value);
      if low == "" { return false; }
      ok := Contains(gate.origins, low);
    }

    /** The mux and whatever handler it picks, which answers with some status. */
    method Mux(fp: string, remote: string, handler: nat) returns (status: nat)
      modifies this`calls
      ensures status == handler && calls == old(calls) + [Call(fp, remote)]
    {
      calls := calls + [Call(fp, remote)];
      return handler;
    }

    method SuccessAudit(fp: string, remote: string, handler: nat) returns (status: nat)
      modifies this`audit, this`calls
      ensures status == handler
      ensures audit == old(audit) + [SuccessRecord(fp, remote)] && calls == old(calls) + [Call(fp, remote)]
    {
      audit := audit + [SuccessRecord(fp, remote)];
      status := Mux(fp, remote, handler);
    }

    /** rateLimitMiddleware: charges the key and the address, records a rejection. */
    method Charge(fp: string, remote: string, at: real, handler: nat) returns (status: nat)
      modifies this`audit, this`calls, limiters
      ensures var (tables, ok) := RateLimit.AllowStep(limiters.limits, old(limiters.Contents()), fp, HostOf(gate.text, remote), at);
              && limiters.Contents() == tables
              && status == (if ok then handler else TOO_MANY)
              && audit == old(audit) + [if ok then SuccessRecord(fp, remote) else LimitRecord(fp, remote)]
              && calls == old(calls) + (if ok then [Call(fp, remote)] else [])
    {
      var ip := HostOf(gate.text, remote);
      var ok := limiters.Allow(fp, ip, at);
      if !ok {
        var reason := IP_LIMIT;
        if fp != "-" { reason := KEY_LIMIT; }
        audit := audit + [AuditRecord(fp, remote, RateLimited, reason)];
        return TOO_MANY;
      }
      status := SuccessAudit(fp, remote, handler);
    }

    /** The effect of everything behind a ruling: one record in every case, the limiters charged and
        the mux called only behind a pass. */
    twostate predicate Answered(ruling: Ruling, remote: string, at: real, handler: nat, status: nat)
      reads this, limiters
    {
      match ruling
      case Refused(code, record) =>
        && status == code && audit == old(audit) + [record] && calls == old(calls)
        && limiters.Contents() == old(limiters.Contents())
      case Passed(id, _) =>
        var fp := Shown(id);
        var (tables, ok) := RateLimit.AllowStep(limiters.limits, old(limiters.Contents()), fp, HostOf(gate.text, remote), at);
        && limiters.Contents() == tables
        && status == (if ok then handler else TOO_MANY)
        && audit == old(audit) + [if ok then SuccessRecord(fp, remote) else LimitRecord(fp, remote)]
        && calls == old(calls) + (if ok then [Call(fp, remote)] else [])
    }

    /** authMiddleware. */
    method Auth(req: Request, now: Time, env: Env, at: real, handler: nat) returns (status: nat, ghost ruling: Ruling)
      requires store.Valid()
      modifies this`audit, this`calls, limiters, store, store.disk
      ensures store.Valid() && store.disk.entries == old(store.disk.entries)
      ensures ruling == if Bearer(gate.text, req.authorization).None?
                        then Refused(UNAUTHORIZED, AuditRecord("-", req.remote, Fail, NO_HEADER))
                        else Judged(store.lib, Bearer(gate.text, req.authorization).value, req.remote,
                                    old(Lookup(store, Bearer(gate.text, req.authorization).value, now, env)))
      ensures Answered(ruling, req.remote, at, handler, status)
      ensures store.usageBuf == if ruling.Passed? then old(store.usageBuf)[ruling.id := now] else old(store.usageBuf)
    {
      hide RateLimit.AllowStep;
      var token := Bearer(gate.text, req.authorization);
      if token.None? {
        ruling := Refused(UNAUTHORIZED, AuditRecord("-", req.remote, Fail, NO_HEADER));
        audit := audit + [AuditRecord("-", req.remote, Fail, NO_HEADER)];
        return UNAUTHORIZED, ruling;
      }
      var answer := store.Verify(token.value, now, env);
      ruling := Judged(store.lib, token.value, req.remote, answer);
      if answer.Err? {
        var fp := store.lib.fingerprint(token.value);
        if answer.error.Corrupt? { fp := "-"; }
        audit := audit + [AuditRecord(fp, req.remote, Deny, STORE_DOWN)];
        return FORBIDDEN, ruling;
      }
      if answer.value.None? {
        audit := audit + [AuditRecord(store.lib.fingerprint(token.value), req.remote, Fail, AUTH_FAILED)];
        return UNAUTHORIZED, ruling;
      }
      var fp := answer.value.value.fingerprint;
      if fp == "" { fp := store.lib.fingerprint(token.value); }
      status := Charge(Shown(fp), req.remote, at, handler);
    }

    /** The request is answered with this status and this one record, and nothing else happens. */
    twostate predicate TurnedAway(status: nat, code: nat, record: AuditRecord)
      reads this, limiters, store
    {
      && status == code && audit == old(audit) + [record] && calls == old(calls)
      && limiters.Contents() == old(limiters.Contents()) && store.usageBuf == old(store.usageBuf)
    }

    /** The request is charged to this fingerprint and address, recorded, and handed to the mux if the
        limiter allows it. */
    twostate predicate ChargedTo(fp: string, ip: string, remote: string, at: real, handler: nat, status: nat)
      reads this, limiters
    {
      var (tables, ok) := RateLimit.AllowStep(limiters.limits, old(limiters.Contents()), fp, ip, at);
      && limiters.Contents() == tables
      && status == (if ok then handler else 429)
      && audit == old(audit) + [if ok then AuditRecord(fp, remote, Success, "")
                                else AuditRecord(fp, remote, RateLimited,
                                                 if fp != "-" then "rate limit exceeded (key)" else "rate limit exceeded (ip)")]
      && calls == old(calls) + (if ok then [Call(fp, remote)] else [])
    }

    /** Past the gate, with a token. */
    ghost predicate Reaches(req: Request, token: string) {
      HostKnown(gate, req) && OriginFits(gate, req) && Presents(gate, req, token)
    }

    /** What the ruling is, case by case. */
    lemma RuledExact(req: Request, token: string, now: Time, env: Env)
      requires Reaches(req, token)
      ensures store.disk.path !in store.disk.entries ==>
                Ruled(req, now, env)
                == Refused(401, AuditRecord(store.lib.fingerprint(token), req.remote, Fail, "authentication failed"))
      ensures store.disk.path in store.disk.entries && !env.lock.NoFault? ==>
                Ruled(req, now, env)
                == Refused(403, AuditRecord(store.lib.fingerprint(token), req.remote, Deny, "key store unavailable"))
      ensures store.disk.path in store.disk.entries && env.lock.NoFault? && (env.read || store.Damaged()) ==>
                Ruled(req, now, env) == Refused(403, AuditRecord("-", req.remote, Deny, "key store unavailable"))
      ensures Readable(env) && (forall r :: r in Keys() ==> !Opens(store.lib, token, r)) ==>
                Ruled(req, now, env)
                == Refused(401, AuditRecord(store.lib.fingerprint(token), req.remote, Fail, "authentication failed"))
      ensures forall i :: Readable(env) && LastOpened(store.lib, token, Keys(), i) ==>
                var r := Keys()[i];
                Ruled(req, now, env) == Passed(if r.fingerprint == "" then store.lib.fingerprint(token) else r.fingerprint, r.id)
      ensures Ruled(req, now, env).Passed? ==> exists r :: r in Keys() && Opens(store.lib, token, r)
    {
      GateExact(gate, req);
      ScanExact(store.lib, token, Keys());
      ScanFindsLast(store.lib, token, Keys());
    }

    /** What it is in front of the store. */
    lemma RuledByGate(req: Request, now: Time, env: Env)
      ensures !HostKnown(gate, req) ==>
                Ruled(req, now, env) == Refused(403, AuditRecord("-", req.remote, Deny, "invalid host header"))
      ensures HostKnown(gate, req) && !OriginFits(gate, req) ==>
                Ruled(req, now, env) == Refused(403, AuditRecord("-", req.remote, Deny, "invalid origin header"))
      ensures HostKnown(gate, req) && OriginFits(gate, req) && (forall token :: !Presents(gate, req, token)) ==>
                Ruled(req, now, env) == Refused(401, AuditRecord("-", req.remote, Fail, "no authorization header"))
      ensures forall token :: Presents(gate, req, token) ==> Bearer(gate.text, req.authorization) == Some(token)
      ensures forall token :: !Presents(gate, req, token) ==> Bearer(gate.text, req.authorization) != Some(token)
      ensures ComesFrom(gate, req, HostOf(gate.text, req.remote))
      ensures Ruled(req, now, env).Refused? ==> !Ruled(req, now, env).record.verdict.Success?
      ensures Ruled(req, now, env).Refused? ==> Ruled(req, now, env).status != TOO_MANY
    {
      GateExact(gate, req);
      var token := Bearer(gate.text, req.authorization);
      if token.Some? { assert Presents(gate, req, token.value) by { BearerPresents(gate, req); } }
    }

    /** hostOriginMiddleware around the rest of the chain. */
    method HostOrigin(req: Request, now: Time, env: Env, at: real, handler: nat) returns (status: nat)
      requires store.Valid()
      modifies this`audit, this`calls, limiters, store, store.disk
      ensures store.Valid() && store.disk.entries == old(store.disk.entries)
      ensures var ruling := old(Ruled(req, now, env));
              && Answered(ruling, req.remote, at, handler, status)
              && store.usageBuf == if ruling.Passed? then old(store.usageBuf)[ruling.id := now] else old(store.usageBuf)
    {
      hide RateLimit.AllowStep, Lookup;
      var hostOnly := HostName(gate.text, req);
      var known := Contains(gate.hosts, hostOnly);
      if !known {
        audit := audit + [AuditRecord("-", req.remote, Deny, BAD_HOST)];
        return FORBIDDEN;
      }
      if req.origin != "" {
        var allowed := OriginAllowed(req.origin);
        if !allowed {
          audit := audit + [AuditRecord("-", req.remote, Deny, BAD_ORIGIN)];
          return FORBIDDEN;
        }
      }
      ghost var ruling;
      status, ruling := Auth(req, now, env, at, handler);
    }

    /** The whole chain: every request leaves exactly one record, only a pass touches the limiters, and
        the mux is called exactly behind a success record. */
    method Handle(req: Request, now: Time, env: Env, at: real, handler: nat) returns (status: nat)
      requires store.Valid()
      modifies this`audit, this`calls, limiters, store, store.disk
      ensures store.Valid() && store.disk.entries == old(store.disk.entries)
      // the gate
      ensures !HostKnown(gate, req) ==> TurnedAway(status, 403, AuditRecord("-", req.remote, Deny, "invalid host header"))
      ensures HostKnown(gate, req) && !OriginFits(gate, req) ==>
                TurnedAway(status, 403, AuditRecord("-", req.remote, Deny, "invalid origin header"))
      ensures HostKnown(gate, req) && OriginFits(gate, req) && (forall token :: !Presents(gate, req, token)) ==>
                TurnedAway(status, 401, AuditRecord("-", req.remote, Fail, "no authorization header"))
      // the store
      ensures forall token :: Reaches(req, token) && store.disk.path in old(store.disk.entries) && !env.lock.NoFault? ==>
                TurnedAway(status, 403, AuditRecord(store.lib.fingerprint(token), req.remote, Deny, "key store unavailable"))
      ensures forall token :: Reaches(req, token) && store.disk.path in old(store.disk.entries) && env.lock.NoFault?
                              && (env.read || old(store.Damaged())) ==>
                TurnedAway(status, 403, AuditRecord("-", req.remote, Deny, "key store unavailable"))
      ensures forall token :: Reaches(req, token) && store.disk.path !in old(store.disk.entries) ==>
                TurnedAway(status, 401, AuditRecord(store.lib.fingerprint(token), req.remote, Fail, "authentication failed"))
      ensures forall token :: Reaches(req, token) && old(Readable(env)) && (forall r :: r in old(Keys()) ==> !Opens(store.lib, token, r)) ==>
                TurnedAway(status, 401, AuditRecord(store.lib.fingerprint(token), req.remote, Fail, "authentication failed"))
      ensures forall token, i, ip :: Reaches(req, token) && old(Readable(env)) && LastOpened(store.lib, token, old(Keys()), i)
                                     && ComesFrom(gate, req, ip) ==>
                var r := old(Keys())[i];
                var shown := if r.fingerprint == "" then store.lib.fingerprint(token) else r.fingerprint;
                && ChargedTo(if shown == "" then "-" else shown, ip, req.remote, at, handler, status)
                && store.usageBuf == old(store.usageBuf)[r.id := now]
      ensures |audit| == |old(audit)| + 1 && old(audit) <= audit
      // nobody else gets through
      ensures audit[|old(audit)|].verdict.Success? ==>
                HostKnown(gate, req) && OriginFits(gate, req)
                && exists token, r :: Presents(gate, req, token) && r in old(Keys()) && Opens(store.lib, token, r)
      // the same as one function of the old state
      ensures var ruling := old(Ruled(req, now, env));
              && Answered(ruling, req.remote, at, handler, status)
              && store.usageBuf == if ruling.Passed? then old(store.usageBuf)[ruling.id := now] else old(store.usageBuf)
      ensures audit[|old(audit)|].verdict.Success? <==> calls != old(calls)
      ensures audit[|old(audit)|].verdict.Success? <==> |calls| == |old(calls)| + 1
      ensures status == TOO_MANY && handler != TOO_MANY ==> audit[|old(audit)|].verdict.RateLimited?
      ensures limiters.Contents() != old(limiters.Contents()) ==> old(Ruled(req, now, env)).Passed?
    {
      hide RateLimit.AllowStep, Lookup, Turned, Judged, Ruled, HostKnown, OriginFits, Presents, Opens, LastOpened, Readable, Keys;
      ghost var header := Bearer(gate.text, req.authorization);
      RuledByGate(req, now, env);
      if header.Some? && Reaches(req, header.value) {
        RuledExact(req, header.value, now, env);
      }
      status := HostOrigin(req, now, env, at, handler);
    }
  }

  // ----- what the front of the chain decides -----

  /** With a collision-free hash, an admitted request passes exactly when it presents a body issued
      under an id that is still active, and then under that body's own fingerprint. */
  lemma PassIsOwnership(lib: Lib, db: Database, bodies: map<string, Bytes>, token: string, remote: string, now: Time)
    requires CollisionFree(lib) && Issued(lib, db, bodies)
    ensures var found := Scan(lib, token, db.keys);
            var ruling := Judged(lib, token, remote, Ok(if found.None? then None else Some(found.value.(lastUsed := now))));
            && (ruling.Passed? <==> exists r :: Owns(db, bodies, token, r))
            && (ruling.Passed? ==> ruling.fp == lib.fingerprint(token) && ruling.id in bodies && bodies[ruling.id] == token)
            && (forall r :: Owns(db, bodies, token, r) ==> ruling.Passed? && ruling.id == r.id)
            && (ruling.Refused? ==> ruling == Refused(UNAUTHORIZED, AuditRecord(lib.fingerprint(token), remote, Fail, AUTH_FAILED)))
  {
    VerifyIsOwnership(lib, db, bodies, token);
  }
}
