/** Whole runs of the server: requests interleaved with each other, with key operations, flushes and
    limiter sweeps. A request takes two steps, its Verify and its charge, and anything may happen
    in between; the success record and the mux call belong to the charge. */
module PipelineRuns {

  import opened Wrappers
  import opened KeyDb
  import opened KeyRuns
  import KeyStore
  import RL = RateLimit
  import opened Pipeline

  datatype Setup = Setup(lib: Lib, gate: Gate, limits: RL.Limits)

  /** An authenticated request that has not been charged yet. */
  datatype Ticket = Ticket(serial: nat, token: Bytes, fp: string, remote: string, req: Request)

  datatype Logged = Logged(serial: nat, record: AuditRecord)

  /** A request that reached the mux, with the token it presented and the time of its charge. */
  datatype Served = Served(serial: nat, token: Bytes, fp: string, remote: string, at: real, req: Request)

  /** Requests are numbered in the order of their first step. */
  datatype World = World(
    keys: State, tables: RL.Tables, pending: seq<Ticket>, log: seq<Logged>, mux: seq<Served>, arrivals: nat)

  datatype Event =
    | Keys(op: Op)
    | Arrive(req: Request, now: Time, fault: Option<StoreError>)
    | Charge(i: nat, at: real)
    | Gc(at: real)

  const START := World(INIT, RL.EMPTY, [], [], [], 0)

  function Answer(u: Setup, w: World, token: Bytes, now: Time, fault: Option<StoreError>): Result<Option<Record>, StoreError> {
    if fault.Some? then Err(fault.value)
    else
      match Scan(u.lib, token, w.keys.db.keys)
      case None => Ok(None)
      case Some(r) => Ok(Some(r.(lastUsed := now)))
  }

  ghost function RulingOf(u: Setup, w: World, req: Request, now: Time, fault: Option<StoreError>): Ruling {
    var turned := Turned(u.gate, req);
    if turned.Some? then turned.value
    else
      var token := Bearer(u.gate.text, req.authorization).value;
      Judged(u.lib, token, req.remote, Answer(u, w, token, now, fault))
  }

  /** Host, origin and authentication. A refusal is recorded; a pass becomes a ticket, and Verify has
      noted the time. */
  ghost function Arrived(u: Setup, w: World, req: Request, now: Time, fault: Option<StoreError>): World {
    match RulingOf(u, w, req, now, fault)
    case Refused(_, record) => w.(log := w.log + [Logged(w.arrivals, record)], arrivals := w.arrivals + 1)
    case Passed(fp, _) =>
      var token := Bearer(u.gate.text, req.authorization).value;
      w.(keys := KeyRuns.Step(u.lib, w.keys, Verify(token, now)),
         pending := w.pending + [Ticket(w.arrivals, token, Shown(fp), req.remote, req)],
         arrivals := w.arrivals + 1)
  }

  function Charged(u: Setup, w: World, i: nat, at: real): World
    requires i < |w.pending|
  {
    var t := w.pending[i];
    var (tables, ok) := RL.AllowStep(u.limits, w.tables, t.fp, HostOf(u.gate.text, t.remote), at);
    var record := if ok then SuccessRecord(t.fp, t.remote) else LimitRecord(t.fp, t.remote);
    w.(tables := tables, pending := Without(w.pending, i), log := w.log + [Logged(t.serial, record)],
       mux := if ok then w.mux + [Served(t.serial, t.token, t.fp, t.remote, at, t.req)] else w.mux)
  }

  ghost function Next(u: Setup, w: World, e: Event): World {
    match e
    case Keys(op) => w.(keys := KeyRuns.Step(u.lib, w.keys, op))
    case Arrive(req, now, fault) => Arrived(u, w, req, now, fault)
    case Charge(i, at) => if i < |w.pending| then Charged(u, w, i, at) else w
    case Gc(at) => w.(tables := RL.GcStep(u.limits, w.tables, at))
  }

  ghost function Play(u: Setup, w: World, evs: seq<Event>): World
    decreases |evs|
  {
    if evs == [] then w else Play(u, Next(u, w, evs[0]), evs[1..])
  }

  ghost predicate Fits(u: Setup, w: World, e: Event) {
    e.Keys? ==> Enabled(w.keys, e.op)
  }

  ghost predicate Lawful(u: Setup, w: World, evs: seq<Event>)
    decreases |evs|
  {
    evs == [] || (Fits(u, w, evs[0]) && Lawful(u, Next(u, w, evs[0]), evs[1..]))
  }

  // ----- the server object takes these steps -----

  function Records(log: seq<Logged>): seq<AuditRecord> {
    seq(|log|, i requires 0 <= i < |log| => log[i].record)
  }

  function Calls(mux: seq<Served>): seq<Call> {
    seq(|mux|, i requires 0 <= i < |mux| => Call(mux[i].fp, mux[i].remote))
  }

  ghost predicate Matches(server: Server, w: World)
    reads server, server.store, server.store.disk, server.limiters
  {
    && Agrees(server.store, w.keys)
    && server.limiters.Contents() == w.tables
    && server.audit == Records(w.log) && server.calls == Calls(w.mux)
  }

  function SetupOf(server: Server): Setup {
    Setup(server.store.lib, server.gate, server.limiters.limits)
  }

  /** The error Verify meets, if any; without a file there is nothing to read. */
  function FaultOf(store: KeyStore.Store, env: KeyStore.Env): Option<StoreError>
    reads store.disk
  {
    if store.disk.path !in store.disk.entries then None
    else if !env.lock.NoFault? then Some(Unavailable)
    else if env.read then Some(Corrupt)
    else None
  }

  /** Requests served one at a time: Handle is an arrival followed by the charge of its ticket. */
  method StepHandle(server: Server, ghost w: World, req: Request, now: Time, env: KeyStore.Env, at: real, handler: nat)
    returns (status: nat)
    requires server.store.Valid() && Matches(server, w) && w.pending == []
    modifies server`audit, server`calls, server.limiters, server.store, server.store.disk
    ensures server.store.Valid()
    ensures var u := SetupOf(server);
            var w1 := Next(u, w, Arrive(req, now, old(FaultOf(server.store, env))));
            Matches(server, if w1.pending == [] then w1 else Next(u, w1, Charge(0, at)))
  {
    hide RL.AllowStep, Listed, OriginListed;
    ghost var u := SetupOf(server);
    ghost var fault := FaultOf(server.store, env);
    ghost var ruling := server.Ruled(req, now, env);
    assert ruling == RulingOf(u, w, req, now, fault);
    status := server.Handle(req, now, env, at, handler);
    ghost var w1 := Next(u, w, Arrive(req, now, fault));
    if ruling.Passed? {
      assert w1.pending == [Ticket(w.arrivals, Bearer(u.gate.text, req.authorization).value, Shown(ruling.fp), req.remote, req)];
      assert Without(w1.pending, 0) == [];
      ViewCharge(u, w1, 0, at);
    } else {
      assert Records(w1.log) == Records(w.log) + [ruling.record];
      assert w1.keys == w.keys && w1.tables == w.tables;
    }
  }

  lemma ViewCharge(u: Setup, w: World, i: nat, at: real)
    requires i < |w.pending|
    ensures var t := w.pending[i];
            var ok := RL.AllowStep(u.limits, w.tables, t.fp, HostOf(u.gate.text, t.remote), at).1;
            var w' := Charged(u, w, i, at);
            && Records(w'.log) == Records(w.log) + [if ok then SuccessRecord(t.fp, t.remote) else LimitRecord(t.fp, t.remote)]
            && Calls(w'.mux) == Calls(w.mux) + (if ok then [Call(t.fp, t.remote)] else [])
  {
    hide RL.AllowStep;
  }
}
