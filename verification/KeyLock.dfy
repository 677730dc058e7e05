/** Where the exclusion lock.go promises ends: the advisory lock is on the file that was opened,
    and writeDB replaces that file under the path.

    Processes open the path, wait for the lock on what they opened, read the database by path,
    and rename a new file over it. The database is the list of updates it contains. */
module KeyLock {

  import opened Wrappers

  type Inode = nat

  datatype Proc =
    | Idle
    | Waiting(ino: Inode)                      // opened, blocked in flock
    | Inside(ino: Inode)                       // lock held, nothing read yet
    | Loaded(ino: Inode, seen: seq<string>)    // database read
    | Finished(ino: Inode)                     // new file renamed over the path, lock still held

  /** `content` is by inode, `path` the inode the path names, `next` the next unused one, and
      `committed` the updates whose writer was told they succeeded, in the order of their renames. */
  datatype State = State(
    procs: seq<Proc>, content: map<Inode, seq<string>>, path: Inode, next: Inode, committed: seq<string>)

  /** Release without Replace is an operation that found nothing to write or failed before its rename. */
  datatype Op = Open(p: nat) | Grant(p: nat) | Read(p: nat) | Replace(p: nat, update: string) | Release(p: nat)

  predicate Holds(q: Proc, ino: Inode) {
    (q.Inside? || q.Loaded? || q.Finished?) && q.ino == ino
  }

  /** Between taking the lock and having replaced the file. */
  predicate Critical(q: Proc) {
    q.Inside? || q.Loaded?
  }

  ghost predicate Enabled(s: State, op: Op) {
    && op.p < |s.procs|
    && var q := s.procs[op.p];
       match op
       case Open(_) => q.Idle?
       case Grant(_) => q.Waiting? && forall o :: 0 <= o < |s.procs| ==> !Holds(s.procs[o], q.ino)
       case Read(_) => q.Inside? && s.path in s.content
       case Replace(_, _) => q.Loaded?
       case Release(_) => q.Inside? || q.Loaded? || q.Finished?
  }

  function Step(s: State, op: Op): State {
    if op.p >= |s.procs| then s else
    var q := s.procs[op.p];
    match op
    case Open(p) => s.(procs := s.procs[p := Waiting(s.path)])
    case Grant(p) => if q.Waiting? then s.(procs := s.procs[p := Inside(q.ino)]) else s
    case Read(p) =>
      if q.Inside? && s.path in s.content then s.(procs := s.procs[p := Loaded(q.ino, s.content[s.path])]) else s
    case Replace(p, update) =>
      if !q.Loaded? then s else
      State(s.procs[p := Finished(q.ino)], s.content[s.next := q.seen + [update]], s.next, s.next + 1,
            s.committed + [update])
    case Release(p) => s.(procs := s.procs[p := Idle])
  }

  /** A grant is stale when the file it locks is no longer the one the path names. */
  ghost predicate Stale(s: State, op: Op) {
    op.Grant? && op.p < |s.procs| && s.procs[op.p].Waiting? && s.procs[op.p].ino != s.path
  }

  function Run(s: State, ops: seq<Op>): State
    decreases |ops|
  {
    if ops == [] then s else Run(Step(s, ops[0]), ops[1..])
  }

  ghost predicate Legal(s: State, ops: seq<Op>)
    decreases |ops|
  {
    ops == [] || (Enabled(s, ops[0]) && Legal(Step(s, ops[0]), ops[1..]))
  }

  ghost predicate NeverStale(s: State, ops: seq<Op>)
    decreases |ops|
  {
    ops == [] || (!Stale(s, ops[0]) && NeverStale(Step(s, ops[0]), ops[1..]))
  }

  function Init(n: nat): State {
    State(seq(n, _ => Idle), map[0 := []], 0, 1, [])
  }

  /** At most one process is between taking the lock and replacing the file, what it has read is
      current, the path holds exactly the updates reported as done, in their order, and a finished
      one holds a replaced file. */
  ghost predicate Exclusive(s: State) {
    && s.path in s.content && s.path < s.next
    && s.content[s.path] == s.committed
    && (forall p :: 0 <= p < |s.procs| && !s.procs[p].Idle? ==> s.procs[p].ino < s.next)
    && (forall p :: 0 <= p < |s.procs| && Critical(s.procs[p]) ==> s.procs[p].ino == s.path)
    && (forall p :: 0 <= p < |s.procs| && s.procs[p].Loaded? ==> s.procs[p].seen == s.content[s.path])
    && (forall p, q :: 0 <= p < q < |s.procs| ==> !(Critical(s.procs[p]) && Critical(s.procs[q])))
    && (forall p :: 0 <= p < |s.procs| && s.procs[p].Finished? ==> s.procs[p].ino != s.path)
  }

  /** If no process is ever granted a stale lock, the store's read-modify-write sections exclude
      each other and no update reported as done is lost. */
  lemma {:induction false} ExclusiveWithoutStaleGrants(s: State, ops: seq<Op>)
    requires Exclusive(s) && Legal(s, ops) && NeverStale(s, ops)
    ensures Exclusive(Run(s, ops))
    decreases |ops|
  {
    if ops != [] {
      StepExclusive(s, ops[0]);
      ExclusiveWithoutStaleGrants(Step(s, ops[0]), ops[1..]);
    }
  }

  lemma StepExclusive(s: State, op: Op)
    requires Exclusive(s) && Enabled(s, op) && !Stale(s, op)
    ensures Exclusive(Step(s, op))
  {
    var s' := Step(s, op);
    if op.Grant? {
      forall o | 0 <= o < |s.procs| && Critical(s.procs[o]) ensures false {
        assert Holds(s.procs[o], s.path);
      }
    }
    if op.Replace? {
      assert s'.content[s'.path] == s.content[s.path] + [op.update];
    }
  }

  lemma InitExclusive(n: nat)
    ensures Exclusive(Init(n))
  {}

  /** One step keeps exclusion exactly when it is not a stale grant. */
  lemma StepExclusiveIff(s: State, op: Op)
    requires Exclusive(s) && Enabled(s, op)
    ensures Exclusive(Step(s, op)) <==> !Stale(s, op)
  {
    if Stale(s, op) {
      assert Critical(Step(s, op).procs[op.p]) && Step(s, op).procs[op.p].ino != Step(s, op).path;
    } else {
      StepExclusive(s, op);
    }
  }

  ghost predicate AlwaysExclusive(s: State, ops: seq<Op>)
    decreases |ops|
  {
    Exclusive(s) && (ops == [] || AlwaysExclusive(Step(s, ops[0]), ops[1..]))
  }

  lemma {:induction false} ExclusiveRunIff(s: State, ops: seq<Op>)
    requires Exclusive(s) && Legal(s, ops)
    ensures AlwaysExclusive(s, ops) <==> NeverStale(s, ops)
    decreases |ops|
  {
    hide Exclusive, Stale, Enabled, Step;
    if ops != [] {
      StepExclusiveIff(s, ops[0]);
      if !Stale(s, ops[0]) {
        ExclusiveRunIff(Step(s, ops[0]), ops[1..]);
      }
    }
  }

  /** In a run of any number of processes exclusion holds throughout exactly when no stale lock is
      ever granted. */
  lemma ExclusiveIffNeverStale(n: nat, ops: seq<Op>)
    requires Legal(Init(n), ops)
    ensures AlwaysExclusive(Init(n), ops) <==> NeverStale(Init(n), ops)
  {
    InitExclusive(n);
    ExclusiveRunIff(Init(n), ops);
  }

  ghost predicate Reachable(n: nat, s: State) {
    exists ops :: Legal(Init(n), ops) && Run(Init(n), ops) == s
  }

  lemma {:induction false} RunConcat(s: State, xs: seq<Op>, ys: seq<Op>)
    ensures Run(s, xs + ys) == Run(Run(s, xs), ys)
    ensures Legal(s, xs) && Legal(Run(s, xs), ys) ==> Legal(s, xs + ys)
    decreases |xs|
  {
    if xs == [] {
      assert xs + ys == ys;
    } else {
      assert (xs + ys)[1..] == xs[1..] + ys;
      RunConcat(Step(s, xs[0]), xs[1..], ys);
    }
  }

  lemma ReachStep(n: nat, s: State, op: Op, s': State)
    requires Reachable(n, s) && Enabled(s, op) && Step(s, op) == s'
    ensures Reachable(n, s')
  {
    var ops :| Legal(Init(n), ops) && Run(Init(n), ops) == s;
    assert [op][1..] == [] && Run(s', []) == s' && Legal(s', []);
    assert Run(s, [op]) == Run(s', [op][1..]);
    RunConcat(Init(n), ops, [op]);
    assert Legal(Init(n), ops + [op]) && Run(Init(n), ops + [op]) == s';
  }

  lemma StartReachable()
    ensures Reachable(3, State([Idle, Idle, Idle], map[0 := []], 0, 1, []))
  {
    assert Init(3).procs == [Idle, Idle, Idle];
    assert Legal(Init(3), []) && Run(Init(3), []) == Init(3);
  }

  /** Process 1 opens the file while process 0 holds its lock. */
  lemma OpenedWhileHeld()
    ensures Reachable(3, State([Loaded(0, []), Waiting(0), Idle], map[0 := []], 0, 1, []))
  {
    var c0 := map[0 := []];
    var s0 := State([Idle, Idle, Idle], c0, 0, 1, []);
    var s1 := State([Waiting(0), Idle, Idle], c0, 0, 1, []);
    var s2 := State([Inside(0), Idle, Idle], c0, 0, 1, []);
    var s3 := State([Inside(0), Waiting(0), Idle], c0, 0, 1, []);
    StartReachable();
    hide Reachable;
    ReachStep(3, s0, Open(0), s1);
    ReachStep(3, s1, Grant(0), s2);
    ReachStep(3, s2, Open(1), s3);
    ReachStep(3, s3, Read(0), State([Loaded(0, []), Waiting(0), Idle], c0, 0, 1, []));
  }

  /** Process 0 replaces the file, and its waiter is granted the lock on the replaced one while
      process 2 opens and locks the new one: two read-modify-write sections at once. */
  lemma TwoInside()
    ensures Reachable(3, State([Idle, Inside(0), Inside(1)], map[0 := [], 1 := ["a"]], 1, 2, ["a"]))
  {
    OpenedWhileHeld();
    hide Reachable;
    var c1 := map[0 := [], 1 := ["a"]];
    var s4 := State([Loaded(0, []), Waiting(0), Idle], map[0 := []], 0, 1, []);
    var s5 := State([Finished(0), Waiting(0), Idle], c1, 1, 2, ["a"]);
    var s6 := State([Idle, Waiting(0), Idle], c1, 1, 2, ["a"]);
    var s7 := State([Idle, Inside(0), Idle], c1, 1, 2, ["a"]);
    var s8 := State([Idle, Inside(0), Waiting(1)], c1, 1, 2, ["a"]);
    assert Step(s4, Replace(0, "a")) == s5 by {
      assert [] + ["a"] == ["a"] && s4.content[1 := ["a"]] == c1;
    }
    ReachStep(3, s4, Replace(0, "a"), s5);
    ReachStep(3, s5, Release(0), s6);
    ReachStep(3, s6, Grant(1), s7);
    ReachStep(3, s7, Open(2), s8);
    ReachStep(3, s8, Grant(2), State([Idle, Inside(0), Inside(1)], c1, 1, 2, ["a"]));
  }

  /** Both have read the same database. */
  lemma BothLoaded()
    ensures Reachable(3, State([Idle, Loaded(0, ["a"]), Loaded(1, ["a"])], map[0 := [], 1 := ["a"]], 1, 2, ["a"]))
  {
    TwoInside();
    hide Reachable;
    var c1 := map[0 := [], 1 := ["a"]];
    var s1 := State([Idle, Inside(0), Inside(1)], c1, 1, 2, ["a"]);
    var s2 := State([Idle, Loaded(0, ["a"]), Inside(1)], c1, 1, 2, ["a"]);
    ReachStep(3, s1, Read(1), s2);
    ReachStep(3, s2, Read(2), State([Idle, Loaded(0, ["a"]), Loaded(1, ["a"])], c1, 1, 2, ["a"]));
  }

  /** From there the last rename discards an update its writer was told had succeeded. */
  lemma UpdateCanBeLost()
    ensures exists s, u :: Reachable(3, s) && u in s.committed && s.path in s.content && u !in s.content[s.path]
  {
    var c1 := map[0 := [], 1 := ["a"]];
    var c2 := c1[2 := ["a", "c"]];
    var c3 := c2[3 := ["a", "b"]];
    BothLoaded();
    hide Reachable;
    assert ["a"] + ["c"] == ["a", "c"] && ["a"] + ["b"] == ["a", "b"];
    var s3 := State([Idle, Loaded(0, ["a"]), Loaded(1, ["a"])], c1, 1, 2, ["a"]);
    var s4 := State([Idle, Loaded(0, ["a"]), Finished(1)], c2, 2, 3, ["a", "c"]);
    var s5 := State([Idle, Finished(0), Finished(1)], c3, 3, 4, ["a", "c", "b"]);
    ReachStep(3, s3, Replace(2, "c"), s4);
    ReachStep(3, s4, Replace(1, "b"), s5);
    assert "c" in s5.committed && "c" !in s5.content[s5.path];
  }

  // ------------------------------------------------------------------ what a stale grant costs

  /** An update was reported as done and the path does not hold it. */
  ghost predicate Lost(s: State) {
    s.path in s.content && exists u :: u in s.committed && u !in s.content[s.path]
  }

  /** The processes can go on so that an update is lost. */
  ghost predicate CanLose(s: State) {
    exists ops :: Legal(s, ops) && Lost(Run(s, ops))
  }

  lemma CanLoseAfter(s: State, op: Op, s': State)
    requires Enabled(s, op) && Step(s, op) == s' && CanLose(s')
    ensures CanLose(s)
  {
    var ops :| Legal(s', ops) && Lost(Run(s', ops));
    assert ([op] + ops)[1..] == ops;
    assert Legal(s, [op] + ops) && Run(s, [op] + ops) == Run(s', ops);
  }

  lemma LostNow(s: State)
    requires Lost(s)
    ensures CanLose(s)
  {
    assert Legal(s, []) && Run(s, []) == s;
  }

  /** A text longer than all in a list. */
  function Longer(texts: seq<string>): (r: string)
    ensures forall u :: u in texts ==> |u| < |r|
    ensures |r| > 0
  {
    if texts == [] then "u"
    else
      var r := Longer(texts[1..]);
      if |texts[0]| < |r| then r else texts[0] + "u"
  }

  /** Two processes that have both read: the second rename discards the first one's update. */
  lemma TwoLoadedLose(s: State, p: nat, q: nat)
    requires p < |s.procs| && q < |s.procs| && p != q && s.procs[p].Loaded? && s.procs[q].Loaded?
    ensures CanLose(s)
  {
    hide CanLose;
    var u := Longer(s.procs[p].seen);
    var s1 := Step(s, Replace(q, u));
    var s2 := Step(s1, Replace(p, ""));
    assert u in s2.committed && u !in s2.content[s2.path];
    LostNow(s2);
    CanLoseAfter(s1, Replace(p, ""), s2);
    CanLoseAfter(s, Replace(q, u), s1);
  }

  /** Two processes between their lock and their rename. */
  lemma TwoCriticalLose(s: State, p: nat, q: nat)
    requires p < |s.procs| && q < |s.procs| && p != q && Critical(s.procs[p]) && Critical(s.procs[q])
    requires s.path in s.content
    ensures CanLose(s)
    decreases (if s.procs[p].Inside? then 1 else 0) + (if s.procs[q].Inside? then 1 else 0)
  {
    if s.procs[p].Inside? {
      TwoCriticalLose(Step(s, Read(p)), p, q);
      CanLoseAfter(s, Read(p), Step(s, Read(p)));
    } else if s.procs[q].Inside? {
      TwoCriticalLose(Step(s, Read(q)), p, q);
      CanLoseAfter(s, Read(q), Step(s, Read(q)));
    } else {
      TwoLoadedLose(s, p, q);
    }
  }

  /** Nobody holds the file the path names. */
  ghost predicate PathFree(s: State) {
    s.path in s.content && forall o :: 0 <= o < |s.procs| ==> !Holds(s.procs[o], s.path)
  }

  /** A critical process, while an idle one can lock the current file. */
  lemma CriticalAndIdleLose(s: State, p: nat, q: nat)
    requires p < |s.procs| && q < |s.procs| && p != q && Critical(s.procs[p]) && s.procs[q].Idle? && PathFree(s)
    ensures CanLose(s)
  {
    hide CanLose;
    var s1 := Step(s, Open(q));
    var s2 := Step(s1, Grant(q));
    TwoCriticalLose(s2, p, q);
    CanLoseAfter(s1, Grant(q), s2);
    CanLoseAfter(s, Open(q), s1);
  }

  /** Process p is inside with a lock on a replaced file, everybody else as in an exclusive state. */
  ghost predicate OneAstray(s: State, p: nat) {
    && p < |s.procs| && s.procs[p].Inside? && s.procs[p].ino != s.path
    && s.path in s.content && s.path < s.next
    && (forall o :: 0 <= o < |s.procs| && !s.procs[o].Idle? ==> s.procs[o].ino < s.next)
    && (forall o :: 0 <= o < |s.procs| && s.procs[o].Finished? ==> s.procs[o].ino != s.path)
    && (forall o :: 0 <= o < |s.procs| && o != p ==> !Holds(s.procs[o], s.procs[p].ino))
  }

  lemma GrantAstray(s: State, p: nat)
    requires Exclusive(s) && Enabled(s, Grant(p)) && Stale(s, Grant(p))
    ensures OneAstray(Step(s, Grant(p)), p)
  {}

  /** The waiter behind p on the same replaced file: p finishes, the waiter gets the stale lock in its
      turn, and p comes back for the new file. */
  lemma SameInodeLoses(s: State, p: nat, q: nat)
    requires OneAstray(s, p) && q < |s.procs| && q != p && s.procs[q] == Waiting(s.procs[p].ino)
    ensures CanLose(s)
  {
    hide CanLose, OneAstray;
    var s1 := Step(s, Read(p));
    var s2 := Step(s1, Replace(p, ""));
    var s3 := Step(s2, Release(p));
    var s4 := Step(s3, Grant(q));
    assert Enabled(s, Read(p)) && Enabled(s1, Replace(p, "")) && Enabled(s2, Release(p)) && Enabled(s3, Grant(q))
           && PathFree(s4) && s4.procs[p].Idle? && s4.procs[q].Inside? by {
      BehindAstray(s, p, q);
    }
    CriticalAndIdleLose(s4, q, p);
    CanLoseAfter(s3, Grant(q), s4);
    CanLoseAfter(s2, Release(p), s3);
    CanLoseAfter(s1, Replace(p, ""), s2);
    CanLoseAfter(s, Read(p), s1);
  }

  lemma BehindAstray(s: State, p: nat, q: nat)
    requires OneAstray(s, p) && q < |s.procs| && q != p && s.procs[q] == Waiting(s.procs[p].ino)
    ensures var s1 := Step(s, Read(p));
            var s2 := Step(s1, Replace(p, ""));
            var s3 := Step(s2, Release(p));
            var s4 := Step(s3, Grant(q));
            && Enabled(s, Read(p)) && Enabled(s1, Replace(p, "")) && Enabled(s2, Release(p)) && Enabled(s3, Grant(q))
            && PathFree(s4) && s4.procs[p].Idle? && s4.procs[q].Inside?
  {}

  /** With any second process beside it, a process astray can cost a committed update. */
  lemma AstrayLoses(s: State, p: nat, q: nat)
    requires OneAstray(s, p) && q < |s.procs| && q != p
    ensures CanLose(s)
  {
    hide CanLose;
    if h :| 0 <= h < |s.procs| && h != p && Critical(s.procs[h]) {
      TwoCriticalLose(s, p, h);
    } else {
      assert PathFree(s);
      if o :| 0 <= o < |s.procs| && o != p && s.procs[o].Finished? {
        var s1 := Step(s, Release(o));
        CriticalAndIdleLose(s1, p, o);
        CanLoseAfter(s, Release(o), s1);
      } else if s.procs[q].Idle? {
        CriticalAndIdleLose(s, p, q);
      } else if s.procs[q].ino == s.procs[p].ino {
        SameInodeLoses(s, p, q);
      } else {
        var s1 := Step(s, Grant(q));
        TwoCriticalLose(s1, p, q);
        CanLoseAfter(s, Grant(q), s1);
      }
    }
  }

  /** From every state in which exclusion still holds, with at least two processes, the grant of a
      stale lock has a legal continuation in which an update reported as done is gone. */
  lemma StaleGrantCanLose(s: State, p: nat)
    requires Exclusive(s) && |s.procs| >= 2 && Enabled(s, Grant(p)) && Stale(s, Grant(p))
    ensures CanLose(Step(s, Grant(p)))
  {
    hide CanLose;
    GrantAstray(s, p);
    AstrayLoses(Step(s, Grant(p)), p, if p == 0 then 1 else 0);
  }

  /** Some legal continuation grants a stale lock. */
  ghost predicate CanGrantStale(s: State) {
    exists ops :: Legal(s, ops) && !NeverStale(s, ops)
  }

  lemma LossNeedsStaleGrant(s: State)
    requires Exclusive(s) && CanLose(s)
    ensures CanGrantStale(s)
  {
    var ops :| Legal(s, ops) && Lost(Run(s, ops));
    if NeverStale(s, ops) {
      ExclusiveWithoutStaleGrants(s, ops);
    }
  }

  /** A waiter for a replaced file has it at once, or whoever still holds that file has finished. */
  lemma StaleWaiter(s: State, b: nat) returns (r: Option<nat>)
    requires Exclusive(s) && |s.procs| >= 2 && b < |s.procs| && s.procs[b].Waiting? && s.procs[b].ino != s.path
    ensures r.None? ==> CanLose(s)
    ensures r.Some? ==> r.value < |s.procs| && r.value != b && s.procs[r.value].Finished?
  {
    if o :| 0 <= o < |s.procs| && Holds(s.procs[o], s.procs[b].ino) {
      return Some(o);
    }
    StaleGrantCanLose(s, b);
    hide CanLose;
    CanLoseAfter(s, Grant(b), Step(s, Grant(b)));
    return None;
  }

  /** One process between lock and rename, another waiting for the same file: the first replaces it
      and leaves, and the waiter's grant is stale. */
  lemma WaiterBehindCritical(s: State, h: nat, b: nat)
    requires Exclusive(s) && h < |s.procs| && b < |s.procs| && h != b
    requires Critical(s.procs[h]) && s.procs[b] == Waiting(s.path)
    ensures CanLose(s)
    decreases s.procs[h].Inside?
  {
    hide CanLose;
    if s.procs[h].Inside? {
      var s1 := Step(s, Read(h));
      StepExclusive(s, Read(h));
      WaiterBehindCritical(s1, h, b);
      CanLoseAfter(s, Read(h), s1);
    } else {
      var s1 := Step(s, Replace(h, ""));
      StepExclusive(s, Replace(h, ""));
      var s2 := Step(s1, Release(h));
      StepExclusive(s1, Release(h));
      assert Enabled(s2, Grant(b)) && Stale(s2, Grant(b)) by { NobodyLeft(s, h); }
      StaleGrantCanLose(s2, b);
      CanLoseAfter(s2, Grant(b), Step(s2, Grant(b)));
      CanLoseAfter(s1, Release(h), s2);
      CanLoseAfter(s, Replace(h, ""), s1);
    }
  }

  /** In an exclusive state only the critical process holds the file the path names. */
  lemma NobodyLeft(s: State, h: nat)
    requires Exclusive(s) && h < |s.procs| && Critical(s.procs[h])
    ensures forall o :: 0 <= o < |s.procs| && o != h ==> !Holds(s.procs[o], s.path)
  {}

  lemma IdleBehindCritical(s: State, h: nat, b: nat)
    requires Exclusive(s) && h < |s.procs| && b < |s.procs| && h != b && Critical(s.procs[h]) && s.procs[b].Idle?
    ensures CanLose(s)
  {
    hide CanLose;
    StepExclusive(s, Open(b));
    WaiterBehindCritical(Step(s, Open(b)), h, b);
    CanLoseAfter(s, Open(b), Step(s, Open(b)));
  }

  lemma FinishedBehindCritical(s: State, h: nat, b: nat)
    requires Exclusive(s) && h < |s.procs| && b < |s.procs| && Critical(s.procs[h]) && s.procs[b].Finished?
    ensures CanLose(s)
  {
    hide CanLose;
    StepExclusive(s, Release(b));
    IdleBehindCritical(Step(s, Release(b)), h, b);
    CanLoseAfter(s, Release(b), Step(s, Release(b)));
  }

  /** One process between lock and rename, beside any other. */
  lemma CriticalCanLose(s: State, h: nat)
    requires Exclusive(s) && |s.procs| >= 2 && h < |s.procs| && Critical(s.procs[h])
    ensures CanLose(s)
  {
    hide CanLose;
    var b := if h == 0 then 1 else 0;
    if s.procs[b].Idle? {
      IdleBehindCritical(s, h, b);
    } else if s.procs[b].Finished? {
      FinishedBehindCritical(s, h, b);
    } else {
      assert s.procs[b].Waiting? by { OnlyCritical(s, h, b); }
      if s.procs[b].ino == s.path {
        WaiterBehindCritical(s, h, b);
      } else {
        var r := StaleWaiter(s, b);
        if r.Some? { FinishedBehindCritical(s, h, r.value); }
      }
    }
  }

  lemma OnlyCritical(s: State, h: nat, b: nat)
    requires Exclusive(s) && h < |s.procs| && b < |s.procs| && h != b && Critical(s.procs[h])
    ensures !Critical(s.procs[b])
  {}

  lemma IdleCanLose(s: State, p: nat)
    requires Exclusive(s) && |s.procs| >= 2 && p < |s.procs| && s.procs[p].Idle? && PathFree(s)
    ensures CanLose(s)
  {
    hide CanLose;
    var s1 := Step(s, Open(p));
    StepExclusive(s, Open(p));
    var s2 := Step(s1, Grant(p));
    StepExclusive(s1, Grant(p));
    CriticalCanLose(s2, p);
    CanLoseAfter(s1, Grant(p), s2);
    CanLoseAfter(s, Open(p), s1);
  }

  lemma FinishedCanLose(s: State, p: nat)
    requires Exclusive(s) && |s.procs| >= 2 && p < |s.procs| && s.procs[p].Finished? && PathFree(s)
    ensures CanLose(s)
  {
    hide CanLose;
    StepExclusive(s, Release(p));
    IdleCanLose(Step(s, Release(p)), p);
    CanLoseAfter(s, Release(p), Step(s, Release(p)));
  }

  /** Two or more processes can always go on to lose a committed update, and to grant a stale lock,
      from every state in which exclusion still holds. */
  lemma TwoProcessesCanLose(s: State)
    requires Exclusive(s) && |s.procs| >= 2
    ensures CanLose(s) && CanGrantStale(s)
  {
    hide CanLose;
    if h :| 0 <= h < |s.procs| && Critical(s.procs[h]) {
      CriticalCanLose(s, h);
    } else {
      assert PathFree(s);
      if s.procs[0].Idle? {
        IdleCanLose(s, 0);
      } else if s.procs[0].Finished? {
        FinishedCanLose(s, 0);
      } else if s.procs[0].ino == s.path {
        var s1 := Step(s, Grant(0));
        StepExclusive(s, Grant(0));
        CriticalCanLose(s1, 0);
        CanLoseAfter(s, Grant(0), s1);
      } else {
        var r := StaleWaiter(s, 0);
        if r.Some? { FinishedCanLose(s, r.value); }
      }
    }
    LossNeedsStaleGrant(s);
  }

  /** A process by itself waits only for the file the path names. */
  ghost predicate Lonely(s: State) {
    |s.procs| <= 1 && forall p :: 0 <= p < |s.procs| && s.procs[p].Waiting? ==> s.procs[p].ino == s.path
  }

  lemma {:induction false} LonelyNeverStale(s: State, ops: seq<Op>)
    requires Lonely(s) && Legal(s, ops)
    ensures NeverStale(s, ops)
    decreases |ops|
  {
    if ops != [] {
      LonelyNeverStale(Step(s, ops[0]), ops[1..]);
    }
  }

  /** Among n processes that start from an empty store, a run in which an update reported as done is
      lost exists exactly when there are at least two. */
  lemma CanLoseIffTwoProcesses(n: nat)
    ensures CanLose(Init(n)) <==> n >= 2
  {
    InitExclusive(n);
    if n >= 2 {
      TwoProcessesCanLose(Init(n));
    } else if CanLose(Init(n)) {
      var ops :| Legal(Init(n), ops) && Lost(Run(Init(n), ops));
      LonelyNeverStale(Init(n), ops);
      ExclusiveWithoutStaleGrants(Init(n), ops);
    }
  }
}
