/**
 A transaction of the queue machine that nobody interrupts: which of them commit, and what they leave
 behind.  The methods of `QueueTables` are stated with this outcome, so what is proved of the machine
 holds of them.
 */
module QueueSerial {
  import opened CrawlQueue

  /** The condition under which the operation goes through. */
  predicate Succeeds(s: State, op: Op) {
    match op
    case Enqueue(url, u, cap) => url.host !in s.blacklist && (cap > 0 ==> |PendingOf(s.nodes, u)| < cap)
    case SaveEdge(source, target, _, u) =>
      Key(source, u) in s.nodes || (source == target && target.host !in s.blacklist)
    case Block(_) => true
    case Unblock(h) => h in s.blacklist
  }

  /** What it then writes. */
  function Effect(s: State, op: Op): Writes {
    match op
    case Enqueue(url, u, _) =>
      Writes(if Key(url, u) in s.nodes then map[] else map[Key(url, u) := NewRow(url.host, 0, s.now)], {}, {}, {})
    case SaveEdge(source, target, depth, u) =>
      Writes(if target.host in s.blacklist then map[] else UpsertRows(s, Key(target, u), depth, s.now),
             {}, {}, {Edge(source, target, u)})
    case Block(h) => Writes(BlockRows(s, h), {h}, {}, {})
    case Unblock(h) => Writes(UnblockRows(s, h, s.now), {}, {h}, {})
  }

  function Outcome(s: State, op: Op): State {
    if Succeeds(s, op) then Published(s, Effect(s, op)) else s
  }

  // ----- one transaction at a time -----

  /** Transaction `t` has begun and is the only one. */
  function Opened(s: State, t: TxId, op: Op): State {
    s.(txs := map[t := Tx(op, s.now, Begun)])
  }

  /** A step of `t` after its beginning. */
  predicate OfTx(a: Action, t: TxId) {
    || a == AcquireDomain(t) || a == ReadBlacklist(t) || a == AcquireQuota(t) || a == CountPending(t)
    || a == Write(t) || a == Commit(t) || a == Rollback(t)
  }

  /** The steps `acts` take the operation from its beginning to its end with nothing in between. */
  ghost predicate RunsAlone(c: Config, s: State, t: TxId, op: Op, acts: seq<Action>, s': State) {
    && acts != [] && (forall a :: a in acts ==> OfTx(a, t))
    && Leads(c, Opened(s, t, op), acts, s') && t !in s'.txs
  }

  ghost predicate StageReached(s: State, op: Op, stage: Stage) {
    match stage
    case Begun => true
    case DomainLocked => true
    case Checked(b) => !op.Block? && (b <==> OpHost(op) in s.blacklist)
    case QuotaLocked => op.Enqueue? && op.maxPending > 0 && OpHost(op) !in s.blacklist
    case Counted => op.Enqueue? && op.maxPending > 0 && Succeeds(s, op)
    case Written(w) => Succeeds(s, op) && w == Effect(s, op)
  }

  /** Only `t` holds locks, and at most those it has asked for by now. */
  ghost predicate LocksOf(m: State, t: TxId, stage: Stage) {
    && (forall l :: l in m.domainLocks ==> m.domainLocks[l] == t)
    && (forall u :: u in m.quotaLocks ==> m.quotaLocks[u] == t)
    && (stage.Begun? ==> m.domainLocks == map[])
    && (stage.Begun? || stage.DomainLocked? || stage.Checked? ==> m.quotaLocks == map[])
  }

  /** `t` is under way in `m`, on the tables of `s`. */
  ghost predicate Midway(s: State, t: TxId, op: Op, m: State) {
    && t in m.txs && m.txs[t].op == op && m.txs[t].began == s.now
    && m == s.(txs := map[t := m.txs[t]], domainLocks := m.domainLocks, quotaLocks := m.quotaLocks)
    && LocksOf(m, t, m.txs[t].stage) && StageReached(s, op, m.txs[t].stage)
  }

  lemma MidwayWrites(s: State, t: TxId, op: Op, m: State)
    requires Midway(s, t, op, m) && MayWrite(m, m.txs[t])
    ensures Succeeds(s, op) && PlannedWrites(m, m.txs[t]) == Effect(s, op)
  {
    match op
    case Block(h) => assert BlockRows(m, h) == BlockRows(s, h);
    case Unblock(h) => assert UnblockRows(m, h, s.now) == UnblockRows(s, h, s.now);
    case Enqueue(_, _, _) =>
    case SaveEdge(_, _, _, _) =>
  }

  lemma WriteStaysMidway(c: Config, s: State, t: TxId, op: Op, m: State)
    requires Midway(s, t, op, m) && Enabled(c, m, Write(t))
    ensures Midway(s, t, op, Apply(c, m, Write(t)))
  {
    MidwayWrites(s, t, op, m);
  }

  lemma LockStaysMidway(c: Config, s: State, t: TxId, op: Op, m: State, a: Action)
    requires Midway(s, t, op, m) && (a == AcquireDomain(t) || a == AcquireQuota(t)) && Enabled(c, m, a)
    ensures Midway(s, t, op, Apply(c, m, a))
  {
  }

  lemma ReadStaysMidway(c: Config, s: State, t: TxId, op: Op, m: State, a: Action)
    requires Midway(s, t, op, m) && (a == ReadBlacklist(t) || a == CountPending(t)) && Enabled(c, m, a)
    ensures Midway(s, t, op, Apply(c, m, a))
  {
  }

  lemma StepStaysMidway(c: Config, s: State, t: TxId, op: Op, m: State, a: Action)
    requires Midway(s, t, op, m) && OfTx(a, t) && Enabled(c, m, a) && !a.Commit? && !a.Rollback?
    ensures Midway(s, t, op, Apply(c, m, a))
  {
    if a.Write? {
      WriteStaysMidway(c, s, t, op, m);
    } else if a.AcquireDomain? || a.AcquireQuota? {
      LockStaysMidway(c, s, t, op, m, a);
    } else {
      ReadStaysMidway(c, s, t, op, m, a);
    }
  }

  /** Ending the only transaction leaves no lock behind. */
  lemma EndsQuiet(s: State, t: TxId, op: Op, m: State, w: Writes)
    requires Quiet(s) && Midway(s, t, op, m)
    ensures Ended(m, t) == s && Ended(Published(m, w), t) == Published(s, w)
  {
    assert map[t := m.txs[t]] - {t} == map[];
    assert forall l :: l in m.domainLocks ==> m.domainLocks[l] == t;
    assert forall l :: l !in Ended(m, t).domainLocks;
    assert forall u :: u !in Ended(m, t).quotaLocks;
    assert Ended(m, t).domainLocks == map[] && Ended(m, t).quotaLocks == map[];
  }

  lemma EndOfTx(c: Config, s: State, t: TxId, op: Op, m: State, a: Action)
    requires Quiet(s) && Midway(s, t, op, m) && Enabled(c, m, a) && (a == Commit(t) || a == Rollback(t))
    ensures t !in Apply(c, m, a).txs
    ensures a == Commit(t) ==> Succeeds(s, op) && Apply(c, m, a) == Published(s, Effect(s, op))
    ensures a == Rollback(t) ==> Apply(c, m, a) == s
  {
    EndsQuiet(s, t, op, m, Effect(s, op));
  }

  lemma NotEnabledAfterEnd(c: Config, m: State, t: TxId, a: Action)
    requires t !in m.txs && OfTx(a, t)
    ensures !Enabled(c, m, a)
  {
  }

  /** A transaction that has ended takes no further step. */
  lemma NothingAfterEnd(c: Config, m: State, t: TxId, acts: seq<Action>, s': State)
    requires t !in m.txs && Leads(c, m, acts, s') && forall a :: a in acts ==> OfTx(a, t)
    ensures acts == [] && s' == m
  {
    if acts != [] {
      NotEnabledAfterEnd(c, m, t, acts[0]);
    }
  }

  /** How an uninterrupted transaction ends: with its whole effect, or with none. */
  ghost predicate EndsAs(s: State, t: TxId, op: Op, last: Action, s': State) {
    || (last == Commit(t) && Succeeds(s, op) && s' == Published(s, Effect(s, op)))
    || (last == Rollback(t) && s' == s)
  }

  lemma {:induction false} AloneEndsAs(c: Config, s: State, t: TxId, op: Op, m: State, acts: seq<Action>, s': State)
    requires Quiet(s) && Midway(s, t, op, m) && Leads(c, m, acts, s') && t !in s'.txs
    requires forall a :: a in acts ==> OfTx(a, t)
    ensures acts != [] && EndsAs(s, t, op, acts[|acts| - 1], s')
    decreases |acts|
  {
    var a, rest := acts[0], acts[1..];
    assert OfTx(a, t) && forall b :: b in rest ==> b in acts;
    if a.Commit? || a.Rollback? {
      EndOfTx(c, s, t, op, m, a);
      NothingAfterEnd(c, Apply(c, m, a), t, rest, s');
    } else {
      StepStaysMidway(c, s, t, op, m, a);
      AloneEndsAs(c, s, t, op, Apply(c, m, a), rest, s');
      assert acts[|acts| - 1] == rest[|rest| - 1];
    }
  }

  // ----- nothing stops an operation that can succeed -----

  function NextStep(t: TxId, op: Op, stage: Stage): Action {
    match stage
    case Begun => AcquireDomain(t)
    case DomainLocked => if op.Block? then Write(t) else ReadBlacklist(t)
    case Checked(_) => if op.Enqueue? && op.maxPending > 0 then AcquireQuota(t) else Write(t)
    case QuotaLocked => CountPending(t)
    case Counted => Write(t)
    case Written(_) => Commit(t)
  }

  function StepsLeft(stage: Stage): nat {
    match stage
    case Begun => 5
    case DomainLocked => 4
    case Checked(_) => 3
    case QuotaLocked => 2
    case Counted => 1
    case Written(_) => 0
  }

  lemma NextStepEnabled(c: Config, s: State, t: TxId, op: Op, m: State)
    requires Midway(s, t, op, m) && Succeeds(s, op)
    ensures Enabled(c, m, NextStep(t, op, m.txs[t].stage)) && OfTx(NextStep(t, op, m.txs[t].stage), t)
  {
  }

  lemma NextStepAdvances(c: Config, t: TxId, op: Op, m: State)
    requires t in m.txs && var a := NextStep(t, op, m.txs[t].stage); Enabled(c, m, a) && a != Commit(t)
    ensures var s' := Apply(c, m, NextStep(t, op, m.txs[t].stage));
            t in s'.txs && StepsLeft(s'.txs[t].stage) < StepsLeft(m.txs[t].stage)
  {
  }

  lemma {:induction false} Finishes(c: Config, s: State, t: TxId, op: Op, m: State) returns (acts: seq<Action>)
    requires Quiet(s) && Midway(s, t, op, m) && Succeeds(s, op)
    ensures acts != [] && acts[|acts| - 1] == Commit(t) && forall a :: a in acts ==> OfTx(a, t)
    ensures Leads(c, m, acts, Outcome(s, op))
    decreases StepsLeft(m.txs[t].stage)
  {
    var a := NextStep(t, op, m.txs[t].stage);
    NextStepEnabled(c, s, t, op, m);
    if a == Commit(t) {
      EndOfTx(c, s, t, op, m, a);
      OneStep(c, m, a, [], Outcome(s, op));
      acts := [a] + [];
    } else {
      StepStaysMidway(c, s, t, op, m, a);
      NextStepAdvances(c, t, op, m);
      var rest := Finishes(c, s, t, op, Apply(c, m, a));
      OneStep(c, m, a, rest, Outcome(s, op));
      acts := [a] + rest;
    }
  }

  /**
   From a quiet state, an operation run without interruption can commit if and only if it succeeds;
   when it commits the tables are as its outcome says, and otherwise they are as before.
   */
  lemma SerialOutcome(c: Config, s: State, t: TxId, op: Op)
    requires Quiet(s)
    ensures forall acts, s' :: RunsAlone(c, s, t, op, acts, s') ==> EndsAs(s, t, op, acts[|acts| - 1], s')
    ensures Succeeds(s, op) <==>
              exists acts, s' :: RunsAlone(c, s, t, op, acts, s') && acts[|acts| - 1] == Commit(t)
  {
    var m := Opened(s, t, op);
    assert Midway(s, t, op, m);
    forall acts, s' | RunsAlone(c, s, t, op, acts, s') ensures EndsAs(s, t, op, acts[|acts| - 1], s') {
      AloneEndsAs(c, s, t, op, m, acts, s');
    }
    if Succeeds(s, op) {
      var acts := Finishes(c, s, t, op, m);
      assert RunsAlone(c, s, t, op, acts, Outcome(s, op));
    }
  }

  lemma CommittedAlone(c: Config, s: State, t: TxId, op: Op, acts: seq<Action>, s': State)
    requires Quiet(s) && RunsAlone(c, s, t, op, acts, s') && acts[|acts| - 1] == Commit(t)
    ensures s' == Published(s, Effect(s, op))
  {
    SerialOutcome(c, s, t, op);
  }

  /**
   A link found on a page at depth d is recorded exactly while d is below the depth bound, by the worker
   that was given the page; once recorded, its target is in the queue at depth d + 1 or less.
   */
  lemma LinkIsFollowed(c: Config, s: State, t: TxId, source: Url, target: Url, d: nat, u: User)
    requires Quiet(s)
    ensures Enabled(c, s, Begin(t, SaveEdge(source, target, d + 1, u))) <==>
              d < c.maxDepth && Job(Key(source, u), d) in s.jobs
    ensures var p := Outcome(s, SaveEdge(source, target, d + 1, u));
            Key(source, u) in s.nodes ==>
              && Edge(source, target, u) in p.edges
              && (target.host !in s.blacklist ==>
                    && Key(target, u) in p.nodes
                    && (p.nodes[Key(target, u)].status == Pending ==> p.nodes[Key(target, u)].depth <= d + 1)
                    && (Key(target, u) !in s.nodes ==> p.nodes[Key(target, u)].status == Pending))
  {
  }

  lemma OutcomeRowOk(s: State, op: Op, k: Key)
    requires TablesOk(s) && Succeeds(s, op) && k in Published(s, Effect(s, op)).nodes
    ensures RowOk(Published(s, Effect(s, op)), k, Published(s, Effect(s, op)).nodes[k])
  {
    if k in s.nodes {
      assert RowOk(s, k, s.nodes[k]);
    }
  }

  /** Every outcome keeps the rows in agreement with the blacklist. */
  lemma OutcomeKeepsTables(s: State, op: Op)
    requires TablesOk(s)
    ensures TablesOk(Outcome(s, op))
  {
    var p := Outcome(s, op);
    if Succeeds(s, op) {
      forall k | k in p.nodes ensures RowOk(p, k, p.nodes[k]) {
        OutcomeRowOk(s, op, k);
      }
    }
  }

  /** The tables after blocking and unblocking a host. */
  lemma BlockedAndUnblocked(s: State, h: Host, k: Key)
    requires TablesOk(s) && k in s.nodes
    ensures var p := Published(s, Effect(s, Block(h)));
            var q := Published(p, Effect(p, Unblock(h)));
            && q.blacklist == s.blacklist - {h} && q.nodes.Keys == s.nodes.Keys
            && q.nodes[k] == if k.url.host == h
                             then s.nodes[k].(status := Pending, retryCount := 0, nextCrawlAt := s.now) else s.nodes[k]
  {
    assert RowOk(s, k, s.nodes[k]);
  }

  /**
   Blocking a host and then unblocking it, each without interruption, puts every one of its rows back
   in the queue, due at once and with its retries renewed, and touches no other row.
   */
  lemma BlockThenUnblock(c: Config, s: State, t: TxId, h: Host, blocking: seq<Action>, p: State,
                         unblocking: seq<Action>, q: State, k: Key)
    requires Quiet(s) && k in s.nodes
    requires RunsAlone(c, s, t, Block(h), blocking, p) && blocking[|blocking| - 1] == Commit(t)
    requires RunsAlone(c, p, t, Unblock(h), unblocking, q) && unblocking[|unblocking| - 1] == Commit(t)
    ensures q.blacklist == s.blacklist - {h} && q.nodes.Keys == s.nodes.Keys && q.edges == s.edges
    ensures q.nodes[k] == if k.url.host == h
                          then s.nodes[k].(status := Pending, retryCount := 0, nextCrawlAt := s.now) else s.nodes[k]
  {
    CommittedAlone(c, s, t, Block(h), blocking, p);
    OutcomeKeepsTables(s, Block(h));
    CommittedAlone(c, p, t, Unblock(h), unblocking, q);
    BlockedAndUnblocked(s, h, k);
  }
}
