/**
 The two kinds of advisory lock: waiting for them can never form a cycle, and the account lock
 makes the cap on pending submissions exact under any interleaving.
 */
module QueueLocks {
  import opened CrawlQueue
  import opened QueueInvariant

  // ----- no deadlock -----

  /** `t` is stopped at a lock call and `o` holds the lock. */
  ghost predicate WaitsFor(c: Config, s: State, t: TxId, o: TxId) {
    && t in s.txs
    && var tx := s.txs[t];
       || (&& tx.stage.Begun?
           && LockOf(c, tx.op) in s.domainLocks && s.domainLocks[LockOf(c, tx.op)] == o)
       || (&& tx.stage == Checked(false) && tx.op.Enqueue? && tx.op.maxPending > 0
           && tx.op.user in s.quotaLocks && s.quotaLocks[tx.op.user] == o)
  }

  /** How many advisory locks a transaction holds. */
  ghost function Held(s: State, t: TxId): nat
    requires t in s.txs
  {
    (if s.txs[t].stage.Begun? then 0 else 1) + (if HoldsQuota(s.txs[t]) then 1 else 0)
  }

  lemma WaitingClimbs(c: Config, s: State, t: TxId, o: TxId)
    requires Inv(c, s) && WaitsFor(c, s, t, o)
    ensures o in s.txs && Held(s, o) > Held(s, t)
  {
  }

  ghost predicate WaitCycle(c: Config, s: State, p: seq<TxId>) {
    |p| > 0 && forall i :: 0 <= i < |p| ==> WaitsFor(c, s, p[i], p[if i + 1 < |p| then i + 1 else 0])
  }

  lemma {:induction false} CycleClimbs(c: Config, s: State, p: seq<TxId>, i: nat)
    requires Inv(c, s) && WaitCycle(c, s, p) && i < |p|
    ensures p[0] in s.txs && p[i] in s.txs && Held(s, p[i]) >= Held(s, p[0]) + i
  {
    if i == 0 {
      assert WaitsFor(c, s, p[0], p[if 1 < |p| then 1 else 0]);
    } else {
      CycleClimbs(c, s, p, i - 1);
      WaitingClimbs(c, s, p[i - 1], p[i]);
    }
  }

  lemma NoWaitCycle(c: Config, s: State, p: seq<TxId>)
    requires Inv(c, s)
    ensures !WaitCycle(c, s, p)
  {
    if WaitCycle(c, s, p) {
      var last := |p| - 1;
      CycleClimbs(c, s, p, last);
      WaitingClimbs(c, s, p[last], p[0]);
      assert false;
    }
  }

  /** Waiting only ever goes from fewer locks to more, so the transaction holding most can proceed. */
  lemma SomeoneProceeds(c: Config, s: State) returns (t: TxId)
    requires Inv(c, s) && s.txs != map[]
    ensures t in s.txs && forall o :: !WaitsFor(c, s, t, o)
  {
    t :| t in s.txs;
    while exists o :: WaitsFor(c, s, t, o)
      invariant t in s.txs
      decreases 2 - Held(s, t)
    {
      var o :| WaitsFor(c, s, t, o);
      WaitingClimbs(c, s, t, o);
      t := o;
    }
  }

  /** In every interleaving from a quiet start there is no cycle of waiting transactions. */
  lemma DeadlockFreedom(c: Config, ss: seq<State>, acts: seq<Action>, i: nat)
    requires Run(c, ss, acts) && Quiet(ss[0]) && i < |ss|
    ensures !exists p :: WaitCycle(c, ss[i], p)
    ensures ss[i].txs != map[] ==> exists t :: t in ss[i].txs && forall o :: !WaitsFor(c, ss[i], t, o)
  {
    RunKeepsInv(c, ss, acts, i);
    forall p ensures !WaitCycle(c, ss[i], p) {
      NoWaitCycle(c, ss[i], p);
    }
    if ss[i].txs != map[] {
      var t := SomeoneProceeds(c, ss[i]);
    }
  }

  // ----- the pending cap -----

  predicate OpWithinCap(op: Op, u: User, cap: nat) {
    op.Enqueue? && op.user == u ==> 0 < op.maxPending <= cap
  }

  /**
   The action may run beside account `u`'s capped submissions: it makes no other row of `u` pending.
   Claims, saves, robots refusals, blocks and everything that touches no row of `u` always may.
   */
  ghost predicate WithinCap(s: State, a: Action, u: User, cap: nat) {
    match a
    case Begin(_, op) => OpWithinCap(op, u, cap)
    case Commit(t) => t in s.txs && CommitWithin(s, s.txs[t].op, u)
    case Fail(k) => k.user == u && k in s.nodes ==> s.nodes[k].status == Pending || s.nodes[k].retryCount >= 4
    case Requeue(k) => k.user == u && k in s.nodes ==> s.nodes[k].status == Pending
    case ResetStuck(older) => forall k :: Stuck(s, k, older) ==> k.user != u
    case ResetAll => CrawlingOf(s.nodes, u) == {}
    case Revive(_, _, chosen) => forall k :: k in chosen ==> k.user != u
    case _ => true
  }

  /** A link of `u` leads to a known URL; an unblocked host has no blocked row of `u`. */
  ghost predicate CommitWithin(s: State, op: Op, u: User) {
    match op
    case SaveEdge(_, target, _, v) => v == u ==> Key(target, u) in s.nodes
    case Unblock(h) => forall k :: k in s.nodes && k.user == u && k.url.host == h ==> s.nodes[k].status != Blocked
    case _ => true
  }

  ghost predicate CapInv(s: State, u: User, cap: nat) {
    && |PendingOf(s.nodes, u)| <= cap
    && forall t :: t in s.txs ==>
         && OpWithinCap(s.txs[t].op, u, cap)
         && (HoldsQuota(s.txs[t]) && s.txs[t].op.user == u && !s.txs[t].stage.QuotaLocked? ==>
               |PendingOf(s.nodes, u)| < cap)
  }

  lemma SubsetCount<T>(a: set<T>, b: set<T>)
    requires a <= b
    ensures |a| <= |b|
  {
    assert b == a + (b - a);
  }

  ghost predicate NoneAdded(nodes: map<Key, Row>, nodes': map<Key, Row>, u: User) {
    forall k :: k in nodes' && k.user == u && nodes'[k].status == Pending ==>
      k in nodes && nodes[k].status == Pending
  }

  lemma FewerPending(nodes: map<Key, Row>, nodes': map<Key, Row>, u: User)
    requires NoneAdded(nodes, nodes', u)
    ensures |PendingOf(nodes', u)| <= |PendingOf(nodes, u)|
  {
    SubsetCount(PendingOf(nodes', u), PendingOf(nodes, u));
  }

  lemma CommitAddsNone(c: Config, s: State, t: TxId, u: User)
    requires Inv(c, s) && Enabled(c, s, Commit(t)) && CommitWithin(s, s.txs[t].op, u)
    requires s.txs[t].op.Enqueue? ==> s.txs[t].op.user != u
    ensures NoneAdded(s.nodes, Apply(c, s, Commit(t)).nodes, u)
  {
    CommitRows(c, s, t);
    var rows := s.txs[t].stage.writes.rows;
    forall k | k in rows && k.user == u && rows[k].status == Pending
      ensures k in s.nodes && s.nodes[k].status == Pending
    {
      WrittenRow(c, s, t, k);
    }
  }

  lemma CommitAddsOne(c: Config, s: State, t: TxId)
    requires Inv(c, s) && Enabled(c, s, Commit(t)) && s.txs[t].op.Enqueue?
    ensures var u := s.txs[t].op.user;
            |PendingOf(Apply(c, s, Commit(t)).nodes, u)| <= |PendingOf(s.nodes, u)| + 1
  {
    CommitRows(c, s, t);
    var (op, rows) := (s.txs[t].op, s.txs[t].stage.writes.rows);
    var (before, after) := (PendingOf(s.nodes, op.user), PendingOf(s.nodes + rows, op.user));
    forall k | k in rows ensures k == Key(op.url, op.user) {
      WrittenRow(c, s, t, k);
    }
    SubsetCount(after, before + {Key(op.url, op.user)});
  }

  lemma OneQuotaHolder(c: Config, s: State, t: TxId, o: TxId)
    requires Inv(c, s) && t in s.txs && o in s.txs && HoldsQuota(s.txs[t]) && HoldsQuota(s.txs[o])
    requires s.txs[t].op.user == s.txs[o].op.user
    ensures t == o
  {
    assert TxOk(c, s, t) && TxOk(c, s, o);
  }

  lemma CommitWithinCap(c: Config, s: State, t: TxId, u: User, cap: nat)
    requires Inv(c, s) && CapInv(s, u, cap) && Enabled(c, s, Commit(t)) && WithinCap(s, Commit(t), u, cap)
    ensures CapInv(Apply(c, s, Commit(t)), u, cap)
  {
    var s' := Apply(c, s, Commit(t));
    if s.txs[t].op.Enqueue? && s.txs[t].op.user == u {
      CommitAddsOne(c, s, t);
      assert HoldsQuota(s.txs[t]);
      forall o | o in s'.txs && HoldsQuota(s'.txs[o]) ensures s'.txs[o].op.user != u {
        if s'.txs[o].op.user == u { OneQuotaHolder(c, s, t, o); }
      }
    } else {
      CommitAddsNone(c, s, t, u);
      FewerPending(s.nodes, s'.nodes, u);
    }
  }

  lemma StatementAddsNone(c: Config, s: State, a: Action, u: User, cap: nat, k: Key)
    requires Enabled(c, s, a) && WithinCap(s, a, u, cap) && IsStatement(a) && k in s.nodes && k.user == u
    requires RowAfter(s, a, k).status == Pending
    ensures s.nodes[k].status == Pending
  {
    assert a.ResetAll? && s.nodes[k].status == Crawling ==> k in CrawlingOf(s.nodes, u);
  }

  lemma StatementWithinCap(c: Config, s: State, a: Action, u: User, cap: nat)
    requires CapInv(s, u, cap) && Enabled(c, s, a) && WithinCap(s, a, u, cap) && IsStatement(a)
    ensures CapInv(Apply(c, s, a), u, cap)
  {
    var s' := Apply(c, s, a);
    assert s' == AfterStatement(s, a);
    forall k | k in s'.nodes && k.user == u && s'.nodes[k].status == Pending
      ensures k in s.nodes && s.nodes[k].status == Pending
    {
      StatementAddsNone(c, s, a, u, cap, k);
    }
    FewerPending(s.nodes, s'.nodes, u);
  }

  lemma TransactionWithinCap(c: Config, s: State, a: Action, u: User, cap: nat)
    requires CapInv(s, u, cap) && Enabled(c, s, a) && WithinCap(s, a, u, cap) && !IsStatement(a) && !a.Commit?
    ensures CapInv(Apply(c, s, a), u, cap)
  {
    OtherRows(c, s, a);
  }

  lemma StepWithinCap(c: Config, s: State, a: Action, u: User, cap: nat)
    requires Inv(c, s) && CapInv(s, u, cap) && Enabled(c, s, a) && WithinCap(s, a, u, cap)
    ensures CapInv(Apply(c, s, a), u, cap)
  {
    if a.Commit? {
      CommitWithinCap(c, s, a.t, u, cap);
    } else if IsStatement(a) {
      StatementWithinCap(c, s, a, u, cap);
    } else {
      TransactionWithinCap(c, s, a, u, cap);
    }
  }

  lemma {:induction false} RunWithinCap(c: Config, ss: seq<State>, acts: seq<Action>, u: User, cap: nat, i: nat)
    requires Run(c, ss, acts) && Inv(c, ss[0]) && CapInv(ss[0], u, cap) && i < |ss|
    requires forall j :: 0 <= j < |acts| ==> WithinCap(ss[j], acts[j], u, cap)
    ensures Inv(c, ss[i]) && CapInv(ss[i], u, cap)
  {
    if i == 0 {
    } else {
      RunWithinCap(c, ss, acts, u, cap, i - 1);
      StepKeepsInv(c, ss[i - 1], acts[i - 1]);
      StepWithinCap(c, ss[i - 1], acts[i - 1], u, cap);
    }
  }

  /**
   From at most `cap` pending rows, no interleaving of capped submissions by account `u`, for any
   hosts, ever shows more than `cap`.  Everything else may run in between that does not itself put a
   row of `u` back in the queue.
   */
  lemma PendingCapHolds(c: Config, ss: seq<State>, acts: seq<Action>, u: User, cap: nat, i: nat)
    requires Run(c, ss, acts) && Quiet(ss[0]) && i < |ss|
    requires |set k | k in ss[0].nodes && k.user == u && ss[0].nodes[k].status == Pending| <= cap
    requires forall j :: 0 <= j < |acts| ==> WithinCap(ss[j], acts[j], u, cap)
    ensures |set k | k in ss[i].nodes && k.user == u && ss[i].nodes[k].status == Pending| <= cap
  {
    assert PendingOf(ss[0].nodes, u) == set k | k in ss[0].nodes && k.user == u && ss[0].nodes[k].status == Pending;
    assert PendingOf(ss[i].nodes, u) == set k | k in ss[i].nodes && k.user == u && ss[i].nodes[k].status == Pending;
    RunWithinCap(c, ss, acts, u, cap, i);
  }
}
