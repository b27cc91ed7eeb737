/**
 The invariant of the crawl queue: in every interleaving, a committed row is blocked exactly when
 its host is on the blacklist, and whatever a transaction has buffered is still what its locked
 part of the tables calls for.
 */
module QueueInvariant {
  import opened CrawlQueue

  /** Each advisory lock belongs to an open transaction that asked for it. */
  ghost predicate LocksOk(c: Config, s: State) {
    && (forall l :: l in s.domainLocks ==>
          var t := s.domainLocks[l];
          t in s.txs && !s.txs[t].stage.Begun? && LockOf(c, s.txs[t].op) == l)
    && (forall u :: u in s.quotaLocks ==>
          var t := s.quotaLocks[u];
          t in s.txs && HoldsQuota(s.txs[t]) && s.txs[t].op.user == u)
  }

  /** The buffered writes still fit the committed tables. */
  ghost predicate WritesOk(s: State, tx: Tx)
    requires tx.stage.Written?
  {
    var w := tx.stage.writes;
    match tx.op
    case Enqueue(url, u, _) =>
      && url.host !in s.blacklist
      && w == Writes(w.rows, {}, {}, {})
      && (w.rows == map[] ||
          (Key(url, u) !in s.nodes && w.rows == map[Key(url, u) := NewRow(url.host, 0, tx.began)]))
    case SaveEdge(source, target, depth, u) =>
      var k := Key(target, u);
      && w == Writes(w.rows, {}, {}, {Edge(source, target, u)})
      && (w.rows != map[] ==> target.host !in s.blacklist)
      && (|| w.rows == map[]
          || (k !in s.nodes && w.rows == map[k := NewRow(target.host, depth, tx.began)])
          || (&& k in s.nodes && s.nodes[k].depth > depth && s.nodes[k].status == Pending
              && w.rows == map[k := s.nodes[k].(depth := depth)]))
    case Block(h) => w == Writes(BlockRows(s, h), {h}, {}, {})
    case Unblock(h) => h in s.blacklist && w == Writes(UnblockRows(s, h, tx.began), {}, {h}, {})
  }

  ghost predicate StageOk(s: State, tx: Tx) {
    match tx.stage
    case Begun => true
    case DomainLocked => true
    case Checked(b) => !tx.op.Block? && (b <==> OpHost(tx.op) in s.blacklist)
    case QuotaLocked => tx.op.Enqueue? && tx.op.maxPending > 0 && OpHost(tx.op) !in s.blacklist
    case Counted => tx.op.Enqueue? && tx.op.maxPending > 0 && OpHost(tx.op) !in s.blacklist
    case Written(_) => WritesOk(s, tx)
  }

  ghost predicate TxOk(c: Config, s: State, t: TxId)
    requires t in s.txs
  {
    var tx := s.txs[t];
    && (!tx.stage.Begun? ==> LockOf(c, tx.op) in s.domainLocks && s.domainLocks[LockOf(c, tx.op)] == t)
    && (HoldsQuota(tx) ==> tx.op.user in s.quotaLocks && s.quotaLocks[tx.op.user] == t)
    && StageOk(s, tx)
  }

  ghost predicate Inv(c: Config, s: State) {
    TablesOk(s) && LocksOk(c, s) && forall t :: t in s.txs ==> TxOk(c, s, t)
  }

  /**
   What a single-statement action may do to a row: leave it, or edit it if nobody has locked it, without
   blocking or unblocking it.
   */
  ghost predicate EditedRow(s: State, k: Key, r: Row)
    requires k in s.nodes
  {
    var was := s.nodes[k];
    || r == was
    || (&& !RowLocked(s, k)
        && (r.status == Blocked <==> was.status == Blocked)
        && r.host == was.host && r.depth == was.depth
        && (r.status == Crawling ==> r.startedAt.Some? || (was.status == Crawling && r.startedAt == was.startedAt)))
  }

  ghost predicate Edits(s: State, s': State) {
    && s' == s.(now := s'.now, nodes := s'.nodes, jobs := s'.jobs)
    && s'.nodes.Keys == s.nodes.Keys
    && forall k :: k in s.nodes ==> EditedRow(s, k, s'.nodes[k])
  }

  lemma StatementEditsRow(c: Config, s: State, a: Action, k: Key)
    requires Enabled(c, s, a) && IsStatement(a) && k in s.nodes
    ensures EditedRow(s, k, RowAfter(s, a, k))
  {
    if a.Revive? && k in a.chosen {
      var dead := set k | k in s.nodes && Dead(s, k, a.olderThan);
      assert k in dead;
    }
  }

  lemma StatementEdits(c: Config, s: State, a: Action)
    requires Enabled(c, s, a) && IsStatement(a)
    ensures Edits(s, Apply(c, s, a))
  {
    var s' := Apply(c, s, a);
    assert s' == AfterStatement(s, a);
    forall k | k in s.nodes ensures EditedRow(s, k, s'.nodes[k]) {
      StatementEditsRow(c, s, a, k);
    }
  }

  lemma EditsKeepWrites(s: State, s': State, t: TxId)
    requires Edits(s, s') && TablesOk(s) && t in s.txs && s.txs[t].stage.Written? && WritesOk(s, s.txs[t])
    ensures WritesOk(s', s'.txs[t])
  {
    var tx := s.txs[t];
    forall k | k in tx.stage.writes.rows && k in s.nodes
      ensures s'.nodes[k] == s.nodes[k]
    {
      assert RowLocked(s, k);
    }
    match tx.op
    case Block(h) => assert BlockRows(s', h) == BlockRows(s, h);
    case Unblock(h) => assert UnblockRows(s', h, tx.began) == UnblockRows(s, h, tx.began);
    case Enqueue(_, _, _) =>
    case SaveEdge(_, _, _, _) =>
  }

  lemma EditsKeepInv(c: Config, s: State, s': State)
    requires Inv(c, s) && Edits(s, s')
    ensures Inv(c, s')
  {
    forall t | t in s'.txs ensures TxOk(c, s', t) {
      assert TxOk(c, s, t);
      if s.txs[t].stage.Written? {
        EditsKeepWrites(s, s', t);
      }
    }
  }

  /** Two transactions past their domain lock hold different locks, so they work on different hosts. */
  lemma HostsApart(c: Config, s: State, t: TxId, o: TxId)
    requires Inv(c, s) && t in s.txs && o in s.txs && t != o
    requires !s.txs[t].stage.Begun? && !s.txs[o].stage.Begun?
    ensures LockOf(c, s.txs[t].op) != LockOf(c, s.txs[o].op)
    ensures OpHost(s.txs[t].op) != OpHost(s.txs[o].op)
  {
    assert TxOk(c, s, t) && TxOk(c, s, o);
  }

  /** Every buffered row belongs to the host whose lock the transaction holds. */
  lemma WritesStayOnHost(c: Config, s: State, t: TxId, k: Key)
    requires Inv(c, s) && t in s.txs && s.txs[t].stage.Written? && k in s.txs[t].stage.writes.rows
    ensures k.url.host == OpHost(s.txs[t].op)
  {
    assert TxOk(c, s, t);
  }

  /** So transactions never wait for each other's rows: only the advisory locks are ever contended. */
  lemma RowsNeverContended(c: Config, s: State, t: TxId, o: TxId)
    requires Inv(c, s) && t in s.txs && o in s.txs && t != o
    requires s.txs[t].stage.Written? && s.txs[o].stage.Written?
    ensures s.txs[t].stage.writes.rows.Keys !! s.txs[o].stage.writes.rows.Keys
  {
    HostsApart(c, s, t, o);
    forall k | k in s.txs[t].stage.writes.rows && k in s.txs[o].stage.writes.rows ensures false {
      WritesStayOnHost(c, s, t, k);
      WritesStayOnHost(c, s, o, k);
    }
  }

  // ----- transaction steps -----

  /** What a transaction writes to row `k`. */
  ghost predicate RowWritten(s: State, tx: Tx, k: Key, r: Row) {
    match tx.op
    case Enqueue(url, u, _) => k == Key(url, u) && k !in s.nodes && r == NewRow(url.host, 0, tx.began)
    case SaveEdge(_, target, depth, u) =>
      && k == Key(target, u)
      && (if k in s.nodes
          then s.nodes[k].depth > depth && s.nodes[k].status == Pending && r == s.nodes[k].(depth := depth)
          else r == NewRow(target.host, depth, tx.began))
    case Block(h) => k in s.nodes && k.url.host == h && r == s.nodes[k].(status := Blocked)
    case Unblock(h) =>
      && k in s.nodes && k.url.host == h && s.nodes[k].status == Blocked
      && r == s.nodes[k].(status := Pending, retryCount := 0, nextCrawlAt := tx.began)
  }

  lemma WrittenRow(c: Config, s: State, t: TxId, k: Key)
    requires Inv(c, s) && t in s.txs && s.txs[t].stage.Written? && k in s.txs[t].stage.writes.rows
    ensures RowWritten(s, s.txs[t], k, s.txs[t].stage.writes.rows[k])
  {
    assert TxOk(c, s, t);
    if k in s.nodes {
      assert RowOk(s, k, s.nodes[k]);
    }
  }

  /** The transaction `t` moves to `tx`, taking at most locks nobody holds, and the tables stay as they are. */
  ghost predicate MovesOne(c: Config, s: State, s': State, t: TxId, tx: Tx) {
    && s' == s.(txs := s.txs[t := tx], domainLocks := s'.domainLocks, quotaLocks := s'.quotaLocks,
                submitted := s'.submitted)
    && (s'.domainLocks == s.domainLocks ||
        (LockOf(c, tx.op) !in s.domainLocks && s'.domainLocks == s.domainLocks[LockOf(c, tx.op) := t]))
    && (s'.quotaLocks == s.quotaLocks ||
        (tx.op.Enqueue? && tx.op.user !in s.quotaLocks && s'.quotaLocks == s.quotaLocks[tx.op.user := t]))
  }

  /** The move keeps every lock the transaction held, and a lock it takes it needs. */
  ghost predicate MovesOn(s: State, s': State, t: TxId, tx: Tx) {
    && (t in s.txs ==> s.txs[t].op == tx.op && !(HoldsQuota(s.txs[t]) && !HoldsQuota(tx)))
    && (t in s.txs && !s.txs[t].stage.Begun? ==> !tx.stage.Begun?)
    && (s'.domainLocks != s.domainLocks ==> !tx.stage.Begun?)
    && (s'.quotaLocks != s.quotaLocks ==> HoldsQuota(tx))
  }

  lemma MoveKeepsLocks(c: Config, s: State, s': State, t: TxId, tx: Tx)
    requires LocksOk(c, s) && MovesOne(c, s, s', t, tx) && MovesOn(s, s', t, tx)
    ensures LocksOk(c, s')
  {
  }

  lemma MoveKeepsInv(c: Config, s: State, s': State, t: TxId, tx: Tx)
    requires Inv(c, s) && MovesOne(c, s, s', t, tx) && MovesOn(s, s', t, tx) && TxOk(c, s', t)
    ensures Inv(c, s')
  {
    MoveKeepsLocks(c, s, s', t, tx);
    forall o | o in s'.txs ensures TxOk(c, s', o) {
      if o != t {
        assert TxOk(c, s, o);
        StageDependsOnHost(s, s', s.txs[o]);
      }
    }
  }

  lemma StageMoveKeepsInv(c: Config, s: State, a: Action)
    requires Inv(c, s) && Enabled(c, s, a)
    requires a.Begin? || a.AcquireDomain? || a.ReadBlacklist? || a.AcquireQuota? || a.CountPending?
    ensures Inv(c, Apply(c, s, a))
  {
    var s' := Apply(c, s, a);
    if a.Begin? {
      MoveKeepsInv(c, s, s', a.t, s'.txs[a.t]);
    } else {
      assert TxOk(c, s, a.t);
      MoveKeepsInv(c, s, s', a.t, s'.txs[a.t]);
    }
  }

  /** What a transaction buffers fits the tables it was computed from. */
  lemma PlannedWritesFit(s: State, tx: Tx)
    requires TablesOk(s) && StageOk(s, tx) && MayWrite(s, tx)
    ensures WritesOk(s, tx.(stage := Written(PlannedWrites(s, tx))))
  {
  }

  lemma WriteKeepsInv(c: Config, s: State, t: TxId)
    requires Inv(c, s) && Enabled(c, s, Write(t))
    ensures Inv(c, Apply(c, s, Write(t)))
  {
    var s' := Apply(c, s, Write(t));
    assert TxOk(c, s, t);
    PlannedWritesFit(s, s.txs[t]);
    StageDependsOnHost(s, s', s'.txs[t]);
    MoveKeepsInv(c, s, s', t, s'.txs[t]);
  }

  ghost predicate AgreeOnHost(s: State, p: State, h: Host) {
    && (h in p.blacklist <==> h in s.blacklist)
    && (forall k: Key :: k.url.host == h ==> (k in p.nodes <==> k in s.nodes))
    && (forall k: Key :: k.url.host == h && k in s.nodes && k in p.nodes ==> p.nodes[k] == s.nodes[k])
  }

  lemma BlockRowsDependOnHost(s: State, p: State, h: Host, at: int)
    requires TablesOk(s) && TablesOk(p) && AgreeOnHost(s, p, h)
    ensures BlockRows(p, h) == BlockRows(s, h) && UnblockRows(p, h, at) == UnblockRows(s, h, at)
  {
    forall k ensures k in p.nodes && p.nodes[k].host == h <==> k in s.nodes && s.nodes[k].host == h {
      if k in p.nodes { assert RowOk(p, k, p.nodes[k]); }
      if k in s.nodes { assert RowOk(s, k, s.nodes[k]); }
    }
    forall k | k in s.nodes && s.nodes[k].host == h ensures p.nodes[k] == s.nodes[k] {
      assert RowOk(s, k, s.nodes[k]);
    }
  }

  /** A transaction relies on the part of the tables its domain lock covers, and on nothing else. */
  lemma StageDependsOnHost(s: State, p: State, tx: Tx)
    requires TablesOk(s) && TablesOk(p) && AgreeOnHost(s, p, OpHost(tx.op)) && StageOk(s, tx)
    ensures StageOk(p, tx)
  {
    if tx.stage.Written? {
      match tx.op
      case Block(h) => BlockRowsDependOnHost(s, p, h, tx.began);
      case Unblock(h) => BlockRowsDependOnHost(s, p, h, tx.began);
      case Enqueue(url, u, _) => assert Key(url, u).url.host == OpHost(tx.op);
      case SaveEdge(_, target, _, u) => assert Key(target, u).url.host == OpHost(tx.op);
    }
  }

  lemma PublishAgrees(c: Config, s: State, t: TxId, h: Host)
    requires Inv(c, s) && t in s.txs && s.txs[t].stage.Written? && h != OpHost(s.txs[t].op)
    ensures AgreeOnHost(s, Published(s, s.txs[t].stage.writes), h)
  {
    assert TxOk(c, s, t);
    forall k: Key | k.url.host == h ensures k !in s.txs[t].stage.writes.rows {
      if k in s.txs[t].stage.writes.rows { WritesStayOnHost(c, s, t, k); }
    }
  }

  /** Publishing one transaction's writes changes nothing another transaction relies on. */
  lemma PublishKeepsOther(c: Config, s: State, t: TxId, o: TxId)
    requires Inv(c, s) && t in s.txs && o in s.txs && t != o && s.txs[t].stage.Written?
    ensures StageOk(Published(s, s.txs[t].stage.writes), s.txs[o])
  {
    assert TxOk(c, s, o);
    if !s.txs[o].stage.Begun? {
      HostsApart(c, s, t, o);
      PublishAgrees(c, s, t, OpHost(s.txs[o].op));
      PublishedTables(c, s, t);
      StageDependsOnHost(s, Published(s, s.txs[t].stage.writes), s.txs[o]);
    }
  }

  lemma PublishedTables(c: Config, s: State, t: TxId)
    requires Inv(c, s) && t in s.txs && s.txs[t].stage.Written?
    ensures TablesOk(Published(s, s.txs[t].stage.writes))
  {
    assert TxOk(c, s, t);
    var p := Published(s, s.txs[t].stage.writes);
    forall k | k in p.nodes ensures RowOk(p, k, p.nodes[k]) {
      if k in s.nodes { assert RowOk(s, k, s.nodes[k]); }
      if k in s.txs[t].stage.writes.rows { WrittenRow(c, s, t, k); }
    }
  }

  lemma EndKeepsInv(c: Config, s: State, p: State, t: TxId)
    requires Inv(c, s) && t in s.txs
    requires p == s.(nodes := p.nodes, blacklist := p.blacklist, edges := p.edges)
    requires TablesOk(p)
    requires forall o :: o in s.txs && o != t ==> StageOk(p, s.txs[o])
    ensures Inv(c, Ended(p, t))
  {
    var e := Ended(p, t);
    forall o | o in e.txs ensures TxOk(c, e, o) {
      assert TxOk(c, s, o);
      assert StageOk(p, s.txs[o]);
      StageDependsOnHost(p, e, s.txs[o]);
    }
  }

  lemma EndingKeepsInv(c: Config, s: State, a: Action)
    requires Inv(c, s) && Enabled(c, s, a) && (a.Commit? || a.Rollback?)
    ensures Inv(c, Apply(c, s, a))
  {
    if a.Commit? {
      var p := Published(s, s.txs[a.t].stage.writes);
      PublishedTables(c, s, a.t);
      forall o | o in s.txs && o != a.t ensures StageOk(p, s.txs[o]) {
        PublishKeepsOther(c, s, a.t, o);
      }
      EndKeepsInv(c, s, p, a.t);
    } else {
      forall o | o in s.txs && o != a.t ensures StageOk(s, s.txs[o]) {
        assert TxOk(c, s, o);
      }
      EndKeepsInv(c, s, s, a.t);
    }
  }

  lemma StepKeepsInv(c: Config, s: State, a: Action)
    requires Inv(c, s) && Enabled(c, s, a)
    ensures Inv(c, Apply(c, s, a))
  {
    if IsStatement(a) {
      StatementEdits(c, s, a);
      EditsKeepInv(c, s, Apply(c, s, a));
    } else if a.Write? {
      WriteKeepsInv(c, s, a.t);
    } else if a.Commit? || a.Rollback? {
      EndingKeepsInv(c, s, a);
    } else {
      StageMoveKeepsInv(c, s, a);
    }
  }

  lemma {:induction false} RunKeepsInv(c: Config, ss: seq<State>, acts: seq<Action>, i: nat)
    requires Run(c, ss, acts) && Inv(c, ss[0]) && i < |ss|
    ensures Inv(c, ss[i])
  {
    if i == 0 {
    } else {
      RunKeepsInv(c, ss, acts, i - 1);
      StepKeepsInv(c, ss[i - 1], acts[i - 1]);
    }
  }

  /**
   In every interleaving that starts with no transaction open, at every moment a row is blocked
   exactly when its host is on the blacklist, and a claim never returns a URL of a blacklisted host.
   */
  lemma BlacklistSafety(c: Config, ss: seq<State>, acts: seq<Action>, i: nat)
    requires Run(c, ss, acts) && Quiet(ss[0]) && i < |ss|
    ensures forall k :: k in ss[i].nodes ==>
              (ss[i].nodes[k].status == Blocked <==> k.url.host in ss[i].blacklist)
    ensures i < |acts| && acts[i].Claim? ==>
              acts[i].k.url.host !in ss[i].blacklist && acts[i].k.url.host !in ss[i + 1].blacklist
  {
    RunKeepsInv(c, ss, acts, i);
  }
}
