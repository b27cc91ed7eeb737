/**
 The crawl queue as a state machine over the rows of `nodes`, `edges` and `blacklist`.

 Every SQL statement is one atomic action.  A transaction that takes advisory locks
 (EnqueueURL, SaveEdge, AddBlacklist, DeleteBlacklist) is a sequence of actions: it begins,
 takes the domain lock, reads, may take the account lock, buffers its writes and commits.
 Its buffered rows stay locked until it ends, and nothing it wrote is visible before it commits.
 */
module CrawlQueue {
  import opened Wrappers

  type Host = string
  type User = nat
  type TxId = nat

  /** A canonical crawl URL; its hostname is part of it. */
  datatype Url = Url(host: Host, rest: string)

  datatype Key = Key(url: Url, user: User)

  datatype Status = Pending | Crawling | Completed | Failed | Blocked

  datatype Row = Row(host: Host, status: Status, depth: nat, retryCount: nat,
                     nextCrawlAt: int, startedAt: Option<int>)

  datatype Edge = Edge(source: Url, target: Url, user: User)

  /** What a claim hands to a worker. */
  datatype Job = Job(key: Key, depth: nat)

  datatype Op =
    | Enqueue(url: Url, user: User, maxPending: int)
    | SaveEdge(source: Url, target: Url, depth: nat, user: User)
    | Block(host: Host)
    | Unblock(host: Host)

  datatype Writes = Writes(rows: map<Key, Row>, blocks: set<Host>, unblocks: set<Host>, edges: set<Edge>)

  datatype Stage =
    | Begun                    // has asked for the domain lock
    | DomainLocked             // holds it, has read nothing yet
    | Checked(blocked: bool)   // has read the blacklist
    | QuotaLocked              // holds the account lock as well
    | Counted                  // found fewer pending rows than the cap
    | Written(writes: Writes)

  datatype Tx = Tx(op: Op, began: int, stage: Stage)

  /** `hashtext` is the database's string hash: two hosts may share a lock.  `maxDepth` bounds discovery. */
  datatype Config = Config(hashtext: Host -> int, maxDepth: nat)

  /** `submitted` and `jobs` only record history: what accounts asked for and what workers were given. */
  datatype State = State(now: int,
                         nodes: map<Key, Row>, blacklist: set<Host>, edges: set<Edge>,
                         txs: map<TxId, Tx>, domainLocks: map<int, TxId>, quotaLocks: map<User, TxId>,
                         submitted: set<Key>, jobs: set<Job>)

  datatype Action =
    | Tick(seconds: nat)
    | Begin(t: TxId, op: Op)
    | AcquireDomain(t: TxId)
    | ReadBlacklist(t: TxId)
    | AcquireQuota(t: TxId)
    | CountPending(t: TxId)
    | Write(t: TxId)
    | Commit(t: TxId)
    | Rollback(t: TxId)
    | Claim(k: Key)
    | ClaimNothing
    | Save(k: Key, intervalDays: nat)
    | Fail(k: Key)
    | MarkRobots(k: Key)
    | Requeue(k: Key)
    | PullForward(k: Key, at: int)
    | ResetStuck(olderThan: nat)
    | ResetAll
    | Revive(olderThan: nat, limit: nat, chosen: set<Key>)

  const DAY := 86400
  const MINUTE := 60
  const MAX_BACKOFF_MINUTES := 48 * 60

  // ----- rows -----

  function NewRow(host: Host, depth: nat, at: int): Row {
    Row(host, Pending, depth, 0, at, None)
  }

  function Pow2(k: nat): nat {
    if k == 0 then 1 else 2 * Pow2(k - 1)
  }

  function BackoffMinutes(retryCount: nat): nat {
    var m := 10 * Pow2(retryCount);
    if m < MAX_BACKOFF_MINUTES then m else MAX_BACKOFF_MINUTES
  }

  function FailedRow(r: Row, now: int): Row {
    r.(retryCount := r.retryCount + 1,
       status := if r.retryCount >= 4 then Failed else Pending,
       nextCrawlAt := now + BackoffMinutes(r.retryCount) * MINUTE)
  }

  function RobotsRow(r: Row, now: int): Row {
    r.(status := Failed, retryCount := 10, nextCrawlAt := now + 30 * DAY)
  }

  // ----- transactions -----

  function OpHost(op: Op): Host {
    match op
    case Enqueue(url, _, _) => url.host
    case SaveEdge(_, target, _, _) => target.host
    case Block(h) => h
    case Unblock(h) => h
  }

  function LockOf(c: Config, op: Op): int {
    c.hashtext(OpHost(op))
  }

  /** The account lock is taken by capped submissions only, and after the domain lock. */
  predicate HoldsQuota(tx: Tx) {
    && tx.op.Enqueue?
    && tx.op.maxPending > 0
    && (tx.stage.QuotaLocked? || tx.stage.Counted? || tx.stage.Written?)
  }

  ghost predicate RowLocked(s: State, k: Key) {
    exists t :: t in s.txs && s.txs[t].stage.Written? && k in s.txs[t].stage.writes.rows
  }

  function PendingOf(nodes: map<Key, Row>, u: User): set<Key> {
    set k | k in nodes && k.user == u && nodes[k].status == Pending
  }

  function BlockRows(s: State, h: Host): map<Key, Row> {
    map k | k in s.nodes && s.nodes[k].host == h && s.nodes[k].status != Blocked :: s.nodes[k].(status := Blocked)
  }

  function UnblockRows(s: State, h: Host, at: int): map<Key, Row> {
    map k | k in s.nodes && s.nodes[k].host == h && s.nodes[k].status == Blocked ::
      s.nodes[k].(status := Pending, retryCount := 0, nextCrawlAt := at)
  }

  /** INSERT ... ON CONFLICT DO UPDATE SET depth WHERE the stored depth is greater and the row is pending. */
  function UpsertRows(s: State, k: Key, depth: nat, at: int): map<Key, Row> {
    if k !in s.nodes then map[k := NewRow(k.url.host, depth, at)]
    else if s.nodes[k].depth > depth && s.nodes[k].status == Pending then map[k := s.nodes[k].(depth := depth)]
    else map[]
  }

  predicate MayWrite(s: State, tx: Tx) {
    match tx.op
    case Enqueue(_, _, cap) => if cap > 0 then tx.stage.Counted? else tx.stage == Checked(false)
    case SaveEdge(source, target, _, u) =>
      // the foreign key on the source; the target's own row is written first
      tx.stage.Checked? && (Key(source, u) in s.nodes || (source == target && !tx.stage.blocked))
    case Block(_) => tx.stage.DomainLocked?
    case Unblock(_) => tx.stage == Checked(true)
  }

  function PlannedWrites(s: State, tx: Tx): Writes
    requires MayWrite(s, tx)
  {
    match tx.op
    case Enqueue(url, u, _) =>
      var k := Key(url, u);
      Writes(if k in s.nodes then map[] else map[k := NewRow(url.host, 0, tx.began)], {}, {}, {})
    case SaveEdge(source, target, depth, u) =>
      Writes(if tx.stage.blocked then map[] else UpsertRows(s, Key(target, u), depth, tx.began),
             {}, {}, {Edge(source, target, u)})
    case Block(h) => Writes(BlockRows(s, h), {h}, {}, {})
    case Unblock(h) => Writes(UnblockRows(s, h, tx.began), {}, {h}, {})
  }

  /** Ending a transaction releases every advisory lock it holds. */
  ghost function Ended(s: State, t: TxId): State {
    s.(txs := s.txs - {t},
       domainLocks := map l | l in s.domainLocks && s.domainLocks[l] != t :: s.domainLocks[l],
       quotaLocks := map u | u in s.quotaLocks && s.quotaLocks[u] != t :: s.quotaLocks[u])
  }

  function Published(s: State, w: Writes): State {
    s.(nodes := s.nodes + w.rows, blacklist := s.blacklist + w.blocks - w.unblocks, edges := s.edges + w.edges)
  }

  function AtStage(s: State, t: TxId, stage: Stage): State
    requires t in s.txs
  {
    s.(txs := s.txs[t := s.txs[t].(stage := stage)])
  }

  // ----- claims -----

  function CrawlingOf(nodes: map<Key, Row>, u: User): set<Key> {
    set k | k in nodes && k.user == u && nodes[k].status == Crawling
  }

  function InFlight(s: State, u: User): nat {
    |CrawlingOf(s.nodes, u)|
  }

  predicate Eligible(s: State, k: Key) {
    && k in s.nodes
    && (s.nodes[k].status == Pending || s.nodes[k].status == Completed)
    && s.nodes[k].nextCrawlAt <= s.now
  }

  /** FOR UPDATE SKIP LOCKED passes over rows another transaction is changing. */
  ghost predicate Claimable(s: State, k: Key) {
    Eligible(s, k) && !RowLocked(s, k)
  }

  /** ORDER BY in-flight count of the owner, pending before completed, oldest next_crawl_at. */
  predicate NoLater(s: State, a: Key, b: Key)
    requires a in s.nodes && b in s.nodes
  {
    var (fa, fb) := (InFlight(s, a.user), InFlight(s, b.user));
    var (ca, cb) := (if s.nodes[a].status == Pending then 0 else 1, if s.nodes[b].status == Pending then 0 else 1);
    || fa < fb
    || (fa == fb && ca < cb)
    || (fa == fb && ca == cb && s.nodes[a].nextCrawlAt <= s.nodes[b].nextCrawlAt)
  }

  ghost predicate BestClaim(s: State, k: Key) {
    Claimable(s, k) && forall o :: Claimable(s, o) ==> NoLater(s, k, o)
  }

  // ----- sweeps -----

  predicate Stuck(s: State, k: Key, olderThan: nat) {
    && k in s.nodes
    && s.nodes[k].status == Crawling
    && s.nodes[k].startedAt.Some?
    && s.nodes[k].startedAt.value < s.now - olderThan
  }

  predicate Dead(s: State, k: Key, olderThan: nat) {
    && k in s.nodes
    && s.nodes[k].status == Failed
    && s.nodes[k].nextCrawlAt < s.now - olderThan
  }

  /** The oldest `limit` rows that have been failed for longer than `olderThan`. */
  ghost predicate ReviveChoice(s: State, olderThan: nat, limit: nat, chosen: set<Key>) {
    var dead := set k | k in s.nodes && Dead(s, k, olderThan);
    && chosen <= dead
    && |chosen| == (if |dead| < limit then |dead| else limit)
    && forall a, b :: a in chosen && b in dead - chosen ==> s.nodes[a].nextCrawlAt <= s.nodes[b].nextCrawlAt
  }

  // ----- the machine -----

  /** A single-row statement waits for the row's lock; all but the start of a watch skip blocked rows. */
  ghost predicate MayEdit(s: State, k: Key) {
    k in s.nodes && !RowLocked(s, k) && s.nodes[k].status != Blocked
  }

  /** Workers record a link only from a page they were given, one level below it, within the depth bound. */
  ghost predicate MayBegin(c: Config, s: State, op: Op) {
    op.SaveEdge? ==>
      op.depth <= c.maxDepth && op.depth >= 1 && Job(Key(op.source, op.user), op.depth - 1) in s.jobs
  }

  ghost predicate Enabled(c: Config, s: State, a: Action) {
    match a
    case Tick(_) => true
    case Begin(t, op) => t !in s.txs && MayBegin(c, s, op)
    case AcquireDomain(t) => t in s.txs && s.txs[t].stage.Begun? && LockOf(c, s.txs[t].op) !in s.domainLocks
    case ReadBlacklist(t) => t in s.txs && s.txs[t].stage.DomainLocked? && !s.txs[t].op.Block?
    case AcquireQuota(t) =>
      && t in s.txs && s.txs[t].stage == Checked(false)
      && s.txs[t].op.Enqueue? && s.txs[t].op.maxPending > 0
      && s.txs[t].op.user !in s.quotaLocks
    case CountPending(t) =>
      && t in s.txs && s.txs[t].stage.QuotaLocked? && s.txs[t].op.Enqueue?
      && |PendingOf(s.nodes, s.txs[t].op.user)| < s.txs[t].op.maxPending
    case Write(t) => t in s.txs && MayWrite(s, s.txs[t])
    case Commit(t) => t in s.txs && s.txs[t].stage.Written?
    case Rollback(t) => t in s.txs
    case Claim(k) => BestClaim(s, k)
    case ClaimNothing => forall k :: !Claimable(s, k)
    case Save(k, _) => MayEdit(s, k)
    case Fail(k) => MayEdit(s, k)
    case MarkRobots(k) => MayEdit(s, k)
    case Requeue(k) => MayEdit(s, k) && s.nodes[k].status != Crawling
    case PullForward(k, _) => k in s.nodes && !RowLocked(s, k)
    case ResetStuck(older) => forall k :: Stuck(s, k, older) ==> !RowLocked(s, k)
    case ResetAll => forall k :: k in s.nodes && s.nodes[k].status == Crawling ==> !RowLocked(s, k)
    case Revive(older, limit, chosen) =>
      ReviveChoice(s, older, limit, chosen) && forall k :: k in chosen ==> !RowLocked(s, k)
  }

  /** The actions that are one statement by themselves, or only let time pass. */
  predicate IsStatement(a: Action) {
    a.Claim? || a.ClaimNothing? || a.Save? || a.Fail? || a.MarkRobots? || a.Requeue?
    || a.PullForward? || a.ResetStuck? || a.ResetAll? || a.Revive? || a.Tick?
  }

  /** What a statement makes of row `k`. */
  function RowAfter(s: State, a: Action, k: Key): Row
    requires k in s.nodes && IsStatement(a)
  {
    var r := s.nodes[k];
    match a
    case Claim(x) => if k == x then r.(status := Crawling, startedAt := Some(s.now)) else r
    case Save(x, days) => if k == x then r.(status := Completed, nextCrawlAt := s.now + days * DAY) else r
    case Fail(x) => if k == x then FailedRow(r, s.now) else r
    case MarkRobots(x) => if k == x then RobotsRow(r, s.now) else r
    case Requeue(x) => if k == x then r.(status := Pending, nextCrawlAt := s.now) else r
    case PullForward(x, at) => if k == x && at < r.nextCrawlAt then r.(nextCrawlAt := at) else r
    case ResetStuck(older) => if Stuck(s, k, older) then r.(status := Pending, startedAt := None) else r
    case ResetAll => if r.status == Crawling then r.(status := Pending) else r
    case Revive(_, _, chosen) =>
      if k in chosen then r.(status := Pending, retryCount := 0, nextCrawlAt := s.now) else r
    case _ => r
  }

  function AfterStatement(s: State, a: Action): State
    requires IsStatement(a) && (a.Claim? ==> a.k in s.nodes)
  {
    s.(now := if a.Tick? then s.now + a.seconds else s.now,
       nodes := map k | k in s.nodes :: RowAfter(s, a, k),
       jobs := if a.Claim? then s.jobs + {Job(a.k, s.nodes[a.k].depth)} else s.jobs)
  }

  ghost function Apply(c: Config, s: State, a: Action): State
    requires Enabled(c, s, a)
  {
    match a
    case Begin(t, op) =>
      s.(txs := s.txs[t := Tx(op, s.now, Begun)],
         submitted := if op.Enqueue? then s.submitted + {Key(op.url, op.user)} else s.submitted)
    case AcquireDomain(t) =>
      AtStage(s, t, DomainLocked).(domainLocks := s.domainLocks[LockOf(c, s.txs[t].op) := t])
    case ReadBlacklist(t) => AtStage(s, t, Checked(OpHost(s.txs[t].op) in s.blacklist))
    case AcquireQuota(t) => AtStage(s, t, QuotaLocked).(quotaLocks := s.quotaLocks[s.txs[t].op.user := t])
    case CountPending(t) => AtStage(s, t, Counted)
    case Write(t) => AtStage(s, t, Written(PlannedWrites(s, s.txs[t])))
    case Commit(t) => Ended(Published(s, s.txs[t].stage.writes), t)
    case Rollback(t) => Ended(s, t)
    case _ => AfterStatement(s, a)
  }

  /** The three ways an action changes the rows: row by row, by publishing what was buffered, or not at all. */
  lemma StatementRows(c: Config, s: State, a: Action, k: Key)
    requires Enabled(c, s, a) && IsStatement(a) && k in s.nodes
    ensures k in Apply(c, s, a).nodes && Apply(c, s, a).nodes[k] == RowAfter(s, a, k)
  {
  }

  lemma CommitRows(c: Config, s: State, t: TxId)
    requires Enabled(c, s, Commit(t))
    ensures Apply(c, s, Commit(t)).nodes == s.nodes + s.txs[t].stage.writes.rows
  {
  }

  lemma OtherRows(c: Config, s: State, a: Action)
    requires Enabled(c, s, a) && !IsStatement(a) && !a.Commit?
    ensures Apply(c, s, a).nodes == s.nodes
  {
  }

  /** A finite interleaving: the states it passes through and the action taken in each but the last. */
  ghost predicate Run(c: Config, ss: seq<State>, acts: seq<Action>) {
    && |ss| == |acts| + 1
    && forall i :: 0 <= i < |acts| ==> Enabled(c, ss[i], acts[i]) && ss[i + 1] == Apply(c, ss[i], acts[i])
  }

  lemma RunStep(c: Config, ss: seq<State>, acts: seq<Action>, n: nat)
    requires Run(c, ss, acts) && 0 < n < |ss|
    ensures Enabled(c, ss[n - 1], acts[n - 1]) && ss[n] == Apply(c, ss[n - 1], acts[n - 1])
  {
  }

  /** Performing `acts` one after the other in `s` ends in `s'`. */
  ghost predicate Leads(c: Config, s: State, acts: seq<Action>, s': State)
    decreases |acts|
  {
    if acts == [] then s == s'
    else Enabled(c, s, acts[0]) && Leads(c, Apply(c, s, acts[0]), acts[1..], s')
  }

  lemma OneStep(c: Config, s: State, a: Action, acts: seq<Action>, s': State)
    requires Enabled(c, s, a) && Leads(c, Apply(c, s, a), acts, s')
    ensures Leads(c, s, [a] + acts, s')
  {
    assert ([a] + acts)[1..] == acts;
  }

  /** A committed row carries its URL's host, its status agrees with the blacklist, and a running crawl has a start. */
  ghost predicate RowOk(s: State, k: Key, r: Row) {
    && r.host == k.url.host
    && (r.status == Blocked <==> k.url.host in s.blacklist)
    && (r.status == Crawling ==> r.startedAt.Some?)
  }

  ghost predicate TablesOk(s: State) {
    forall k :: k in s.nodes ==> RowOk(s, k, s.nodes[k])
  }

  /** No transaction is open and the committed tables agree with each other. */
  ghost predicate Quiet(s: State) {
    s.txs == map[] && s.domainLocks == map[] && s.quotaLocks == map[] && TablesOk(s)
  }
}
