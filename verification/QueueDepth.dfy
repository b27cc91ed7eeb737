/**
 What `depth` means: a row, or a job handed to a worker, at depth d was reached from a URL its own
 account submitted by a walk of exactly d recorded links, and d never passes the configured bound.
 */
module QueueDepth {
  import opened CrawlQueue
  import opened QueueInvariant

  /** Some walk of exactly `d` links recorded for account `u` leads from a submitted URL to `url`. */
  ghost predicate Walk(edges: set<Edge>, submitted: set<Key>, u: User, url: Url, d: nat)
    decreases d
  {
    if d == 0 then Key(url, u) in submitted
    else exists from: Url :: Edge(from, url, u) in edges && Walk(edges, submitted, u, from, d - 1)
  }

  lemma {:induction false} WalkGrows(edges: set<Edge>, submitted: set<Key>, edges': set<Edge>, submitted': set<Key>,
                                     u: User, url: Url, d: nat)
    requires edges <= edges' && submitted <= submitted' && Walk(edges, submitted, u, url, d)
    ensures Walk(edges', submitted', u, url, d)
    decreases d
  {
    if d == 0 {
    } else {
      var from: Url :| Edge(from, url, u) in edges && Walk(edges, submitted, u, from, d - 1);
      WalkGrows(edges, submitted, edges', submitted', u, from, d - 1);
      assert Edge(from, url, u) in edges';
    }
  }

  ghost predicate Reached(c: Config, s: State, k: Key, d: nat) {
    d <= c.maxDepth && Walk(s.edges, s.submitted, k.user, k.url, d)
  }

  ghost predicate OpReached(c: Config, s: State, op: Op) {
    match op
    case Enqueue(url, u, _) => Key(url, u) in s.submitted
    case SaveEdge(source, _, d, u) => 1 <= d <= c.maxDepth && Walk(s.edges, s.submitted, u, source, d - 1)
    case Block(_) => true
    case Unblock(_) => true
  }

  ghost predicate DepthInv(c: Config, s: State) {
    && (forall k :: k in s.nodes ==> Reached(c, s, k, s.nodes[k].depth))
    && (forall j :: j in s.jobs ==> Reached(c, s, j.key, j.depth))
    && (forall t :: t in s.txs ==> OpReached(c, s, s.txs[t].op))
  }

  /** History only grows, so everything reached stays reached. */
  lemma ReachedGrows(c: Config, s: State, s': State)
    requires DepthInv(c, s) && s.edges <= s'.edges && s.submitted <= s'.submitted
    ensures forall k :: k in s.nodes ==> Reached(c, s', k, s.nodes[k].depth)
    ensures forall j :: j in s.jobs ==> Reached(c, s', j.key, j.depth)
    ensures forall t :: t in s.txs ==> OpReached(c, s', s.txs[t].op)
  {
    forall k | k in s.nodes ensures Reached(c, s', k, s.nodes[k].depth) {
      WalkGrows(s.edges, s.submitted, s'.edges, s'.submitted, k.user, k.url, s.nodes[k].depth);
    }
    forall j | j in s.jobs ensures Reached(c, s', j.key, j.depth) {
      WalkGrows(s.edges, s.submitted, s'.edges, s'.submitted, j.key.user, j.key.url, j.depth);
    }
    forall t | t in s.txs ensures OpReached(c, s', s.txs[t].op) {
      assert OpReached(c, s, s.txs[t].op);
      match s.txs[t].op
      case SaveEdge(source, _, d, u) => WalkGrows(s.edges, s.submitted, s'.edges, s'.submitted, u, source, d - 1);
      case Enqueue(_, _, _) =>
      case Block(_) =>
      case Unblock(_) =>
    }
  }

  lemma StatementKeepsDepth(c: Config, s: State, a: Action)
    requires DepthInv(c, s) && Enabled(c, s, a) && IsStatement(a)
    ensures DepthInv(c, Apply(c, s, a))
  {
    var s' := Apply(c, s, a);
    StatementEdits(c, s, a);
    ReachedGrows(c, s, s');
    StatementJobs(c, s, a);
  }

  lemma StatementJobs(c: Config, s: State, a: Action)
    requires Enabled(c, s, a) && IsStatement(a)
    ensures forall j :: j in Apply(c, s, a).jobs ==>
              j in s.jobs || (j.key in s.nodes && j.depth == s.nodes[j.key].depth)
  {
  }

  /** A committed link makes its target reachable at one more than its source. */
  lemma PublishedRowsReached(c: Config, s: State, t: TxId, k: Key)
    requires Inv(c, s) && DepthInv(c, s) && Enabled(c, s, Commit(t)) && k in s.txs[t].stage.writes.rows
    ensures Reached(c, Apply(c, s, Commit(t)), k, s.txs[t].stage.writes.rows[k].depth)
  {
    var s' := Apply(c, s, Commit(t));
    WrittenRow(c, s, t, k);
    ReachedGrows(c, s, s');
    if s.txs[t].op.SaveEdge? {
      LinkIsPublished(c, s, t);
      LinkReaches(c, s', s.txs[t].op);
    }
  }

  lemma LinkIsPublished(c: Config, s: State, t: TxId)
    requires Inv(c, s) && Enabled(c, s, Commit(t)) && s.txs[t].op.SaveEdge?
    ensures var op := s.txs[t].op;
            Edge(op.source, op.target, op.user) in Apply(c, s, Commit(t)).edges
  {
    assert TxOk(c, s, t);
  }

  lemma LinkReaches(c: Config, s: State, op: Op)
    requires op.SaveEdge? && OpReached(c, s, op) && Edge(op.source, op.target, op.user) in s.edges
    ensures Reached(c, s, Key(op.target, op.user), op.depth)
  {
  }

  lemma StepKeepsDepth(c: Config, s: State, a: Action)
    requires Inv(c, s) && DepthInv(c, s) && Enabled(c, s, a)
    ensures DepthInv(c, Apply(c, s, a))
  {
    var s' := Apply(c, s, a);
    if IsStatement(a) {
      StatementKeepsDepth(c, s, a);
    } else {
      ReachedGrows(c, s, s');
      if a.Commit? {
        forall k | k in s'.nodes ensures Reached(c, s', k, s'.nodes[k].depth) {
          if k in s.txs[a.t].stage.writes.rows {
            PublishedRowsReached(c, s, a.t, k);
          } else {
            assert k in s.nodes;
          }
        }
      } else if a.Begin? && a.op.SaveEdge? {
        assert Reached(c, s', Key(a.op.source, a.op.user), a.op.depth - 1);
      }
    }
  }

  /** No action takes a row away or raises its depth. */
  lemma DepthNeverRises(c: Config, s: State, a: Action, k: Key)
    requires Inv(c, s) && Enabled(c, s, a) && k in s.nodes
    ensures var s' := Apply(c, s, a);
            k in s'.nodes && s'.nodes[k].depth <= s.nodes[k].depth
  {
    if IsStatement(a) {
      StatementEdits(c, s, a);
    } else if a.Commit? {
      CommitRows(c, s, a.t);
      if k in s.txs[a.t].stage.writes.rows { WrittenRow(c, s, a.t, k); }
    } else {
      OtherRows(c, s, a);
    }
  }

  lemma {:induction false} RunKeepsDepth(c: Config, ss: seq<State>, acts: seq<Action>, i: nat)
    requires Run(c, ss, acts) && Inv(c, ss[0]) && DepthInv(c, ss[0]) && i < |ss|
    ensures Inv(c, ss[i]) && DepthInv(c, ss[i])
  {
    if i == 0 {
    } else {
      RunKeepsDepth(c, ss, acts, i - 1);
      StepKeepsInv(c, ss[i - 1], acts[i - 1]);
      StepKeepsDepth(c, ss[i - 1], acts[i - 1]);
    }
  }

  lemma {:induction false} RunDepthNeverRises(c: Config, ss: seq<State>, acts: seq<Action>, i: nat, j: nat, k: Key)
    requires Run(c, ss, acts) && Inv(c, ss[0]) && i <= j < |ss| && k in ss[i].nodes
    ensures k in ss[j].nodes && ss[j].nodes[k].depth <= ss[i].nodes[k].depth
    decreases j
  {
    if i == j {
    } else {
      RunDepthNeverRises(c, ss, acts, i, j - 1, k);
      RunKeepsInv(c, ss, acts, j - 1);
      DepthNeverRises(c, ss[j - 1], acts[j - 1], k);
    }
  }

  ghost predicate Fresh(s: State) {
    Quiet(s) && s.nodes == map[] && s.jobs == {}
  }

  /**
   In every run from an empty queue: each row and each job at depth d has a walk of exactly d links
   of its own account from a URL that account submitted, d is within the bound, and from one state
   to any later one no row's depth rises.
   */
  lemma DepthIsWitnessed(c: Config, ss: seq<State>, acts: seq<Action>, i: nat, j: nat)
    requires Run(c, ss, acts) && Fresh(ss[0]) && i <= j < |ss|
    ensures forall k :: k in ss[j].nodes ==> Reached(c, ss[j], k, ss[j].nodes[k].depth)
    ensures forall job :: job in ss[j].jobs ==> Reached(c, ss[j], job.key, job.depth)
    ensures forall k :: k in ss[i].nodes ==> k in ss[j].nodes && ss[j].nodes[k].depth <= ss[i].nodes[k].depth
  {
    RunKeepsDepth(c, ss, acts, j);
    forall k | k in ss[i].nodes
      ensures k in ss[j].nodes && ss[j].nodes[k].depth <= ss[i].nodes[k].depth
    {
      RunDepthNeverRises(c, ss, acts, i, j, k);
    }
  }
}
