/**
 The retention sweeper: per account and per pass it deletes the oldest rows that have outlived the
 account's window, at most one batch of them.
 */
module Retention {
  import opened Wrappers

  type User = nat
  type Id = nat

  datatype Row = Row(user: User, discoveredAt: int, lastCrawledAt: Option<int>,
                     crawling: bool, tagged: bool, noted: bool, watched: bool)

  type Nodes = map<Id, Row>

  const DAY := 86400

  /** A row that has outlived its account's window; a window of zero keeps everything. */
  predicate Due(windows: map<User, nat>, now: int, r: Row) {
    && r.user in windows && windows[r.user] > 0
    && var cutoff := now - windows[r.user] * DAY;
       && r.discoveredAt < cutoff
       && (r.lastCrawledAt.None? || r.lastCrawledAt.value < cutoff)
       && !r.crawling && !r.tagged && !r.noted && !r.watched
  }

  /** Found, and last crawled if ever, longer ago than the days its account keeps records for. */
  predicate OutlivedWindow(windows: map<User, nat>, now: int, r: Row) {
    && r.user in windows && windows[r.user] > 0
    && now - r.discoveredAt > windows[r.user] * 86400
    && (r.lastCrawledAt.Some? ==> now - r.lastCrawledAt.value > windows[r.user] * 86400)
  }

  /** In flight, or something the account has said matters to it. */
  predicate Protected(r: Row) {
    r.crawling || r.tagged || r.noted || r.watched
  }

  function DueOf(windows: map<User, nat>, now: int, nodes: Nodes, u: User): set<Id> {
    set id | id in nodes && nodes[id].user == u && Due(windows, now, nodes[id])
  }

  function AllDue(windows: map<User, nat>, now: int, nodes: Nodes): set<Id> {
    set id | id in nodes && Due(windows, now, nodes[id])
  }

  /** ORDER BY discovered_at LIMIT: as many of `due` as the limit allows, the oldest first. */
  ghost predicate IsBatch(nodes: Nodes, due: set<Id>, limit: nat, chosen: set<Id>) {
    && chosen <= due <= nodes.Keys
    && |chosen| == (if |due| < limit then |due| else limit)
    && forall a, b :: a in chosen && b in due && b !in chosen ==> nodes[a].discoveredAt <= nodes[b].discoveredAt
  }

  ghost function Gone(nodes: Nodes, nodes': Nodes, u: User): set<Id> {
    set id | id in nodes && id !in nodes' && nodes[id].user == u
  }

  ghost predicate Shrinks(nodes: Nodes, nodes': Nodes) {
    nodes'.Keys <= nodes.Keys && forall id :: id in nodes' ==> nodes'[id] == nodes[id]
  }

  /** Account `u` lost one batch of its due rows and nothing else. */
  ghost predicate DoneFor(windows: map<User, nat>, now: int, limit: nat, nodes: Nodes, nodes': Nodes, u: User) {
    IsBatch(nodes, DueOf(windows, now, nodes, u), limit, Gone(nodes, nodes', u))
  }

  /** One real pass: each account loses one batch of its due rows and nothing else. */
  ghost predicate Pass(windows: map<User, nat>, now: int, limit: nat, nodes: Nodes, nodes': Nodes) {
    && Shrinks(nodes, nodes')
    && forall u :: DoneFor(windows, now, limit, nodes, nodes', u)
  }

  datatype Report = Report(accounts: nat, matched: nat, deleted: nat)

  // ----- the sweeper -----

  method Oldest(nodes: Nodes, due: set<Id>) returns (id: Id)
    requires due != {} && due <= nodes.Keys
    ensures id in due && forall o :: o in due ==> nodes[id].discoveredAt <= nodes[o].discoveredAt
  {
    id :| id in due;
    var todo := due - {id};
    while todo != {}
      invariant todo <= due && id in due
      invariant forall o :: o in due && o !in todo ==> nodes[id].discoveredAt <= nodes[o].discoveredAt
      decreases todo
    {
      var o :| o in todo;
      if nodes[o].discoveredAt < nodes[id].discoveredAt {
        id := o;
      }
      todo := todo - {o};
    }
  }

  method SelectBatch(nodes: Nodes, due: set<Id>, limit: nat) returns (chosen: set<Id>)
    requires due <= nodes.Keys
    ensures IsBatch(nodes, due, limit, chosen)
  {
    chosen := {};
    var left := due;
    while |chosen| < limit && left != {}
      invariant chosen + left == due && chosen !! left && |chosen| <= limit
      invariant forall a, b :: a in chosen && b in left ==> nodes[a].discoveredAt <= nodes[b].discoveredAt
      decreases left
    {
      var id := Oldest(nodes, left);
      chosen := chosen + {id};
      left := left - {id};
    }
    assert |due| == |chosen| + |left|;
  }

  /** The accounts a pass visits: those with a window. */
  function WithWindow(windows: map<User, nat>): set<User> {
    set u | u in windows && windows[u] > 0
  }

  ghost predicate Untouched(nodes: Nodes, nodes': Nodes, u: User) {
    forall id :: id in nodes && nodes[id].user == u ==> id in nodes'
  }

  /** The pass so far: accounts still to visit, and those with no window, have lost nothing. */
  ghost predicate Progress(windows: map<User, nat>, now: int, limit: nat, nodes: Nodes, nodes': Nodes,
                           todo: set<User>)
  {
    && Shrinks(nodes, nodes') && todo <= WithWindow(windows)
    && forall u :: if u in WithWindow(windows) && u !in todo then DoneFor(windows, now, limit, nodes, nodes', u)
                   else Untouched(nodes, nodes', u)
  }

  lemma OneAccount(windows: map<User, nat>, now: int, limit: nat, nodes: Nodes, mid: Nodes, chosen: set<Id>, u: User)
    requires Shrinks(nodes, mid) && Untouched(nodes, mid, u)
    requires IsBatch(mid, DueOf(windows, now, mid, u), limit, chosen)
    ensures Shrinks(nodes, mid - chosen)
    ensures DoneFor(windows, now, limit, nodes, mid - chosen, u)
    ensures forall v :: v != u ==> Gone(nodes, mid - chosen, v) == Gone(nodes, mid, v)
    ensures forall v :: v != u && Untouched(nodes, mid, v) ==> Untouched(nodes, mid - chosen, v)
  {
    assert DueOf(windows, now, mid, u) == DueOf(windows, now, nodes, u);
    assert Gone(nodes, mid - chosen, u) == chosen;
    forall v | v != u ensures Gone(nodes, mid - chosen, v) == Gone(nodes, mid, v) {
      assert forall id :: id in chosen ==> nodes[id].user == u;
    }
  }

  lemma ProgressStep(windows: map<User, nat>, now: int, limit: nat, nodes: Nodes, mid: Nodes,
                     todo: set<User>, chosen: set<Id>, u: User)
    requires Progress(windows, now, limit, nodes, mid, todo) && u in todo
    requires IsBatch(mid, DueOf(windows, now, mid, u), limit, chosen)
    ensures Progress(windows, now, limit, nodes, mid - chosen, todo - {u})
  {
    OneAccount(windows, now, limit, nodes, mid, chosen, u);
    forall v
      ensures if v in WithWindow(windows) && v !in todo - {u}
              then DoneFor(windows, now, limit, nodes, mid - chosen, v)
              else Untouched(nodes, mid - chosen, v)
    {
      if v != u {
        assert Gone(nodes, mid - chosen, v) == Gone(nodes, mid, v);
      }
    }
  }

  lemma ProgressDone(windows: map<User, nat>, now: int, limit: nat, nodes: Nodes, nodes': Nodes)
    requires Progress(windows, now, limit, nodes, nodes', {})
    ensures Pass(windows, now, limit, nodes, nodes')
  {
    forall u ensures DoneFor(windows, now, limit, nodes, nodes', u) {
      if u !in WithWindow(windows) {
        assert Untouched(nodes, nodes', u);
        assert DueOf(windows, now, nodes, u) == {} && Gone(nodes, nodes', u) == {};
      }
    }
  }

  /** Due rows of the accounts already counted. */
  ghost function DueBut(windows: map<User, nat>, now: int, nodes: Nodes, todo: set<User>): set<Id> {
    set id | id in nodes && nodes[id].user !in todo && Due(windows, now, nodes[id])
  }

  lemma CountAccount(windows: map<User, nat>, now: int, nodes: Nodes, todo: set<User>, u: User)
    requires u in todo
    ensures |DueBut(windows, now, nodes, todo - {u})| ==
              |DueBut(windows, now, nodes, todo)| + |DueOf(windows, now, nodes, u)|
  {
    var (a, b) := (DueBut(windows, now, nodes, todo), DueOf(windows, now, nodes, u));
    assert DueBut(windows, now, nodes, todo - {u}) == a + b && a !! b;
  }

  class NodeTable {
    var nodes: Nodes

    /** Counts what is due without touching anything. */
    method DryRun(windows: map<User, nat>, now: int) returns (report: Report)
      ensures report == Report(|WithWindow(windows)|, |AllDue(windows, now, nodes)|, 0)
      ensures report.matched ==
                |set id | id in nodes && OutlivedWindow(windows, now, nodes[id]) && !Protected(nodes[id])|
    {
      assert AllDue(windows, now, nodes) ==
             set id | id in nodes && OutlivedWindow(windows, now, nodes[id]) && !Protected(nodes[id]);
      report := Report(0, 0, 0);
      var todo := WithWindow(windows);
      assert DueBut(windows, now, nodes, todo) == {};
      while todo != {}
        invariant todo <= WithWindow(windows) && report.deleted == 0
        invariant report.accounts == |WithWindow(windows)| - |todo|
        invariant report.matched == |DueBut(windows, now, nodes, todo)|
        decreases todo
      {
        var u :| u in todo;
        CountAccount(windows, now, nodes, todo, u);
        report := Report(report.accounts + 1, report.matched + |DueOf(windows, now, nodes, u)|, 0);
        todo := todo - {u};
      }
      assert DueBut(windows, now, nodes, {}) == AllDue(windows, now, nodes);
    }

    method ApplyRetention(windows: map<User, nat>, now: int, batch: int) returns (report: Report)
      modifies this
      ensures Pass(windows, now, if batch <= 0 then 1000 else batch, old(nodes), nodes)
      ensures report.accounts == |WithWindow(windows)|
      ensures report.deleted == report.matched == |old(nodes)| - |nodes|
    {
      report := Report(0, 0, 0);
      var limit := if batch <= 0 then 1000 else batch;
      var todo := WithWindow(windows);
      while todo != {}
        invariant Progress(windows, now, limit, old(nodes), nodes, todo)
        invariant report.accounts == |WithWindow(windows)| - |todo|
        invariant report.deleted == report.matched == |old(nodes)| - |nodes|
        decreases todo
      {
        var u :| u in todo;
        var chosen := SelectBatch(nodes, DueOf(windows, now, nodes, u), limit);
        ProgressStep(windows, now, limit, old(nodes), nodes, todo, chosen, u);
        CutCount(nodes, chosen);
        report := Report(report.accounts + 1, report.matched + |chosen|, report.deleted + |chosen|);
        nodes := nodes - chosen;
        todo := todo - {u};
      }
      ProgressDone(windows, now, limit, old(nodes), nodes);
    }
  }

  lemma CutCount(nodes: Nodes, cut: set<Id>)
    requires cut <= nodes.Keys
    ensures |nodes - cut| == |nodes| - |cut|
  {
    assert (nodes - cut).Keys == nodes.Keys - cut;
    assert |nodes| == |nodes.Keys| && |nodes - cut| == |(nodes - cut).Keys|;
  }

  // ----- repeated passes -----

  ghost predicate Passes(windows: map<User, nat>, now: int, limit: nat, ns: seq<Nodes>) {
    |ns| > 0 && forall i :: 0 <= i < |ns| - 1 ==> Pass(windows, now, limit, ns[i], ns[i + 1])
  }

  function Remaining(n: nat, done: nat): nat {
    if n < done then 0 else n - done
  }

  /** A pass takes min(n, limit) of an account's n due rows and leaves the rest due. */
  lemma PassTakesOneBatch(windows: map<User, nat>, now: int, limit: nat, nodes: Nodes, nodes': Nodes, u: User)
    requires Pass(windows, now, limit, nodes, nodes')
    ensures |DueOf(windows, now, nodes', u)| == Remaining(|DueOf(windows, now, nodes, u)|, limit)
    ensures nodes.Keys - nodes'.Keys <= AllDue(windows, now, nodes)
  {
    var (due, gone) := (DueOf(windows, now, nodes, u), Gone(nodes, nodes', u));
    assert DoneFor(windows, now, limit, nodes, nodes', u);
    assert DueOf(windows, now, nodes', u) == due - gone;
    assert |due - gone| == |due| - |gone|;
    forall id | id in nodes.Keys - nodes'.Keys ensures id in AllDue(windows, now, nodes) {
      var v := nodes[id].user;
      assert id in Gone(nodes, nodes', v) && DoneFor(windows, now, limit, nodes, nodes', v);
      assert id in DueOf(windows, now, nodes, v);
    }
  }

  lemma {:induction false} AfterPasses(windows: map<User, nat>, now: int, limit: nat, ns: seq<Nodes>, i: nat, u: User)
    requires Passes(windows, now, limit, ns) && i < |ns|
    ensures |DueOf(windows, now, ns[i], u)| == Remaining(|DueOf(windows, now, ns[0], u)|, i * limit)
    ensures Shrinks(ns[0], ns[i]) && ns[0].Keys - ns[i].Keys <= AllDue(windows, now, ns[0])
  {
    if i == 0 {
    } else {
      AfterPasses(windows, now, limit, ns, i - 1, u);
      PassTakesOneBatch(windows, now, limit, ns[i - 1], ns[i], u);
      assert AllDue(windows, now, ns[i - 1]) <= AllDue(windows, now, ns[0]);
      assert i * limit == (i - 1) * limit + limit;
    }
  }

  /**
   With data and clock otherwise fixed: an account with n due rows has none left exactly from the pass
   at which passes times batch reaches n; no pass ever takes a row that is not due; and once every
   account is through, what is gone is exactly what a dry run counted.
   */
  lemma PassesDrainExactlyTheDue(windows: map<User, nat>, now: int, limit: nat, ns: seq<Nodes>, i: nat)
    requires Passes(windows, now, limit, ns) && i < |ns|
    ensures forall u :: DueOf(windows, now, ns[i], u) == {} <==> |DueOf(windows, now, ns[0], u)| <= i * limit
    ensures ns[0].Keys - ns[i].Keys <= AllDue(windows, now, ns[0])
    ensures (forall u :: DueOf(windows, now, ns[i], u) == {}) ==>
              ns[i] == ns[0] - AllDue(windows, now, ns[0])
  {
    forall u ensures DueOf(windows, now, ns[i], u) == {} <==> |DueOf(windows, now, ns[0], u)| <= i * limit {
      AfterPasses(windows, now, limit, ns, i, u);
    }
    AfterPasses(windows, now, limit, ns, i, 0);
    if forall u :: DueOf(windows, now, ns[i], u) == {} {
      forall id | id in AllDue(windows, now, ns[0]) ensures id !in ns[i] {
        assert id !in DueOf(windows, now, ns[i], ns[0][id].user);
      }
    }
  }

  /**
   The sweep never takes a row in flight, annotated or watched, nor any row of an account with no window,
   nor one found or crawled within its account's window.
   */
  lemma KeptForGood(windows: map<User, nat>, now: int, limit: nat, ns: seq<Nodes>, i: nat, id: Id)
    requires Passes(windows, now, limit, ns) && i < |ns| && id in ns[0]
    requires var r := ns[0][id];
             || r.crawling || r.tagged || r.noted || r.watched || r.user !in windows || windows[r.user] == 0
             || r.discoveredAt >= now - windows[r.user] * 86400
             || (r.lastCrawledAt.Some? && r.lastCrawledAt.value >= now - windows[r.user] * 86400)
    ensures id in ns[i] && ns[i][id] == ns[0][id]
  {
    AfterPasses(windows, now, limit, ns, i, 0);
    assert id !in AllDue(windows, now, ns[0]);
  }
}
