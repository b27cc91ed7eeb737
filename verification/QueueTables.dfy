/**
 The queue operations in the form the program has them: methods that change the tables, here each run
 without interruption.  Each is stated with the outcome its transaction has in the state machine when
 nobody interrupts it (`QueueSerial.SerialOutcome`), or with the machine's action for its statement.
 */
module QueueTables {
  import opened Wrappers
  import opened CrawlQueue
  import opened QueueSerial

  datatype EnqueueResult = Queued | Blacklisted | QuotaExceeded

  /** The row of a link's target: new at the link's depth, or, while it waits, at the lesser of two depths. */
  function Linked(nodes: map<Key, Row>, k: Key, depth: nat, now: int): Row {
    if k !in nodes then Row(k.url.host, Pending, depth, 0, now, None)
    else nodes[k].(depth := if nodes[k].status == Pending && depth < nodes[k].depth then depth else nodes[k].depth)
  }

  /**
   `k` may be claimed before `o`: its account has no more crawls in flight, and if it has as many, new
   work comes before re-crawls and what was due first before what was due later.
   */
  predicate TakenBefore(s: State, k: Key, o: Key)
    requires k in s.nodes && o in s.nodes
  {
    && |CrawlingOf(s.nodes, k.user)| <= |CrawlingOf(s.nodes, o.user)|
    && (|CrawlingOf(s.nodes, k.user)| == |CrawlingOf(s.nodes, o.user)| ==>
          && (s.nodes[o].status == Pending ==> s.nodes[k].status == Pending)
          && (s.nodes[o].status == s.nodes[k].status ==> s.nodes[k].nextCrawlAt <= s.nodes[o].nextCrawlAt))
  }

  lemma BestIsTakenBefore(s: State, k: Key)
    requires BestClaim(s, k)
    ensures forall o :: Claimable(s, o) ==> TakenBefore(s, k, o)
  {
    forall o | Claimable(s, o) ensures TakenBefore(s, k, o) {
      assert NoLater(s, k, o);
    }
  }

  class Tables {
    var now: int
    var nodes: map<Key, Row>
    var blacklist: set<Host>
    var edges: set<Edge>

    constructor (now: int)
      ensures this.now == now && nodes == map[] && blacklist == {} && edges == {} && TablesOk(View())
    {
      this.now, nodes, blacklist, edges := now, map[], {}, {};
    }

    /** The tables as a state of the machine with no transaction open. */
    function View(): State
      reads this
    {
      State(now, nodes, blacklist, edges, map[], map[], map[], {}, {})
    }

    method EnqueueURL(url: Url, user: User, maxPending: int) returns (r: EnqueueResult)
      modifies this`nodes
      ensures r == if url.host in blacklist then Blacklisted
                   else if maxPending > 0 && maxPending <=
                             |set k | k in old(nodes) && k.user == user && old(nodes)[k].status == Pending|
                        then QuotaExceeded
                   else Queued
      ensures r == Queued <==> Succeeds(old(View()), Enqueue(url, user, maxPending))
      ensures View() == Outcome(old(View()), Enqueue(url, user, maxPending))
      ensures nodes == if r == Queued && Key(url, user) !in old(nodes)
                       then old(nodes)[Key(url, user) := Row(url.host, Pending, 0, 0, now, None)] else old(nodes)
    {
      if url.host in blacklist {
        return Blacklisted;
      }
      if maxPending > 0 {
        var pending := |PendingOf(nodes, user)|;
        if pending >= maxPending {
          return QuotaExceeded;
        }
      }
      if Key(url, user) !in nodes {
        nodes := nodes[Key(url, user) := NewRow(url.host, 0, now)];
      }
      return Queued;
    }

    /** Records a link; the foreign key on its source makes the whole transaction fail without that row. */
    method SaveEdge(source: Url, target: Url, depth: nat, user: User) returns (ok: bool)
      modifies this`nodes, this`edges
      ensures ok <==> Succeeds(old(View()), CrawlQueue.SaveEdge(source, target, depth, user))
      ensures View() == Outcome(old(View()), CrawlQueue.SaveEdge(source, target, depth, user))
      ensures ok <==> Key(source, user) in old(nodes) || (source == target && target.host !in blacklist)
      ensures edges == if ok then old(edges) + {Edge(source, target, user)} else old(edges)
      ensures nodes == if ok && target.host !in blacklist
                       then old(nodes)[Key(target, user) := Linked(old(nodes), Key(target, user), depth, now)]
                       else old(nodes)
    {
      var k := Key(target, user);
      var rows := nodes;
      if target.host !in blacklist {
        if k !in rows {
          rows := rows[k := NewRow(target.host, depth, now)];
        } else if rows[k].depth > depth && rows[k].status == Pending {
          rows := rows[k := rows[k].(depth := depth)];
        }
      }
      if Key(source, user) !in rows {
        return false;
      }
      nodes, edges := rows, edges + {Edge(source, target, user)};
      return true;
    }

    method AddBlacklist(h: Host)
      modifies this`nodes, this`blacklist
      ensures View() == Outcome(old(View()), Block(h))
      ensures blacklist == old(blacklist) + {h} && edges == old(edges) && nodes.Keys == old(nodes).Keys
      ensures forall k :: k in nodes ==>
                nodes[k] == if old(nodes)[k].host == h then old(nodes)[k].(status := Blocked) else old(nodes)[k]
    {
      blacklist := blacklist + {h};
      nodes := map k | k in nodes ::
        if nodes[k].host == h && nodes[k].status != Blocked then nodes[k].(status := Blocked) else nodes[k];
    }

    method DeleteBlacklist(h: Host) returns (found: bool)
      modifies this`nodes, this`blacklist
      ensures found <==> Succeeds(old(View()), Unblock(h))
      ensures View() == Outcome(old(View()), Unblock(h))
      ensures found <==> h in old(blacklist)
      ensures blacklist == old(blacklist) - {h} && edges == old(edges) && nodes.Keys == old(nodes).Keys
      ensures forall k :: k in nodes ==>
                nodes[k] == if found && old(nodes)[k].host == h && old(nodes)[k].status == Blocked
                            then old(nodes)[k].(status := Pending, retryCount := 0, nextCrawlAt := now)
                            else old(nodes)[k]
    {
      if h !in blacklist {
        return false;
      }
      blacklist := blacklist - {h};
      nodes := map k | k in nodes ::
        if nodes[k].host == h && nodes[k].status == Blocked
        then nodes[k].(status := Pending, retryCount := 0, nextCrawlAt := now) else nodes[k];
      return true;
    }

    /** The row the query orders first among the eligible ones, or none. */
    method FirstEligible() returns (best: Option<Key>)
      ensures best.None? <==> forall k :: !Claimable(View(), k)
      ensures best.Some? ==> BestClaim(View(), best.value)
    {
      assert forall k :: Claimable(View(), k) <==> Eligible(View(), k);
      var todo := set k | k in nodes && Eligible(View(), k);
      if todo == {} {
        assert forall k :: Eligible(View(), k) ==> k in todo;
        return None;
      }
      ghost var all := todo;
      var first :| first in todo;
      todo := todo - {first};
      while todo != {}
        invariant todo <= all && first in all
        invariant forall o :: o in all && o !in todo ==> NoLater(View(), first, o)
        decreases todo
      {
        var k :| k in todo;
        if !NoLater(View(), first, k) {
          first := k;
        }
        todo := todo - {k};
      }
      assert forall o :: Eligible(View(), o) ==> o in all;
      return Some(first);
    }

    /** Claims the first row in the query's order: new work first, and what has been due longest. */
    method GetNextPendingNode() returns (job: Option<Job>)
      modifies this`nodes
      ensures job.None? <==> forall k :: !Claimable(old(View()), k)
      ensures job.None? ==> nodes == old(nodes)
      ensures job.Some? ==>
                && BestClaim(old(View()), job.value.key) && job.value.depth == old(nodes)[job.value.key].depth
                && nodes == AfterStatement(old(View()), Claim(job.value.key)).nodes
                && nodes == old(nodes)[job.value.key :=
                     old(nodes)[job.value.key].(status := Crawling, startedAt := Some(now))]
      ensures job.Some? ==> forall o :: Claimable(old(View()), o) ==> TakenBefore(old(View()), job.value.key, o)
    {
      var best := FirstEligible();
      if best.None? {
        return None;
      }
      BestIsTakenBefore(View(), best.value);
      job := Some(Job(best.value, nodes[best.value].depth));
      nodes := nodes[best.value := nodes[best.value].(status := Crawling, startedAt := Some(now))];
    }

    method FailNodeWithRetry(k: Key)
      modifies this`nodes
      ensures nodes == if MayEdit(old(View()), k) then AfterStatement(old(View()), Fail(k)).nodes else old(nodes)
      ensures k in old(nodes) && old(nodes)[k].status != Blocked ==>
                k in nodes && nodes[k].status == if old(nodes)[k].retryCount < 4 then Pending else Failed
    {
      if k in nodes && nodes[k].status != Blocked {
        var r := nodes[k];
        nodes := nodes[k := r.(retryCount := r.retryCount + 1,
                               status := if r.retryCount >= 4 then Failed else Pending,
                               nextCrawlAt := now + BackoffMinutes(r.retryCount) * MINUTE)];
      }
    }

    method RequeueForCrawl(k: Key) returns (found: bool, canRequeue: bool)
      modifies this`nodes
      ensures found <==> k in old(nodes)
      ensures canRequeue <==> found && old(nodes)[k].status != Crawling && old(nodes)[k].status != Blocked
      ensures nodes == if canRequeue then old(nodes)[k := old(nodes)[k].(status := Pending, nextCrawlAt := now)]
                       else old(nodes)
      ensures canRequeue ==> nodes == AfterStatement(old(View()), Requeue(k)).nodes
    {
      if k !in nodes {
        return false, false;
      }
      if nodes[k].status == Crawling || nodes[k].status == Blocked {
        return true, false;
      }
      ghost var before := View();
      nodes := nodes[k := nodes[k].(status := Pending, nextCrawlAt := now)];
      assert nodes == AfterStatement(before, Requeue(k)).nodes;
      return true, true;
    }
  }
}
