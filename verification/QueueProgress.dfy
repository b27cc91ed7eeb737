/**
 No row is stranded: time and the two periodic sweeps bring every row of a host that is not blacklisted
 back to where workers can claim it, in bounded time and whatever else is going on.
 */
module QueueProgress {
  import opened Wrappers
  import opened CrawlQueue
  import opened QueueInvariant

  // ----- the sweeps can always be made -----

  /** The passage of time and the two periodic sweeps, reviving at most `limit` rows at a time. */
  predicate Housekeeping(a: Action, limit: nat) {
    a.Tick? || a.ResetStuck? || (a.Revive? && a.limit == limit)
  }

  ghost predicate Idle(s: State) {
    s.txs == map[]
  }

  /** A choice the query may make exists: the `limit` oldest of `dead`. */
  lemma {:induction false} OldestExist(s: State, dead: set<Key>, limit: nat) returns (chosen: set<Key>)
    requires dead <= s.nodes.Keys
    ensures chosen <= dead && |chosen| == (if |dead| < limit then |dead| else limit)
    ensures forall a, b :: a in chosen && b in dead - chosen ==> s.nodes[a].nextCrawlAt <= s.nodes[b].nextCrawlAt
    decreases limit
  {
    if limit == 0 || dead == {} {
      chosen := {};
    } else {
      var first := Earliest(s, dead);
      var rest := OldestExist(s, dead - {first}, limit - 1);
      chosen := rest + {first};
      assert dead - chosen == dead - {first} - rest;
    }
  }

  lemma {:induction false} Earliest(s: State, keys: set<Key>) returns (k: Key)
    requires keys != {} && keys <= s.nodes.Keys
    ensures k in keys && forall o :: o in keys ==> s.nodes[k].nextCrawlAt <= s.nodes[o].nextCrawlAt
    decreases keys
  {
    k :| k in keys;
    var rest := keys - {k};
    if rest == {} {
      assert keys == {k};
    } else {
      assert keys == rest + {k};
      var b := Earliest(s, rest);
      if s.nodes[b].nextCrawlAt < s.nodes[k].nextCrawlAt {
        k := b;
      }
    }
  }

  ghost function DeadKeys(s: State, olderThan: nat): set<Key> {
    set k | k in s.nodes && Dead(s, k, olderThan)
  }

  /** One sweep takes a batch off the backlog of dead rows and puts it back in the queue. */
  lemma ReviveOnce(c: Config, s: State, olderThan: nat, limit: nat) returns (a: Action, s': State)
    requires Idle(s) && limit > 0 && DeadKeys(s, olderThan) != {}
    ensures a.Revive? && a.limit == limit && Enabled(c, s, a) && s' == Apply(c, s, a) && Idle(s')
    ensures a.chosen <= DeadKeys(s, olderThan) && |a.chosen| > 0
    ensures DeadKeys(s', olderThan) == DeadKeys(s, olderThan) - a.chosen
    ensures forall k :: k in a.chosen ==> Claimable(s', k) && s'.nodes[k].retryCount == 0
  {
    var dead := DeadKeys(s, olderThan);
    var chosen := OldestExist(s, dead, limit);
    assert |dead| > 0;
    a := Revive(olderThan, limit, chosen);
    assert ReviveChoice(s, olderThan, limit, chosen);
    s' := Apply(c, s, a);
  }

  lemma Fewer(all: set<Key>, cut: set<Key>)
    requires cut <= all && |cut| > 0
    ensures |all - cut| < |all|
  {
    assert all == cut + (all - cut);
  }

  /** Sweep after sweep the backlog shrinks until the row is back in the queue. */
  lemma {:induction false} RevivedInTime(c: Config, s: State, k: Key, olderThan: nat, limit: nat)
    returns (acts: seq<Action>, s': State)
    requires Idle(s) && limit > 0 && k in DeadKeys(s, olderThan)
    ensures Leads(c, s, acts, s') && forall a :: a in acts ==> Housekeeping(a, limit)
    ensures Claimable(s', k)
    decreases |DeadKeys(s, olderThan)|
  {
    var a, n := ReviveOnce(c, s, olderThan, limit);
    if k in a.chosen {
      acts, s' := [a] + [], n;
      OneStep(c, s, a, [], n);
    } else {
      Fewer(DeadKeys(s, olderThan), a.chosen);
      var more, last := RevivedInTime(c, n, k, olderThan, limit);
      acts, s' := [a] + more, last;
      OneStep(c, s, a, more, last);
    }
  }

  lemma ResetInTime(c: Config, s: State, k: Key, olderThan: nat)
    returns (acts: seq<Action>, s': State)
    requires Idle(s) && Stuck(s, k, olderThan) && s.nodes[k].nextCrawlAt <= s.now
    ensures Leads(c, s, acts, s') && (forall a :: a in acts ==> a.ResetStuck?) && Claimable(s', k)
  {
    var a := ResetStuck(olderThan);
    s' := Apply(c, s, a);
    acts := [a];
    assert acts == [a] + [];
    OneStep(c, s, a, [], s');
  }

  /** A wait after which every deadline of the row has passed. */
  ghost function LongEnough(s: State, r: Row, olderThan: nat): (d: nat)
    ensures r.nextCrawlAt < s.now + d - olderThan
    ensures r.startedAt.Some? ==> r.startedAt.value < s.now + d - olderThan
  {
    var late := if r.startedAt.Some? && r.startedAt.value > r.nextCrawlAt then r.startedAt.value else r.nextCrawlAt;
    var need := late + olderThan + 1 - s.now;
    if need < 0 then 0 else need
  }

  /**
   From any state with no transaction open, a row whose host is not blacklisted can be made claimable by
   the passage of time and the periodic sweeps alone, whatever batch size they use: the sweeps that
   `NeverStranded` counts on can always be made.
   */
  lemma SweepsSuffice(c: Config, s: State, k: Key, olderThan: nat, limit: nat)
    requires Inv(c, s) && Idle(s) && k in s.nodes && k.url.host !in s.blacklist && limit > 0
    ensures exists acts, s' ::
              Leads(c, s, acts, s') && (forall a :: a in acts ==> Housekeeping(a, limit)) && Claimable(s', k)
  {
    var r := s.nodes[k];
    var wait := Tick(LongEnough(s, r, olderThan));
    var w := Apply(c, s, wait);
    var acts: seq<Action>, last: State;
    match r.status {
      case Failed => acts, last := RevivedInTime(c, w, k, olderThan, limit);
      case Crawling => acts, last := ResetInTime(c, w, k, olderThan);
      case Pending => acts, last := [], w;
      case Completed => acts, last := [], w;
    }
    OneStep(c, s, wait, acts, last);
  }

  // ----- in every run -----

  /** No worker takes the row and its owner does not requeue it. */
  predicate LeavesAlone(a: Action, k: Key) {
    a != Claim(k) && a != Fail(k) && a != MarkRobots(k) && a != Requeue(k) && !(a.Save? && a.k == k)
  }

  /** What an action that leaves the row alone makes of it: only the sweeps move it. */
  ghost predicate OnlySwept(s: State, a: Action, k: Key, r: Row)
    requires k in s.nodes
  {
    var was := s.nodes[k];
    && r.nextCrawlAt <= s.now
    && match was.status
       case Failed => r.status == if a.Revive? && k in a.chosen then Pending else Failed
       case Crawling =>
         || r.status == Pending
         || (r.status == Crawling && r.startedAt == was.startedAt && !(a.ResetStuck? && Stuck(s, k, a.olderThan)))
       case _ => r.status == was.status
  }

  lemma CommitLeavesRow(c: Config, s: State, t: TxId, k: Key)
    requires Inv(c, s) && Enabled(c, s, Commit(t)) && k in s.nodes && s.nodes[k].nextCrawlAt <= s.now
    requires k.url.host !in Apply(c, s, Commit(t)).blacklist && s.nodes[k].status != Blocked
    ensures k in Apply(c, s, Commit(t)).nodes && OnlySwept(s, Commit(t), k, Apply(c, s, Commit(t)).nodes[k])
  {
    CommitRows(c, s, t);
    if k in s.txs[t].stage.writes.rows {
      WrittenRow(c, s, t, k);
      assert TxOk(c, s, t);
    }
  }

  lemma StatementLeavesRow(s: State, a: Action, k: Key)
    requires IsStatement(a) && k in s.nodes && s.nodes[k].nextCrawlAt <= s.now && s.nodes[k].status != Blocked
    requires LeavesAlone(a, k) && (a.Revive? ==> ReviveChoice(s, a.olderThan, a.limit, a.chosen))
    ensures OnlySwept(s, a, k, RowAfter(s, a, k))
  {
    if a.Revive? && k in a.chosen {
      var dead := set o | o in s.nodes && Dead(s, o, a.olderThan);
      assert k in dead;
    }
  }

  lemma StepLeavesRow(c: Config, s: State, a: Action, k: Key)
    requires Inv(c, s) && Enabled(c, s, a) && k in s.nodes && s.nodes[k].nextCrawlAt <= s.now && LeavesAlone(a, k)
    requires k.url.host !in s.blacklist && k.url.host !in Apply(c, s, a).blacklist
    ensures k in Apply(c, s, a).nodes && OnlySwept(s, a, k, Apply(c, s, a).nodes[k]) && s.now <= Apply(c, s, a).now
  {
    assert RowOk(s, k, s.nodes[k]);
    if a.Commit? {
      CommitLeavesRow(c, s, a.t, k);
    } else if IsStatement(a) {
      StatementLeavesRow(s, a, k);
      StatementRows(c, s, a, k);
    } else {
      OtherRows(c, s, a);
    }
    TimeGoesOn(c, s, a);
  }

  lemma TimeGoesOn(c: Config, s: State, a: Action)
    requires Enabled(c, s, a)
    ensures s.now <= Apply(c, s, a).now
  {
  }

  /** The failed rows a sweep takes no later than `k`. */
  ghost function AheadOf(s: State, k: Key): set<Key>
    requires k in s.nodes
  {
    set o | o in s.nodes && s.nodes[o].status == Failed && s.nodes[o].nextCrawlAt <= s.nodes[k].nextCrawlAt
  }

  /** How many rows a sweep that sees `k` dead may take. */
  ghost function Taken(s: State, a: Action, k: Key): nat {
    if a.Revive? && Dead(s, k, a.olderThan) then a.limit else 0
  }

  lemma SubsetSize(a: set<Key>, b: set<Key>)
    requires a <= b
    ensures |a| <= |b|
    ensures |b - a| == |b| - |a|
  {
    assert b == a + (b - a);
  }

  /** A sweep that passes `k` over has filled its batch with rows ahead of it. */
  lemma SweepTakesThoseAhead(s: State, a: Action, k: Key)
    requires a.Revive? && ReviveChoice(s, a.olderThan, a.limit, a.chosen) && k in s.nodes && k !in a.chosen
    requires s.nodes[k].status == Failed
    ensures |AheadOf(s, k) - a.chosen| + Taken(s, a, k) <= |AheadOf(s, k)|
  {
    var dead := set o | o in s.nodes && Dead(s, o, a.olderThan);
    SubsetSize(AheadOf(s, k) - a.chosen, AheadOf(s, k));
    if Dead(s, k, a.olderThan) {
      assert k in dead;
      SubsetSize(a.chosen, dead - {k});
      SubsetSize({k}, dead);
      assert a.chosen <= AheadOf(s, k);
      SubsetSize(a.chosen, AheadOf(s, k));
    }
  }

  lemma {:induction false} BackoffIsPositive(retries: nat)
    ensures BackoffMinutes(retries) > 0
  {
    if retries == 0 {
    } else {
      BackoffIsPositive(retries - 1);
    }
  }

  /** Rows that fail now are due later than a row whose time has come: only an early recrawl gets ahead of it. */
  lemma StatementAhead(s: State, a: Action, k: Key, o: Key)
    requires IsStatement(a) && k in s.nodes && o in s.nodes && s.nodes[k].nextCrawlAt <= s.now
    requires (a.Fail? || a.MarkRobots?) ==> a.k != k
    requires RowAfter(s, a, o).status == Failed && RowAfter(s, a, o).nextCrawlAt <= s.nodes[k].nextCrawlAt
    ensures o in AheadOf(s, k) || (a.PullForward? && a.k == o)
    ensures !(a.Revive? && o in a.chosen)
  {
    if a == Fail(o) {
      BackoffIsPositive(s.nodes[o].retryCount);
    }
  }

  ghost predicate FailedAndDue(s: State, k: Key) {
    k in s.nodes && s.nodes[k].status == Failed && s.nodes[k].nextCrawlAt <= s.now
  }

  lemma AheadAfterStatement(c: Config, s: State, a: Action, k: Key, o: Key)
    requires Enabled(c, s, a) && IsStatement(a) && FailedAndDue(s, k) && LeavesAlone(a, k)
    requires a.Revive? ==> k !in a.chosen
    requires k in Apply(c, s, a).nodes && o in AheadOf(Apply(c, s, a), k)
    ensures o in AheadOf(s, k) || (a.PullForward? && a.k == o)
    ensures !(a.Revive? && o in a.chosen)
  {
    StatementRows(c, s, a, k);
    assert Apply(c, s, a) == AfterStatement(s, a);
    StatementRows(c, s, a, o);
    StatementAhead(s, a, k, o);
  }

  lemma StatementKeepsAhead(c: Config, s: State, a: Action, k: Key)
    requires Enabled(c, s, a) && IsStatement(a) && FailedAndDue(s, k) && LeavesAlone(a, k)
    requires a.Revive? ==> k !in a.chosen
    ensures k in Apply(c, s, a).nodes
    ensures |AheadOf(Apply(c, s, a), k)| + Taken(s, a, k) <= |AheadOf(s, k)| + (if a.PullForward? then 1 else 0)
  {
    StatementRows(c, s, a, k);
    var (s', was) := (Apply(c, s, a), AheadOf(s, k));
    var bound := if a.Revive? then was - a.chosen else if a.PullForward? then was + {a.k} else was;
    forall o | o in AheadOf(s', k) ensures o in bound {
      AheadAfterStatement(c, s, a, k, o);
    }
    SubsetSize(AheadOf(s', k), bound);
    if a.Revive? {
      SweepTakesThoseAhead(s, a, k);
    }
  }

  lemma CommitKeepsAhead(c: Config, s: State, t: TxId, k: Key)
    requires Inv(c, s) && Enabled(c, s, Commit(t)) && FailedAndDue(s, k)
    requires k in Apply(c, s, Commit(t)).nodes && Apply(c, s, Commit(t)).nodes[k].status == Failed
    ensures |AheadOf(Apply(c, s, Commit(t)), k)| <= |AheadOf(s, k)|
  {
    CommitRows(c, s, t);
    var (s', rows) := (Apply(c, s, Commit(t)), s.txs[t].stage.writes.rows);
    forall o | o in rows ensures rows[o].status != Failed {
      WrittenRow(c, s, t, o);
    }
    SubsetSize(AheadOf(s', k), AheadOf(s, k));
  }

  /** What the sweeps among the first `n` actions that saw `k` dead could take, less the early recrawls. */
  ghost function Capacity(ss: seq<State>, acts: seq<Action>, k: Key, n: nat): int
    requires n <= |acts| && |acts| < |ss|
  {
    if n == 0 then 0
    else Capacity(ss, acts, k, n - 1) + Taken(ss[n - 1], acts[n - 1], k) - (if acts[n - 1].PullForward? then 1 else 0)
  }

  lemma StepKeepsAhead(c: Config, s: State, a: Action, k: Key)
    requires Inv(c, s) && Enabled(c, s, a) && FailedAndDue(s, k) && LeavesAlone(a, k) && !(a.Revive? && k in a.chosen)
    requires k.url.host !in s.blacklist && k.url.host !in Apply(c, s, a).blacklist
    ensures FailedAndDue(Apply(c, s, a), k)
    ensures |AheadOf(Apply(c, s, a), k)| + Taken(s, a, k) <= |AheadOf(s, k)| + (if a.PullForward? then 1 else 0)
  {
    StepLeavesRow(c, s, a, k);
    if a.Commit? {
      CommitKeepsAhead(c, s, a.t, k);
    } else if IsStatement(a) {
      StatementKeepsAhead(c, s, a, k);
    } else {
      OtherRows(c, s, a);
      assert AheadOf(Apply(c, s, a), k) == AheadOf(s, k);
    }
  }

  /** No action of the run touches the row, its host is never blacklisted, and its time has come. */
  ghost predicate LeftAlone(c: Config, ss: seq<State>, acts: seq<Action>, k: Key) {
    && Run(c, ss, acts) && Inv(c, ss[0]) && k in ss[0].nodes && ss[0].nodes[k].nextCrawlAt <= ss[0].now
    && (forall i :: 0 <= i < |acts| ==> LeavesAlone(acts[i], k))
    && (forall i :: 0 <= i < |ss| ==> k.url.host !in ss[i].blacklist)
  }

  ghost predicate RevivedBy(acts: seq<Action>, k: Key, n: nat)
    requires n <= |acts|
  {
    n > 0 && ((acts[n - 1].Revive? && k in acts[n - 1].chosen) || RevivedBy(acts, k, n - 1))
  }

  lemma {:induction false} BacklogShrinks(c: Config, ss: seq<State>, acts: seq<Action>, k: Key, n: nat)
    requires LeftAlone(c, ss, acts, k) && ss[0].nodes[k].status == Failed && n <= |acts| && !RevivedBy(acts, k, n)
    ensures FailedAndDue(ss[n], k) && |AheadOf(ss[n], k)| + Capacity(ss, acts, k, n) <= |AheadOf(ss[0], k)|
  {
    if n == 0 {
    } else {
      BacklogShrinks(c, ss, acts, k, n - 1);
      RunKeepsInv(c, ss, acts, n - 1);
      RunStep(c, ss, acts, n);
      StepKeepsAhead(c, ss[n - 1], acts[n - 1], k);
    }
  }

  /** While the row itself is in the backlog, the sweeps have not had room for all of it. */
  lemma NotYetRevived(c: Config, ss: seq<State>, acts: seq<Action>, k: Key)
    requires LeftAlone(c, ss, acts, k) && ss[0].nodes[k].status == Failed && !RevivedBy(acts, k, |acts|)
    ensures Capacity(ss, acts, k, |acts|) < |AheadOf(ss[0], k)|
  {
    BacklogShrinks(c, ss, acts, k, |acts|);
    assert k in AheadOf(ss[|acts|], k);
  }

  /** A stuck-crawl sweep among the first `n` actions would find a crawl that started at `started`. */
  ghost predicate ResetBy(ss: seq<State>, acts: seq<Action>, started: Option<int>, n: nat)
    requires n <= |acts| && |acts| < |ss|
  {
    && n > 0 && started.Some?
    && (|| (acts[n - 1].ResetStuck? && started.value < ss[n - 1].now - acts[n - 1].olderThan)
        || ResetBy(ss, acts, started, n - 1))
  }

  /** Where a row that is left alone has got to after `n` actions. */
  ghost predicate Progressed(ss: seq<State>, acts: seq<Action>, k: Key, n: nat)
    requires n <= |acts| && |acts| < |ss| && k in ss[0].nodes && k in ss[n].nodes
  {
    var (was, r) := (ss[0].nodes[k], ss[n].nodes[k]);
    && r.nextCrawlAt <= ss[n].now
    && (|| Eligible(ss[n], k)
        || (was.status == Failed && r.status == Failed && !RevivedBy(acts, k, n))
        || (&& was.status == Crawling && r.status == Crawling && r.startedAt == was.startedAt
            && !ResetBy(ss, acts, was.startedAt, n)))
  }

  lemma StepProgresses(c: Config, ss: seq<State>, acts: seq<Action>, k: Key, n: nat)
    requires LeftAlone(c, ss, acts, k) && 0 < n <= |acts| && k in ss[n - 1].nodes && Progressed(ss, acts, k, n - 1)
    ensures k in ss[n].nodes && Progressed(ss, acts, k, n)
  {
    RunKeepsInv(c, ss, acts, n - 1);
    RunStep(c, ss, acts, n);
    StepLeavesRow(c, ss[n - 1], acts[n - 1], k);
  }

  lemma {:induction false} RowProgresses(c: Config, ss: seq<State>, acts: seq<Action>, k: Key, n: nat)
    requires LeftAlone(c, ss, acts, k) && n <= |acts|
    ensures k in ss[n].nodes && Progressed(ss, acts, k, n)
  {
    if n == 0 {
      assert RowOk(ss[0], k, ss[0].nodes[k]);
    } else {
      RowProgresses(c, ss, acts, k, n - 1);
      StepProgresses(c, ss, acts, k, n);
    }
  }

  /**
   No row is ever stranded.  In every run that leaves it alone, whatever is done to other rows, a row
   whose time has come and whose host is not blacklisted ends up eligible: a waiting one stays so, a
   crawl that hangs is taken back by the first stuck-crawl sweep that finds it old enough, and a failed
   row is revived as soon as the batches of the sweeps that saw it dead add up to the failed rows that
   were ahead of it and the recrawls pulled forward since.
   */
  lemma NeverStranded(c: Config, ss: seq<State>, acts: seq<Action>, k: Key)
    requires LeftAlone(c, ss, acts, k)
    requires ss[0].nodes[k].status == Crawling ==> ResetBy(ss, acts, ss[0].nodes[k].startedAt, |acts|)
    requires ss[0].nodes[k].status == Failed ==> Capacity(ss, acts, k, |acts|) >= |AheadOf(ss[0], k)|
    ensures Eligible(ss[|acts|], k)
  {
    RowProgresses(c, ss, acts, k, |acts|);
    if !Eligible(ss[|acts|], k) {
      NotYetRevived(c, ss, acts, k);
    }
  }
}
