/**
 When a row is claimed again: not before the time its last outcome set.
 */
module QueueSchedule {
  import opened Wrappers
  import opened CrawlQueue
  import opened QueueInvariant

  /** The actions that set `next_crawl_at` of row `k`. */
  ghost predicate Reschedules(s: State, a: Action, k: Key) {
    || a == Fail(k) || a == MarkRobots(k) || a == Requeue(k) || (a.Save? && a.k == k)
    || (a.PullForward? && a.k == k) || (a.Revive? && k in a.chosen)
    || (a.Commit? && a.t in s.txs && s.txs[a.t].op.Unblock? && s.txs[a.t].op.host == k.url.host)
  }

  predicate OutOfQueue(status: Status) {
    status == Failed || status == Blocked
  }

  lemma CommitKeepsSchedule(c: Config, s: State, t: TxId, k: Key)
    requires Inv(c, s) && Enabled(c, s, Commit(t)) && k in s.nodes && !Reschedules(s, Commit(t), k)
    ensures var s' := Apply(c, s, Commit(t));
            && k in s'.nodes && s'.nodes[k].nextCrawlAt == s.nodes[k].nextCrawlAt
            && (OutOfQueue(s.nodes[k].status) ==> OutOfQueue(s'.nodes[k].status))
  {
    CommitRows(c, s, t);
    if k in s.txs[t].stage.writes.rows { WrittenRow(c, s, t, k); }
  }

  lemma StatementKeepsSchedule(s: State, a: Action, k: Key)
    requires k in s.nodes && IsStatement(a) && !Reschedules(s, a, k) && (a.Claim? ==> Eligible(s, a.k))
    ensures var r := RowAfter(s, a, k);
            && r.nextCrawlAt == s.nodes[k].nextCrawlAt
            && (OutOfQueue(s.nodes[k].status) ==> OutOfQueue(r.status))
  {
  }

  lemma StepKeepsSchedule(c: Config, s: State, a: Action, k: Key)
    requires Inv(c, s) && Enabled(c, s, a) && k in s.nodes && !Reschedules(s, a, k)
    ensures k in Apply(c, s, a).nodes && Apply(c, s, a).nodes[k].nextCrawlAt == s.nodes[k].nextCrawlAt
    ensures OutOfQueue(s.nodes[k].status) ==> OutOfQueue(Apply(c, s, a).nodes[k].status)
  {
    if a.Commit? {
      CommitKeepsSchedule(c, s, a.t, k);
    } else if IsStatement(a) {
      StatementKeepsSchedule(s, a, k);
      StatementRows(c, s, a, k);
    } else {
      OtherRows(c, s, a);
    }
  }

  lemma {:induction false} RunKeepsSchedule(c: Config, ss: seq<State>, acts: seq<Action>, i: nat, j: nat, k: Key)
    requires Run(c, ss, acts) && Inv(c, ss[0]) && i <= j < |ss| && k in ss[i].nodes
    requires forall m :: i <= m < j ==> !Reschedules(ss[m], acts[m], k)
    ensures k in ss[j].nodes && ss[j].nodes[k].nextCrawlAt == ss[i].nodes[k].nextCrawlAt
    ensures OutOfQueue(ss[i].nodes[k].status) ==> OutOfQueue(ss[j].nodes[k].status)
    decreases j
  {
    if i == j {
    } else {
      RunKeepsSchedule(c, ss, acts, i, j - 1, k);
      RunKeepsInv(c, ss, acts, j - 1);
      StepKeepsSchedule(c, ss[j - 1], acts[j - 1], k);
    }
  }

  /** What the last outcome of `k` says of its next claim. */
  ghost predicate Scheduled(s: State, a: Action, k: Key, claimedAt: int)
    requires k in s.nodes
  {
    && (a == Fail(k) ==>
          && s.nodes[k].retryCount < 4
          && claimedAt >= s.now + BackoffMinutes(s.nodes[k].retryCount) * MINUTE)
    && (a.Save? && a.k == k ==> claimedAt >= s.now + a.intervalDays * DAY)
    && a != MarkRobots(k)
  }

  lemma OutcomeSchedules(c: Config, s: State, a: Action, k: Key, claimedAt: int)
    requires Enabled(c, s, a) && k in s.nodes && (a == Fail(k) || a == MarkRobots(k) || (a.Save? && a.k == k))
    requires var r := Apply(c, s, a).nodes[k];
             r.nextCrawlAt <= claimedAt && !OutOfQueue(r.status)
    ensures Scheduled(s, a, k, claimedAt)
  {
    StatementRows(c, s, a, k);
  }

  /**
   Until something reschedules the row, it is claimed no sooner after a failure than its backoff, no
   sooner after a success than its interval, and not at all once its retries are spent or robots.txt
   has refused it.
   */
  lemma ScheduleIsHonoured(c: Config, ss: seq<State>, acts: seq<Action>, i: nat, j: nat, k: Key)
    requires Run(c, ss, acts) && Inv(c, ss[0]) && i < j < |acts| && acts[j] == Claim(k) && k in ss[i].nodes
    requires forall m :: i < m < j ==> !Reschedules(ss[m], acts[m], k)
    ensures Scheduled(ss[i], acts[i], k, ss[j].now)
  {
    var a := acts[i];
    if a == Fail(k) || a == MarkRobots(k) || (a.Save? && a.k == k) {
      RunStep(c, ss, acts, i + 1);
      StatementRows(c, ss[i], a, k);
      RunKeepsSchedule(c, ss, acts, i + 1, j, k);
      assert BestClaim(ss[j], k);
      OutcomeSchedules(c, ss[i], a, k, ss[j].now);
    }
  }

  /**
   A robots.txt refusal is a failure, not a block, so it expires.  In every run that does not reschedule
   the row, whatever else happens, the sweep for failed rows takes it up exactly when its host is not
   blacklisted and more than thirty days and the sweep's own age have passed since the refusal.
   */
  lemma RobotsRefusalExpires(c: Config, ss: seq<State>, acts: seq<Action>, i: nat, j: nat, k: Key, olderThan: nat)
    requires Run(c, ss, acts) && Inv(c, ss[0]) && i < j < |ss| && acts[i] == MarkRobots(k)
    requires forall m :: i < m < j ==> !Reschedules(ss[m], acts[m], k)
    ensures Dead(ss[j], k, olderThan) <==>
              k.url.host !in ss[j].blacklist && ss[j].now > ss[i].now + 30 * DAY + olderThan
  {
    RunStep(c, ss, acts, i + 1);
    StatementRows(c, ss[i], acts[i], k);
    RunKeepsSchedule(c, ss, acts, i + 1, j, k);
    RunKeepsInv(c, ss, acts, j);
    assert RowOk(ss[j], k, ss[j].nodes[k]);
  }

  // ----- when a row is due again -----

  /** The row waits as it did at the start, or its host has been blacklisted since. */
  ghost predicate InPlace(s: State, k: Key, status: Status, due: int) {
    k in s.nodes && s.nodes[k].nextCrawlAt == due && (s.nodes[k].status == status || s.nodes[k].status == Blocked)
  }

  /** A waiting row keeps its place unless its host is blacklisted. */
  lemma StepKeepsPlace(c: Config, s: State, a: Action, k: Key, status: Status, due: int)
    requires Inv(c, s) && Enabled(c, s, a) && InPlace(s, k, status, due) && !Reschedules(s, a, k) && a != Claim(k)
    requires status == Pending || status == Completed
    ensures InPlace(Apply(c, s, a), k, status, due)
  {
    StepKeepsSchedule(c, s, a, k);
    if a.Commit? {
      CommitRows(c, s, a.t);
      if k in s.txs[a.t].stage.writes.rows { WrittenRow(c, s, a.t, k); }
    } else if IsStatement(a) {
      StatementRows(c, s, a, k);
    } else {
      OtherRows(c, s, a);
    }
  }

  lemma {:induction false} RunKeepsPlace(c: Config, ss: seq<State>, acts: seq<Action>, i: nat, j: nat, k: Key,
                                         status: Status, due: int)
    requires Run(c, ss, acts) && Inv(c, ss[0]) && i <= j < |ss| && InPlace(ss[i], k, status, due)
    requires status == Pending || status == Completed
    requires forall m :: i <= m < j ==> !Reschedules(ss[m], acts[m], k) && acts[m] != Claim(k)
    ensures InPlace(ss[j], k, status, due)
    decreases j
  {
    if i == j {
    } else {
      RunKeepsPlace(c, ss, acts, i, j - 1, k, status, due);
      RunKeepsInv(c, ss, acts, j - 1);
      RunStep(c, ss, acts, j);
      StepKeepsPlace(c, ss[j - 1], acts[j - 1], k, status, due);
    }
  }

  /** The action leaves the row waiting, due at `due`. */
  ghost predicate LeavesDue(s: State, a: Action, k: Key, due: int)
    requires k in s.nodes
  {
    || (a == Fail(k) && s.nodes[k].retryCount < 4 && due == s.now + 600 * Pow2(s.nodes[k].retryCount))
    || (a.Save? && a.k == k && due == s.now + a.intervalDays * 86400)
    || (a == Requeue(k) && due == s.now)
  }

  lemma SmallBackoff(retries: nat)
    requires retries < 4
    ensures BackoffMinutes(retries) == 10 * Pow2(retries)
  {
    assert Pow2(0) == 1 && Pow2(1) == 2 && Pow2(2) == 4 && Pow2(3) == 8;
  }

  lemma OutcomeLeavesDue(c: Config, s: State, a: Action, k: Key, due: int)
    requires Enabled(c, s, a) && k in s.nodes && LeavesDue(s, a, k, due)
    ensures k in Apply(c, s, a).nodes && Apply(c, s, a).nodes[k].nextCrawlAt == due
    ensures Apply(c, s, a).nodes[k].status == if a.Save? then Completed else Pending
  {
    StatementRows(c, s, a, k);
    if a.Fail? {
      SmallBackoff(s.nodes[k].retryCount);
    }
  }

  /**
   Until it is rescheduled or claimed, a row is eligible again exactly from the moment its last outcome
   set, whenever its host is not blacklisted: ten minutes times two to the number of earlier failures
   after a failure, its interval after a success, and at once after a requeue.
   */
  lemma DueAgainExactlyWhen(c: Config, ss: seq<State>, acts: seq<Action>, i: nat, j: nat, k: Key, due: int)
    requires Run(c, ss, acts) && Inv(c, ss[0]) && i < j < |ss| && k in ss[i].nodes && LeavesDue(ss[i], acts[i], k, due)
    requires forall m :: i < m < j ==> !Reschedules(ss[m], acts[m], k) && acts[m] != Claim(k)
    ensures Eligible(ss[j], k) <==> k.url.host !in ss[j].blacklist && ss[j].now >= due
  {
    RunStep(c, ss, acts, i + 1);
    OutcomeLeavesDue(c, ss[i], acts[i], k, due);
    RunKeepsPlace(c, ss, acts, i + 1, j, k, if acts[i].Save? then Completed else Pending, due);
    RunKeepsInv(c, ss, acts, j);
    assert RowOk(ss[j], k, ss[j].nodes[k]);
  }

  // ----- crawls that hang -----

  /** Only a claim starts a crawl. */
  lemma StepKeepsStart(c: Config, s: State, a: Action, k: Key)
    requires Inv(c, s) && Enabled(c, s, a) && k in s.nodes && a != Claim(k)
    ensures k in Apply(c, s, a).nodes
    ensures Apply(c, s, a).nodes[k].status == Crawling ==>
              s.nodes[k].status == Crawling && Apply(c, s, a).nodes[k].startedAt == s.nodes[k].startedAt
  {
    if a.Commit? {
      CommitRows(c, s, a.t);
      if k in s.txs[a.t].stage.writes.rows { WrittenRow(c, s, a.t, k); }
    } else if IsStatement(a) {
      StatementRows(c, s, a, k);
    } else {
      OtherRows(c, s, a);
    }
  }

  lemma {:induction false} CrawlKeepsStart(c: Config, ss: seq<State>, acts: seq<Action>, i: nat, j: nat, k: Key)
    requires Run(c, ss, acts) && Inv(c, ss[0]) && i < j < |ss| && acts[i] == Claim(k)
    requires forall m :: i < m < j ==> acts[m] != Claim(k)
    ensures k in ss[j].nodes && (ss[j].nodes[k].status == Crawling ==> ss[j].nodes[k].startedAt == Some(ss[i].now))
    decreases j
  {
    RunStep(c, ss, acts, j);
    if j == i + 1 {
      StatementRows(c, ss[i], acts[i], k);
    } else {
      CrawlKeepsStart(c, ss, acts, i, j - 1, k);
      RunKeepsInv(c, ss, acts, j - 1);
      StepKeepsStart(c, ss[j - 1], acts[j - 1], k);
    }
  }

  /** The sweep for stuck crawls takes a crawl back exactly when it has run for longer than the sweep's age. */
  lemma TakenBackExactlyWhen(c: Config, ss: seq<State>, acts: seq<Action>, i: nat, j: nat, k: Key, olderThan: nat)
    requires Run(c, ss, acts) && Inv(c, ss[0]) && i < j < |acts|
    requires acts[i] == Claim(k) && acts[j] == ResetStuck(olderThan)
    requires forall m :: i < m < j ==> acts[m] != Claim(k)
    requires k in ss[j].nodes && ss[j].nodes[k].status == Crawling
    ensures k in ss[j + 1].nodes
    ensures ss[j + 1].nodes[k].status == if ss[j].now > ss[i].now + olderThan then Pending else Crawling
  {
    CrawlKeepsStart(c, ss, acts, i, j, k);
    RunStep(c, ss, acts, j + 1);
    StatementRows(c, ss[j], acts[j], k);
  }

  /** Whatever a worker or an owner wants to record of a row that is neither locked nor blocked can be recorded. */
  lemma OutcomeCanBeRecorded(c: Config, s: State, k: Key, days: nat)
    requires k in s.nodes && !RowLocked(s, k) && s.nodes[k].status != Blocked
    ensures Enabled(c, s, Save(k, days)) && Enabled(c, s, Fail(k)) && Enabled(c, s, MarkRobots(k))
    ensures Enabled(c, s, Requeue(k)) <==> s.nodes[k].status != Crawling
  {
  }

  /** Starting a watch brings a row's next crawl forward to `at` or leaves it where it is, and does nothing else. */
  lemma WatchOnlyPullsForward(c: Config, s: State, k: Key, at: int)
    requires Enabled(c, s, PullForward(k, at))
    ensures var r' := Apply(c, s, PullForward(k, at)).nodes[k];
            && r' == s.nodes[k].(nextCrawlAt := r'.nextCrawlAt)
            && r'.nextCrawlAt <= at && r'.nextCrawlAt <= s.nodes[k].nextCrawlAt
            && r'.nextCrawlAt in {at, s.nodes[k].nextCrawlAt}
  {
    StatementRows(c, s, PullForward(k, at), k);
  }

  /** At start-up every crawl a previous process left behind is back in the queue, and no other row changes. */
  lemma StartupTakesAllBack(c: Config, s: State, k: Key)
    requires Enabled(c, s, ResetAll) && k in s.nodes
    ensures k in Apply(c, s, ResetAll).nodes
    ensures var r' := Apply(c, s, ResetAll).nodes[k];
            && r' == s.nodes[k].(status := r'.status)
            && r'.status == if s.nodes[k].status == Crawling then Pending else s.nodes[k].status
  {
    StatementRows(c, s, ResetAll, k);
  }
}
