/**
 The retry budget and the backoff schedule of a failing row.
 */
module QueueRetry {
  import opened CrawlQueue
  import opened QueueInvariant

  // ----- backoff -----

  lemma {:induction false} Pow2Grows(a: nat, b: nat)
    requires a <= b
    ensures Pow2(a) <= Pow2(b)
    decreases b
  {
    if a == b {
    } else {
      Pow2Grows(a, b - 1);
    }
  }

  /** Ten minutes doubled per earlier failure up to the ninth, exactly 48 hours from the tenth on. */
  lemma BackoffSchedule(j: nat, k: nat)
    requires j <= k
    ensures BackoffMinutes(j) <= BackoffMinutes(k)
    ensures BackoffMinutes(0) == 10 && (k < 8 ==> BackoffMinutes(k + 1) == 2 * BackoffMinutes(k))
    ensures k <= 8 ==> BackoffMinutes(k) == 10 * Pow2(k)
    ensures k >= 9 ==> BackoffMinutes(k) == 48 * 60
  {
    Pow2Grows(j, k);
    assert Pow2(8) == 256 by { assert Pow2(4) == 16; }
    assert Pow2(9) == 512;
    if k <= 8 { Pow2Grows(k, 8); } else { Pow2Grows(9, k); }
    if k < 8 { Pow2Grows(k + 1, 8); }
  }

  // ----- the budget -----

  /** The actions that set a row's retry count back to zero: an unblock and a revival. */
  ghost predicate Resets(s: State, a: Action, k: Key) {
    || (a.Revive? && k in a.chosen)
    || (a.Commit? && a.t in s.txs && s.txs[a.t].op.Unblock? && s.txs[a.t].op.host == k.url.host)
  }

  /** The action is a failure of `k` after which `k` waits for another try. */
  ghost predicate Retries(c: Config, s: State, a: Action, k: Key) {
    Enabled(c, s, a) && a == Fail(k) && Apply(c, s, a).nodes[k].status == Pending
  }

  /** How often `k` returned to pending through failure among the first `n` actions. */
  ghost function RetryTotal(c: Config, ss: seq<State>, acts: seq<Action>, k: Key, n: nat): nat
    requires n <= |acts| < |ss|
  {
    if n == 0 then 0 else RetryTotal(c, ss, acts, k, n - 1) + (if Retries(c, ss[n - 1], acts[n - 1], k) then 1 else 0)
  }

  /** How much of the budget of four a row has used. */
  function Spent(r: Row): nat {
    if r.retryCount < 4 then r.retryCount else 4
  }

  lemma CommitKeepsSpent(c: Config, s: State, t: TxId, k: Key)
    requires Inv(c, s) && Enabled(c, s, Commit(t)) && k in s.nodes && !Resets(s, Commit(t), k)
    ensures var s' := Apply(c, s, Commit(t));
            k in s'.nodes && s'.nodes[k].retryCount == s.nodes[k].retryCount
  {
    CommitRows(c, s, t);
    if k in s.txs[t].stage.writes.rows { WrittenRow(c, s, t, k); }
  }

  lemma StatementSpends(s: State, a: Action, k: Key)
    requires k in s.nodes && IsStatement(a) && !(a.Revive? && k in a.chosen)
    ensures var r := RowAfter(s, a, k);
            Spent(r) >= Spent(s.nodes[k]) + (if a == Fail(k) && r.status == Pending then 1 else 0)
  {
  }

  /** Without a reset the budget only shrinks, and each retry takes one unit of it. */
  lemma StepSpends(c: Config, s: State, a: Action, k: Key)
    requires Inv(c, s) && Enabled(c, s, a) && k in s.nodes && !Resets(s, a, k)
    ensures k in Apply(c, s, a).nodes
    ensures Spent(Apply(c, s, a).nodes[k]) >= Spent(s.nodes[k]) + (if Retries(c, s, a, k) then 1 else 0)
  {
    if a.Commit? {
      CommitKeepsSpent(c, s, a.t, k);
    } else if IsStatement(a) {
      StatementSpends(s, a, k);
      StatementRows(c, s, a, k);
    } else {
      OtherRows(c, s, a);
    }
  }

  /** A failure gives another try exactly to a row that has failed fewer than four times. */
  lemma FailureDecides(c: Config, s: State, k: Key)
    requires Enabled(c, s, Fail(k))
    ensures var (r, r') := (s.nodes[k], Apply(c, s, Fail(k)).nodes[k]);
            && r'.status == (if r.retryCount < 4 then Pending else Failed)
            && r'.retryCount == r.retryCount + 1
            && r'.nextCrawlAt == s.now + 60 * BackoffMinutes(r.retryCount)
            && r'.host == r.host && r'.depth == r.depth && r'.startedAt == r.startedAt
  {
    StatementRows(c, s, Fail(k), k);
  }

  // ----- the count itself -----

  lemma StatementLowersCount(s: State, a: Action, k: Key)
    requires k in s.nodes && IsStatement(a) && !(a.Revive? && k in a.chosen)
    ensures RowAfter(s, a, k).retryCount < s.nodes[k].retryCount <==> a == MarkRobots(k) && s.nodes[k].retryCount > 10
  {
  }

  /** Without a reset the stored count falls exactly when robots.txt refuses a row whose count is above ten. */
  lemma CountFallsExactlyWhen(c: Config, s: State, a: Action, k: Key)
    requires Inv(c, s) && Enabled(c, s, a) && k in s.nodes && !Resets(s, a, k)
    ensures k in Apply(c, s, a).nodes
    ensures Apply(c, s, a).nodes[k].retryCount < s.nodes[k].retryCount <==>
              a == MarkRobots(k) && s.nodes[k].retryCount > 10
  {
    if a.Commit? {
      CommitKeepsSpent(c, s, a.t, k);
    } else if IsStatement(a) {
      StatementLowersCount(s, a, k);
      StatementRows(c, s, a, k);
    } else {
      OtherRows(c, s, a);
    }
  }

  /** `k` is the only row, and no transaction is open. */
  ghost predicate Alone(s: State, k: Key) {
    s.txs == map[] && s.nodes.Keys == {k}
  }

  ghost predicate Waiting(s: State, k: Key, retries: nat)
    requires k in s.nodes
  {
    s.nodes[k].status == Pending && s.nodes[k].nextCrawlAt <= s.now && s.nodes[k].retryCount == retries
  }

  lemma AloneAfter(c: Config, s: State, a: Action, k: Key)
    requires Alone(s, k) && IsStatement(a) && Enabled(c, s, a)
    ensures Alone(Apply(c, s, a), k) && Apply(c, s, a).nodes[k] == RowAfter(s, a, k) && s.now <= Apply(c, s, a).now
  {
    assert Apply(c, s, a) == AfterStatement(s, a);
  }

  lemma AloneIsClaimed(c: Config, s: State, k: Key, retries: nat)
    requires Alone(s, k) && Waiting(s, k, retries)
    ensures Enabled(c, s, Claim(k))
  {
    forall o | Claimable(s, o) ensures NoLater(s, k, o) {
      assert o in s.nodes.Keys;
    }
  }

  /** A claim, its failure and the owner's request for another crawl, none of them a reset. */
  lemma OneRound(c: Config, s: State, k: Key, retries: nat) returns (s': State)
    requires Alone(s, k) && Waiting(s, k, retries)
    ensures Leads(c, s, [Claim(k), Fail(k), Requeue(k)], s') && Alone(s', k) && Waiting(s', k, retries + 1)
  {
    AloneIsClaimed(c, s, k, retries);
    AloneAfter(c, s, Claim(k), k);
    var p := Apply(c, s, Claim(k));
    AloneAfter(c, p, Fail(k), k);
    var q := Apply(c, p, Fail(k));
    AloneAfter(c, q, Requeue(k), k);
    s' := Apply(c, q, Requeue(k));
    ThreeSteps(c, s, Claim(k), p, Fail(k), q, Requeue(k));
  }

  lemma TwoSteps(c: Config, p: State, b: Action, q: State, d: Action)
    requires Enabled(c, p, b) && q == Apply(c, p, b) && Enabled(c, q, d)
    ensures Leads(c, p, [b, d], Apply(c, q, d))
  {
    OneStep(c, q, d, [], Apply(c, q, d));
    OneStep(c, p, b, [d], Apply(c, q, d));
    assert [b] + [d] == [b, d] && [d] + [] == [d];
  }

  lemma ThreeSteps(c: Config, s: State, a: Action, p: State, b: Action, q: State, d: Action)
    requires Enabled(c, s, a) && p == Apply(c, s, a) && Enabled(c, p, b) && q == Apply(c, p, b) && Enabled(c, q, d)
    ensures Leads(c, s, [a, b, d], Apply(c, q, d))
  {
    TwoSteps(c, p, b, q, d);
    OneStep(c, s, a, [b, d], Apply(c, q, d));
    assert [a] + [b, d] == [a, b, d];
  }

  lemma {:induction false} LeadsOn(c: Config, s: State, acts: seq<Action>, m: State, more: seq<Action>, s': State)
    requires Leads(c, s, acts, m) && Leads(c, m, more, s')
    ensures Leads(c, s, acts + more, s')
    decreases |acts|
  {
    if acts == [] {
      assert acts + more == more;
    } else {
      LeadsOn(c, Apply(c, s, acts[0]), acts[1..], m, more, s');
      assert acts + more == [acts[0]] + (acts[1..] + more);
      OneStep(c, s, acts[0], acts[1..] + more, s');
    }
  }

  lemma {:induction false} RoundsRaiseCount(c: Config, s: State, k: Key, retries: nat, n: nat)
    returns (acts: seq<Action>, s': State)
    requires Alone(s, k) && Waiting(s, k, retries)
    ensures Leads(c, s, acts, s') && Alone(s', k) && Waiting(s', k, retries + n)
    ensures forall a :: a in acts ==> a == Claim(k) || a == Fail(k) || a == Requeue(k)
    decreases n
  {
    if n == 0 {
      acts, s' := [], s;
    } else {
      var m := OneRound(c, s, k, retries);
      var rest;
      rest, s' := RoundsRaiseCount(c, m, k, retries + 1, n - 1);
      LeadsOn(c, s, [Claim(k), Fail(k), Requeue(k)], m, rest, s');
      acts := [Claim(k), Fail(k), Requeue(k)] + rest;
    }
  }

  /** The table right after a first submission. */
  function FirstSubmission(k: Key): State {
    State(0, map[k := NewRow(k.url.host, 0, 0)], {}, {}, map[], map[], map[], {k}, {})
  }

  /** A run without a reset in which the count reaches eleven and a refusal then puts it down to ten. */
  lemma CountCanFall(c: Config, k: Key) returns (acts: seq<Action>, s: State)
    ensures Quiet(FirstSubmission(k)) && Leads(c, FirstSubmission(k), acts, s)
    ensures forall a :: a in acts ==> a == Claim(k) || a == Fail(k) || a == Requeue(k)
    ensures Enabled(c, s, MarkRobots(k)) && s.nodes[k].retryCount == 11
    ensures Apply(c, s, MarkRobots(k)).nodes[k].retryCount == 10
  {
    acts, s := RoundsRaiseCount(c, FirstSubmission(k), k, 0, 11);
    StatementRows(c, s, MarkRobots(k), k);
  }

  // ----- whole runs -----

  lemma {:induction false} RunSpends(c: Config, ss: seq<State>, acts: seq<Action>, k: Key, n: nat)
    requires Run(c, ss, acts) && Inv(c, ss[0]) && k in ss[0].nodes && n <= |acts|
    requires forall i :: 0 <= i < |acts| ==> !Resets(ss[i], acts[i], k)
    ensures k in ss[n].nodes && RetryTotal(c, ss, acts, k, n) + Spent(ss[0].nodes[k]) <= Spent(ss[n].nodes[k])
  {
    if n == 0 {
    } else {
      RunSpends(c, ss, acts, k, n - 1);
      RunKeepsInv(c, ss, acts, n - 1);
      RunStep(c, ss, acts, n);
      StepSpends(c, ss[n - 1], acts[n - 1], k);
    }
  }

  /** How often `k` failed among the first `n` actions. */
  function FailTotal(acts: seq<Action>, k: Key, n: nat): nat
    requires n <= |acts|
  {
    if n == 0 then 0 else FailTotal(acts, k, n - 1) + (if acts[n - 1] == Fail(k) then 1 else 0)
  }

  lemma StepCounts(c: Config, s: State, a: Action, k: Key)
    requires Inv(c, s) && Enabled(c, s, a) && k in s.nodes && !Resets(s, a, k) && a != MarkRobots(k)
    ensures k in Apply(c, s, a).nodes
    ensures Apply(c, s, a).nodes[k].retryCount == s.nodes[k].retryCount + (if a == Fail(k) then 1 else 0)
    ensures Retries(c, s, a, k) <==> a == Fail(k) && s.nodes[k].retryCount < 4
  {
    if a == Fail(k) {
      FailureDecides(c, s, k);
    } else if a.Commit? {
      CommitKeepsSpent(c, s, a.t, k);
    } else if IsStatement(a) {
      StatementRows(c, s, a, k);
    } else {
      OtherRows(c, s, a);
    }
  }

  lemma {:induction false} RunCounts(c: Config, ss: seq<State>, acts: seq<Action>, k: Key, n: nat)
    requires Run(c, ss, acts) && Inv(c, ss[0]) && k in ss[0].nodes && n <= |acts|
    requires forall i :: 0 <= i < |acts| ==> !Resets(ss[i], acts[i], k) && acts[i] != MarkRobots(k)
    ensures k in ss[n].nodes && ss[n].nodes[k].retryCount == ss[0].nodes[k].retryCount + FailTotal(acts, k, n)
    ensures RetryTotal(c, ss, acts, k, n) + Spent(ss[0].nodes[k]) == Spent(ss[n].nodes[k])
  {
    if n == 0 {
    } else {
      RunCounts(c, ss, acts, k, n - 1);
      RunKeepsInv(c, ss, acts, n - 1);
      RunStep(c, ss, acts, n);
      StepCounts(c, ss[n - 1], acts[n - 1], k);
    }
  }

  /**
   The tries are really given: without a reset or a robots.txt refusal, a row that starts with no retries
   and fails n times returns to pending exactly min(n, 4) times, and its next failure puts it back in the
   queue exactly when n is below four.
   */
  lemma RetriesAreGiven(c: Config, ss: seq<State>, acts: seq<Action>, k: Key)
    requires Run(c, ss, acts) && Inv(c, ss[0]) && k in ss[0].nodes && ss[0].nodes[k].retryCount == 0
    requires forall i :: 0 <= i < |acts| ==> !Resets(ss[i], acts[i], k) && acts[i] != MarkRobots(k)
    ensures var n := FailTotal(acts, k, |acts|);
            && RetryTotal(c, ss, acts, k, |acts|) == (if n < 4 then n else 4)
            && (Enabled(c, ss[|acts|], Fail(k)) ==>
                  Apply(c, ss[|acts|], Fail(k)).nodes[k].status == if n < 4 then Pending else Failed)
  {
    RunCounts(c, ss, acts, k, |acts|);
    if Enabled(c, ss[|acts|], Fail(k)) {
      FailureDecides(c, ss[|acts|], k);
    }
  }

  /**
   Between two resets a row that starts with no retries returns to pending through failure at most
   four times, whatever successes, claims and requeues fall between; once it has, every further
   failure leaves it failed.
   */
  lemma RetryBudget(c: Config, ss: seq<State>, acts: seq<Action>, k: Key)
    requires Run(c, ss, acts) && Inv(c, ss[0]) && k in ss[0].nodes
    requires forall i :: 0 <= i < |acts| ==> !Resets(ss[i], acts[i], k)
    ensures RetryTotal(c, ss, acts, k, |acts|) <= 4 - Spent(ss[0].nodes[k])
    ensures RetryTotal(c, ss, acts, k, |acts|) == 4 && Enabled(c, ss[|acts|], Fail(k)) ==>
              Apply(c, ss[|acts|], Fail(k)).nodes[k].status == Failed
  {
    RunSpends(c, ss, acts, k, |acts|);
    if Enabled(c, ss[|acts|], Fail(k)) {
      StatementRows(c, ss[|acts|], Fail(k), k);
    }
  }
}
