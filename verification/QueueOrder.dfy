/**
 Which row a claim takes, in terms of the columns the query sorts by: new work before re-crawls, and of
 either the row that has been due longest.  A row is therefore claimed in its turn.
 */
module QueueOrder {
  import opened CrawlQueue

  /**
   Of the rows of an account, or of accounts with equally many crawls in flight, a claim takes a pending
   one if there is any, and among rows of the same kind one that was due no later than any other.
   */
  lemma ClaimOrder(c: Config, s: State, k: Key, o: Key)
    requires Enabled(c, s, Claim(k)) && Claimable(s, o)
    ensures InFlight(s, k.user) <= InFlight(s, o.user)
    ensures InFlight(s, k.user) == InFlight(s, o.user) && s.nodes[o].status == Pending ==> s.nodes[k].status == Pending
    ensures InFlight(s, k.user) == InFlight(s, o.user) && s.nodes[o].status == s.nodes[k].status ==>
              s.nodes[k].nextCrawlAt <= s.nodes[o].nextCrawlAt
    ensures s.nodes[k].status == Pending || s.nodes[k].status == Completed
  {
    assert BestClaim(s, k) && NoLater(s, k, o);
  }

  // ----- in its turn -----

  /** The other rows of the account that are eligible and may be claimed before `o`. */
  ghost function Before(s: State, o: Key): set<Key>
    requires o in s.nodes
  {
    set p | p in s.nodes && p.user == o.user && p != o && Eligible(s, p)
            && (if s.nodes[p].status == s.nodes[o].status then s.nodes[p].nextCrawlAt <= s.nodes[o].nextCrawlAt
                else s.nodes[p].status == Pending)
  }

  /** How many of the first `n` actions claim a row of the account. */
  function ClaimsOf(acts: seq<Action>, u: User, n: nat): nat
    requires n <= |acts|
  {
    if n == 0 then 0 else ClaimsOf(acts, u, n - 1) + (if acts[n - 1].Claim? && acts[n - 1].k.user == u then 1 else 0)
  }

  lemma Without(all: set<Key>, k: Key, rest: set<Key>)
    requires k in all && rest <= all - {k}
    ensures |rest| < |all|
  {
    assert all == rest + (all - rest);
    assert k in all - rest;
  }

  lemma BeforeAfterClaim(s: State, k: Key, o: Key)
    requires Eligible(s, k) && o in s.nodes && k != o
    ensures o in AfterStatement(s, Claim(k)).nodes && AfterStatement(s, Claim(k)).nodes[o] == s.nodes[o]
    ensures Before(AfterStatement(s, Claim(k)), o) == Before(s, o) - {k}
  {
  }

  /** A claim of the account that passes `o` over takes a row off those before it. */
  lemma ClaimShortensTheQueue(c: Config, s: State, k: Key, o: Key)
    requires Enabled(c, s, Claim(k)) && Claimable(s, o) && k != o
    ensures o in Apply(c, s, Claim(k)).nodes
    ensures |Before(Apply(c, s, Claim(k)), o)| + (if k.user == o.user then 1 else 0) <= |Before(s, o)|
  {
    ClaimOrder(c, s, k, o);
    BeforeAfterClaim(s, k, o);
    if k.user == o.user {
      assert k in Before(s, o);
      Without(Before(s, o), k, Before(s, o) - {k});
    }
  }

  /** `o` stays claimable and unclaimed, and nothing but claims changes what comes before it. */
  ghost predicate Queueing(c: Config, ss: seq<State>, acts: seq<Action>, o: Key, n: nat) {
    && Run(c, ss, acts) && n <= |acts|
    && (forall i :: 0 <= i <= n ==> Claimable(ss[i], o))
    && (forall i :: 0 <= i < n ==> acts[i] != Claim(o))
    && (forall i, j :: 0 <= i < n && j == i + 1 && !acts[i].Claim? ==> Before(ss[j], o) <= Before(ss[i], o))
  }

  lemma Fewer(a: set<Key>, b: set<Key>)
    requires a <= b
    ensures |a| <= |b|
  {
    assert b == a + (b - a);
  }

  lemma {:induction false} QueueShortens(c: Config, ss: seq<State>, acts: seq<Action>, o: Key, n: nat)
    requires Queueing(c, ss, acts, o, n)
    ensures |Before(ss[n], o)| + ClaimsOf(acts, o.user, n) <= |Before(ss[0], o)|
  {
    if n == 0 {
    } else {
      QueueShortens(c, ss, acts, o, n - 1);
      RunStep(c, ss, acts, n);
      assert Claimable(ss[n - 1], o);
      if acts[n - 1].Claim? {
        ClaimShortensTheQueue(c, ss[n - 1], acts[n - 1].k, o);
      } else {
        Fewer(Before(ss[n], o), Before(ss[n - 1], o));
      }
    }
  }

  /**
   A row is claimed in its turn: as long as it stays claimable and no earlier work of its account comes
   up, the account's claims pass it over at most once per row that was before it at the start.
   */
  lemma ClaimedInTurn(c: Config, ss: seq<State>, acts: seq<Action>, o: Key, n: nat)
    requires Queueing(c, ss, acts, o, n)
    ensures ClaimsOf(acts, o.user, n) <= |Before(ss[0], o)|
  {
    QueueShortens(c, ss, acts, o, n);
  }
}
