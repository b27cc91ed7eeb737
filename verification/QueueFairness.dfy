/**
 Claims share the workers evenly: a claim goes to an account with the fewest rows in flight.
 */
module QueueFairness {
  import opened CrawlQueue
  import opened Arithmetic

  /** An unclaimed, eligible row is never passed over: if there is one, some claim is the best one. */
  lemma {:induction false} BestOf(s: State, keys: set<Key>) returns (k: Key)
    requires keys != {} && keys <= s.nodes.Keys
    ensures k in keys && forall o :: o in keys ==> NoLater(s, k, o)
    decreases keys
  {
    k :| k in keys;
    var rest := keys - {k};
    if rest == {} {
      assert keys == {k};
    } else {
      var b := BestOf(s, rest);
      var first := k;
      if !NoLater(s, k, b) {
        k := b;
      }
      forall o | o in keys ensures NoLater(s, k, o) {
        if o != first { assert NoLater(s, b, o); }
      }
    }
  }

  lemma ClaimExists(s: State)
    requires exists k :: Claimable(s, k)
    ensures exists k :: BestClaim(s, k)
  {
    var keys := set k | k in s.nodes && Claimable(s, k);
    var some :| Claimable(s, some);
    assert some in keys;
    var k := BestOf(s, keys);
    forall o | Claimable(s, o) ensures NoLater(s, k, o) {
      assert o in keys;
    }
    assert BestClaim(s, k);
  }

  /** A claim comes back empty exactly when nothing is claimable. */
  lemma ClaimIsWorkConserving(c: Config, s: State)
    ensures Enabled(c, s, ClaimNothing) <==> !exists k :: BestClaim(s, k)
  {
    if exists k :: Claimable(s, k) {
      ClaimExists(s);
    }
  }

  /** A claim changes the claimed row of one account and no other row, not even the same URL of another account. */
  lemma ClaimChangesOneRow(c: Config, s: State, k: Key, o: Key)
    requires Enabled(c, s, Claim(k)) && o in s.nodes
    ensures var nodes' := Apply(c, s, Claim(k)).nodes;
            && nodes'.Keys == s.nodes.Keys && (o != k ==> nodes'[o] == s.nodes[o])
            && Eligible(s, k) && nodes'[k].status == Crawling && !Eligible(Apply(c, s, Claim(k)), k)
  {
    assert Apply(c, s, Claim(k)) == AfterStatement(s, Claim(k));
  }

  /** The accounts that have claimable work. */
  ghost predicate WorkFor(s: State, tenants: set<User>) {
    && (forall u :: u in tenants ==> exists k :: Claimable(s, k) && k.user == u)
    && (forall k :: Claimable(s, k) ==> k.user in tenants)
  }

  ghost function ClaimCount(acts: seq<Action>): nat {
    if acts == [] then 0 else ClaimCount(acts[..|acts| - 1]) + (if acts[|acts| - 1].Claim? then 1 else 0)
  }

  /** Every account holds `low` rows in flight, but those of `ahead`, which hold one more. */
  ghost predicate Level(s: State, tenants: set<User>, low: nat, ahead: set<User>) {
    && ahead <= tenants && tenants - ahead != {}
    && forall u :: u in tenants ==> InFlight(s, u) == (if u in ahead then low + 1 else low)
  }

  lemma CrawlingAfterClaim(s: State, k: Key, u: User)
    requires Eligible(s, k)
    ensures CrawlingOf(AfterStatement(s, Claim(k)).nodes, u) ==
            if u == k.user then CrawlingOf(s.nodes, u) + {k} else CrawlingOf(s.nodes, u)
  {
  }

  lemma InFlightAfterClaim(s: State, k: Key, u: User)
    requires Eligible(s, k)
    ensures InFlight(AfterStatement(s, Claim(k)), u) == InFlight(s, u) + (if u == k.user then 1 else 0)
  {
    CrawlingAfterClaim(s, k, u);
    assert k !in CrawlingOf(s.nodes, u);
  }

  /** The order of the query sends a claim to an account that is not ahead. */
  lemma ClaimTakesTheLowest(s: State, k: Key, tenants: set<User>, low: nat, ahead: set<User>)
    requires BestClaim(s, k) && WorkFor(s, tenants) && Level(s, tenants, low, ahead)
    ensures k.user in tenants - ahead
  {
    var u :| u in tenants - ahead;
    var o :| Claimable(s, o) && o.user == u;
    assert NoLater(s, k, o);
  }

  /** One claim raises exactly one of the lowest accounts; when all are raised the level itself rises. */
  lemma ClaimKeepsLevel(s: State, k: Key, tenants: set<User>, low: nat, ahead: set<User>)
    returns (low': nat, ahead': set<User>)
    requires Eligible(s, k) && k.user in tenants - ahead && Level(s, tenants, low, ahead)
    ensures Level(AfterStatement(s, Claim(k)), tenants, low', ahead')
    ensures || (low' == low && |ahead'| == |ahead| + 1)
            || (low' == low + 1 && |ahead'| == 0 && |ahead| + 1 == |tenants|)
  {
    var raised := ahead + {k.user};
    forall u | u in tenants ensures InFlight(AfterStatement(s, Claim(k)), u) == (if u in raised then low + 1 else low) {
      InFlightAfterClaim(s, k, u);
    }
    if tenants - raised == {} {
      assert raised == tenants;
      low', ahead' := low + 1, {};
    } else {
      low', ahead' := low, raised;
    }
  }

  ghost predicate SameInFlight(s: State, s': State) {
    forall u :: InFlight(s', u) == InFlight(s, u)
  }

  /** Nothing but the claims starts or ends a crawl. */
  ghost predicate OnlyClaimsMove(ss: seq<State>, acts: seq<Action>)
    requires |ss| == |acts| + 1
  {
    forall i :: 0 <= i < |acts| && !acts[i].Claim? ==> SameInFlight(ss[i], ss[i + 1])
  }

  /** `ClaimCount` written in base |tenants|. */
  ghost predicate CountsTo(claims: nat, low: nat, m: nat, r: nat) {
    claims == low * m + r
  }

  lemma CountOneMore(claims: nat, low: nat, m: nat, r: nat)
    requires CountsTo(claims, low, m, r)
    ensures CountsTo(claims + 1, low, m, r + 1)
    ensures r + 1 == m ==> CountsTo(claims + 1, low + 1, m, 0)
  {
  }

  /** The level after `claims` claims: a claim raises one account, anything else none. */
  ghost predicate LevelAfter(s: State, tenants: set<User>, claims: nat, low: nat, ahead: set<User>) {
    Level(s, tenants, low, ahead) && CountsTo(claims, low, |tenants|, |ahead|)
  }

  lemma ClaimStaysLevel(s: State, k: Key, tenants: set<User>, claims: nat, low: nat, ahead: set<User>)
    returns (low': nat, ahead': set<User>)
    requires BestClaim(s, k) && WorkFor(s, tenants) && LevelAfter(s, tenants, claims, low, ahead)
    ensures LevelAfter(AfterStatement(s, Claim(k)), tenants, claims + 1, low', ahead')
  {
    ClaimTakesTheLowest(s, k, tenants, low, ahead);
    low', ahead' := ClaimKeepsLevel(s, k, tenants, low, ahead);
    CountOneMore(claims, low, |tenants|, |ahead|);
  }

  lemma StepStaysLevel(c: Config, s: State, a: Action, tenants: set<User>, claims: nat, low: nat, ahead: set<User>)
    returns (low': nat, ahead': set<User>)
    requires Enabled(c, s, a) && WorkFor(s, tenants) && LevelAfter(s, tenants, claims, low, ahead)
    requires a.Claim? || SameInFlight(s, Apply(c, s, a))
    ensures LevelAfter(Apply(c, s, a), tenants, claims + (if a.Claim? then 1 else 0), low', ahead')
  {
    if a.Claim? {
      low', ahead' := ClaimStaysLevel(s, a.k, tenants, claims, low, ahead);
    } else {
      low', ahead' := low, ahead;
    }
  }

  lemma OneMoreAction(acts: seq<Action>, n: nat)
    requires 0 < n <= |acts|
    ensures ClaimCount(acts[..n]) == ClaimCount(acts[..n - 1]) + (if acts[n - 1].Claim? then 1 else 0)
  {
    assert acts[..n][..n - 1] == acts[..n - 1];
  }

  lemma {:induction false} RunStaysLevel(c: Config, ss: seq<State>, acts: seq<Action>, tenants: set<User>, n: nat)
    returns (low: nat, ahead: set<User>)
    requires Run(c, ss, acts) && n <= |acts| && tenants != {} && OnlyClaimsMove(ss, acts)
    requires forall u :: InFlight(ss[0], u) == 0
    requires forall i :: 0 <= i < |acts| ==> WorkFor(ss[i], tenants)
    ensures LevelAfter(ss[n], tenants, ClaimCount(acts[..n]), low, ahead)
  {
    if n == 0 {
      low, ahead := 0, {};
    } else {
      low, ahead := RunStaysLevel(c, ss, acts, tenants, n - 1);
      OneMoreAction(acts, n);
      RunStep(c, ss, acts, n);
      assert acts[n - 1].Claim? || SameInFlight(ss[n - 1], ss[n]);
      low, ahead := StepStaysLevel(c, ss[n - 1], acts[n - 1], tenants, ClaimCount(acts[..n - 1]), low, ahead);
    }
  }

  lemma Proper(a: set<User>, b: set<User>)
    requires a <= b && b - a != {}
    ensures |a| < |b|
  {
    assert b == a + (b - a);
  }

  lemma DivideLevel(claims: nat, m: nat, low: nat, r: nat)
    requires m > 0 && r < m && CountsTo(claims, low, m, r)
    ensures claims / m == low
    ensures r > 0 ==> (claims + m - 1) / m == low + 1
  {
    Quotient(claims, m, low, r);
    if r > 0 {
      assert claims + m - 1 == (low + 1) * m + (r - 1);
      Quotient(claims + m - 1, m, low + 1, r - 1);
    }
  }

  /** `x` is the floor or the ceiling of `claims` divided by `m`. */
  ghost predicate EvenShare(x: nat, claims: nat, m: nat) {
    m > 0 && (x == claims / m || x == (claims + m - 1) / m)
  }

  lemma LevelIsEven(x: nat, claims: nat, low: nat, m: nat, r: nat)
    requires r < m && CountsTo(claims, low, m, r) && (x == low || (x == low + 1 && r > 0))
    ensures EvenShare(x, claims, m)
  {
    DivideLevel(claims, m, low, r);
  }

  /**
   Starting with nothing in flight, while exactly the accounts of `tenants` have claimable work and
   no crawl ends, after k claims every one of them holds the floor or the ceiling of k / |tenants|.
   Anything that starts or ends no crawl may happen in between.
   */
  lemma ClaimsAreFair(c: Config, ss: seq<State>, acts: seq<Action>, tenants: set<User>, u: User)
    requires Run(c, ss, acts) && u in tenants && OnlyClaimsMove(ss, acts)
    requires forall v :: InFlight(ss[0], v) == 0
    requires forall i :: 0 <= i < |acts| ==> WorkFor(ss[i], tenants)
    ensures EvenShare(InFlight(ss[|acts|], u), ClaimCount(acts), |tenants|)
  {
    var low, ahead := RunStaysLevel(c, ss, acts, tenants, |acts|);
    assert acts[..|acts|] == acts;
    Proper(ahead, tenants);
    LevelIsEven(InFlight(ss[|acts|], u), ClaimCount(acts), low, |tenants|, |ahead|);
  }
}
