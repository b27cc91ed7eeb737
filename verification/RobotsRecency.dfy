/**
 The robots cache is called an LRU cache and evicts by fetch time.  Which entry was used least recently
 is a matter of history: the steps of a run at which an entry was stored or found fresh.
 */
module RobotsRecency {
  import opened Wrappers
  import opened RobotsCache

  // ----- when an entry was used -----

  /** The check finds a fresh entry. */
  ghost predicate Hits(s: State, a: Action, h: Host) {
    a.Look? && a.host == h && Fresh(s.entries, h, s.now)
  }

  /** The last of the first `n` steps that stored for `h`, or -1. */
  ghost function LastStore(ss: seq<State>, acts: seq<Action>, h: Host, n: nat): int
    requires n <= |acts| < |ss|
  {
    if n == 0 then -1
    else if StoresTo(ss[n - 1], acts[n - 1], h) then n - 1
    else LastStore(ss, acts, h, n - 1)
  }

  /** The last of the first `n` steps that hit `h`, or -1. */
  ghost function LastHit(ss: seq<State>, acts: seq<Action>, h: Host, n: nat): int
    requires n <= |acts| < |ss|
  {
    if n == 0 then -1
    else if Hits(ss[n - 1], acts[n - 1], h) then n - 1
    else LastHit(ss, acts, h, n - 1)
  }

  ghost predicate HitSinceStore(ss: seq<State>, acts: seq<Action>, h: Host, n: nat)
    requires n <= |acts| < |ss|
  {
    LastHit(ss, acts, h, n) > LastStore(ss, acts, h, n)
  }

  ghost function LastUse(ss: seq<State>, acts: seq<Action>, h: Host, n: nat): int
    requires n <= |acts| < |ss|
  {
    if HitSinceStore(ss, acts, h, n) then LastHit(ss, acts, h, n) else LastStore(ss, acts, h, n)
  }

  /** No entry of the cache was last used before `v`. */
  ghost predicate LeastRecent(ss: seq<State>, acts: seq<Action>, n: nat, v: Host)
    requires n <= |acts| < |ss|
  {
    v in ss[n].entries && forall o :: o in ss[n].entries ==> LastUse(ss, acts, v, n) <= LastUse(ss, acts, o, n)
  }

  lemma {:induction false} LastStoreStores(ss: seq<State>, acts: seq<Action>, h: Host, n: nat)
    requires n <= |acts| < |ss|
    ensures var k := LastStore(ss, acts, h, n);
            -1 <= k < n && (k >= 0 ==> StoresTo(ss[k], acts[k], h))
  {
    if n == 0 {
    } else {
      LastStoreStores(ss, acts, h, n - 1);
    }
  }

  lemma {:induction false} LastHitHits(ss: seq<State>, acts: seq<Action>, h: Host, n: nat)
    requires n <= |acts| < |ss|
    ensures var k := LastHit(ss, acts, h, n);
            -1 <= k < n && (k >= 0 ==> Hits(ss[k], acts[k], h))
  {
    if n == 0 {
    } else {
      LastHitHits(ss, acts, h, n - 1);
    }
  }

  // ----- stores in fetch order -----

  /** A store keeps a file fetched later than every other file in the cache. */
  ghost predicate InOrder(s: State, a: Action) {
    a.Store? && a.w in s.checks && s.checks[a.w].stage.Fetched? ==>
      forall o :: o in s.entries && o != s.checks[a.w].host ==>
        s.entries[o].fetchedAt < s.checks[a.w].stage.file.fetchedAt
  }

  ghost predicate OrderedPair(ss: seq<State>, acts: seq<Action>, n: nat, a: Host, b: Host)
    requires n <= |acts| < |ss| && a in ss[n].entries && b in ss[n].entries
  {
    LastStore(ss, acts, a, n) < LastStore(ss, acts, b, n) ==> ss[n].entries[a].fetchedAt < ss[n].entries[b].fetchedAt
  }

  /** Every entry was stored, and of any two the one stored first was fetched first. */
  ghost predicate Ordered(ss: seq<State>, acts: seq<Action>, n: nat)
    requires n <= |acts| < |ss|
  {
    && (forall h :: h in ss[n].entries ==> LastStore(ss, acts, h, n) >= 0)
    && (forall a, b :: a in ss[n].entries && b in ss[n].entries ==> OrderedPair(ss, acts, n, a, b))
  }

  /** What a step makes of the cache: entries are dropped, but for the one a store puts in. */
  lemma EntriesAfter(maxSize: nat, s: State, a: Action, h: Host)
    requires Enabled(maxSize, s, a) && h in Apply(maxSize, s, a).entries
    ensures StoresTo(s, a, h) ==> Apply(maxSize, s, a).entries[h] == s.checks[a.w].stage.file
    ensures !StoresTo(s, a, h) ==> h in s.entries && Apply(maxSize, s, a).entries[h] == s.entries[h]
  {
  }

  lemma LastStoreAfter(ss: seq<State>, acts: seq<Action>, n: nat, h: Host)
    requires 0 < n <= |acts| < |ss|
    ensures LastStore(ss, acts, h, n) ==
            if StoresTo(ss[n - 1], acts[n - 1], h) then n - 1 else LastStore(ss, acts, h, n - 1)
    ensures LastStore(ss, acts, h, n) <= n - 1
  {
    LastStoreStores(ss, acts, h, n);
  }

  /** A file stored in order is the latest in the cache. */
  lemma StoredIsLatest(maxSize: nat, s: State, act: Action, a: Host, b: Host)
    requires Enabled(maxSize, s, act) && InOrder(s, act) && StoresTo(s, act, b) && a != b
    requires a in Apply(maxSize, s, act).entries && b in Apply(maxSize, s, act).entries
    ensures Apply(maxSize, s, act).entries[a].fetchedAt < Apply(maxSize, s, act).entries[b].fetchedAt
  {
    EntriesAfter(maxSize, s, act, a);
    EntriesAfter(maxSize, s, act, b);
  }

  lemma StepKeepsPair(maxSize: nat, ss: seq<State>, acts: seq<Action>, n: nat, a: Host, b: Host)
    requires 0 < n <= |acts| < |ss| && Enabled(maxSize, ss[n - 1], acts[n - 1])
    requires ss[n] == Apply(maxSize, ss[n - 1], acts[n - 1]) && InOrder(ss[n - 1], acts[n - 1])
    requires Ordered(ss, acts, n - 1) && a in ss[n].entries && b in ss[n].entries
    ensures OrderedPair(ss, acts, n, a, b) && LastStore(ss, acts, a, n) >= 0
  {
    var (s, act) := (ss[n - 1], acts[n - 1]);
    LastStoreAfter(ss, acts, n, a);
    LastStoreAfter(ss, acts, n, b);
    EntriesAfter(maxSize, s, act, a);
    EntriesAfter(maxSize, s, act, b);
    if StoresTo(s, act, a) {
      assert LastStore(ss, acts, a, n) >= LastStore(ss, acts, b, n);
    } else if StoresTo(s, act, b) {
      StoredIsLatest(maxSize, s, act, a, b);
    } else {
      assert OrderedPair(ss, acts, n - 1, a, b);
    }
  }

  lemma {:induction false} RunIsOrdered(maxSize: nat, ss: seq<State>, acts: seq<Action>, n: nat)
    requires Run(maxSize, ss, acts) && ss[0] == Empty(ss[0].now) && n <= |acts|
    requires forall i :: 0 <= i < n ==> InOrder(ss[i], acts[i])
    ensures Ordered(ss, acts, n)
  {
    if n == 0 {
    } else {
      RunIsOrdered(maxSize, ss, acts, n - 1);
      assert Enabled(maxSize, ss[n - 1], acts[n - 1]) && InOrder(ss[n - 1], acts[n - 1]);
      forall a, b | a in ss[n].entries && b in ss[n].entries
        ensures OrderedPair(ss, acts, n, a, b) && LastStore(ss, acts, a, n) >= 0
      {
        StepKeepsPair(maxSize, ss, acts, n, a, b);
      }
    }
  }

  // ----- when the victim is a least recently used entry -----

  /** Different entries were stored, and last used, at different steps. */
  lemma UsesApart(ss: seq<State>, acts: seq<Action>, n: nat, a: Host, b: Host)
    requires n <= |acts| < |ss| && a != b && LastStore(ss, acts, a, n) >= 0
    ensures LastStore(ss, acts, a, n) != LastStore(ss, acts, b, n)
    ensures LastUse(ss, acts, a, n) != LastUse(ss, acts, b, n)
  {
    LastStoreStores(ss, acts, a, n);
    LastStoreStores(ss, acts, b, n);
    LastHitHits(ss, acts, a, n);
    LastHitHits(ss, acts, b, n);
  }

  /** The oldest entry was stored before every other. */
  lemma OldestWasStoredFirst(ss: seq<State>, acts: seq<Action>, n: nat, v: Host, o: Host)
    requires n <= |acts| < |ss| && Ordered(ss, acts, n) && IsOldest(ss[n].entries, v) && o in ss[n].entries && o != v
    ensures LastStore(ss, acts, v, n) < LastStore(ss, acts, o, n)
  {
    assert OrderedPair(ss, acts, n, o, v);
    UsesApart(ss, acts, n, v, o);
  }

  lemma {:induction false} EntriesWereStored(maxSize: nat, ss: seq<State>, acts: seq<Action>, n: nat, h: Host)
    requires Run(maxSize, ss, acts) && ss[0] == Empty(ss[0].now) && n <= |acts| && h in ss[n].entries
    ensures LastStore(ss, acts, h, n) >= 0
  {
    if n == 0 {
    } else {
      assert Enabled(maxSize, ss[n - 1], acts[n - 1]);
      EntriesAfter(maxSize, ss[n - 1], acts[n - 1], h);
      LastStoreAfter(ss, acts, n, h);
      if !StoresTo(ss[n - 1], acts[n - 1], h) {
        EntriesWereStored(maxSize, ss, acts, n - 1, h);
      }
    }
  }

  /**
   Entry `o` was used since the last hit of `v`; or `v` was not hit since its store, and `o`, if stored
   before that, was hit after it.
   */
  ghost predicate UsedSince(ss: seq<State>, acts: seq<Action>, n: nat, v: Host, o: Host)
    requires n <= |acts| < |ss|
  {
    if HitSinceStore(ss, acts, v, n) then LastUse(ss, acts, o, n) > LastHit(ss, acts, v, n)
    else LastStore(ss, acts, o, n) < LastStore(ss, acts, v, n) ==> LastHit(ss, acts, o, n) > LastStore(ss, acts, v, n)
  }

  lemma UsedSinceIsLater(ss: seq<State>, acts: seq<Action>, n: nat, v: Host, o: Host)
    requires n <= |acts| < |ss| && v != o && LastStore(ss, acts, v, n) >= 0
    ensures UsedSince(ss, acts, n, v, o) <==> LastUse(ss, acts, v, n) <= LastUse(ss, acts, o, n)
  {
    UsesApart(ss, acts, n, v, o);
  }

  /**
   In every run from the empty cache, the entry a full cache gives up is a least recently used one if and
   only if every other entry was used since its last hit, or it was not hit since its store and every
   entry stored before it was hit after that store.
   */
  lemma VictimIsLeastRecentExactlyWhen(maxSize: nat, ss: seq<State>, acts: seq<Action>, n: nat, w: Worker, v: Host)
    requires Run(maxSize, ss, acts) && ss[0] == Empty(ss[0].now) && n < |acts| && acts[n] == Store(w, Some(v))
    ensures LeastRecent(ss, acts, n, v) <==> forall o :: o in ss[n].entries && o != v ==> UsedSince(ss, acts, n, v, o)
  {
    assert Enabled(maxSize, ss[n], acts[n]);
    EntriesWereStored(maxSize, ss, acts, n, v);
    forall o | o in ss[n].entries && o != v
      ensures UsedSince(ss, acts, n, v, o) <==> LastUse(ss, acts, v, n) <= LastUse(ss, acts, o, n)
    {
      UsedSinceIsLater(ss, acts, n, v, o);
    }
  }

  /**
   When stores come in fetch order, as they do while no two checks fetch at once and the clock moves on,
   an entry that was not hit since its store is given up as an LRU cache would.
   */
  lemma UnusedVictimIsLeastRecent(maxSize: nat, ss: seq<State>, acts: seq<Action>, n: nat, w: Worker, v: Host)
    requires Run(maxSize, ss, acts) && ss[0] == Empty(ss[0].now) && n < |acts| && acts[n] == Store(w, Some(v))
    requires (forall i :: 0 <= i < n ==> InOrder(ss[i], acts[i])) && !HitSinceStore(ss, acts, v, n)
    ensures LeastRecent(ss, acts, n, v)
  {
    RunIsOrdered(maxSize, ss, acts, n);
    assert Enabled(maxSize, ss[n], acts[n]);
    forall o | o in ss[n].entries && o != v ensures UsedSince(ss, acts, n, v, o) {
      OldestWasStoredFirst(ss, acts, n, v, o);
    }
    VictimIsLeastRecentExactlyWhen(maxSize, ss, acts, n, w, v);
  }

  /**
   Otherwise the cache is no LRU cache: from any state with a full cache whose oldest entry is fresh, a
   check may hit that entry and a store evict it in the very next step.
   */
  lemma HitEntryIsEvicted(maxSize: nat, s: State, w: Worker, v: Worker, h: Host)
    requires Inv(maxSize, s) && |s.entries| == maxSize && IsOldest(s.entries, h) && Fresh(s.entries, h, s.now)
    requires w !in s.checks && v in s.checks && s.checks[v].stage.Fetched? && s.checks[v].host != h
    ensures Enabled(maxSize, s, Look(w, h)) && Hits(s, Look(w, h), h)
    ensures var p := Apply(maxSize, s, Look(w, h));
            && Enabled(maxSize, p, Store(v, Some(h)))
            && h in p.entries && h !in Apply(maxSize, p, Store(v, Some(h))).entries
            && forall o :: o in p.entries && o != h ==> o in Apply(maxSize, p, Store(v, Some(h))).entries
  {
  }

  /** An entry hit in the last step was used more recently than any other, so giving it up is never LRU. */
  lemma JustHitIsMostRecent(ss: seq<State>, acts: seq<Action>, n: nat, h: Host, o: Host)
    requires 0 < n <= |acts| < |ss| && Hits(ss[n - 1], acts[n - 1], h) && o in ss[n].entries && o != h
    ensures LastUse(ss, acts, o, n) < LastUse(ss, acts, h, n) && !LeastRecent(ss, acts, n, h)
  {
    LastStoreStores(ss, acts, h, n);
    LastStoreStores(ss, acts, o, n);
    LastHitHits(ss, acts, o, n);
    assert LastHit(ss, acts, h, n) == n - 1;
  }
}
