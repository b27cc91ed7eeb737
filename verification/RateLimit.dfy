/**
 The fixed-window limiter: buckets in a bounded map, charged under a lock and evicted once expired.
 Times are read from a clock that never goes back.
 */
module RateLimit {
  import opened Wrappers

  type Key = string

  datatype Bucket = Bucket(count: nat, resetAt: int)

  datatype Limits = Limits(limit: nat, window: nat, maxBuckets: nat)

  predicate Expired(b: Bucket, now: int) {
    now > b.resetAt
  }

  function Swept(m: map<Key, Bucket>, now: int): map<Key, Bucket> {
    map k | k in m && !Expired(m[k], now) :: m[k]
  }

  /** The charge starts a new window: the key has no bucket or only an expired one. */
  predicate Fresh(m: map<Key, Bucket>, key: Key, now: int) {
    key !in m || Expired(m[key], now)
  }

  predicate Grants(l: Limits, m: map<Key, Bucket>, key: Key, n: int, now: int) {
    || n <= 0
    || (if Fresh(m, key, now)
        then n <= l.limit && (key in m || |m| < l.maxBuckets || |Swept(m, now)| < l.maxBuckets)
        else m[key].count + n <= l.limit)
  }

  function Charged(l: Limits, m: map<Key, Bucket>, key: Key, n: int, now: int): map<Key, Bucket> {
    if n <= 0 then m
    else if Fresh(m, key, now) then
      if n > l.limit then m
      else
        var room := if key !in m && |m| >= l.maxBuckets then Swept(m, now) else m;
        if key !in m && |room| >= l.maxBuckets then room
        else room[key := Bucket(n, now + l.window)]
    else if m[key].count + n <= l.limit then m[key := m[key].(count := m[key].count + n)]
    else m
  }

  class CrawlLimiter {
    var buckets: map<Key, Bucket>
    const limits: Limits

    constructor (limit: nat, window: nat)
      ensures buckets == map[] && limits == Limits(limit, window, 100_000)
    {
      buckets := map[];
      limits := Limits(limit, window, 100_000);
    }

    method Sweep(now: int)
      modifies this
      ensures buckets == Swept(old(buckets), now)
    {
      var todo := buckets.Keys;
      while todo != {}
        invariant todo <= buckets.Keys <= old(buckets).Keys
        invariant forall k :: k in buckets ==> buckets[k] == old(buckets)[k]
        invariant forall k :: k in old(buckets) && k !in todo ==> (k in buckets <==> !Expired(old(buckets)[k], now))
        decreases todo
      {
        var k :| k in todo;
        if Expired(buckets[k], now) {
          buckets := buckets - {k};
        }
        todo := todo - {k};
      }
    }

    /** All or nothing: a refused batch is charged nothing. */
    method AllowN(key: Key, n: int, now: int) returns (ok: bool)
      modifies this
      ensures ok == Grants(limits, old(buckets), key, n, now)
      ensures buckets == Charged(limits, old(buckets), key, n, now)
    {
      if n <= 0 {
        return true;
      }
      if key !in buckets || now > buckets[key].resetAt {
        if n > limits.limit {
          return false;
        }
        if key !in buckets && |buckets| >= limits.maxBuckets {
          Sweep(now);
          if |buckets| >= limits.maxBuckets {
            return false;
          }
        }
        buckets := buckets[key := Bucket(n, now + limits.window)];
        return true;
      }
      if buckets[key].count + n > limits.limit {
        return false;
      }
      buckets := buckets[key := buckets[key].(count := buckets[key].count + n)];
      return true;
    }
  }

  // ----- runs -----

  datatype Event = Call(key: Key, n: int, at: int) | Sweep(at: int)

  ghost predicate Clocked(evs: seq<Event>) {
    forall i, j :: 0 <= i < j < |evs| ==> evs[i].at <= evs[j].at
  }

  /** The buckets after the first `i` events. */
  function Buckets(l: Limits, evs: seq<Event>, i: nat): map<Key, Bucket>
    requires i <= |evs|
  {
    if i == 0 then map[]
    else
      match evs[i - 1]
      case Call(k, n, t) => Charged(l, Buckets(l, evs, i - 1), k, n, t)
      case Sweep(t) => Swept(Buckets(l, evs, i - 1), t)
  }

  datatype Grant = Grant(at: int, units: nat)

  datatype Window = Window(start: int, grants: seq<Grant>)

  predicate GrantedTo(l: Limits, evs: seq<Event>, i: nat, key: Key)
    requires i < |evs|
  {
    && evs[i].Call? && evs[i].key == key && evs[i].n > 0
    && Grants(l, Buckets(l, evs, i), key, evs[i].n, evs[i].at)
  }

  /** Everything granted to `key` by the first `i` events, window by window. */
  function Ledger(l: Limits, evs: seq<Event>, i: nat, key: Key): seq<Window>
    requires i <= |evs|
  {
    if i == 0 then []
    else
      var ws := Ledger(l, evs, i - 1, key);
      if !GrantedTo(l, evs, i - 1, key) then ws
      else
        var g := Grant(evs[i - 1].at, evs[i - 1].n);
        if ws == [] || Fresh(Buckets(l, evs, i - 1), key, g.at) then ws + [Window(g.at, [g])]
        else ws[|ws| - 1 := ws[|ws| - 1].(grants := ws[|ws| - 1].grants + [g])]
  }

  // ----- what a window holds -----

  function Total(gs: seq<Grant>): nat {
    if gs == [] then 0 else Total(gs[..|gs| - 1]) + gs[|gs| - 1].units
  }

  ghost predicate WindowOk(l: Limits, w: Window) {
    && Total(w.grants) <= l.limit
    && forall g :: g in w.grants ==> w.start <= g.at <= w.start + l.window
  }

  /** Every window is within the limit and they do not overlap. */
  ghost predicate LedgerOk(l: Limits, ws: seq<Window>) {
    && (forall i :: 0 <= i < |ws| ==> WindowOk(l, ws[i]))
    && (forall i, j :: 0 <= i < j < |ws| ==> ws[i].start + l.window < ws[j].start)
  }

  /** A live bucket is the last window; a key without one has no window still open. */
  ghost predicate Matches(l: Limits, m: map<Key, Bucket>, key: Key, ws: seq<Window>, now: int) {
    if key in m then
      && ws != []
      && ws[|ws| - 1].start + l.window == m[key].resetAt
      && Total(ws[|ws| - 1].grants) == m[key].count
    else ws != [] ==> ws[|ws| - 1].start + l.window < now
  }

  lemma AppendWindow(l: Limits, ws: seq<Window>, g: Grant)
    requires LedgerOk(l, ws) && g.units <= l.limit
    requires ws != [] ==> ws[|ws| - 1].start + l.window < g.at
    ensures LedgerOk(l, ws + [Window(g.at, [g])])
    ensures Total([g]) == g.units
  {
    assert [g][..0] == [];
    assert Total([g]) == Total([g][..0]) + g.units;
    assert WindowOk(l, Window(g.at, [g]));
    forall i | 0 <= i < |ws| ensures ws[i].start + l.window < g.at {
      if i < |ws| - 1 { assert ws[i].start + l.window < ws[|ws| - 1].start; }
    }
  }

  lemma ExtendWindow(l: Limits, ws: seq<Window>, g: Grant)
    requires LedgerOk(l, ws) && ws != []
    requires var w := ws[|ws| - 1];
             Total(w.grants) + g.units <= l.limit && w.start <= g.at <= w.start + l.window
    ensures var w := ws[|ws| - 1];
            LedgerOk(l, ws[|ws| - 1 := w.(grants := w.grants + [g])])
            && Total(w.grants + [g]) == Total(w.grants) + g.units
  {
    var w := ws[|ws| - 1];
    assert (w.grants + [g])[..|w.grants|] == w.grants;
  }

  lemma {:induction false} StartsArePast(l: Limits, evs: seq<Event>, i: nat, key: Key, now: int)
    requires i <= |evs| && Clocked(evs) && (i > 0 ==> evs[i - 1].at <= now)
    ensures forall w :: w in Ledger(l, evs, i, key) ==> w.start <= now
  {
    if i == 0 {
    } else {
      StartsArePast(l, evs, i - 1, key, now);
    }
  }

  /** An event that grants the key nothing leaves its bucket alone, or drops it once it has expired. */
  lemma NothingGranted(l: Limits, m: map<Key, Bucket>, e: Event, key: Key, ws: seq<Window>)
    requires Matches(l, m, key, ws, e.at)
    requires !(e.Call? && e.key == key && e.n > 0 && Grants(l, m, key, e.n, e.at))
    ensures Matches(l, if e.Call? then Charged(l, m, e.key, e.n, e.at) else Swept(m, e.at), key, ws, e.at)
  {
  }

  /** A granted charge opens a window after all others, or goes into the last one. */
  lemma FirstGrantMatches(l: Limits, m: map<Key, Bucket>, key: Key, ws: seq<Window>, g: Grant)
    requires LedgerOk(l, ws) && Matches(l, m, key, ws, g.at) && g.units > 0
    requires Grants(l, m, key, g.units, g.at) && Fresh(m, key, g.at)
    ensures LedgerOk(l, ws + [Window(g.at, [g])])
    ensures Matches(l, Charged(l, m, key, g.units, g.at), key, ws + [Window(g.at, [g])], g.at)
  {
    AppendWindow(l, ws, g);
  }

  lemma LaterGrantMatches(l: Limits, m: map<Key, Bucket>, key: Key, ws: seq<Window>, g: Grant)
    requires LedgerOk(l, ws) && Matches(l, m, key, ws, g.at) && g.units > 0
    requires Grants(l, m, key, g.units, g.at) && !Fresh(m, key, g.at)
    requires forall w :: w in ws ==> w.start <= g.at
    ensures var ws' := ws[|ws| - 1 := ws[|ws| - 1].(grants := ws[|ws| - 1].grants + [g])];
            LedgerOk(l, ws') && Matches(l, Charged(l, m, key, g.units, g.at), key, ws', g.at)
  {
    assert ws[|ws| - 1] in ws;
    ExtendWindow(l, ws, g);
  }

  lemma StepMatches(l: Limits, evs: seq<Event>, i: nat, key: Key)
    requires i < |evs| && Clocked(evs)
    requires LedgerOk(l, Ledger(l, evs, i, key))
    requires Matches(l, Buckets(l, evs, i), key, Ledger(l, evs, i, key), evs[i].at)
    ensures LedgerOk(l, Ledger(l, evs, i + 1, key))
    ensures Matches(l, Buckets(l, evs, i + 1), key, Ledger(l, evs, i + 1, key), evs[i].at)
  {
    var (m, ws, e) := (Buckets(l, evs, i), Ledger(l, evs, i, key), evs[i]);
    if !GrantedTo(l, evs, i, key) {
      NothingGranted(l, m, e, key, ws);
    } else if Fresh(m, key, e.at) {
      FirstGrantMatches(l, m, key, ws, Grant(e.at, e.n));
    } else {
      StartsArePast(l, evs, i, key, e.at);
      LaterGrantMatches(l, m, key, ws, Grant(e.at, e.n));
    }
  }

  lemma {:induction false} LedgerMatches(l: Limits, evs: seq<Event>, i: nat, key: Key, now: int)
    requires i <= |evs| && Clocked(evs) && (i > 0 ==> evs[i - 1].at <= now)
    ensures LedgerOk(l, Ledger(l, evs, i, key))
    ensures Matches(l, Buckets(l, evs, i), key, Ledger(l, evs, i, key), now)
  {
    if i == 0 {
    } else {
      LedgerMatches(l, evs, i - 1, key, evs[i - 1].at);
      StepMatches(l, evs, i - 1, key);
    }
  }

  // ----- what an interval holds -----

  /** Units granted at times from `lo` to `hi`, both included. */
  function Within(gs: seq<Grant>, lo: int, hi: int): nat {
    if gs == [] then 0
    else
      Within(gs[..|gs| - 1], lo, hi) + (if lo <= gs[|gs| - 1].at <= hi then gs[|gs| - 1].units else 0)
  }

  function WithinAll(ws: seq<Window>, lo: int, hi: int): nat {
    if ws == [] then 0 else WithinAll(ws[..|ws| - 1], lo, hi) + Within(ws[|ws| - 1].grants, lo, hi)
  }

  lemma {:induction false} WithinTotal(gs: seq<Grant>, lo: int, hi: int)
    ensures Within(gs, lo, hi) <= Total(gs)
    ensures (forall g :: g in gs ==> g.at < lo || g.at > hi) ==> Within(gs, lo, hi) == 0
  {
    if gs == [] {
    } else {
      WithinTotal(gs[..|gs| - 1], lo, hi);
    }
  }

  lemma {:induction false} PastWindows(l: Limits, ws: seq<Window>, lo: int, hi: int)
    requires LedgerOk(l, ws) && forall i :: 0 <= i < |ws| ==> ws[i].start + l.window < lo
    ensures WithinAll(ws, lo, hi) == 0
  {
    if ws == [] {
    } else {
      PastWindows(l, ws[..|ws| - 1], lo, hi);
      WithinTotal(ws[|ws| - 1].grants, lo, hi);
    }
  }

  /** Only the last two windows can reach past the start of the last one less a window's length. */
  lemma EarlyWindows(l: Limits, ws: seq<Window>, lo: int, hi: int)
    requires LedgerOk(l, ws) && |ws| >= 2 && ws[|ws| - 1].start <= lo + l.window
    ensures WithinAll(ws[..|ws| - 2], lo, hi) == 0
  {
    var n := |ws| - 1;
    forall i | 0 <= i < n - 1 ensures ws[i].start + l.window < lo {
      assert ws[i].start + l.window < ws[n - 1].start && ws[n - 1].start + l.window < ws[n].start;
    }
    PastWindows(l, ws[..n - 1], lo, hi);
  }

  /** When the last window starts by the end of an interval, at most the last two windows reach into it. */
  lemma LastTwoWindows(l: Limits, ws: seq<Window>, lo: int)
    requires LedgerOk(l, ws) && |ws| >= 2 && ws[|ws| - 1].start <= lo + l.window
    ensures WithinAll(ws, lo, lo + l.window) <= 2 * l.limit
  {
    var (n, hi) := (|ws| - 1, lo + l.window);
    var (rest, early) := (ws[..n], ws[..n - 1]);
    assert rest[..n - 1] == early && rest[n - 1] == ws[n - 1];
    WithinTotal(ws[n].grants, lo, hi);
    WithinTotal(ws[n - 1].grants, lo, hi);
    assert WindowOk(l, ws[n]) && WindowOk(l, ws[n - 1]);
    EarlyWindows(l, ws, lo, hi);
  }

  lemma {:induction false} TwoWindowsAtMost(l: Limits, ws: seq<Window>, lo: int)
    requires LedgerOk(l, ws)
    ensures WithinAll(ws, lo, lo + l.window) <= 2 * l.limit
  {
    if ws == [] {
    } else {
      var n := |ws| - 1;
      WithinTotal(ws[n].grants, lo, lo + l.window);
      if ws[n].start > lo + l.window {
        TwoWindowsAtMost(l, ws[..n], lo);
      } else if n > 0 {
        LastTwoWindows(l, ws, lo);
      }
    }
  }

  /**
   For every run of charges and sweeps: a key gets at most `limit` units in each of its windows and at
   most twice that in any interval as long as a window; no eviction ever opens a second window while
   one is still running.
   */
  lemma GrantsAreBounded(l: Limits, evs: seq<Event>, key: Key, lo: int)
    requires Clocked(evs)
    ensures LedgerOk(l, Ledger(l, evs, |evs|, key))
    ensures WithinAll(Ledger(l, evs, |evs|, key), lo, lo + l.window) <= 2 * l.limit
  {
    LedgerMatches(l, evs, |evs|, key, if evs == [] then 0 else evs[|evs| - 1].at);
    TwoWindowsAtMost(l, Ledger(l, evs, |evs|, key), lo);
  }

  /** There is a bucket for the key, or room for one once the expired are gone. */
  ghost predicate Room(l: Limits, m: map<Key, Bucket>, key: Key, now: int) {
    key in m || |set k | k in m && now <= m[k].resetAt| < l.maxBuckets
  }

  lemma RoomIs(l: Limits, m: map<Key, Bucket>, key: Key, now: int)
    ensures key in m || |m| < l.maxBuckets || |Swept(m, now)| < l.maxBuckets <==> Room(l, m, key, now)
  {
    SweptIsSmaller(m, now);
    assert Swept(m, now).Keys == set k | k in m && now <= m[k].resetAt;
    assert |Swept(m, now)| == |Swept(m, now).Keys|;
  }

  /**
   A charge is granted exactly when it fits: inside a live window beside what that window has granted so
   far, otherwise within the limit by itself, provided there is room for a bucket.
   */
  lemma GrantedExactlyWhen(l: Limits, evs: seq<Event>, i: nat, key: Key)
    requires i < |evs| && Clocked(evs) && evs[i].Call? && evs[i].key == key && evs[i].n > 0
    ensures var ws := Ledger(l, evs, i, key);
            if ws != [] && evs[i].at <= ws[|ws| - 1].start + l.window
            then GrantedTo(l, evs, i, key) <==> Total(ws[|ws| - 1].grants) + evs[i].n <= l.limit
            else GrantedTo(l, evs, i, key) <==> evs[i].n <= l.limit && Room(l, Buckets(l, evs, i), key, evs[i].at)
  {
    var m := Buckets(l, evs, i);
    LedgerMatches(l, evs, i, key, evs[i].at);
    RoomIs(l, m, key, evs[i].at);
  }

  lemma SweptIsSmaller(m: map<Key, Bucket>, now: int)
    ensures |Swept(m, now)| <= |m|
  {
    var s := Swept(m, now);
    assert m.Keys == s.Keys + (m.Keys - s.Keys);
    assert |s.Keys| <= |m.Keys|;
  }

  lemma OneKey(m: map<Key, Bucket>, k: Key, b: Bucket)
    ensures |m[k := b]| == if k in m then |m| else |m| + 1
  {
    assert m[k := b].Keys == m.Keys + {k};
    assert |m[k := b]| == |m[k := b].Keys| && |m| == |m.Keys|;
  }

  lemma {:induction false} MapIsBounded(l: Limits, evs: seq<Event>, i: nat)
    requires i <= |evs|
    ensures |Buckets(l, evs, i)| <= l.maxBuckets
  {
    if i == 0 {
    } else {
      MapIsBounded(l, evs, i - 1);
      var m := Buckets(l, evs, i - 1);
      SweptIsSmaller(m, evs[i - 1].at);
      if evs[i - 1].Call? {
        var (k, b) := (evs[i - 1].key, Buckets(l, evs, i));
        if k in b {
          OneKey(m, k, b[k]);
          OneKey(Swept(m, evs[i - 1].at), k, b[k]);
        }
      }
    }
  }

  // ----- submissions -----

  /** What becomes of one submitted URL. */
  datatype Item = Invalid | Queued | QueueFull | Rejected

  /** The URLs of a batch that are queued: those before the account's queue turns out to be full. */
  function Added(items: seq<Item>): (n: nat)
    ensures n <= |items|
  {
    if items == [] || items[0].QueueFull? then 0 else (if items[0].Queued? then 1 else 0) + Added(items[1..])
  }

  /** The batch is worked through up to the first URL that no longer fits; what is queued before it is added. */
  lemma {:induction false} AddedAre(items: seq<Item>) returns (n: nat)
    ensures n <= |items| && QueueFull !in items[..n] && (n < |items| ==> items[n] == QueueFull)
    ensures Added(items) == multiset(items[..n])[Queued]
  {
    if items == [] || items[0].QueueFull? {
      n := 0;
    } else {
      var m := AddedAre(items[1..]);
      n := m + 1;
      assert items[..n] == [items[0]] + items[1..][..m];
    }
  }

  predicate BatchSize(n: nat) {
    1 <= n <= 20
  }

  /** The single-URL handler; a body that does not decode carries no URL. */
  method HandleCrawl(lim: CrawlLimiter, key: Key, admin: bool, body: Option<Item>, t: int)
    returns (accepted: bool, charged: nat)
    modifies lim
    ensures accepted <==> (admin || Grants(lim.limits, old(lim.buckets), key, 1, t)) && body == Some(Queued)
    ensures charged == if !admin && Grants(lim.limits, old(lim.buckets), key, 1, t) then 1 else 0
    ensures lim.buckets == if admin then old(lim.buckets) else Charged(lim.limits, old(lim.buckets), key, 1, t)
  {
    accepted, charged := false, 0;
    if !admin {
      var ok := lim.AllowN(key, 1, t);
      if !ok {
        return;
      }
      charged := 1;
    }
    accepted := body == Some(Queued);
  }

  /** The loop over a batch: it stops at the first URL that no longer fits the account's queue. */
  method SubmitBatch(items: seq<Item>) returns (added: nat, skipped: nat, quotaHit: bool)
    ensures added == Added(items) && added + skipped == |items|
    ensures quotaHit <==> QueueFull in items
  {
    added, skipped, quotaHit := 0, 0, false;
    var i := 0;
    while i < |items|
      invariant 0 <= i <= |items| && !quotaHit
      invariant added + skipped == i && added + Added(items[i..]) == Added(items)
      invariant QueueFull !in items[..i]
    {
      assert items[i..][1..] == items[i + 1..];
      if items[i].QueueFull? {
        quotaHit := true;
        skipped := skipped + (|items| - added - skipped);
        break;
      }
      if items[i].Queued? {
        added := added + 1;
      } else {
        skipped := skipped + 1;
      }
      i := i + 1;
    }
    if !quotaHit {
      assert items[..i] == items;
    }
  }

  /**
   The bulk handler: one unit for the request, then one per URL, then the URLs one by one until the
   account's queue is full.  A batch refused after the first charge has still spent that unit.
   */
  method HandleCrawlBulk(lim: CrawlLimiter, key: Key, admin: bool, body: Option<seq<Item>>, t1: int, t2: int)
    returns (accepted: bool, added: nat, skipped: nat, quotaHit: bool, charged: nat)
    modifies lim
    ensures var m1 := Charged(lim.limits, old(lim.buckets), key, 1, t1);
            var begun := admin || Grants(lim.limits, old(lim.buckets), key, 1, t1);
            var sized := begun && body.Some? && 1 <= |body.value| <= 20;
            && (accepted <==> sized && (admin || Grants(lim.limits, m1, key, |body.value|, t2)))
            && lim.buckets == (if admin then old(lim.buckets)
                               else if sized then Charged(lim.limits, m1, key, |body.value|, t2) else m1)
            && charged == (if admin || !begun then 0 else if accepted then 1 + |body.value| else 1)
    ensures accepted ==>
              && added == Added(body.value) && added + skipped == |body.value|
              && (quotaHit <==> QueueFull in body.value)
    ensures !accepted ==> added == 0 && skipped == 0 && !quotaHit
    ensures !admin && added > 0 ==> added < charged
  {
    accepted, added, skipped, quotaHit, charged := false, 0, 0, false, 0;
    if !admin {
      var ok := lim.AllowN(key, 1, t1);
      if !ok {
        return;
      }
      charged := 1;
    }
    if body.None? || |body.value| == 0 || |body.value| > 20 {
      return;
    }
    var items := body.value;
    if !admin {
      var ok := lim.AllowN(key, |items|, t2);
      if !ok {
        return;
      }
      charged := charged + |items|;
    }
    accepted := true;
    added, skipped, quotaHit := SubmitBatch(items);
  }

  // ----- all submissions together -----

  /**
   What the handlers of non-administrators do at the limiter, in the order its lock admits them.  The
   two charges of a batch are separate steps, so other requests may come between them.
   */
  datatype Step =
    | Single(key: Key, body: Option<Item>, at: int)
    | OpenBatch(key: Key, at: int)
    | ChargeBatch(key: Key, items: seq<Item>, at: int)
    | OtherRequest(key: Key, at: int)
    | Clean(at: int)

  function Charge(x: Step): Event {
    match x
    case Single(k, _, t) => Call(k, 1, t)
    case OpenBatch(k, t) => Call(k, 1, t)
    case ChargeBatch(k, items, t) => Call(k, |items|, t)
    case OtherRequest(k, t) => Call(k, 1, t)
    case Clean(t) => Event.Sweep(t)
  }

  function Charges(steps: seq<Step>): (evs: seq<Event>)
    ensures |evs| == |steps| && forall i :: 0 <= i < |steps| ==> evs[i] == Charge(steps[i])
  {
    seq(|steps|, i requires 0 <= i < |steps| => Charge(steps[i]))
  }

  /** How many URLs a step that was granted its units puts in the queue. */
  function Queues(x: Step): nat {
    match x
    case Single(_, body, _) => if body == Some(Queued) then 1 else 0
    case ChargeBatch(_, items, _) => if BatchSize(|items|) then Added(items) else 0
    case _ => 0
  }

  /** URLs accepted from `key` by the first `i` steps, charged at times from `lo` to `hi`. */
  function Accepted(l: Limits, steps: seq<Step>, i: nat, key: Key, lo: int, hi: int): nat
    requires i <= |steps|
  {
    if i == 0 then 0
    else
      Accepted(l, steps, i - 1, key, lo, hi)
      + (if GrantedTo(l, Charges(steps), i - 1, key) && lo <= steps[i - 1].at <= hi then Queues(steps[i - 1]) else 0)
  }

  /** What the whole ledger holds at those times, one grant more. */
  lemma LedgerWithin(l: Limits, evs: seq<Event>, i: nat, key: Key, lo: int, hi: int)
    requires i < |evs|
    ensures WithinAll(Ledger(l, evs, i + 1, key), lo, hi) ==
            WithinAll(Ledger(l, evs, i, key), lo, hi)
            + (if GrantedTo(l, evs, i, key) && lo <= evs[i].at <= hi then evs[i].n else 0)
  {
    var ws := Ledger(l, evs, i, key);
    if GrantedTo(l, evs, i, key) {
      var g := Grant(evs[i].at, evs[i].n);
      if ws == [] || Fresh(Buckets(l, evs, i), key, g.at) {
        assert (ws + [Window(g.at, [g])])[..|ws|] == ws;
        WithinOneMore([], g, lo, hi);
      } else {
        var (n, w) := (|ws| - 1, ws[|ws| - 1]);
        assert ws[n := w.(grants := w.grants + [g])][..n] == ws[..n];
        WithinOneMore(w.grants, g, lo, hi);
      }
    }
  }

  lemma WithinOneMore(gs: seq<Grant>, g: Grant, lo: int, hi: int)
    ensures Within(gs + [g], lo, hi) == Within(gs, lo, hi) + (if lo <= g.at <= hi then g.units else 0)
  {
    assert (gs + [g])[..|gs|] == gs;
  }

  /** A step that is granted its units queues at most one URL per unit. */
  lemma StepIsPaidFor(l: Limits, steps: seq<Step>, i: nat, key: Key)
    requires i < |steps| && GrantedTo(l, Charges(steps), i, key)
    ensures Charges(steps)[i].at == steps[i].at && Queues(steps[i]) <= Charges(steps)[i].n
  {
  }

  /** In every run of the handlers, URLs accepted from a key never exceed the units it was granted. */
  lemma {:induction false} AcceptedArePaidFor(l: Limits, steps: seq<Step>, i: nat, key: Key, lo: int, hi: int)
    requires i <= |steps|
    ensures Accepted(l, steps, i, key, lo, hi) <= WithinAll(Ledger(l, Charges(steps), i, key), lo, hi)
  {
    if i == 0 {
    } else {
      AcceptedArePaidFor(l, steps, i - 1, key, lo, hi);
      LedgerWithin(l, Charges(steps), i - 1, key, lo, hi);
      if GrantedTo(l, Charges(steps), i - 1, key) {
        StepIsPaidFor(l, steps, i - 1, key);
      }
    }
  }

  /** So no key gets more than twice the limit of URLs accepted in any interval of a window's length. */
  lemma SubmissionsAreBounded(l: Limits, steps: seq<Step>, key: Key, lo: int)
    requires Clocked(Charges(steps))
    ensures Accepted(l, steps, |steps|, key, lo, lo + l.window) <= 2 * l.limit
  {
    AcceptedArePaidFor(l, steps, |steps|, key, lo, lo + l.window);
    GrantsAreBounded(l, Charges(steps), key, lo);
  }

  /**
   A batch as large as the limit does not fit beside the unit its own request was charged, unless the
   bucket runs out between the two charges.
   */
  lemma FullBatchFits(l: Limits, m: map<Key, Bucket>, key: Key, t1: int, t2: int)
    requires l.limit > 0 && Grants(l, m, key, 1, t1)
    ensures var m' := Charged(l, m, key, 1, t1);
            key in m' && (Grants(l, m', key, l.limit, t2) <==> t2 > m'[key].resetAt)
  {
  }

  /** With the limit of twenty a minute, a first batch of twenty URLs is refused. */
  lemma TwentyAreRefused(key: Key)
    ensures var l := Limits(20, 60, 100_000);
            && Grants(l, map[], key, 1, 0)
            && !Grants(l, Charged(l, map[], key, 1, 0), key, 20, 0)
            && Grants(l, Charged(l, map[], key, 1, 0), key, 19, 0)
  {
    FullBatchFits(Limits(20, 60, 100_000), map[], key, 0, 0);
  }
}
