/**
 Politeness reservations: workers book future access slots for a host in a shared table, which a
 second goroutine prunes.  Times are nanoseconds read from a clock that never goes back.
 */
module Politeness {
  import opened Wrappers

  type Host = string
  type Worker = nat

  const SECOND := 1_000_000_000
  const DEFAULT_DELAY := 5 * SECOND
  const MAX_DELAY := 60 * SECOND
  const PRUNE_AGE := 600 * SECOND

  function BaseDelay(override: int): int {
    if override > 0 then override else DEFAULT_DELAY
  }

  /**
   The gap to keep: what robots.txt asks, at least five seconds and at most a minute.  Only tests override
   the five seconds.
   */
  function Delay(override: int, minDelay: int): (d: int)
    ensures 0 < d <= 60_000_000_000
    ensures minDelay <= 60_000_000_000 ==> d >= minDelay
    ensures override <= 0 && minDelay <= 5_000_000_000 ==> d == 5_000_000_000
    ensures override <= 0 && 5_000_000_000 <= minDelay <= 60_000_000_000 ==> d == minDelay
    ensures minDelay >= 60_000_000_000 || override >= 60_000_000_000 ==> d == 60_000_000_000
    ensures 0 < override <= 60_000_000_000 && minDelay <= override ==> d == override
    ensures 0 < override <= minDelay <= 60_000_000_000 ==> d == minDelay
  {
    var base := BaseDelay(override);
    var d := if minDelay > base then minDelay else base;
    if d > MAX_DELAY then MAX_DELAY else d
  }

  /** The slot a booking gets; `t1` is read for the elapsed time and `t2` for the stored one. */
  function Slot(m: map<Host, int>, host: Host, delay: int, t1: int, t2: int): int {
    if host in m && t1 - m[host] < delay then t2 + (delay - (t1 - m[host])) else t2
  }

  function Pruned(m: map<Host, int>, t: int): map<Host, int> {
    map h | h in m && !(m[h] < t - PRUNE_AGE) :: m[h]
  }

  class DomainTable {
    var lastAccess: map<Host, int>
    const override: int

    constructor (override: int)
      ensures lastAccess == map[] && this.override == override
    {
      lastAccess := map[];
      this.override := override;
    }

    /** Books a slot; a URL that does not parse has no host.  `ok` is false when the wait is cancelled. */
    method WaitForDomain(host: Option<Host>, minDelay: int, t1: int, t2: int, cancelled: bool)
      returns (ok: bool, wait: int)
      modifies this
      ensures host.None? ==> lastAccess == old(lastAccess) && ok && wait == 0
      ensures host.Some? ==>
                lastAccess == old(lastAccess)[host.value :=
                  Slot(old(lastAccess), host.value, Delay(override, minDelay), t1, t2)]
      ensures host.Some? ==> wait == lastAccess[host.value] - t2 && (ok <==> !(cancelled && wait > 0))
      ensures host.Some? && (host.value !in old(lastAccess) || t1 - old(lastAccess)[host.value] >= MAX_DELAY) ==>
                wait == 0
      ensures override <= 0 && host.Some? && host.value in old(lastAccess) && 5 * SECOND <= minDelay <= 60 * SECOND ==>
                wait == if t1 - old(lastAccess)[host.value] < minDelay
                        then minDelay - (t1 - old(lastAccess)[host.value]) else 0
    {
      if host.None? {
        return true, 0;
      }
      var h := host.value;
      var delay := BaseDelay(override);
      if minDelay > delay {
        delay := minDelay;
      }
      if delay > MAX_DELAY {
        delay := MAX_DELAY;
      }
      if h in lastAccess {
        var elapsed := t1 - lastAccess[h];
        if elapsed < delay {
          wait := delay - elapsed;
          lastAccess := lastAccess[h := t2 + wait];
          return !cancelled, wait;
        }
      }
      lastAccess := lastAccess[h := t2];
      return true, 0;
    }

    method Prune(t: int)
      modifies this
      ensures lastAccess == Pruned(old(lastAccess), t)
      ensures forall h :: h in lastAccess <==> h in old(lastAccess) && old(lastAccess)[h] >= t - 600_000_000_000
      ensures forall h :: h in lastAccess ==> lastAccess[h] == old(lastAccess)[h]
    {
      var cutoff := t - PRUNE_AGE;
      var todo := lastAccess.Keys;
      while todo != {}
        invariant todo <= lastAccess.Keys <= old(lastAccess).Keys
        invariant forall h :: h in lastAccess ==> lastAccess[h] == old(lastAccess)[h]
        invariant forall h :: h in old(lastAccess) && h !in todo ==>
                    (h in lastAccess <==> !(old(lastAccess)[h] < cutoff))
        decreases todo
      {
        var h :| h in todo;
        if lastAccess[h] < cutoff {
          lastAccess := lastAccess - {h};
        }
        todo := todo - {h};
      }
    }
  }

  // ----- runs -----

  datatype Event =
    | Book(worker: Worker, host: Host, minDelay: int, t1: int, t2: int)
    | Prune(at: int)

  /** A booking made with readings `at` and `at2`, for a host whose robots.txt asks for `minDelay`. */
  datatype Booking = Booking(worker: Worker, host: Host, minDelay: int, at: int, at2: int, slot: int)

  function First(e: Event): int {
    if e.Book? then e.t1 else e.at
  }

  function Last(e: Event): int {
    if e.Book? then e.t2 else e.at
  }

  /**
   Critical sections follow one another on one clock.  A booking reads it inside its own; a pruning
   reads it before it gets the lock, so its reading may be older than bookings made meanwhile.
   */
  ghost predicate Clocked(evs: seq<Event>) {
    && (forall i :: 0 <= i < |evs| ==> First(evs[i]) <= Last(evs[i]))
    && (forall i, j :: 0 <= i < j < |evs| && evs[j].Book? ==> Last(evs[i]) <= First(evs[j]))
  }

  function Table(override: int, evs: seq<Event>): map<Host, int> {
    if evs == [] then map[]
    else
      var m := Table(override, evs[..|evs| - 1]);
      match evs[|evs| - 1]
      case Book(_, h, d, t1, t2) => m[h := Slot(m, h, Delay(override, d), t1, t2)]
      case Prune(t) => Pruned(m, t)
  }

  /** Every slot ever booked, in order. */
  function History(override: int, evs: seq<Event>): seq<Booking> {
    if evs == [] then []
    else
      var (m, past) := (Table(override, evs[..|evs| - 1]), History(override, evs[..|evs| - 1]));
      match evs[|evs| - 1]
      case Book(w, h, d, t1, t2) =>
        past + [Booking(w, h, d, t1, t2, Slot(m, h, Delay(override, d), t1, t2))]
      case Prune(_) => past
  }

  /** What the table remembers of the past at time `t`: a forgotten slot is more than ten minutes old. */
  ghost predicate Remembers(m: map<Host, int>, past: seq<Booking>, t: int) {
    forall b :: b in past ==>
      if b.host in m then b.slot <= m[b.host] else b.slot + PRUNE_AGE < t
  }

  lemma {:induction false} TableRemembers(override: int, evs: seq<Event>, t: int)
    requires Clocked(evs) && forall i :: 0 <= i < |evs| ==> Last(evs[i]) <= t
    ensures Remembers(Table(override, evs), History(override, evs), t)
  {
    if evs == [] {
    } else {
      var (n, e) := (|evs| - 1, evs[|evs| - 1]);
      var (m, past) := (Table(override, evs[..n]), History(override, evs[..n]));
      TableRemembers(override, evs[..n], if e.Book? then First(e) else t);
      forall b | b in History(override, evs)
        ensures if b.host in Table(override, evs) then b.slot <= Table(override, evs)[b.host]
                else b.slot + PRUNE_AGE < t
      {
        if b in past {
          assert if b.host in m then b.slot <= m[b.host] else b.slot + PRUNE_AGE < t;
        }
      }
    }
  }

  lemma {:induction false} HistoryPrefix(override: int, evs: seq<Event>)
    requires evs != []
    ensures var past := History(override, evs[..|evs| - 1]);
            past <= History(override, evs) && |History(override, evs)| <= |past| + 1
  {
  }

  /** What is kept between two slots: min(max(5 s, what robots.txt asks), 60 s), unless a test overrides it. */
  function Gap(override: int, minDelay: int): (g: int)
    ensures override <= 0 ==>
              g == if minDelay < 5_000_000_000 then 5_000_000_000
                   else if minDelay > 60_000_000_000 then 60_000_000_000 else minDelay
  {
    Delay(override, minDelay)
  }

  /**
   For any workers, any crawl-delays, prunings anywhere and waits cut short anywhere: a slot booked for a
   host comes at least min(max(5 s, the booker's crawl-delay), 60 s) after every slot booked for it before.
   */
  lemma {:induction false} SlotsAreSpaced(override: int, evs: seq<Event>, i: nat, j: nat)
    requires Clocked(evs) && i < j < |History(override, evs)|
    requires History(override, evs)[i].host == History(override, evs)[j].host
    ensures var hist := History(override, evs);
            && hist[j].slot >= hist[i].slot + Gap(override, hist[j].minDelay)
            && (override <= 0 && hist[j].minDelay <= 60_000_000_000 ==> hist[j].slot >= hist[i].slot + hist[j].minDelay)
            && (override <= 0 ==> hist[j].slot >= hist[i].slot + 5_000_000_000)
    decreases |evs|
  {
    var n := |evs| - 1;
    var past := History(override, evs[..n]);
    HistoryPrefix(override, evs);
    if j < |past| {
      SlotsAreSpaced(override, evs[..n], i, j);
    } else {
      TableRemembers(override, evs[..n], First(evs[n]));
      assert past[i] in past;
    }
  }

  /** Slot `j` is no later than it must be: it is at the booking itself, or a gap after an earlier slot of its host. */
  ghost predicate NoLaterThanNeeded(override: int, hist: seq<Booking>, j: nat)
    requires j < |hist|
  {
    || hist[j].slot == hist[j].at2
    || exists i :: 0 <= i < j && hist[i].host == hist[j].host
                   && hist[j].slot == hist[i].slot + Gap(override, hist[j].minDelay) + (hist[j].at2 - hist[j].at)
  }

  lemma {:induction false} TableIsBooked(override: int, evs: seq<Event>, h: Host)
    requires h in Table(override, evs)
    ensures exists i :: 0 <= i < |History(override, evs)| && History(override, evs)[i].host == h
                        && History(override, evs)[i].slot == Table(override, evs)[h]
  {
    var n := |evs| - 1;
    var (hist, past) := (History(override, evs), History(override, evs[..n]));
    HistoryPrefix(override, evs);
    if evs[n].Book? && evs[n].host == h {
      assert hist[|past|].host == h && hist[|past|].slot == Table(override, evs)[h];
    } else {
      TableIsBooked(override, evs[..n], h);
      var i :| 0 <= i < |past| && past[i].host == h && past[i].slot == Table(override, evs[..n])[h];
      assert hist[i] == past[i];
    }
  }

  /**
   And no booking waits for nothing: its slot is the moment it was made, or exactly the gap after an
   earlier slot of its host, plus the time between the two clock readings.
   */
  lemma {:induction false} SlotsAreTight(override: int, evs: seq<Event>, j: nat)
    requires j < |History(override, evs)|
    ensures NoLaterThanNeeded(override, History(override, evs), j)
    decreases |evs|
  {
    var n := |evs| - 1;
    var (hist, past) := (History(override, evs), History(override, evs[..n]));
    HistoryPrefix(override, evs);
    if j < |past| {
      SlotsAreTight(override, evs[..n], j);
      assert forall i :: 0 <= i <= j ==> hist[i] == past[i];
    } else if evs[n].host in Table(override, evs[..n]) {
      TableIsBooked(override, evs[..n], evs[n].host);
      var i :| 0 <= i < |past| && past[i].host == evs[n].host && past[i].slot == Table(override, evs[..n])[evs[n].host];
      assert hist[i] == past[i];
    }
  }

  // ----- how long a worker can be made to wait -----

  /** A worker is back only after its previous slot; a cancelled one does not come back. */
  ghost predicate OneWaitEach(past: seq<Booking>) {
    forall i, j :: 0 <= i < j < |past| && past[i].worker == past[j].worker ==> past[i].slot <= past[j].at
  }

  ghost predicate OneReading(evs: seq<Event>) {
    forall i :: 0 <= i < |evs| ==> First(evs[i]) == Last(evs[i])
  }

  ghost function Outstanding(past: seq<Booking>, h: Host, t: int): set<nat> {
    set i: nat | i < |past| && past[i].host == h && past[i].slot > t
  }

  lemma HistoryStep(override: int, evs: seq<Event>, e: Event)
    requires e.Book?
    ensures var delay := Delay(override, e.minDelay);
            History(override, evs + [e]) == History(override, evs)
              + [Booking(e.worker, e.host, e.minDelay, e.t1, e.t2,
                         Slot(Table(override, evs), e.host, delay, e.t1, e.t2))]
            && Table(override, evs + [e]) ==
               Table(override, evs)[e.host := Slot(Table(override, evs), e.host, delay, e.t1, e.t2)]
  {
    assert (evs + [e])[..|evs|] == evs;
  }

  /** At most one minute per outstanding slot. */
  ghost predicate Within(slot: int, t: int, out: nat) {
    slot <= t + MAX_DELAY * out
  }

  lemma OneMoreSlot(m: map<Host, int>, h: Host, delay: int, t1: int, t: int, out: nat)
    requires t1 <= t && 0 < delay <= MAX_DELAY && (h in m ==> Within(m[h], t, out))
    ensures Within(Slot(m, h, delay, t1, t1), t, out + 1)
    ensures Slot(m, h, delay, t1, t1) <= t ==> Within(Slot(m, h, delay, t1, t1), t, out)
  {
    assert MAX_DELAY * (out + 1) == MAX_DELAY * out + MAX_DELAY;
  }

  lemma OutstandingAfter(past: seq<Booking>, x: Booking, h: Host, t: int)
    ensures Outstanding(past + [x], h, t) ==
            if x.host == h && x.slot > t then Outstanding(past, h, t) + {|past|} else Outstanding(past, h, t)
  {
  }

  lemma BookingBound(override: int, evs: seq<Event>, e: Event, h: Host, t: int)
    requires e.Book? && e.t1 == e.t2 <= t
    requires var m := Table(override, evs);
             h in m ==> Within(m[h], t, |Outstanding(History(override, evs), h, t)|)
    ensures var m := Table(override, evs + [e]);
            h in m ==> Within(m[h], t, |Outstanding(History(override, evs + [e]), h, t)|)
  {
    var (m, past, delay) := (Table(override, evs), History(override, evs), Delay(override, e.minDelay));
    var x := Booking(e.worker, e.host, e.minDelay, e.t1, e.t2, Slot(m, e.host, delay, e.t1, e.t2));
    HistoryStep(override, evs, e);
    OutstandingAfter(past, x, h, t);
    if e.host == h {
      OneMoreSlot(m, h, delay, e.t1, t, |Outstanding(past, h, t)|);
    }
  }

  /** The last slot of a host is at most one minute away per slot still to come. */
  lemma {:induction false} SlotBound(override: int, evs: seq<Event>, h: Host, t: int)
    requires OneReading(evs) && (forall i :: 0 <= i < |evs| ==> Last(evs[i]) <= t)
    requires h in Table(override, evs)
    ensures Table(override, evs)[h] <= t + MAX_DELAY * |Outstanding(History(override, evs), h, t)|
  {
    var n := |evs| - 1;
    if h in Table(override, evs[..n]) {
      SlotBound(override, evs[..n], h, t);
    }
    if evs[n].Book? {
      assert evs == evs[..n] + [evs[n]];
      BookingBound(override, evs[..n], evs[n], h, t);
    }
  }

  lemma {:induction false} DistinctWorkers(past: seq<Booking>, idx: set<nat>, workers: set<Worker>)
    requires forall i :: i in idx ==> i < |past| && past[i].worker in workers
    requires forall i, j :: i in idx && j in idx && i != j ==> past[i].worker != past[j].worker
    ensures |idx| <= |workers|
    decreases idx
  {
    if idx == {} {
    } else {
      var i :| i in idx;
      DistinctWorkers(past, idx - {i}, workers - {past[i].worker});
    }
  }

  lemma {:induction false} BookedByNow(override: int, evs: seq<Event>, t: int)
    requires forall i :: 0 <= i < |evs| ==> First(evs[i]) <= t
    ensures forall b :: b in History(override, evs) ==> b.at <= t
  {
    if evs == [] {
    } else {
      BookedByNow(override, evs[..|evs| - 1], t);
    }
  }

  /** Slots still to come belong to different workers, none of them the one that is booking now. */
  lemma OthersOutstanding(past: seq<Booking>, x: Booking, workers: set<Worker>)
    requires OneWaitEach(past + [x]) && x.worker in workers
    requires forall b :: b in past ==> b.at <= x.at && b.worker in workers
    ensures |Outstanding(past, x.host, x.at)| <= |workers| - 1
  {
    var (all, out) := (past + [x], Outstanding(past, x.host, x.at));
    forall i | i in out ensures past[i].worker in workers - {x.worker} {
      assert past[i] in past && all[i] == past[i] && all[|past|] == x;
    }
    forall i, j | i in out && j in out && i != j ensures past[i].worker != past[j].worker {
      assert past[i] in past && past[j] in past && all[i] == past[i] && all[j] == past[j];
    }
    DistinctWorkers(past, out, workers - {x.worker});
  }

  lemma ClockedParts(evs: seq<Event>, e: Event)
    requires e.Book? && Clocked(evs + [e]) && OneReading(evs + [e])
    ensures Clocked(evs) && OneReading(evs) && First(e) == Last(e)
    ensures forall i :: 0 <= i < |evs| ==> First(evs[i]) <= First(e) && Last(evs[i]) <= First(e)
  {
    assert forall i :: 0 <= i < |evs| ==> (evs + [e])[i] == evs[i];
    assert (evs + [e])[|evs|] == e;
  }

  lemma BoundFromOutstanding(m: map<Host, int>, host: Host, delay: int, t: int, out: nat, workers: nat)
    requires out <= workers - 1 && delay <= MAX_DELAY
    requires host in m ==> m[host] <= t + MAX_DELAY * out
    ensures Slot(m, host, delay, t, t) - t <= MAX_DELAY * workers
  {
    assert MAX_DELAY * out + MAX_DELAY <= MAX_DELAY * workers;
  }

  /**
   With |workers| workers and one clock reading per booking, the wait of any booking is at most
   one minute per worker.
   */
  lemma WaitIsBounded(override: int, evs: seq<Event>, e: Event, workers: set<Worker>)
    requires e.Book? && Clocked(evs + [e]) && OneReading(evs + [e])
    requires OneWaitEach(History(override, evs + [e]))
    requires forall b :: b in History(override, evs + [e]) ==> b.worker in workers
    ensures Slot(Table(override, evs), e.host, Delay(override, e.minDelay), e.t1, e.t2) - e.t1 <= MAX_DELAY * |workers|
  {
    var (m, past, delay) := (Table(override, evs), History(override, evs), Delay(override, e.minDelay));
    var x := Booking(e.worker, e.host, e.minDelay, e.t1, e.t2, Slot(m, e.host, delay, e.t1, e.t2));
    ClockedParts(evs, e);
    if e.host in m {
      SlotBound(override, evs, e.host, e.t1);
    }
    assert |Outstanding(past, e.host, e.t1)| <= |workers| - 1 by {
      HistoryStep(override, evs, e);
      BookedByNow(override, evs, e.t1);
      assert x in past + [x];
      OthersOutstanding(past, x, workers);
    }
    BoundFromOutstanding(m, e.host, delay, e.t1, |Outstanding(past, e.host, e.t1)|, |workers|);
  }
}
