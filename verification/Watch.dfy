/**
 Change watching: one crawl result at a time is folded into a watch that keeps only its last digest
 and last reachability, yet the feed it produces is what the whole history calls for.
 */
module Watch {
  import opened Wrappers

  type Digest = string

  /** A crawl result; `digest` is the node's digest at that moment, `committed` whether the transaction survived. */
  datatype Observation = Observation(reachable: bool, status: int, digest: Option<Digest>, committed: bool)

  datatype Kind = Unreachable | Recovered | Changed

  datatype Row = Row(intervalDays: int, lastHash: Option<Digest>, lastReachable: Option<bool>, lastStatus: Option<int>)

  /** An entry of the feed, tagged with the position of the observation that produced it. */
  datatype Event = Event(kind: Kind, status: int, at: nat)

  predicate Up(o: Observation) {
    o.reachable && (o.status == 0 || o.status < 400)
  }

  function ReachabilityKinds(w: Row, o: Observation): seq<Kind> {
    if w.lastReachable == Some(true) && !Up(o) then [Unreachable]
    else if w.lastReachable == Some(false) && Up(o) then [Recovered]
    else []
  }

  function ContentKinds(w: Row, o: Observation): seq<Kind> {
    if w.lastReachable.Some? && Up(o) && w.lastHash.Some? && o.digest.Some? && w.lastHash != o.digest then [Changed]
    else []
  }

  function Kinds(w: Row, o: Observation): seq<Kind> {
    ReachabilityKinds(w, o) + ContentKinds(w, o)
  }

  function Advance(w: Row, o: Observation): Row {
    w.(lastHash := if Up(o) then o.digest else w.lastHash, lastReachable := Some(Up(o)), lastStatus := Some(o.status))
  }

  function NewWatch(days: int): Row {
    Row(days, None, None, None)
  }

  const DAY := 86400

  /** The columns of a crawled site's own row that a watch changes, and the one it reads. */
  datatype Site = Site(intervalDays: int, nextCrawlAt: int, lastCrawledAt: Option<int>)

  datatype StartResult = OutOfRange | NoSuchSite | Started

  /** The `watches` and `watch_events` rows, keyed by the watched node of an account, and the nodes themselves. */
  class WatchTable<Key(==)> {
    var sites: map<Key, Site>
    var rows: map<Key, Row>
    var feed: seq<(Key, Kind, int)>

    constructor (sites: map<Key, Site>)
      ensures this.sites == sites && rows == map[] && feed == []
    {
      this.sites, rows, feed := sites, map[], [];
    }

    /**
     Starting again keeps the watermark and only changes the interval.  The site's own row takes the
     interval too, and its next crawl moves to one interval after its last one unless it is due sooner.
     */
    method StartWatch(k: Key, days: int, now: int) returns (r: StartResult)
      modifies this
      ensures feed == old(feed)
      ensures r == if days < 1 || days > 365 then OutOfRange else if k !in old(sites) then NoSuchSite else Started
      ensures r != Started ==> rows == old(rows) && sites == old(sites)
      ensures r == Started ==>
                rows == old(rows)[k := if k in old(rows) then old(rows)[k].(intervalDays := days) else NewWatch(days)]
      ensures r == Started ==>
                && k in sites && sites == old(sites)[k := sites[k]] && sites[k].intervalDays == days
                && sites[k].lastCrawledAt == old(sites)[k].lastCrawledAt
                && var (due, last) := (sites[k].nextCrawlAt, old(sites)[k].lastCrawledAt);
                   var fromLast := (if last.Some? then last.value else now) + days * DAY;
                   due <= old(sites)[k].nextCrawlAt && due <= fromLast && due in {old(sites)[k].nextCrawlAt, fromLast}
    {
      if days < 1 || days > 365 {
        return OutOfRange;
      }
      if k !in sites {
        return NoSuchSite;
      }
      rows := rows[k := if k in rows then rows[k].(intervalDays := days) else NewWatch(days)];
      var n := sites[k];
      var due := (if n.lastCrawledAt.Some? then n.lastCrawledAt.value else now) + days * DAY;
      sites := sites[k := n.(intervalDays := days, nextCrawlAt := if due < n.nextCrawlAt then due else n.nextCrawlAt)];
      return Started;
    }

    /** Stopping discards the recorded events with the watch. */
    method StopWatch(k: Key) returns (found: bool)
      modifies this
      ensures sites == old(sites) && (found <==> k in sites)
      ensures rows == if found then old(rows) - {k} else old(rows)
      ensures feed == if found then Without(old(feed), k) else old(feed)
    {
      if k !in sites {
        return false;
      }
      rows := rows - {k};
      var kept, i := [], 0;
      while i < |feed|
        invariant 0 <= i <= |feed| && feed == old(feed) && sites == old(sites)
        invariant kept == Without(feed[..i], k)
      {
        assert feed[..i + 1][..i] == feed[..i];
        if feed[i].0 != k {
          kept := kept + [feed[i]];
        }
        i := i + 1;
      }
      assert feed[..i] == feed;
      feed := kept;
      return true;
    }

    method RecordObservation(k: Key, o: Observation)
      modifies this
      ensures sites == old(sites)
      ensures k !in old(rows) || !o.committed ==> rows == old(rows) && feed == old(feed)
      ensures k in old(rows) && o.committed ==>
                && rows == old(rows)[k := Advance(old(rows)[k], o)] && rows[k].lastStatus == Some(o.status)
                && feed == old(feed) + Entries(k, Kinds(old(rows)[k], o), o.status)
    {
      if k !in rows || !o.committed {
        return;
      }
      var w := rows[k];
      var nowReachable := o.reachable && (o.status == 0 || o.status < 400);
      var kinds := [];
      if w.lastReachable.Some? {
        if w.lastReachable.value && !nowReachable {
          kinds := kinds + [Unreachable];
        } else if !w.lastReachable.value && nowReachable {
          kinds := kinds + [Recovered];
        }
        if nowReachable && w.lastHash.Some? && o.digest.Some? && w.lastHash.value != o.digest.value {
          kinds := kinds + [Changed];
        }
      }
      var i := 0;
      while i < |kinds|
        invariant 0 <= i <= |kinds|
        invariant sites == old(sites) && rows == old(rows) && feed == old(feed) + Entries(k, kinds, o.status)[..i]
      {
        feed := feed + [(k, kinds[i], o.status)];
        i := i + 1;
      }
      if nowReachable {
        w := w.(lastHash := o.digest);
      }
      rows := rows[k := w.(lastStatus := Some(o.status), lastReachable := Some(nowReachable))];
    }
  }

  function Entries<Key>(k: Key, kinds: seq<Kind>, status: int): seq<(Key, Kind, int)> {
    seq(|kinds|, i requires 0 <= i < |kinds| => (k, kinds[i], status))
  }

  function Without<Key(==)>(feed: seq<(Key, Kind, int)>, k: Key): seq<(Key, Kind, int)> {
    if feed == [] then []
    else Without(feed[..|feed| - 1], k) + (if feed[|feed| - 1].0 == k then [] else [feed[|feed| - 1]])
  }

  // ----- one watch over a whole history -----

  function Tagged(kinds: seq<Kind>, status: int, at: nat): seq<Event> {
    seq(|kinds|, i requires 0 <= i < |kinds| => Event(kinds[i], status, at))
  }

  /** The watch after the first `i` observations; a lost one leaves it where it was. */
  function After(days: int, hist: seq<Observation>, i: nat): Row
    requires i <= |hist|
  {
    if i == 0 then NewWatch(days)
    else if hist[i - 1].committed then Advance(After(days, hist, i - 1), hist[i - 1])
    else After(days, hist, i - 1)
  }

  function Feed(days: int, hist: seq<Observation>, i: nat): seq<Event>
    requires i <= |hist|
  {
    if i == 0 then []
    else if hist[i - 1].committed then
      Feed(days, hist, i - 1) + Tagged(Kinds(After(days, hist, i - 1), hist[i - 1]), hist[i - 1].status, i - 1)
    else Feed(days, hist, i - 1)
  }

  // ----- what the history calls for -----

  /** `p` is the last committed observation before `i`. */
  ghost predicate Previous(hist: seq<Observation>, i: nat, p: nat) {
    && p < i <= |hist| && hist[p].committed
    && forall j :: p < j < i ==> !hist[j].committed
  }

  /** `p` is the last committed observation before `i` at which the site answered. */
  ghost predicate PreviousUp(hist: seq<Observation>, i: nat, p: nat) {
    && p < i <= |hist| && hist[p].committed && Up(hist[p])
    && forall j :: p < j < i ==> !(hist[j].committed && Up(hist[j]))
  }

  ghost predicate WentDown(hist: seq<Observation>, i: nat)
    requires i < |hist|
  {
    hist[i].committed && !Up(hist[i]) && exists p: nat :: Previous(hist, i, p) && Up(hist[p])
  }

  ghost predicate CameBack(hist: seq<Observation>, i: nat)
    requires i < |hist|
  {
    hist[i].committed && Up(hist[i]) && exists p: nat :: Previous(hist, i, p) && !Up(hist[p])
  }

  ghost predicate DiffersFromLastSeen(hist: seq<Observation>, i: nat)
    requires i < |hist|
  {
    && hist[i].committed && Up(hist[i]) && hist[i].digest.Some?
    && exists p: nat :: PreviousUp(hist, i, p) && hist[p].digest.Some? && hist[p].digest != hist[i].digest
  }

  ghost function DeclaredKinds(hist: seq<Observation>, i: nat): seq<Kind>
    requires i < |hist|
  {
    (if WentDown(hist, i) then [Unreachable] else if CameBack(hist, i) then [Recovered] else [])
    + (if DiffersFromLastSeen(hist, i) then [Changed] else [])
  }

  ghost function Concat(pieces: seq<seq<Event>>, n: nat): seq<Event>
    requires n <= |pieces|
  {
    if n == 0 then [] else Concat(pieces, n - 1) + pieces[n - 1]
  }

  ghost function DeclaredPieces(hist: seq<Observation>): (ps: seq<seq<Event>>)
    ensures |ps| == |hist|
    ensures forall j :: 0 <= j < |ps| ==> ps[j] == Tagged(DeclaredKinds(hist, j), hist[j].status, j)
  {
    seq(|hist|, j requires 0 <= j < |hist| => Tagged(DeclaredKinds(hist, j), hist[j].status, j))
  }

  ghost function DeclaredFeed(hist: seq<Observation>, n: nat): seq<Event>
    requires n <= |hist|
  {
    Concat(DeclaredPieces(hist), n)
  }

  lemma PreviousStep(hist: seq<Observation>, i: nat, p: nat)
    requires i < |hist|
    ensures Previous(hist, i + 1, p) <==> if hist[i].committed then p == i else Previous(hist, i, p)
    ensures PreviousUp(hist, i + 1, p) <==>
              if hist[i].committed && Up(hist[i]) then p == i else PreviousUp(hist, i, p)
  {
  }

  /** The two columns of the watch row are exactly these facts about the first `i` observations. */
  ghost predicate ReachableColumn(w: Row, hist: seq<Observation>, i: nat) {
    && (forall p: nat :: Previous(hist, i, p) ==> w.lastReachable == Some(Up(hist[p])))
    && (w.lastReachable.Some? ==> exists p: nat :: Previous(hist, i, p))
  }

  ghost predicate HashColumn(w: Row, hist: seq<Observation>, i: nat) {
    && (forall p: nat :: PreviousUp(hist, i, p) ==> w.lastHash == hist[p].digest && w.lastReachable.Some?)
    && (w.lastHash.Some? ==> exists p: nat :: PreviousUp(hist, i, p))
  }

  lemma {:induction false} ReachableColumnHolds(days: int, hist: seq<Observation>, i: nat)
    requires i <= |hist|
    ensures ReachableColumn(After(days, hist, i), hist, i)
  {
    if i == 0 {
    } else {
      ReachableColumnHolds(days, hist, i - 1);
      forall p: nat
        ensures Previous(hist, i, p) <==> if hist[i - 1].committed then p == i - 1 else Previous(hist, i - 1, p)
      {
        PreviousStep(hist, i - 1, p);
      }
      if hist[i - 1].committed {
        assert Previous(hist, i, i - 1);
      } else if After(days, hist, i).lastReachable.Some? {
        var p: nat :| Previous(hist, i - 1, p);
        assert Previous(hist, i, p);
      }
    }
  }

  lemma {:induction false} HashColumnHolds(days: int, hist: seq<Observation>, i: nat)
    requires i <= |hist|
    ensures HashColumn(After(days, hist, i), hist, i)
  {
    if i == 0 {
    } else {
      HashColumnHolds(days, hist, i - 1);
      var o := hist[i - 1];
      forall p: nat
        ensures PreviousUp(hist, i, p) <==> if o.committed && Up(o) then p == i - 1 else PreviousUp(hist, i - 1, p)
      {
        PreviousStep(hist, i - 1, p);
      }
      if o.committed && Up(o) {
        assert PreviousUp(hist, i, i - 1);
      } else if After(days, hist, i).lastHash.Some? {
        var p: nat :| PreviousUp(hist, i - 1, p);
        assert PreviousUp(hist, i, p);
      }
    }
  }

  lemma KindsAreDeclared(w: Row, hist: seq<Observation>, i: nat)
    requires i < |hist| && hist[i].committed && ReachableColumn(w, hist, i) && HashColumn(w, hist, i)
    ensures Kinds(w, hist[i]) == DeclaredKinds(hist, i)
  {
  }

  lemma NothingDeclaredWhenLost(hist: seq<Observation>, i: nat)
    requires i < |hist| && !hist[i].committed
    ensures Tagged(DeclaredKinds(hist, i), hist[i].status, i) == []
  {
  }

  /** The last of `i` observations adds what is declared of it. */
  lemma StepIsDeclared(days: int, hist: seq<Observation>, i: nat)
    requires 0 < i <= |hist|
    ensures Feed(days, hist, i) == Feed(days, hist, i - 1) + DeclaredPieces(hist)[i - 1]
  {
    if hist[i - 1].committed {
      ReachableColumnHolds(days, hist, i - 1);
      HashColumnHolds(days, hist, i - 1);
      KindsAreDeclared(After(days, hist, i - 1), hist, i - 1);
    } else {
      NothingDeclaredWhenLost(hist, i - 1);
    }
  }

  /**
   For every history, with any of its observations lost to rollback, the feed of the two-column watch
   is the declared one: nothing at the baseline, one entry per change of reachability, and a change
   entry exactly when a reachable digest differs from the one at the previous reachable observation,
   however long the site was down in between.
   */
  lemma {:induction false} FeedIsDeclared(days: int, hist: seq<Observation>, i: nat)
    requires i <= |hist|
    ensures Feed(days, hist, i) == DeclaredFeed(hist, i)
  {
    if i == 0 {
    } else {
      FeedIsDeclared(days, hist, i - 1);
      StepIsDeclared(days, hist, i);
    }
  }

  // ----- consequences -----

  /** What the first `n` entries say of the site coming and going. */
  function ReachabilityTo(feed: seq<Event>, n: nat): seq<Kind>
    requires n <= |feed|
  {
    if n == 0 then []
    else ReachabilityTo(feed, n - 1) + (if feed[n - 1].kind == Changed then [] else [feed[n - 1].kind])
  }

  function Reachability(feed: seq<Event>): seq<Kind> {
    ReachabilityTo(feed, |feed|)
  }

  ghost predicate Alternates(kinds: seq<Kind>) {
    forall i, j :: 0 <= i < j < |kinds| && j == i + 1 ==> kinds[i] != kinds[j]
  }

  lemma {:induction false} ReachabilityAppendTo(feed: seq<Event>, more: seq<Event>, n: nat)
    requires n <= |feed + more|
    ensures ReachabilityTo(feed + more, n) ==
            if n <= |feed| then ReachabilityTo(feed, n) else Reachability(feed) + ReachabilityTo(more, n - |feed|)
  {
    if n == 0 {
    } else {
      ReachabilityAppendTo(feed, more, n - 1);
    }
  }

  lemma ReachabilityAppend(feed: seq<Event>, more: seq<Event>)
    ensures Reachability(feed + more) == Reachability(feed) + Reachability(more)
  {
    ReachabilityAppendTo(feed, more, |feed + more|);
  }

  lemma ReachabilityOfOne(kinds: seq<Kind>, status: int, n: nat)
    requires |kinds| <= 1
    ensures Reachability(Tagged(kinds, status, n)) == if kinds == [Changed] then [] else kinds
  {
    var feed := Tagged(kinds, status, n);
    if feed != [] {
      assert ReachabilityTo(feed, 0) == [];
    }
  }

  lemma StepReachability(w: Row, o: Observation, n: nat)
    ensures Reachability(Tagged(Kinds(w, o), o.status, n)) == ReachabilityKinds(w, o)
  {
    var (a, b) := (ReachabilityKinds(w, o), ContentKinds(w, o));
    assert Tagged(Kinds(w, o), o.status, n) == Tagged(a, o.status, n) + Tagged(b, o.status, n);
    ReachabilityAppend(Tagged(a, o.status, n), Tagged(b, o.status, n));
    ReachabilityOfOne(a, o.status, n);
    ReachabilityOfOne(b, o.status, n);
  }

  /** The reachability entries so far alternate, and the last one says what the watch remembers. */
  ghost predicate Tracks(w: Row, r: seq<Kind>) {
    && Alternates(r)
    && (r != [] ==> w.lastReachable.Some? && r[|r| - 1] == if w.lastReachable.value then Recovered else Unreachable)
  }

  lemma TracksStep(w: Row, o: Observation, r: seq<Kind>, r': seq<Kind>)
    requires Tracks(w, r) && r' == r + ReachabilityKinds(w, o)
    ensures Tracks(Advance(w, o), r')
  {
    if ReachabilityKinds(w, o) == [] {
      assert r' == r;
    }
  }

  lemma FeedReachability(days: int, hist: seq<Observation>, i: nat)
    requires 0 < i <= |hist| && hist[i - 1].committed
    ensures Reachability(Feed(days, hist, i)) ==
            Reachability(Feed(days, hist, i - 1)) + ReachabilityKinds(After(days, hist, i - 1), hist[i - 1])
  {
    var (feed, w, o) := (Feed(days, hist, i - 1), After(days, hist, i - 1), hist[i - 1]);
    ReachabilityAppend(feed, Tagged(Kinds(w, o), o.status, i - 1));
    StepReachability(w, o, i - 1);
  }

  lemma FeedTracksNext(days: int, hist: seq<Observation>, i: nat)
    requires 0 < i <= |hist| && Tracks(After(days, hist, i - 1), Reachability(Feed(days, hist, i - 1)))
    ensures Tracks(After(days, hist, i), Reachability(Feed(days, hist, i)))
  {
    if hist[i - 1].committed {
      FeedReachability(days, hist, i);
      TracksStep(After(days, hist, i - 1), hist[i - 1], Reachability(Feed(days, hist, i - 1)),
                 Reachability(Feed(days, hist, i)));
    }
  }

  lemma {:induction false} FeedTracks(days: int, hist: seq<Observation>, i: nat)
    requires i <= |hist|
    ensures Tracks(After(days, hist, i), Reachability(Feed(days, hist, i)))
  {
    if i == 0 {
    } else {
      FeedTracks(days, hist, i - 1);
      FeedTracksNext(days, hist, i);
    }
  }

  /** An outage of any length is reported once, and recovery once after it. */
  lemma ReachabilityAlternates(days: int, hist: seq<Observation>)
    ensures Alternates(Reachability(Feed(days, hist, |hist|)))
  {
    FeedTracks(days, hist, |hist|);
  }

  lemma PreviousUpExists(hist: seq<Observation>, i: nat, j: nat) returns (p: nat)
    requires i < j <= |hist| && hist[i].committed && Up(hist[i])
    ensures i <= p && PreviousUp(hist, j, p)
  {
    p := j - 1;
    while !(hist[p].committed && Up(hist[p]))
      invariant i <= p < j
      invariant forall q :: p < q < j ==> !(hist[q].committed && Up(hist[q]))
      decreases p
    {
      p := p - 1;
    }
  }

  /**
   A change cannot be lost: whatever observations are rolled back between them, two committed
   reachable observations with different digests have a change event after the first and no later
   than the second.
   */
  lemma {:induction false} ChangeIsNeverLost(hist: seq<Observation>, i: nat, j: nat) returns (k: nat)
    requires i < j < |hist|
    requires hist[i].committed && Up(hist[i]) && hist[j].committed && Up(hist[j])
    requires forall q :: 0 <= q < |hist| && hist[q].committed && Up(hist[q]) ==> hist[q].digest.Some?
    requires hist[i].digest != hist[j].digest
    ensures i < k <= j && DiffersFromLastSeen(hist, k)
    decreases j
  {
    var p := PreviousUpExists(hist, i, j);
    if hist[p].digest != hist[j].digest {
      k := j;
    } else {
      k := ChangeIsNeverLost(hist, i, p);
    }
  }

  lemma DeclaredIsTagged(hist: seq<Observation>, k: nat)
    requires k < |hist| && DiffersFromLastSeen(hist, k)
    ensures Event(Changed, hist[k].status, k) in Tagged(DeclaredKinds(hist, k), hist[k].status, k)
  {
    var kinds := DeclaredKinds(hist, k);
    assert Tagged(kinds, hist[k].status, k)[|kinds| - 1] == Event(Changed, hist[k].status, k);
  }

  lemma {:induction false} PieceIsInConcat(pieces: seq<seq<Event>>, n: nat, k: nat, e: Event)
    requires k < n <= |pieces| && e in pieces[k]
    ensures e in Concat(pieces, n)
  {
    if k == n - 1 {
    } else {
      PieceIsInConcat(pieces, n - 1, k, e);
    }
  }

  lemma ChangeIsReported(days: int, hist: seq<Observation>, i: nat, j: nat)
    requires i < j < |hist|
    requires hist[i].committed && Up(hist[i]) && hist[j].committed && Up(hist[j])
    requires forall q :: 0 <= q < |hist| && hist[q].committed && Up(hist[q]) ==> hist[q].digest.Some?
    requires hist[i].digest != hist[j].digest
    ensures exists k :: i < k <= j && Event(Changed, hist[k].status, k) in Feed(days, hist, |hist|)
  {
    var k := ChangeIsNeverLost(hist, i, j);
    DeclaredIsTagged(hist, k);
    PieceIsInConcat(DeclaredPieces(hist), |hist|, k, Event(Changed, hist[k].status, k));
    FeedIsDeclared(days, hist, |hist|);
  }

  // ----- each kind of event, in terms of the observations -----

  lemma {:induction false} ConcatComesFromPiece(pieces: seq<seq<Event>>, n: nat, e: Event)
    requires n <= |pieces| && e in Concat(pieces, n)
    ensures exists k :: 0 <= k < n && e in pieces[k]
  {
    if e in pieces[n - 1] {
    } else {
      ConcatComesFromPiece(pieces, n - 1, e);
    }
  }

  lemma FeedHolds(days: int, hist: seq<Observation>, i: nat, kind: Kind)
    requires i < |hist|
    ensures Event(kind, hist[i].status, i) in Feed(days, hist, |hist|) <==> kind in DeclaredKinds(hist, i)
  {
    var (ps, e) := (DeclaredPieces(hist), Event(kind, hist[i].status, i));
    FeedIsDeclared(days, hist, |hist|);
    if kind in DeclaredKinds(hist, i) {
      var j :| 0 <= j < |DeclaredKinds(hist, i)| && DeclaredKinds(hist, i)[j] == kind;
      assert ps[i][j] == e;
      PieceIsInConcat(ps, |hist|, i, e);
    }
    if e in Feed(days, hist, |hist|) {
      ConcatComesFromPiece(ps, |hist|, e);
      var k :| 0 <= k < |hist| && e in ps[k];
      assert ps[k] == Tagged(DeclaredKinds(hist, k), hist[k].status, k);
    }
  }

  /** The site answered: it was reached, and not with an error status; a status of 0 is none at all. */
  predicate Answered(o: Observation) {
    o.reachable && !(o.status >= 400)
  }

  lemma UpIsAnswered(o: Observation)
    ensures Up(o) <==> Answered(o)
  {
  }

  /** `p` is the last committed observation before `i`, or the last of those at which the site answered. */
  ghost predicate LastBefore(hist: seq<Observation>, i: nat, p: nat, answered: bool) {
    && p < i <= |hist| && hist[p].committed && (answered ==> Answered(hist[p]))
    && forall j :: p < j < i ==> !(hist[j].committed && (answered ==> Answered(hist[j])))
  }

  /**
   For every history and any losses, observation `i` is reported as an outage exactly when it is the first
   committed one without an answer after one with, as a recovery exactly when it is the first with one
   after one without, and as a change exactly when its digest differs from that of the last answer
   before it.
   */
  lemma ReportedExactlyWhen(days: int, hist: seq<Observation>, i: nat)
    requires i < |hist|
    ensures Event(Unreachable, hist[i].status, i) in Feed(days, hist, |hist|) <==>
              && hist[i].committed && !Answered(hist[i])
              && exists p: nat :: LastBefore(hist, i, p, false) && Answered(hist[p])
    ensures Event(Recovered, hist[i].status, i) in Feed(days, hist, |hist|) <==>
              && hist[i].committed && Answered(hist[i])
              && exists p: nat :: LastBefore(hist, i, p, false) && !Answered(hist[p])
    ensures Event(Changed, hist[i].status, i) in Feed(days, hist, |hist|) <==>
              && hist[i].committed && Answered(hist[i]) && hist[i].digest.Some?
              && exists p: nat ::
                   LastBefore(hist, i, p, true) && hist[p].digest.Some? && hist[p].digest != hist[i].digest
  {
    FeedHolds(days, hist, i, Unreachable);
    FeedHolds(days, hist, i, Recovered);
    FeedHolds(days, hist, i, Changed);
    forall o ensures Up(o) <==> Answered(o) {
      UpIsAnswered(o);
    }
    forall p: nat
      ensures LastBefore(hist, i, p, false) <==> Previous(hist, i, p)
      ensures LastBefore(hist, i, p, true) <==> PreviousUp(hist, i, p)
    {
    }
    KindsDeclared(hist, i);
  }

  lemma KindsDeclared(hist: seq<Observation>, i: nat)
    requires i < |hist|
    ensures Unreachable in DeclaredKinds(hist, i) <==> WentDown(hist, i)
    ensures Recovered in DeclaredKinds(hist, i) <==> CameBack(hist, i)
    ensures Changed in DeclaredKinds(hist, i) <==> DiffersFromLastSeen(hist, i)
  {
  }
}
