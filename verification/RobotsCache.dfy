/**
 The shared cache of parsed robots.txt files.  A check locks the cache to look, fetches without the
 lock, locks it again to store and answers after that, while other workers do the same.
 */
module RobotsCache {
  import opened Wrappers

  type Host = string
  type Worker = nat

  const SECOND := 1_000_000_000
  const TTL := 3600 * SECOND

  /** A parsed file; `id` is its identity, since the program shares files by reference. */
  datatype File = File(id: nat, disallowed: seq<string>, crawlDelay: int, fetchedAt: int)

  ghost predicate Permits(f: File, path: string) {
    forall prefix :: prefix in f.disallowed ==> !(prefix <= (if path == "" then "/" else path))
  }

  method CheckPath(f: File, path: string) returns (ok: bool)
    ensures ok == Permits(f, path)
  {
    var p := if path == "" then "/" else path;
    var i := 0;
    while i < |f.disallowed|
      invariant 0 <= i <= |f.disallowed|
      invariant forall j :: 0 <= j < i ==> !(f.disallowed[j] <= p)
    {
      if f.disallowed[i] <= p {
        assert f.disallowed[i] in f.disallowed;
        return false;
      }
      i := i + 1;
    }
    return true;
  }

  // ----- the two critical sections -----

  predicate Fresh(m: map<Host, File>, host: Host, now: int) {
    host in m && now - m[host].fetchedAt <= TTL
  }

  /** Looking drops an expired entry. */
  function AfterLook(m: map<Host, File>, host: Host, now: int): map<Host, File> {
    if Fresh(m, host, now) then m else m - {host}
  }

  ghost predicate IsOldest(m: map<Host, File>, h: Host) {
    h in m && forall o :: o in m ==> m[h].fetchedAt <= m[o].fetchedAt
  }

  /** A full cache gives up one of its oldest entries, another one none. */
  ghost predicate Evicts(m: map<Host, File>, maxSize: nat, victim: Option<Host>) {
    if |m| < maxSize then victim.None? else victim.Some? && IsOldest(m, victim.value)
  }

  function AfterStore(m: map<Host, File>, host: Host, f: File, victim: Option<Host>): map<Host, File> {
    (if victim.Some? then m - {victim.value} else m)[host := f]
  }

  /**
   Removes an entry that was fetched no later than any other, if and only if there is one whose host is
   not empty: the empty key stands for "none yet", so such an entry may stay, or have another removed
   instead.
   */
  method EvictOldest(m: map<Host, File>) returns (m': map<Host, File>, victim: Option<Host>)
    ensures m' == if victim.Some? then m - {victim.value} else m
    ensures victim.Some? ==> victim.value in m && victim.value != ""
    ensures victim.Some? && IsOldest(m, victim.value) <==> exists h :: h != "" && IsOldest(m, h)
  {
    var oldestKey, oldestTime := "", 0;
    var todo := m.Keys;
    while todo != {}
      invariant todo <= m.Keys
      invariant oldestKey != "" ==> oldestKey in m && m[oldestKey].fetchedAt == oldestTime
      invariant forall h :: h != "" && IsOldest(m, h) && h !in todo ==>
                  oldestKey != "" && oldestTime == m[h].fetchedAt
      decreases todo
    {
      var k :| k in todo;
      if oldestKey == "" || m[k].fetchedAt < oldestTime {
        oldestKey, oldestTime := k, m[k].fetchedAt;
      }
      todo := todo - {k};
    }
    if oldestKey != "" {
      return m - {oldestKey}, Some(oldestKey);
    }
    return m, None;
  }

  /** Without an empty host there is always an oldest entry to remove. */
  lemma {:induction false} OldestExists(m: map<Host, File>, keys: set<Host>) returns (h: Host)
    requires keys != {} && keys <= m.Keys
    ensures h in keys && forall o :: o in keys ==> m[h].fetchedAt <= m[o].fetchedAt
    decreases keys
  {
    h :| h in keys;
    if keys == {h} {
    } else {
      var o := OldestExists(m, keys - {h});
      if m[o].fetchedAt < m[h].fetchedAt {
        h := o;
      }
    }
  }

  /** An entry with the empty host that is older than all others is never removed by `EvictOldest`. */
  lemma EmptyHostIsPassedOver(m: map<Host, File>)
    requires "" in m && forall o :: o in m && o != "" ==> m[""].fetchedAt < m[o].fetchedAt
    ensures !exists h :: h != "" && IsOldest(m, h)
  {
  }

  /** Within capacity, and every entry is the last file stored for its host. */
  ghost predicate CacheOk(m: map<Host, File>, stored: map<Host, File>, maxSize: nat) {
    && 0 < maxSize && |m| <= maxSize && "" !in m
    && forall h :: h in m ==> h in stored && stored[h] == m[h]
  }

  lemma LookKeepsCache(m: map<Host, File>, stored: map<Host, File>, maxSize: nat, host: Host, now: int)
    requires CacheOk(m, stored, maxSize)
    ensures CacheOk(AfterLook(m, host, now), stored, maxSize)
  {
    SmallerWithout(m, host);
  }

  lemma StoreKeepsCache(m: map<Host, File>, stored: map<Host, File>, maxSize: nat,
                        host: Host, f: File, victim: Option<Host>)
    requires CacheOk(m, stored, maxSize) && host != "" && Evicts(m, maxSize, victim)
    ensures CacheOk(AfterStore(m, host, f, victim), stored[host := f], maxSize)
  {
    var room := if victim.Some? then m - {victim.value} else m;
    if victim.Some? {
      SmallerWithout(m, victim.value);
    }
    OneMore(room, host, f);
  }

  lemma SmallerWithout(m: map<Host, File>, h: Host)
    ensures |m - {h}| == if h in m then |m| - 1 else |m|
  {
    assert (m - {h}).Keys == m.Keys - {h};
    assert |m - {h}| == |(m - {h}).Keys| && |m| == |m.Keys|;
  }

  lemma OneMore(m: map<Host, File>, h: Host, f: File)
    ensures |m[h := f]| <= |m| + 1
  {
    assert m[h := f].Keys == m.Keys + {h};
    assert |m[h := f]| == |m[h := f].Keys| && |m| == |m.Keys|;
  }

  /** `stored` is history: the last file kept for each host. */
  class Cache {
    var entries: map<Host, File>
    const maxSize: nat
    ghost var stored: map<Host, File>

    ghost predicate Valid()
      reads this
    {
      CacheOk(entries, stored, maxSize)
    }

    constructor ()
      ensures Valid() && entries == map[] && maxSize == 500
    {
      entries, stored, maxSize := map[], map[], 500;
    }

    /** An answer is the last file stored for the host and at most an hour old; an older one is dropped. */
    method Look(host: Host, now: int) returns (f: Option<File>)
      requires Valid()
      modifies this
      ensures Valid() && stored == old(stored) && entries == AfterLook(old(entries), host, now)
      ensures entries == if f.Some? then old(entries) else old(entries) - {host}
      ensures f.Some? <==> host in old(entries) && now - old(entries)[host].fetchedAt <= 3_600_000_000_000
      ensures f.Some? ==> host in stored && f.value == stored[host] && now - f.value.fetchedAt <= 3_600_000_000_000
    {
      LookKeepsCache(entries, stored, maxSize, host, now);
      if host in entries && now - entries[host].fetchedAt > TTL {
        entries := entries - {host};
      }
      if host in entries {
        return Some(entries[host]);
      }
      assert entries - {host} == entries;
      return None;
    }

    /** Keeps a fetched file, first evicting an oldest entry when the cache is full. */
    method Store(host: Host, f: File) returns (victim: Option<Host>)
      requires Valid() && host != ""
      modifies this
      ensures Valid() && stored == old(stored)[host := f]
      ensures Evicts(old(entries), maxSize, victim) && entries == AfterStore(old(entries), host, f, victim)
    {
      victim := None;
      ghost var before := entries;
      if |entries| >= maxSize {
        assert |entries.Keys| == |entries| > 0;
        ghost var oldest := OldestExists(entries, entries.Keys);
        assert oldest != "" && IsOldest(entries, oldest);
        entries, victim := EvictOldest(entries);
      }
      entries := entries[host := f];
      StoreKeepsCache(before, stored, maxSize, host, f, victim);
      stored := stored[host := f];
    }
  }

  // ----- any number of checks at once -----

  /** Where a check is between its critical sections. */
  datatype Stage =
    | Missed(since: int)     // found nothing fresh and is fetching
    | Fetched(file: File)    // has a file and has not stored it yet
    | Ready(file: File)      // answers from this file

  datatype Check = Check(host: Host, stage: Stage)

  /** `stored` and `published` are history: the last file stored for each host, and all files ever stored. */
  datatype State = State(now: int, entries: map<Host, File>, stored: map<Host, File>,
                         published: set<nat>, nextId: nat, checks: map<Worker, Check>)

  datatype Action =
    | Tick(nanos: nat)
    | Look(w: Worker, host: Host)
    | Fetch(w: Worker, disallowed: seq<string>, crawlDelay: int, fetchedAt: int)
    | Store(w: Worker, victim: Option<Host>)
    | Answer(w: Worker)

  ghost predicate Enabled(maxSize: nat, s: State, a: Action) {
    match a
    case Tick(_) => true
    case Look(w, host) => w !in s.checks && host != ""
    case Fetch(w, _, _, at) =>
      w in s.checks && s.checks[w].stage.Missed? && s.checks[w].stage.since <= at <= s.now
    case Store(w, victim) => w in s.checks && s.checks[w].stage.Fetched? && Evicts(s.entries, maxSize, victim)
    case Answer(w) => w in s.checks && s.checks[w].stage.Ready?
  }

  function AtStage(s: State, w: Worker, stage: Stage): State
    requires w in s.checks
  {
    s.(checks := s.checks[w := s.checks[w].(stage := stage)])
  }

  ghost function Apply(maxSize: nat, s: State, a: Action): State
    requires Enabled(maxSize, s, a)
  {
    match a
    case Tick(d) => s.(now := s.now + d)
    case Look(w, host) =>
      s.(entries := AfterLook(s.entries, host, s.now),
         checks := s.checks[w :=
           Check(host, if Fresh(s.entries, host, s.now) then Ready(s.entries[host]) else Missed(s.now))])
    case Fetch(w, rules, delay, at) => AtStage(s, w, Fetched(File(s.nextId, rules, delay, at))).(nextId := s.nextId + 1)
    case Store(w, victim) =>
      var (host, f) := (s.checks[w].host, s.checks[w].stage.file);
      AtStage(s, w, Ready(f)).(entries := AfterStore(s.entries, host, f, victim), stored := s.stored[host := f],
                               published := s.published + {f.id})
    case Answer(w) => s.(checks := s.checks - {w})
  }

  ghost predicate Run(maxSize: nat, ss: seq<State>, acts: seq<Action>) {
    && |ss| == |acts| + 1
    && forall i :: 0 <= i < |acts| ==> Enabled(maxSize, ss[i], acts[i]) && ss[i + 1] == Apply(maxSize, ss[i], acts[i])
  }

  function Empty(now: int): State {
    State(now, map[], map[], {}, 0, map[])
  }

  // ----- the invariant -----

  ghost predicate CheckOk(c: Check, published: set<nat>, nextId: nat) {
    && c.host != ""
    && match c.stage
       case Missed(_) => true
       case Fetched(f) => f.id < nextId && f.id !in published
       case Ready(f) => f.id in published
  }

  ghost predicate SameUnpublished(a: Check, b: Check) {
    a.stage.Fetched? && b.stage.Fetched? && a.stage.file.id == b.stage.file.id
  }

  /** No two checks hold the same unpublished file. */
  ghost predicate ChecksOk(checks: map<Worker, Check>, published: set<nat>, nextId: nat) {
    && (forall w :: w in checks ==> CheckOk(checks[w], published, nextId))
    && (forall v, w :: v in checks && w in checks && v != w ==> !SameUnpublished(checks[v], checks[w]))
  }

  ghost predicate HistoryOk(stored: map<Host, File>, published: set<nat>, nextId: nat) {
    && (forall h :: h in stored ==> stored[h].id in published)
    && (forall id :: id in published ==> id < nextId)
  }

  ghost predicate Inv(maxSize: nat, s: State) {
    && CacheOk(s.entries, s.stored, maxSize)
    && HistoryOk(s.stored, s.published, s.nextId)
    && ChecksOk(s.checks, s.published, s.nextId)
  }

  lemma StepKeepsCache(maxSize: nat, s: State, a: Action)
    requires Inv(maxSize, s) && Enabled(maxSize, s, a)
    ensures CacheOk(Apply(maxSize, s, a).entries, Apply(maxSize, s, a).stored, maxSize)
  {
    if a.Look? {
      LookKeepsCache(s.entries, s.stored, maxSize, a.host, s.now);
    } else if a.Store? {
      assert CheckOk(s.checks[a.w], s.published, s.nextId);
      StoreKeepsCache(s.entries, s.stored, maxSize, s.checks[a.w].host, s.checks[a.w].stage.file, a.victim);
    }
  }

  lemma StepKeepsHistory(maxSize: nat, s: State, a: Action)
    requires Inv(maxSize, s) && Enabled(maxSize, s, a)
    ensures HistoryOk(Apply(maxSize, s, a).stored, Apply(maxSize, s, a).published, Apply(maxSize, s, a).nextId)
  {
    assert a.Store? ==> CheckOk(s.checks[a.w], s.published, s.nextId);
  }

  /** A check that moves on keeps its file apart from those of the others. */
  lemma MoveKeepsChecks(checks: map<Worker, Check>, w: Worker, c: Check, published: set<nat>, nextId: nat,
                        published': set<nat>, nextId': nat)
    requires ChecksOk(checks, published, nextId) && CheckOk(c, published', nextId') && nextId <= nextId'
    requires published <= published'
    requires forall v :: v in checks && v != w ==> !SameUnpublished(checks[v], c)
    requires forall v :: v in checks && v != w && checks[v].stage.Fetched? ==> checks[v].stage.file.id !in published'
    ensures ChecksOk(checks[w := c], published', nextId')
  {
    forall v | v in checks && v != w ensures CheckOk(checks[v], published', nextId') {
      assert CheckOk(checks[v], published, nextId);
    }
  }

  lemma FetchKeepsChecks(maxSize: nat, s: State, a: Action)
    requires Inv(maxSize, s) && a.Fetch? && Enabled(maxSize, s, a)
    ensures ChecksOk(Apply(maxSize, s, a).checks, s.published, s.nextId + 1)
  {
    var c := Apply(maxSize, s, a).checks[a.w];
    forall v | v in s.checks && v != a.w ensures !SameUnpublished(s.checks[v], c) {
      assert CheckOk(s.checks[v], s.published, s.nextId);
    }
    assert CheckOk(s.checks[a.w], s.published, s.nextId);
    MoveKeepsChecks(s.checks, a.w, c, s.published, s.nextId, s.published, s.nextId + 1);
  }

  lemma StoreKeepsChecks(maxSize: nat, s: State, a: Action)
    requires Inv(maxSize, s) && a.Store? && Enabled(maxSize, s, a)
    ensures ChecksOk(Apply(maxSize, s, a).checks, Apply(maxSize, s, a).published, s.nextId)
  {
    var (c, s') := (s.checks[a.w], Apply(maxSize, s, a));
    assert CheckOk(c, s.published, s.nextId);
    forall v | v in s.checks && v != a.w && s.checks[v].stage.Fetched?
      ensures s.checks[v].stage.file.id !in s'.published
    {
      assert CheckOk(s.checks[v], s.published, s.nextId) && !SameUnpublished(s.checks[v], c);
    }
    MoveKeepsChecks(s.checks, a.w, s'.checks[a.w], s.published, s.nextId, s'.published, s.nextId);
  }

  lemma LookKeepsChecks(maxSize: nat, s: State, a: Action)
    requires Inv(maxSize, s) && a.Look? && Enabled(maxSize, s, a)
    ensures ChecksOk(Apply(maxSize, s, a).checks, s.published, s.nextId)
  {
    var c := Apply(maxSize, s, a).checks[a.w];
    assert c.stage.Ready? ==> s.stored[a.host] == c.stage.file;
    MoveKeepsChecks(s.checks, a.w, c, s.published, s.nextId, s.published, s.nextId);
  }

  lemma StepKeepsInv(maxSize: nat, s: State, a: Action)
    requires Inv(maxSize, s) && Enabled(maxSize, s, a)
    ensures Inv(maxSize, Apply(maxSize, s, a))
  {
    StepKeepsCache(maxSize, s, a);
    StepKeepsHistory(maxSize, s, a);
    match a
    case Tick(_) =>
    case Look(_, _) => LookKeepsChecks(maxSize, s, a);
    case Fetch(_, _, _, _) => FetchKeepsChecks(maxSize, s, a);
    case Store(_, _) => StoreKeepsChecks(maxSize, s, a);
    case Answer(_) =>
  }

  lemma {:induction false} RunKeepsInv(maxSize: nat, ss: seq<State>, acts: seq<Action>, i: nat)
    requires Run(maxSize, ss, acts) && Inv(maxSize, ss[0]) && i < |ss|
    ensures Inv(maxSize, ss[i])
  {
    if i == 0 {
    } else {
      RunKeepsInv(maxSize, ss, acts, i - 1);
      StepKeepsInv(maxSize, ss[i - 1], acts[i - 1]);
    }
  }

  /** In every interleaving the cache is within capacity and holds only last stored files. */
  lemma CacheIsBounded(maxSize: nat, ss: seq<State>, acts: seq<Action>, i: nat)
    requires 0 < maxSize && Run(maxSize, ss, acts) && ss[0] == Empty(ss[0].now) && i < |ss|
    ensures |ss[i].entries| <= maxSize
    ensures forall h :: h in ss[i].entries ==> h in ss[i].stored && ss[i].entries[h] == ss[i].stored[h]
  {
    RunKeepsInv(maxSize, ss, acts, i);
  }

  // ----- which file answers -----

  ghost predicate StoresTo(s: State, a: Action, h: Host) {
    a.Store? && a.w in s.checks && s.checks[a.w].host == h
  }

  ghost predicate IsLast(s: State, h: Host, f: File) {
    h in s.stored && s.stored[h] == f
  }

  lemma StepKeepsLast(maxSize: nat, s: State, a: Action, h: Host, f: File)
    requires Inv(maxSize, s) && Enabled(maxSize, s, a) && f.id in s.published
    ensures IsLast(Apply(maxSize, s, a), h, f) <==> IsLast(s, h, f) && !StoresTo(s, a, h)
    ensures f.id in Apply(maxSize, s, a).published
  {
    if StoresTo(s, a, h) {
      assert CheckOk(s.checks[a.w], s.published, s.nextId);
    }
  }

  /** Somebody stores for `h` at one of the steps from `i` up to `j`. */
  ghost predicate StoredBetween(ss: seq<State>, acts: seq<Action>, i: nat, j: nat, h: Host)
    requires j <= |ss| && j <= |acts|
  {
    i < j && (StoresTo(ss[j - 1], acts[j - 1], h) || StoredBetween(ss, acts, i, j - 1, h))
  }

  lemma LastIsPublished(maxSize: nat, s: State, h: Host, f: File)
    requires Inv(maxSize, s) && IsLast(s, h, f)
    ensures f.id in s.published
  {
  }

  lemma RunKeepsLast(maxSize: nat, ss: seq<State>, acts: seq<Action>, i: nat, h: Host, f: File)
    requires Run(maxSize, ss, acts) && Inv(maxSize, ss[0]) && i < |acts| && f.id in ss[i].published
    ensures IsLast(ss[i + 1], h, f) <==> IsLast(ss[i], h, f) && !StoresTo(ss[i], acts[i], h)
    ensures f.id in ss[i + 1].published
  {
    RunKeepsInv(maxSize, ss, acts, i);
    StepKeepsLast(maxSize, ss[i], acts[i], h, f);
  }

  /** A file that was the last one stays it exactly until somebody stores for the host: no file is stored twice. */
  lemma {:induction false} LastUntilStored(maxSize: nat, ss: seq<State>, acts: seq<Action>, i: nat, j: nat,
                                           h: Host, f: File)
    requires Run(maxSize, ss, acts) && Inv(maxSize, ss[0]) && i <= j < |ss| && IsLast(ss[i], h, f)
    ensures IsLast(ss[j], h, f) <==> !StoredBetween(ss, acts, i, j, h)
    ensures f.id in ss[j].published
    decreases j
  {
    if i == j {
      RunKeepsInv(maxSize, ss, acts, i);
      LastIsPublished(maxSize, ss[i], h, f);
    } else {
      LastUntilStored(maxSize, ss, acts, i, j - 1, h, f);
      RunKeepsLast(maxSize, ss, acts, j - 1, h, f);
    }
  }

  /** At step `k` worker `w` stores `f` for `h`. */
  ghost predicate StoredAt(ss: seq<State>, acts: seq<Action>, k: nat, w: Worker, h: Host, f: File) {
    && k < |acts| && k < |ss|
    && acts[k].Store? && acts[k].w == w
    && w in ss[k].checks && ss[k].checks[w] == Check(h, Fetched(f))
  }

  /** What the check that worker `w` began at step `j` has in hand at step `i`. */
  ghost predicate Traced(ss: seq<State>, acts: seq<Action>, j: nat, i: nat, w: Worker, h: Host)
    requires j < i < |ss|
  {
    && w in ss[i].checks && ss[i].checks[w].host == h
    && var hit := Fresh(ss[j].entries, h, ss[j].now);
       match ss[i].checks[w].stage
       case Missed(since) => !hit && since == ss[j].now
       case Fetched(f) => !hit && ss[j].now <= f.fetchedAt
       case Ready(f) =>
         if hit then f == ss[j].entries[h]
         else ss[j].now <= f.fetchedAt && exists k :: j < k < i && StoredAt(ss, acts, k, w, h, f)
  }

  lemma StepTraced(maxSize: nat, ss: seq<State>, acts: seq<Action>, j: nat, i: nat, w: Worker, h: Host)
    requires Run(maxSize, ss, acts) && j < i < |acts| && Traced(ss, acts, j, i, w, h) && acts[i] != Answer(w)
    ensures Traced(ss, acts, j, i + 1, w, h)
  {
    assert Enabled(maxSize, ss[i], acts[i]) && ss[i + 1] == Apply(maxSize, ss[i], acts[i]);
    var c := ss[i].checks[w];
    if acts[i].Store? && acts[i].w == w {
      assert StoredAt(ss, acts, i, w, h, c.stage.file);
    } else if c.stage.Ready? && !Fresh(ss[j].entries, h, ss[j].now) {
      var k :| j < k < i && StoredAt(ss, acts, k, w, h, c.stage.file);
      assert j < k < i + 1;
    }
  }

  lemma {:induction false} CheckIsTraced(maxSize: nat, ss: seq<State>, acts: seq<Action>, j: nat, i: nat,
                                         w: Worker, h: Host)
    requires Run(maxSize, ss, acts) && j < i < |ss| && acts[j] == Look(w, h)
    requires forall k :: j < k < i ==> acts[k] != Answer(w)
    ensures Traced(ss, acts, j, i, w, h)
    decreases i
  {
    if i == j + 1 {
    } else {
      CheckIsTraced(maxSize, ss, acts, j, i - 1, w, h);
      StepTraced(maxSize, ss, acts, j, i - 1, w, h);
    }
  }

  /** The file a check that is about to answer answers from, for the path verdict and the crawl delay alike. */
  function FileOf(s: State, w: Worker): File
    requires w in s.checks && s.checks[w].stage.Ready?
  {
    s.checks[w].stage.file
  }

  /**
   In every interleaving of any workers: a check that finds a fresh entry at step `j` is answered by
   the last file stored for its host at that moment, at most an hour old.
   */
  lemma HitIsAnswered(maxSize: nat, ss: seq<State>, acts: seq<Action>, j: nat, i: nat, w: Worker, h: Host)
    requires Run(maxSize, ss, acts) && Inv(maxSize, ss[0]) && j < i < |acts|
    requires acts[j] == Look(w, h) && acts[i] == Answer(w) && forall k :: j < k < i ==> acts[k] != Answer(w)
    requires h in ss[j].entries && ss[j].now - ss[j].entries[h].fetchedAt <= 3_600_000_000_000
    ensures var f := FileOf(ss[i], w);
            && IsLast(ss[j], h, f) && ss[j].now - f.fetchedAt <= 3_600_000_000_000
            && (IsLast(ss[i], h, f) <==> !StoredBetween(ss, acts, j, i, h))
  {
    CheckIsTraced(maxSize, ss, acts, j, i, w, h);
    RunKeepsInv(maxSize, ss, acts, j);
    LastUntilStored(maxSize, ss, acts, j, i, h, FileOf(ss[i], w));
  }

  /**
   At step `m` worker `w` stores `f`, the file it began to fetch after looking at step `j`; at step `i`
   this is still the last file stored for `h` if and only if nobody stored one in between.
   */
  ghost predicate OwnFile(ss: seq<State>, acts: seq<Action>, j: nat, m: nat, i: nat, w: Worker, h: Host, f: File)
    requires j < m < i < |acts| < |ss|
  {
    && StoredAt(ss, acts, m, w, h, f) && IsLast(ss[m + 1], h, f) && ss[j].now <= f.fetchedAt
    && (IsLast(ss[i], h, f) <==> !StoredBetween(ss, acts, m + 1, i, h))
  }

  /**
   A check that finds none is answered by the file it fetched and stored itself.  When it answers, that
   file is still the last one stored for the host if and only if nobody else stored one since.
   */
  lemma MissIsAnswered(maxSize: nat, ss: seq<State>, acts: seq<Action>, j: nat, i: nat, w: Worker, h: Host)
    requires Run(maxSize, ss, acts) && Inv(maxSize, ss[0]) && j < i < |acts|
    requires acts[j] == Look(w, h) && acts[i] == Answer(w) && forall k :: j < k < i ==> acts[k] != Answer(w)
    requires h in ss[j].entries ==> ss[j].now - ss[j].entries[h].fetchedAt > 3_600_000_000_000
    ensures exists m :: j < m < i && OwnFile(ss, acts, j, m, i, w, h, FileOf(ss[i], w))
  {
    CheckIsTraced(maxSize, ss, acts, j, i, w, h);
    var f := FileOf(ss[i], w);
    var m :| j < m < i && StoredAt(ss, acts, m, w, h, f);
    OwnFileIsLast(maxSize, ss, acts, m, i, w, h, f);
    assert OwnFile(ss, acts, j, m, i, w, h, f);
  }

  lemma OwnFileIsLast(maxSize: nat, ss: seq<State>, acts: seq<Action>, m: nat, i: nat, w: Worker, h: Host, f: File)
    requires Run(maxSize, ss, acts) && Inv(maxSize, ss[0]) && m < i < |acts| && StoredAt(ss, acts, m, w, h, f)
    ensures IsLast(ss[m + 1], h, f) && (IsLast(ss[i], h, f) <==> !StoredBetween(ss, acts, m + 1, i, h))
  {
    assert ss[m + 1] == Apply(maxSize, ss[m], acts[m]);
    LastUntilStored(maxSize, ss, acts, m + 1, i, h, f);
  }

  lemma RunGrows(maxSize: nat, ss: seq<State>, acts: seq<Action>, a: Action)
    requires Run(maxSize, ss, acts) && Enabled(maxSize, ss[|acts|], a)
    ensures Run(maxSize, ss + [Apply(maxSize, ss[|acts|], a)], acts + [a])
  {
    var (ss', acts') := (ss + [Apply(maxSize, ss[|acts|], a)], acts + [a]);
    forall i | 0 <= i < |acts'|
      ensures Enabled(maxSize, ss'[i], acts'[i]) && ss'[i + 1] == Apply(maxSize, ss'[i], acts'[i])
    {
      assert ss'[i] == ss[i] && (i < |acts| ==> acts'[i] == acts[i] && ss'[i + 1] == ss[i + 1]);
    }
  }

  /** Workers 1 and 2 both miss on `h`. */
  lemma TwoLooks(h: Host) returns (ss: seq<State>, acts: seq<Action>)
    requires h != ""
    ensures Run(500, ss, acts) && ss[0] == Empty(0) && |acts| == 2
    ensures ss[2] == Empty(0).(checks := map[1 := Check(h, Missed(0)), 2 := Check(h, Missed(0))])
  {
    ss, acts := [Empty(0)], [];
    RunGrows(500, ss, acts, Look(1, h));
    ss, acts := ss + [Apply(500, ss[0], Look(1, h))], acts + [Look(1, h)];
    RunGrows(500, ss, acts, Look(2, h));
    ss, acts := ss + [Apply(500, ss[1], Look(2, h))], acts + [Look(2, h)];
    assert ss[0].entries - {h} == ss[0].entries;
  }

  /** They fetch different files. */
  lemma TwoFetches(h: Host, path: string) returns (ss: seq<State>, acts: seq<Action>)
    requires h != ""
    ensures Run(500, ss, acts) && ss[0] == Empty(0) && |acts| == 4 && ss[4].entries == map[]
    ensures ss[4].checks == map[1 := Check(h, Fetched(File(0, [path], 0, 0))),
                                2 := Check(h, Fetched(File(1, [], 0, 0)))]
  {
    ss, acts := TwoLooks(h);
    RunGrows(500, ss, acts, Fetch(1, [path], 0, 0));
    ss, acts := ss + [Apply(500, ss[2], Fetch(1, [path], 0, 0))], acts + [Fetch(1, [path], 0, 0)];
    RunGrows(500, ss, acts, Fetch(2, [], 0, 0));
    ss, acts := ss + [Apply(500, ss[3], Fetch(2, [], 0, 0))], acts + [Fetch(2, [], 0, 0)];
  }

  /**
   Two workers miss on one host and store different files: the first answers from its own file, which
   forbids the path, although the last file stored for the host allows it.
   */
  lemma TwoMisses(h: Host, path: string) returns (ss: seq<State>, acts: seq<Action>)
    requires h != "" && path != ""
    ensures Run(500, ss, acts) && ss[0] == Empty(0) && |acts| == 7 && acts[6] == Answer(1)
    ensures !Permits(FileOf(ss[6], 1), path) && h in ss[6].stored && Permits(ss[6].stored[h], path)
  {
    ss, acts := TwoFetches(h, path);
    RunGrows(500, ss, acts, Store(1, None));
    ss, acts := ss + [Apply(500, ss[4], Store(1, None))], acts + [Store(1, None)];
    OneMore(map[], h, File(0, [path], 0, 0));
    RunGrows(500, ss, acts, Store(2, None));
    ss, acts := ss + [Apply(500, ss[5], Store(2, None))], acts + [Store(2, None)];
    assert path in FileOf(ss[6], 1).disallowed;
    RunGrows(500, ss, acts, Answer(1));
    ss, acts := ss + [Apply(500, ss[6], Answer(1))], acts + [Answer(1)];
  }

  /**
   A check with the cache to itself.  The path verdict is that of the last file stored for the host;
   `HitIsAnswered` and `MissIsAnswered` say what is left of this when others use the cache meanwhile.
   */
  method IsAllowed(cache: Cache, host: Host, path: string, now: int, fetched: File)
    returns (ok: bool, ghost used: File)
    requires cache.Valid() && host != ""
    modifies cache
    ensures cache.Valid() && ok == Permits(used, path)
    ensures host in cache.stored && cache.stored[host] == used
    ensures used == if Fresh(old(cache.entries), host, now) then old(cache.entries)[host] else fetched
  {
    var hit := cache.Look(host, now);
    var file := fetched;
    if hit.Some? {
      file := hit.value;
    } else {
      var _ := cache.Store(host, fetched);
    }
    used := file;
    ok := CheckPath(file, path);
  }
}
