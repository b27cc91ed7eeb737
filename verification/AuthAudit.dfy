/**
 The authentication audit log is also the state behind the login lockout and the mail caps.  Times
 are seconds; requests are handled one after the other and every audit write succeeds.
 */
module AuthAudit {

  type Ref = string

  datatype Event = LoginFail | LoginOk | LoginLocked | LoginUnverified | RegisterOk | RegisterFail | ResetRequest

  datatype Entry = Entry(event: Event, ref: Ref, at: int)

  /** What the credentials of a login attempt turn out to be worth. */
  datatype Credentials = Wrong | NotVerified | CodeMissing | Right

  datatype Request =
    | Login(ref: Ref, credentials: Credentials)
    | Register(ref: Ref, created: bool)
    | RequestReset(ref: Ref, found: bool)
    | PurgeHistory(ref: Ref)
    | PurgeOld(days: nat)

  /** `counted` is the clock when the throttle is read, `logged` when the entry is written. */
  datatype Timed = Timed(request: Request, counted: int, logged: int)

  datatype Outcome = Throttled | Refused | Done

  const MINUTE := 60
  const LOCKOUT_MINUTES := 15
  const LOCKOUT_FAILURES := 5
  const MAIL_MINUTES := 60
  const MAIL_CAP := 3
  const HELD_BACK := 2 * 60 * MINUTE
  const DAY := 24 * 60 * MINUTE

  // ----- counting -----

  /** The conditions under which statements and claims here select entries. */
  datatype Condition =
    | Recent(event: Event, ref: Ref, since: int)         // one kind of event of one address, since a moment
    | Live(now: int)                                     // some throttle may still look at it
    | FailureWithin(ref: Ref, end: int)                  // a login failure in the fifteen minutes up to `end`
    | KeptByHistoryPurge(ref: Ref, now: int)
    | KeptByOldPurge(days: nat, now: int)

  /** An account without an address has no history to purge. */
  predicate Holds(c: Condition, e: Entry) {
    match c
    case Recent(event, ref, since) => e.event == event && e.ref == ref && e.at > since
    case Live(now) => Throttling(e.event) && e.at > now - HELD_BACK
    case FailureWithin(ref, end) =>
      e.event == LoginFail && e.ref == ref && end - LOCKOUT_MINUTES * MINUTE < e.at <= end
    case KeptByHistoryPurge(ref, now) =>
      !(ref != "" && e.ref == ref && !(Throttling(e.event) && e.at > now - HELD_BACK))
    case KeptByOldPurge(days, now) => !(e.at < now - days * DAY)
  }

  /** The entries among the first `n` for which `p` holds, in order. */
  function FilterTo(s: seq<Entry>, p: Condition, n: nat): seq<Entry>
    requires n <= |s|
  {
    if n == 0 then [] else FilterTo(s, p, n - 1) + (if Holds(p, s[n - 1]) then [s[n - 1]] else [])
  }

  function Filter(s: seq<Entry>, p: Condition): seq<Entry> {
    FilterTo(s, p, |s|)
  }

  function CountRecent(log: seq<Entry>, event: Event, ref: Ref, minutes: int, now: int): nat {
    |Filter(log, Recent(event, ref, now - minutes * MINUTE))|
  }

  /** The positions, among the first `n`, of the entries of one kind and address after a moment. */
  function SinceTo(log: seq<Entry>, event: Event, ref: Ref, after: int, n: nat): set<int>
    requires n <= |log|
  {
    set i | 0 <= i < n && log[i].event == event && log[i].ref == ref && log[i].at > after
  }

  function Since(log: seq<Entry>, event: Event, ref: Ref, after: int): set<int> {
    SinceTo(log, event, ref, after, |log|)
  }

  lemma SinceOneMore(log: seq<Entry>, event: Event, ref: Ref, after: int, n: nat)
    requires 0 < n <= |log|
    ensures |SinceTo(log, event, ref, after, n)| ==
            |SinceTo(log, event, ref, after, n - 1)| + (if Holds(Recent(event, ref, after), log[n - 1]) then 1 else 0)
  {
    var before := SinceTo(log, event, ref, after, n - 1);
    assert SinceTo(log, event, ref, after, n) ==
           if Holds(Recent(event, ref, after), log[n - 1]) then before + {n - 1} else before;
  }

  lemma {:induction false} FilterCounts(log: seq<Entry>, event: Event, ref: Ref, after: int, n: nat)
    requires n <= |log|
    ensures |FilterTo(log, Recent(event, ref, after), n)| == |SinceTo(log, event, ref, after, n)|
  {
    if n == 0 {
      assert SinceTo(log, event, ref, after, 0) == {};
    } else {
      FilterCounts(log, event, ref, after, n - 1);
      SinceOneMore(log, event, ref, after, n);
    }
  }

  /** What is counted: the entries of that kind and address in the last so many minutes. */
  lemma CountIs(log: seq<Entry>, event: Event, ref: Ref, minutes: int, now: int)
    ensures CountRecent(log, event, ref, minutes, now) == |Since(log, event, ref, now - minutes * 60)|
  {
    FilterCounts(log, event, ref, now - minutes * 60, |log|);
  }

  predicate Throttling(e: Event) {
    e == LoginFail || e == RegisterOk || e == ResetRequest
  }

  // ----- handling one request -----

  predicate IsPurge(x: Timed) {
    x.request.PurgeHistory? || x.request.PurgeOld?
  }

  /** The event a request is throttled by, how far back it is counted and how many are allowed. */
  function Watched(r: Request): Event {
    match r
    case Login(_, _) => LoginFail
    case Register(_, _) => RegisterOk
    case _ => ResetRequest
  }

  function Minutes(r: Request): nat {
    if r.Login? then LOCKOUT_MINUTES else MAIL_MINUTES
  }

  function Allowed(r: Request): nat {
    if r.Login? then LOCKOUT_FAILURES else MAIL_CAP
  }

  predicate IsThrottled(log: seq<Entry>, x: Timed)
    requires !IsPurge(x)
  {
    CountRecent(log, Watched(x.request), x.request.ref, Minutes(x.request), x.counted) >= Allowed(x.request)
  }

  function Judge(r: Request, throttled: bool): Outcome {
    if throttled then Throttled
    else
      match r
      case Login(_, c) => if c == Right then Done else Refused
      case Register(_, created) => if created then Done else Refused
      case RequestReset(_, found) => if found then Done else Refused
      case PurgeHistory(_) => Done
      case PurgeOld(_) => Done
  }

  function Decide(log: seq<Entry>, x: Timed): Outcome {
    Judge(x.request, !IsPurge(x) && IsThrottled(log, x))
  }

  /** What the handler writes once it has decided. */
  function Logged(x: Timed, o: Outcome): seq<Entry> {
    match x.request
    case Login(ref, c) =>
      if o == Throttled then [Entry(LoginLocked, ref, x.logged)]
      else (match c
            case Wrong => [Entry(LoginFail, ref, x.logged)]
            case NotVerified => [Entry(LoginUnverified, ref, x.logged)]
            case CodeMissing => []
            case Right => [Entry(LoginOk, ref, x.logged)])
    case Register(ref, created) =>
      if o == Throttled then [] else [Entry(if created then RegisterOk else RegisterFail, ref, x.logged)]
    case RequestReset(ref, found) =>
      if o == Done then [Entry(ResetRequest, ref, x.logged)] else []
    case PurgeHistory(_) => []
    case PurgeOld(_) => []
  }

  function Next(log: seq<Entry>, x: Timed): seq<Entry> {
    match x.request
    case PurgeHistory(ref) => Filter(log, KeptByHistoryPurge(ref, x.logged))
    case PurgeOld(days) => Filter(log, KeptByOldPurge(days, x.logged))
    case _ => log + Logged(x, Decide(log, x))
  }

  /** The `auth_audit` rows, as the handlers and the purges change them. */
  class AuditTable {
    var log: seq<Entry>

    constructor ()
      ensures log == []
    {
      log := [];
    }

    method HandleLogin(ref: Ref, c: Credentials, counted: int, logged: int) returns (o: Outcome)
      modifies this
      ensures o == Decide(old(log), Timed(Login(ref, c), counted, logged))
      ensures log == Next(old(log), Timed(Login(ref, c), counted, logged))
      ensures o == Throttled <==> |Since(old(log), LoginFail, ref, counted - 900)| >= 5
      ensures o == Done ==> c == Right
      ensures o == Refused <==> o != Throttled && c != Right
      ensures log == old(log) + (if o == Throttled then [Entry(LoginLocked, ref, logged)]
                                 else if c == Wrong then [Entry(LoginFail, ref, logged)]
                                 else if c == NotVerified then [Entry(LoginUnverified, ref, logged)]
                                 else if c == CodeMissing then [] else [Entry(LoginOk, ref, logged)])
    {
      CountIs(log, LoginFail, ref, 15, counted);
      var n := CountRecent(log, LoginFail, ref, 15, counted);
      if n >= 5 {
        log := log + [Entry(LoginLocked, ref, logged)];
        return Throttled;
      }
      if c == Wrong {
        log := log + [Entry(LoginFail, ref, logged)];
        return Refused;
      }
      if c == NotVerified {
        log := log + [Entry(LoginUnverified, ref, logged)];
        return Refused;
      }
      if c == CodeMissing {
        return Refused;
      }
      log := log + [Entry(LoginOk, ref, logged)];
      return Done;
    }

    /**
     Deletes an address's history but for the throttling entries of the last two hours.  No other
     address loses anything, and what is left keeps its order.
     */
    method PurgeAuthAudit(ref: Ref, now: int) returns (deleted: nat)
      modifies this
      ensures log == Next(old(log), Timed(PurgeHistory(ref), now, now))
      ensures deleted == |old(log)| - |log|
      ensures exists kept :: Picks(old(log), kept, log) &&
                forall i :: 0 <= i < |old(log)| ==>
                  (i in kept <==> var e := old(log)[i];
                                  ref == "" || e.ref != ref ||
                                  (e.event in {LoginFail, RegisterOk, ResetRequest} && e.at > now - 7200))
    {
      var before := log;
      var kept := FilterPicks(log, KeptByHistoryPurge(ref, now), |log|);
      if ref == "" {
        KeepAll(log, KeptByHistoryPurge(ref, now), |log|);
        return 0;
      }
      log := Filter(log, KeptByHistoryPurge(ref, now));
      PicksFewer(before, kept, log);
      return |before| - |log|;
    }

    /** Deletes exactly what is older than `days`, whatever it is and whoever it belongs to. */
    method PurgeOldAuditLogs(days: nat, now: int) returns (deleted: nat)
      modifies this
      ensures log == Next(old(log), Timed(PurgeOld(days), now, now))
      ensures deleted == |old(log)| - |log|
      ensures exists kept :: Picks(old(log), kept, log) &&
                forall i :: 0 <= i < |old(log)| ==> (i in kept <==> old(log)[i].at >= now - days * 86400)
    {
      var before := log;
      var kept := FilterPicks(log, KeptByOldPurge(days, now), |log|);
      log := Filter(log, KeptByOldPurge(days, now));
      PicksFewer(before, kept, log);
      return |before| - |log|;
    }
  }

  // ----- what a purge leaves -----

  /** `t` is what `s` holds at the positions `kept`, in their order. */
  ghost predicate Picks(s: seq<Entry>, kept: seq<int>, t: seq<Entry>) {
    && |kept| == |t|
    && (forall j :: 0 <= j < |kept| ==> 0 <= kept[j] < |s| && t[j] == s[kept[j]])
    && (forall i, j :: 0 <= i < j < |kept| ==> kept[i] < kept[j])
  }

  /** `kept` are the positions below `n` at which `p` holds. */
  ghost predicate PicksAll(s: seq<Entry>, kept: seq<int>, p: Condition, n: nat)
    requires n <= |s|
  {
    forall i :: i in kept <==> 0 <= i < n && Holds(p, s[i])
  }

  lemma PickOneMore(s: seq<Entry>, kept: seq<int>, t: seq<Entry>, p: Condition, n: nat)
    requires n < |s| && Picks(s, kept, t) && PicksAll(s, kept, p, n) && Holds(p, s[n])
    ensures Picks(s, kept + [n], t + [s[n]]) && PicksAll(s, kept + [n], p, n + 1)
  {
    forall j | 0 <= j < |kept| ensures kept[j] < n {
      assert kept[j] in kept;
    }
  }

  lemma {:induction false} FilterPicks(s: seq<Entry>, p: Condition, n: nat) returns (kept: seq<int>)
    requires n <= |s|
    ensures Picks(s, kept, FilterTo(s, p, n)) && PicksAll(s, kept, p, n)
  {
    if n == 0 {
      kept := [];
    } else {
      kept := FilterPicks(s, p, n - 1);
      if Holds(p, s[n - 1]) {
        PickOneMore(s, kept, FilterTo(s, p, n - 1), p, n - 1);
        kept := kept + [n - 1];
      }
    }
  }

  lemma {:induction false} PicksFewer(s: seq<Entry>, kept: seq<int>, t: seq<Entry>)
    requires Picks(s, kept, t)
    ensures |t| <= |s|
    decreases |s|
  {
    if t == [] {
    } else {
      var n := |t| - 1;
      PicksFewer(s[..kept[n]], kept[..n], t[..n]);
    }
  }

  lemma {:induction false} KeepAll(s: seq<Entry>, p: Condition, n: nat)
    requires n <= |s| && forall e :: Holds(p, e)
    ensures FilterTo(s, p, n) == s[..n]
  {
    if n == 0 {
    } else {
      KeepAll(s, p, n - 1);
    }
  }

  // ----- runs -----

  /** One clock; the audit retention is a whole number of days, at least one. */
  ghost predicate Clocked(xs: seq<Timed>) {
    && (forall i :: 0 <= i < |xs| ==> xs[i].counted <= xs[i].logged)
    && (forall i, j :: 0 <= i < j < |xs| ==> xs[i].logged <= xs[j].counted)
    && (forall i :: 0 <= i < |xs| && xs[i].request.PurgeOld? ==> xs[i].request.days >= 1)
  }

  /** The log after the first `n` requests. */
  function LogAfter(xs: seq<Timed>, n: nat): seq<Entry>
    requires n <= |xs|
  {
    if n == 0 then [] else Next(LogAfter(xs, n - 1), xs[n - 1])
  }

  /** The log had nothing ever been purged. */
  function BareAfter(xs: seq<Timed>, n: nat): seq<Entry>
    requires n <= |xs|
  {
    if n == 0 then [] else BareNext(BareAfter(xs, n - 1), xs[n - 1])
  }

  function BareNext(log: seq<Entry>, x: Timed): seq<Entry> {
    if IsPurge(x) then log else Next(log, x)
  }

  // ----- purges do not show -----

  lemma {:induction false} FilterPrefix(s: seq<Entry>, t: seq<Entry>, p: Condition, n: nat)
    requires n <= |s|
    ensures FilterTo(s + t, p, n) == FilterTo(s, p, n)
  {
    if n == 0 {
    } else {
      FilterPrefix(s, t, p, n - 1);
    }
  }

  lemma {:induction false} FilterAppendTo(s: seq<Entry>, t: seq<Entry>, p: Condition, n: nat)
    requires n <= |t|
    ensures FilterTo(s + t, p, |s| + n) == Filter(s, p) + FilterTo(t, p, n)
  {
    if n == 0 {
      FilterPrefix(s, t, p, |s|);
    } else {
      FilterAppendTo(s, t, p, n - 1);
      assert (s + t)[|s| + n - 1] == t[n - 1];
    }
  }

  lemma FilterAppend(s: seq<Entry>, t: seq<Entry>, p: Condition)
    ensures Filter(s + t, p) == Filter(s, p) + Filter(t, p)
  {
    FilterAppendTo(s, t, p, |t|);
  }

  lemma {:induction false} FilterOfFilterTo(s: seq<Entry>, p: Condition, q: Condition, n: nat)
    requires n <= |s| && forall e :: Holds(p, e) ==> Holds(q, e)
    ensures Filter(FilterTo(s, q, n), p) == FilterTo(s, p, n)
  {
    if n == 0 {
    } else {
      FilterOfFilterTo(s, p, q, n - 1);
      if Holds(q, s[n - 1]) {
        FilterAppend(FilterTo(s, q, n - 1), [s[n - 1]], p);
        assert FilterTo([s[n - 1]], p, 0) == [];
      } else {
        assert FilterTo(s, q, n) == FilterTo(s, q, n - 1);
      }
    }
  }

  lemma FilterOfFilter(s: seq<Entry>, p: Condition, q: Condition)
    requires forall e :: Holds(p, e) ==> Holds(q, e)
    ensures Filter(Filter(s, q), p) == Filter(s, p)
  {
    FilterOfFilterTo(s, p, q, |s|);
  }

  ghost predicate SameLive(a: seq<Entry>, b: seq<Entry>, now: int) {
    Filter(a, Live(now)) == Filter(b, Live(now))
  }

  lemma SameLiveLater(a: seq<Entry>, b: seq<Entry>, now: int, later: int)
    requires SameLive(a, b, now) && now <= later
    ensures SameLive(a, b, later)
  {
    FilterOfFilter(a, Live(later), Live(now));
    FilterOfFilter(b, Live(later), Live(now));
  }

  lemma SameLiveSameCount(a: seq<Entry>, b: seq<Entry>, event: Event, ref: Ref, minutes: int, now: int)
    requires SameLive(a, b, now) && Throttling(event) && minutes * MINUTE <= HELD_BACK
    ensures CountRecent(a, event, ref, minutes, now) == CountRecent(b, event, ref, minutes, now)
  {
    var p := Recent(event, ref, now - minutes * MINUTE);
    FilterOfFilter(a, p, Live(now));
    FilterOfFilter(b, p, Live(now));
  }

  lemma SameLiveSameDecision(a: seq<Entry>, b: seq<Entry>, x: Timed)
    requires SameLive(a, b, x.counted)
    ensures Decide(a, x) == Decide(b, x)
  {
    if !IsPurge(x) {
      SameLiveSameCount(a, b, Watched(x.request), x.request.ref, Minutes(x.request), x.counted);
    }
  }

  lemma PurgeKeepsLive(log: seq<Entry>, x: Timed)
    requires IsPurge(x) && (x.request.PurgeOld? ==> x.request.days >= 1)
    ensures SameLive(Next(log, x), log, x.logged)
  {
    match x.request
    case PurgeHistory(ref) => FilterOfFilter(log, Live(x.logged), KeptByHistoryPurge(ref, x.logged));
    case PurgeOld(days) => FilterOfFilter(log, Live(x.logged), KeptByOldPurge(days, x.logged));
  }

  lemma {:induction false} PurgedRunSameLive(xs: seq<Timed>, n: nat, now: int)
    requires Clocked(xs) && n <= |xs| && (n > 0 ==> xs[n - 1].logged <= now)
    ensures SameLive(LogAfter(xs, n), BareAfter(xs, n), now)
  {
    if n == 0 {
    } else {
      var (x, a, b) := (xs[n - 1], LogAfter(xs, n - 1), BareAfter(xs, n - 1));
      PurgedRunSameLive(xs, n - 1, x.counted);
      if IsPurge(x) {
        SameLiveLater(a, b, x.counted, x.logged);
        PurgeKeepsLive(a, x);
        SameLiveLater(LogAfter(xs, n), b, x.logged, now);
      } else {
        SameLiveSameDecision(a, b, x);
        SameLiveLater(a, b, x.counted, now);
        FilterAppend(a, Logged(x, Decide(a, x)), Live(now));
        FilterAppend(b, Logged(x, Decide(b, x)), Live(now));
      }
    }
  }

  /**
   Purging the activity log, or old entries, anywhere in a run changes no count: at any later moment
   every throttled event is counted, over any window of up to two hours, as in the run with no purge
   at all, and so every lockout, registration cap and reset cap decides alike.
   */
  lemma PurgesDoNotShow(xs: seq<Timed>, n: nat, event: Event, ref: Ref, minutes: int, now: int)
    requires Clocked(xs) && n <= |xs| && (n > 0 ==> xs[n - 1].logged <= now)
    requires event in {LoginFail, RegisterOk, ResetRequest} && minutes <= 120
    ensures CountRecent(LogAfter(xs, n), event, ref, minutes, now) ==
              CountRecent(BareAfter(xs, n), event, ref, minutes, now)
    ensures n < |xs| ==> Decide(LogAfter(xs, n), xs[n]) == Decide(BareAfter(xs, n), xs[n])
  {
    PurgedRunSameLive(xs, n, now);
    SameLiveSameCount(LogAfter(xs, n), BareAfter(xs, n), event, ref, minutes, now);
    if n < |xs| {
      PurgedRunSameDecision(xs, n);
    }
  }

  lemma PurgedRunSameDecision(xs: seq<Timed>, n: nat)
    requires Clocked(xs) && n < |xs|
    ensures Decide(LogAfter(xs, n), xs[n]) == Decide(BareAfter(xs, n), xs[n])
  {
    PurgedRunSameLive(xs, n, xs[n].counted);
    SameLiveSameDecision(LogAfter(xs, n), BareAfter(xs, n), xs[n]);
  }

  /** What each request of the run wrote. */
  function Entered(xs: seq<Timed>): (ps: seq<seq<Entry>>)
    ensures |ps| == |xs| && forall i :: 0 <= i < |ps| ==> ps[i] == Logged(xs[i], Decide(LogAfter(xs, i), xs[i]))
  {
    seq(|xs|, i requires 0 <= i < |xs| => Logged(xs[i], Decide(LogAfter(xs, i), xs[i])))
  }

  function Concat(pieces: seq<seq<Entry>>, n: nat): seq<Entry>
    requires n <= |pieces|
  {
    if n == 0 then [] else Concat(pieces, n - 1) + pieces[n - 1]
  }

  /** Every entry the handlers wrote during the first `n` requests, whether or not a purge took it since. */
  function Recorded(xs: seq<Timed>, n: nat): seq<Entry>
    requires n <= |xs|
  {
    Concat(Entered(xs), n)
  }

  lemma SameDecisionSameEntries(log: seq<Entry>, bare: seq<Entry>, x: Timed)
    requires Decide(log, x) == Decide(bare, x)
    ensures BareNext(bare, x) == bare + Logged(x, Decide(log, x))
  {
  }

  lemma AlikeRecordsAlike(xs: seq<Timed>, n: nat)
    requires 0 < n <= |xs| && Decide(LogAfter(xs, n - 1), xs[n - 1]) == Decide(BareAfter(xs, n - 1), xs[n - 1])
    ensures BareAfter(xs, n) == BareAfter(xs, n - 1) + Entered(xs)[n - 1]
  {
    var (x, log, bare) := (xs[n - 1], LogAfter(xs, n - 1), BareAfter(xs, n - 1));
    assert BareAfter(xs, n) == BareNext(bare, x) && Entered(xs)[n - 1] == Logged(x, Decide(log, x));
    SameDecisionSameEntries(log, bare, x);
  }

  /** The last of `n` requests adds to the purge-free log what it wrote in the run. */
  lemma StepRecordsAlike(xs: seq<Timed>, n: nat)
    requires Clocked(xs) && 0 < n <= |xs|
    ensures BareAfter(xs, n) == BareAfter(xs, n - 1) + Entered(xs)[n - 1]
  {
    PurgedRunSameDecision(xs, n - 1);
    AlikeRecordsAlike(xs, n);
  }

  ghost function BareLogs(xs: seq<Timed>): (logs: seq<seq<Entry>>)
    ensures |logs| == |xs| + 1 && forall i :: 0 <= i < |logs| ==> logs[i] == BareAfter(xs, i)
  {
    seq(|xs| + 1, i requires 0 <= i <= |xs| => BareAfter(xs, i))
  }

  ghost predicate Extends(logs: seq<seq<Entry>>, pieces: seq<seq<Entry>>, n: nat)
    requires 0 < n <= |pieces| && n < |logs|
  {
    logs[n] == logs[n - 1] + pieces[n - 1]
  }

  lemma {:induction false} Telescope(logs: seq<seq<Entry>>, pieces: seq<seq<Entry>>, n: nat)
    requires n <= |pieces| < |logs| && logs[0] == []
    requires forall i :: 0 < i <= |pieces| ==> Extends(logs, pieces, i)
    ensures Concat(pieces, n) == logs[n]
  {
    if n == 0 {
    } else {
      Telescope(logs, pieces, n - 1);
      assert Extends(logs, pieces, n);
    }
  }

  lemma LogsExtend(xs: seq<Timed>, n: nat)
    requires Clocked(xs) && 0 < n <= |xs|
    ensures Extends(BareLogs(xs), Entered(xs), n)
  {
    StepRecordsAlike(xs, n);
  }

  /** What a run with purges records is what the run without them records. */
  lemma PurgedRunRecordsAlike(xs: seq<Timed>, n: nat)
    requires Clocked(xs) && n <= |xs|
    ensures Recorded(xs, n) == BareAfter(xs, n)
  {
    forall i | 0 < i <= |xs| ensures Extends(BareLogs(xs), Entered(xs), i) {
      LogsExtend(xs, i);
    }
    Telescope(BareLogs(xs), Entered(xs), n);
  }

  /**
   The decision `o` on a request in the light of the entries `all`: a login is locked out exactly when
   five failures of its address fall in the fifteen minutes before, and a registration or a reset is held
   back exactly when three of its kind for its address fall in the hour before.
   */
  ghost predicate DecidedBy(all: seq<Entry>, x: Timed, o: Outcome) {
    match x.request
    case Login(ref, c) =>
      && (o == Throttled <==> |Since(all, LoginFail, ref, x.counted - 900)| >= 5)
      && (o == Done <==> o != Throttled && c == Right)
    case Register(ref, created) =>
      && (o == Throttled <==> |Since(all, RegisterOk, ref, x.counted - 3600)| >= 3)
      && (o == Done <==> o != Throttled && created)
    case RequestReset(ref, found) =>
      && (o == Throttled <==> |Since(all, ResetRequest, ref, x.counted - 3600)| >= 3)
      && (o == Done <==> o != Throttled && found)
    case _ => o == Done
  }

  lemma DecidedByLog(log: seq<Entry>, x: Timed)
    ensures DecidedBy(log, x, Decide(log, x))
  {
    if !IsPurge(x) {
      CountIs(log, Watched(x.request), x.request.ref, Minutes(x.request), x.counted);
    }
  }

  /** In every run each request is decided by all that was recorded before it, purged since or not. */
  lemma HeldBackExactlyWhen(xs: seq<Timed>, n: nat)
    requires Clocked(xs) && n < |xs|
    ensures DecidedBy(Recorded(xs, n), xs[n], Decide(LogAfter(xs, n), xs[n]))
  {
    DecidedByLog(BareAfter(xs, n), xs[n]);
    PurgedRunSameDecision(xs, n);
    PurgedRunRecordsAlike(xs, n);
  }

  /** And what it leaves behind is recorded: each failure, each registration and each reset that was granted. */
  lemma EveryOutcomeIsRecorded(xs: seq<Timed>, n: nat)
    requires n < |xs|
    ensures var (x, o) := (xs[n], Decide(LogAfter(xs, n), xs[n]));
            Recorded(xs, n + 1) == Recorded(xs, n) +
              match x.request
              case Login(ref, c) =>
                if o == Throttled then [Entry(LoginLocked, ref, x.logged)]
                else if c == Wrong then [Entry(LoginFail, ref, x.logged)]
                else if c == NotVerified then [Entry(LoginUnverified, ref, x.logged)]
                else if c == CodeMissing then [] else [Entry(LoginOk, ref, x.logged)]
              case Register(ref, created) =>
                if o == Throttled then [] else [Entry(if created then RegisterOk else RegisterFail, ref, x.logged)]
              case RequestReset(ref, found) =>
                if o == Throttled || !found then [] else [Entry(ResetRequest, ref, x.logged)]
              case _ => []
  {
    assert Recorded(xs, n + 1) == Recorded(xs, n) + Entered(xs)[n];
  }

  // ----- the lockout -----

  lemma {:induction false} FilterFewer(s: seq<Entry>, p: Condition, q: Condition, n: nat)
    requires n <= |s| && forall e :: Holds(p, e) ==> Holds(q, e)
    ensures |FilterTo(s, p, n)| <= |FilterTo(s, q, n)|
  {
    if n == 0 {
    } else {
      FilterFewer(s, p, q, n - 1);
    }
  }

  lemma FilterOne(e: Entry, p: Condition)
    ensures |Filter([e], p)| == if Holds(p, e) then 1 else 0
  {
    assert FilterTo([e], p, 0) == [];
  }

  /** A request adds a failure to the window only after counting fewer than five in a longer one. */
  lemma NewFailureFits(log: seq<Entry>, x: Timed, ref: Ref, end: int)
    requires x.counted <= x.logged
    requires |Filter(log, FailureWithin(ref, end))| <= LOCKOUT_FAILURES
    ensures |Filter(log, FailureWithin(ref, end))| + |Filter(Logged(x, Decide(log, x)), FailureWithin(ref, end))|
              <= LOCKOUT_FAILURES
  {
    var (p, more) := (FailureWithin(ref, end), Logged(x, Decide(log, x)));
    if more != [] {
      assert more == [more[0]];
      FilterOne(more[0], p);
      if Holds(p, more[0]) {
        FilterFewer(log, p, Recent(LoginFail, ref, x.counted - LOCKOUT_MINUTES * MINUTE), |log|);
      }
    }
  }

  lemma {:induction false} BareRunIsBounded(xs: seq<Timed>, n: nat, ref: Ref, end: int)
    requires Clocked(xs) && n <= |xs|
    ensures |Filter(BareAfter(xs, n), FailureWithin(ref, end))| <= LOCKOUT_FAILURES
  {
    if n == 0 {
    } else {
      BareRunIsBounded(xs, n - 1, ref, end);
      if !IsPurge(xs[n - 1]) {
        var (x, log) := (xs[n - 1], BareAfter(xs, n - 1));
        NewFailureFits(log, x, ref, end);
        FilterAppend(log, Logged(x, Decide(log, x)), FailureWithin(ref, end));
      }
    }
  }

  /**
   In every run, whatever is purged in between, no fifteen-minute window holds more than five login
   failures of one address among all those the handlers recorded.
   */
  lemma AtMostFiveFailures(xs: seq<Timed>, n: nat, ref: Ref, end: int)
    requires Clocked(xs) && n <= |xs|
    ensures |Filter(Recorded(xs, n), FailureWithin(ref, end))| <= LOCKOUT_FAILURES
  {
    PurgedRunRecordsAlike(xs, n);
    BareRunIsBounded(xs, n, ref, end);
  }
}
