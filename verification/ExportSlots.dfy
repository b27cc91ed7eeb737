/**
 Export slots: a one-place channel per user and a four-place channel for everybody, taken and given
 back one channel operation at a time while other requests do the same.
 */
module ExportSlots {

  type User = nat
  type Request = nat

  const PER_USER := 1
  const GLOBAL := 4

  /** Where a request is between its channel operations. */
  datatype Stage =
    | HoldsUser   // has its user slot and is about to try the global one
    | Running     // has both
    | Refused     // found the global channel full and still has its user slot
    | Draining    // has given the global slot back, not yet the user slot

  datatype Export = Export(user: User, stage: Stage)

  /** `userSlots` and `globalSlots` are the lengths of the channels. */
  datatype State = State(userSlots: map<User, nat>, globalSlots: nat, exports: map<Request, Export>)

  datatype Action =
    | TakeUser(r: Request, u: User)
    | RefuseUser(u: User)
    | TakeGlobal(r: Request)
    | RefuseGlobal(r: Request)
    | GiveGlobal(r: Request)
    | GiveUser(r: Request)

  function UserSlots(s: State, u: User): nat {
    if u in s.userSlots then s.userSlots[u] else 0
  }

  /** A send needs room in the channel and a receive something in it; the two refusals need a full one. */
  ghost predicate Enabled(s: State, a: Action) {
    match a
    case TakeUser(r, u) => r !in s.exports && UserSlots(s, u) < PER_USER
    case RefuseUser(u) => UserSlots(s, u) >= PER_USER
    case TakeGlobal(r) => r in s.exports && s.exports[r].stage.HoldsUser? && s.globalSlots < GLOBAL
    case RefuseGlobal(r) => r in s.exports && s.exports[r].stage.HoldsUser? && s.globalSlots >= GLOBAL
    case GiveGlobal(r) => r in s.exports && s.exports[r].stage.Running? && s.globalSlots > 0
    case GiveUser(r) =>
      && r in s.exports && (s.exports[r].stage.Refused? || s.exports[r].stage.Draining?)
      && UserSlots(s, s.exports[r].user) > 0
  }

  ghost function Apply(s: State, a: Action): State
    requires Enabled(s, a)
  {
    match a
    case TakeUser(r, u) =>
      s.(userSlots := s.userSlots[u := UserSlots(s, u) + 1], exports := s.exports[r := Export(u, HoldsUser)])
    case RefuseUser(_) => s
    case TakeGlobal(r) =>
      s.(globalSlots := s.globalSlots + 1, exports := s.exports[r := s.exports[r].(stage := Running)])
    case RefuseGlobal(r) => s.(exports := s.exports[r := s.exports[r].(stage := Refused)])
    case GiveGlobal(r) =>
      s.(globalSlots := s.globalSlots - 1, exports := s.exports[r := s.exports[r].(stage := Draining)])
    case GiveUser(r) => Left(s, r)
  }

  /** The request gives its user slot back and is gone. */
  function Left(s: State, r: Request): State
    requires r in s.exports && UserSlots(s, s.exports[r].user) > 0
  {
    var u := s.exports[r].user;
    s.(userSlots := s.userSlots[u := UserSlots(s, u) - 1], exports := s.exports - {r})
  }

  ghost predicate Run(ss: seq<State>, acts: seq<Action>) {
    && |ss| == |acts| + 1
    && forall i :: 0 <= i < |acts| ==> Enabled(ss[i], acts[i]) && ss[i + 1] == Apply(ss[i], acts[i])
  }

  // ----- the invariant: the channels count the requests -----

  ghost function Of(exports: map<Request, Export>, u: User): set<Request> {
    set r | r in exports && exports[r].user == u
  }

  ghost function RunningIn(exports: map<Request, Export>): set<Request> {
    set r | r in exports && exports[r].stage.Running?
  }

  ghost predicate Inv(s: State) {
    && (forall u :: |Of(s.exports, u)| == UserSlots(s, u) <= PER_USER)
    && |RunningIn(s.exports)| == s.globalSlots <= GLOBAL
  }

  lemma OfJoined(exports: map<Request, Export>, r: Request, u: User, v: User)
    requires r !in exports
    ensures |Of(exports[r := Export(u, HoldsUser)], v)| == |Of(exports, v)| + (if v == u then 1 else 0)
  {
    var joined := exports[r := Export(u, HoldsUser)];
    assert Of(joined, v) == if v == u then Of(exports, v) + {r} else Of(exports, v);
  }

  lemma OfLeft(exports: map<Request, Export>, r: Request, v: User)
    requires r in exports
    ensures |Of(exports - {r}, v)| == |Of(exports, v)| - (if v == exports[r].user then 1 else 0)
  {
    assert Of(exports - {r}, v) == if v == exports[r].user then Of(exports, v) - {r} else Of(exports, v);
  }

  lemma JoinKeepsInv(s: State, r: Request, u: User)
    requires Inv(s) && Enabled(s, TakeUser(r, u))
    ensures Inv(Apply(s, TakeUser(r, u)))
  {
    var s' := Apply(s, TakeUser(r, u));
    forall v ensures |Of(s'.exports, v)| == UserSlots(s', v) <= PER_USER {
      OfJoined(s.exports, r, u, v);
      assert |Of(s.exports, v)| == UserSlots(s, v);
    }
    assert RunningIn(s'.exports) == RunningIn(s.exports);
  }

  lemma LeaveKeepsInv(s: State, r: Request)
    requires Inv(s) && r in s.exports && !s.exports[r].stage.Running? && UserSlots(s, s.exports[r].user) > 0
    ensures Inv(Left(s, r))
  {
    var s' := Left(s, r);
    forall v ensures |Of(s'.exports, v)| == UserSlots(s', v) <= PER_USER {
      OfLeft(s.exports, r, v);
      assert |Of(s.exports, v)| == UserSlots(s, v);
    }
    assert RunningIn(s'.exports) == RunningIn(s.exports);
  }

  /** A request that moves on stays its user's, and runs or not. */
  lemma MovedOn(exports: map<Request, Export>, r: Request, stage: Stage, v: User)
    requires r in exports
    ensures var exports' := exports[r := exports[r].(stage := stage)];
            && Of(exports', v) == Of(exports, v)
            && RunningIn(exports') == if stage.Running? then RunningIn(exports) + {r} else RunningIn(exports) - {r}
  {
  }

  lemma RunningAfter(s: State, a: Action)
    requires Inv(s) && Enabled(s, a) && (a.TakeGlobal? || a.RefuseGlobal? || a.GiveGlobal?)
    ensures |RunningIn(Apply(s, a).exports)| == Apply(s, a).globalSlots <= GLOBAL
  {
    MovedOn(s.exports, a.r, Apply(s, a).exports[a.r].stage, 0);
    if a.RefuseGlobal? {
      assert RunningIn(s.exports) - {a.r} == RunningIn(s.exports);
    }
  }

  lemma GlobalKeepsInv(s: State, a: Action)
    requires Inv(s) && Enabled(s, a) && (a.TakeGlobal? || a.RefuseGlobal? || a.GiveGlobal?)
    ensures Inv(Apply(s, a))
  {
    var s' := Apply(s, a);
    RunningAfter(s, a);
    forall v ensures |Of(s'.exports, v)| == UserSlots(s', v) <= PER_USER {
      MovedOn(s.exports, a.r, s'.exports[a.r].stage, v);
      assert |Of(s.exports, v)| == UserSlots(s, v);
    }
  }

  lemma StepKeepsInv(s: State, a: Action)
    requires Inv(s) && Enabled(s, a)
    ensures Inv(Apply(s, a))
  {
    match a
    case TakeUser(r, u) => JoinKeepsInv(s, r, u);
    case RefuseUser(_) =>
    case TakeGlobal(_) => GlobalKeepsInv(s, a);
    case GiveGlobal(_) => GlobalKeepsInv(s, a);
    case RefuseGlobal(_) => GlobalKeepsInv(s, a);
    case GiveUser(r) => LeaveKeepsInv(s, r);
  }

  lemma {:induction false} RunKeepsInv(ss: seq<State>, acts: seq<Action>, i: nat)
    requires Run(ss, acts) && Inv(ss[0]) && i < |ss|
    ensures Inv(ss[i])
  {
    if i == 0 {
    } else {
      RunKeepsInv(ss, acts, i - 1);
      StepKeepsInv(ss[i - 1], acts[i - 1]);
    }
  }

  // ----- what it means -----

  lemma TwoElements<T>(s: set<T>, a: T, b: T)
    requires a in s && b in s && |s| <= 1
    ensures a == b
  {
    assert |s - {a}| == |s| - 1;
    assert b !in s - {a};
  }

  lemma FreeExactlyWhen(s: State, u: User)
    requires Inv(s)
    ensures UserSlots(s, u) < PER_USER <==> forall o :: o in s.exports ==> s.exports[o].user != u
  {
    assert |Of(s.exports, u)| == UserSlots(s, u);
    if forall o :: o in s.exports ==> s.exports[o].user != u {
      assert Of(s.exports, u) == {};
    } else {
      var o :| o in s.exports && s.exports[o].user == u;
      assert o in Of(s.exports, u);
    }
  }

  /**
   From the empty state, in every interleaving: at most one export of a user has passed its user slot
   and at most four run at once; an attempt is refused exactly when its user has one in progress or four
   are running; every receive a request is about to make finds something, so no
   release ever blocks; and when all requests are gone both kinds of channel are empty.
   */
  lemma SlotsAreSafe(ss: seq<State>, acts: seq<Action>, i: nat)
    requires Run(ss, acts) && ss[0] == State(map[], 0, map[]) && i < |ss|
    ensures forall a, b :: a in ss[i].exports && b in ss[i].exports ==>
              (ss[i].exports[a].user == ss[i].exports[b].user ==> a == b)
    ensures |RunningIn(ss[i].exports)| <= 4
    ensures forall r :: r in ss[i].exports ==>
              match ss[i].exports[r].stage
              case HoldsUser =>
                && (Enabled(ss[i], TakeGlobal(r)) <==> |RunningIn(ss[i].exports)| < 4)
                && (Enabled(ss[i], RefuseGlobal(r)) <==> |RunningIn(ss[i].exports)| == 4)
              case Running => Enabled(ss[i], GiveGlobal(r))
              case Refused => Enabled(ss[i], GiveUser(r))
              case Draining => Enabled(ss[i], GiveUser(r))
    ensures forall r, u :: r !in ss[i].exports ==>
              (Enabled(ss[i], TakeUser(r, u)) <==> forall o :: o in ss[i].exports ==> ss[i].exports[o].user != u)
    ensures ss[i].exports == map[] ==> ss[i].globalSlots == 0 && forall u :: UserSlots(ss[i], u) == 0
  {
    var s := ss[i];
    forall u ensures Of(ss[0].exports, u) == {} {}
    assert RunningIn(ss[0].exports) == {};
    RunKeepsInv(ss, acts, i);
    forall a, b | a in s.exports && b in s.exports && s.exports[a].user == s.exports[b].user ensures a == b {
      TwoElements(Of(s.exports, s.exports[a].user), a, b);
    }
    forall r | r in s.exports
      ensures UserSlots(s, s.exports[r].user) > 0 && (s.exports[r].stage.Running? ==> s.globalSlots > 0)
    {
      assert r in Of(s.exports, s.exports[r].user);
      if s.exports[r].stage.Running? { assert r in RunningIn(s.exports); }
    }
    forall r, u | r !in s.exports
      ensures Enabled(s, TakeUser(r, u)) <==> forall o :: o in s.exports ==> s.exports[o].user != u
    {
      FreeExactlyWhen(s, u);
    }
    if s.exports == map[] {
      forall u ensures UserSlots(s, u) == 0 {
        assert Of(s.exports, u) == {};
      }
      assert RunningIn(s.exports) == {};
    }
  }

  /** The request an action belongs to. */
  predicate Moves(a: Action, r: Request) {
    !a.RefuseUser? && a.r == r
  }

  /** What other requests do leaves a request where it is. */
  lemma {:induction false} OthersLeaveIt(ss: seq<State>, acts: seq<Action>, i: nat, j: nat, r: Request)
    requires Run(ss, acts) && i <= j < |ss| && r in ss[i].exports && forall m :: i <= m < j ==> !Moves(acts[m], r)
    ensures r in ss[j].exports && ss[j].exports[r] == ss[i].exports[r]
    decreases j
  {
    if i == j {
    } else {
      OthersLeaveIt(ss, acts, i, j - 1, r);
    }
  }

  /** The counts at a moment at which a request of `u` is in and not running, or at which none of `u` is. */
  lemma CountsAt(s: State, r: Request, u: User)
    requires Inv(s)
    ensures r in s.exports && s.exports[r].user == u ==> UserSlots(s, u) == 1
    ensures |RunningIn(s.exports)| == s.globalSlots
  {
    assert |Of(s.exports, u)| == UserSlots(s, u) <= PER_USER;
    if r in s.exports && s.exports[r].user == u {
      assert r in Of(s.exports, u);
    }
  }

  lemma Handover(s: State, a: Action, r: Request, u: User)
    requires Inv(s) && Enabled(s, a)
    requires a == TakeUser(r, u) || (a == GiveUser(r) && s.exports[r].user == u)
    ensures UserSlots(if a.TakeUser? then s else Apply(s, a), u) == 0
    ensures a == GiveUser(r) ==> r !in Apply(s, a).exports
  {
    StepKeepsInv(s, a);
    CountsAt(s, r, u);
  }

  /**
   An attempt refused at the global channel leaves both counts as they were, whatever other requests do
   between its channel operations (one refused at the user channel has done none): it holds its user's slot,
   and never a global one, from the moment it takes it to the moment it gives it back, and before and
   after that the user has no slot taken.
   */
  lemma RefusalLeavesNoTrace(ss: seq<State>, acts: seq<Action>, i: nat, j: nat, k: nat, r: Request, u: User)
    requires Run(ss, acts) && Inv(ss[0]) && i < j < k < |acts|
    requires acts[i] == TakeUser(r, u) && acts[j] == RefuseGlobal(r) && acts[k] == GiveUser(r)
    requires forall m :: i < m < k && m != j ==> !Moves(acts[m], r)
    ensures UserSlots(ss[i], u) == 0 && UserSlots(ss[k + 1], u) == 0
    ensures r !in ss[i].exports && r !in ss[k + 1].exports
    ensures forall m :: i < m <= k ==>
              UserSlots(ss[m], u) == 1 && r !in RunningIn(ss[m].exports) &&
              |RunningIn(ss[m].exports)| == ss[m].globalSlots
    ensures ss[j + 1].globalSlots == ss[j].globalSlots && ss[i + 1].globalSlots == ss[i].globalSlots
            && ss[k + 1].globalSlots == ss[k].globalSlots
  {
    forall m | i < m <= k
      ensures r in ss[m].exports && ss[m].exports[r] == Export(u, if m <= j then HoldsUser else Refused)
    {
      if m <= j {
        OthersLeaveIt(ss, acts, i + 1, m, r);
      } else {
        OthersLeaveIt(ss, acts, i + 1, j, r);
        OthersLeaveIt(ss, acts, j + 1, m, r);
      }
    }
    forall m | i < m <= k ensures UserSlots(ss[m], u) == 1 && |RunningIn(ss[m].exports)| == ss[m].globalSlots {
      RunKeepsInv(ss, acts, m);
      CountsAt(ss[m], r, u);
    }
    RunKeepsInv(ss, acts, i);
    Handover(ss[i], acts[i], r, u);
    RunKeepsInv(ss, acts, k);
    Handover(ss[k], acts[k], r, u);
  }
}
