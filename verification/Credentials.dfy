/**
 Accounts, password hashes, sessions and tokens as a state machine.  A login is a sequence of
 separate statements, so resets, sign-outs and other logins may fall between any two of them.
 */
module Credentials {
  import opened Wrappers

  type UserId = nat
  type SessionId = string
  type LoginId = nat

  /** A stored hash determines the password it was made from; `salt` tells equal passwords apart. */
  datatype PasswordHash = PasswordHash(password: string, legacy: bool, salt: nat)

  datatype ResetTicket = ResetTicket(digest: string, expiresAt: int)

  datatype User = User(hash: PasswordHash, version: nat, reset: Option<ResetTicket>)

  datatype Session = Session(user: UserId, revoked: bool, expiresAt: int)

  /** What a JWT claims; tokens issued before sessions existed carry no session. */
  datatype Token = Token(user: UserId, version: nat, session: Option<SessionId>)

  datatype Stage = Read | Verified | Opened(session: SessionId)

  /** A login in progress: what it read of the user row and the password it was given. */
  datatype Login = Login(user: UserId, password: string, hash: PasswordHash, version: nat, stage: Stage)

  datatype Minted = Minted(login: Option<LoginId>, token: Token)

  /**
   `nextUser` and `usedSessions` say that ids are never handed out twice.  `lastSet` and `minted` are
   history: the password each account set last, and every token ever issued.
   */
  datatype State = State(now: int, users: map<UserId, User>, nextUser: UserId,
                         sessions: map<SessionId, Session>, usedSessions: set<SessionId>,
                         logins: map<LoginId, Login>, lastSet: map<UserId, string>, minted: set<Minted>)

  datatype Action =
    | Tick(seconds: nat)
    | Register(hash: PasswordHash)
    | RequestReset(u: UserId, digest: string)
    | ResetPassword(digest: string, hash: PasswordHash)
    | ReadUser(l: LoginId, u: UserId, password: string)
    | Verify(l: LoginId)
    | UpgradeHash(l: LoginId, salt: nat)
    | OpenSession(l: LoginId, sid: SessionId)
    | Mint(l: LoginId)
    | BumpVersion(u: UserId)
    | RevokeSession(u: UserId, sid: SessionId)
    | RevokeByToken(sid: SessionId)
    | RevokeAll(u: UserId, spared: Option<SessionId>)
    | DeleteExpired
    | DeleteAccount(u: UserId)

  const TOKEN_TTL := 4 * 3600
  const RESET_TTL := 3600

  // ----- the acceptance decision -----

  predicate SessionActive(s: State, u: UserId, sid: SessionId) {
    && sid in s.sessions
    && s.sessions[sid].user == u
    && !s.sessions[sid].revoked
    && s.sessions[sid].expiresAt > s.now
  }

  predicate Accepts(s: State, t: Token) {
    && t.user in s.users
    && s.users[t.user].version == t.version
    && (t.session.Some? ==> SessionActive(s, t.user, t.session.value))
  }

  // ----- statements -----

  predicate Redeems(s: State, u: UserId, digest: string) {
    && u in s.users
    && s.users[u].reset.Some?
    && s.users[u].reset.value.digest == digest
    && s.users[u].reset.value.expiresAt > s.now
  }

  function Revoked(s: State, hit: SessionId -> bool): map<SessionId, Session> {
    map sid | sid in s.sessions :: if hit(sid) then s.sessions[sid].(revoked := true) else s.sessions[sid]
  }

  ghost predicate Enabled(s: State, a: Action) {
    match a
    case Tick(_) => true
    case Register(_) => true
    case RequestReset(_, _) => true
    case ResetPassword(_, _) => true
    case ReadUser(l, u, _) => l !in s.logins && u in s.users
    case Verify(l) => l in s.logins && s.logins[l].stage.Read? && s.logins[l].hash.password == s.logins[l].password
    case UpgradeHash(l, _) => l in s.logins && s.logins[l].stage.Verified? && s.logins[l].hash.legacy
    case OpenSession(l, sid) =>
      l in s.logins && s.logins[l].stage.Verified? && s.logins[l].user in s.users && sid !in s.usedSessions
    case Mint(l) => l in s.logins && s.logins[l].stage.Opened?
    case BumpVersion(_) => true
    case RevokeSession(_, _) => true
    case RevokeByToken(_) => true
    case RevokeAll(_, _) => true
    case DeleteExpired => true
    case DeleteAccount(_) => true
  }

  ghost function Apply(s: State, a: Action): State
    requires Enabled(s, a)
  {
    match a
    case Tick(d) => s.(now := s.now + d)
    case Register(h) =>
      s.(users := s.users[s.nextUser := User(h, 0, None)], nextUser := s.nextUser + 1,
         lastSet := s.lastSet[s.nextUser := h.password])
    case RequestReset(u, d) =>
      if u in s.users
      then s.(users := s.users[u := s.users[u].(reset := Some(ResetTicket(d, s.now + RESET_TTL)))])
      else s
    case ResetPassword(d, h) =>
      s.(users := map u | u in s.users ::
           if Redeems(s, u, d) then User(h, s.users[u].version + 1, None) else s.users[u],
         lastSet := s.lastSet + map u | u in s.users && Redeems(s, u, d) :: h.password)
    case ReadUser(l, u, p) =>
      s.(logins := s.logins[l := Login(u, p, s.users[u].hash, s.users[u].version, Read)])
    case Verify(l) => s.(logins := s.logins[l := s.logins[l].(stage := Verified)])
    case UpgradeHash(l, salt) =>
      var x := s.logins[l];
      if x.user in s.users && s.users[x.user].hash == x.hash
      then s.(users := s.users[x.user := s.users[x.user].(hash := PasswordHash(x.password, false, salt))])
      else s
    case OpenSession(l, sid) =>
      s.(sessions := s.sessions[sid := Session(s.logins[l].user, false, s.now + TOKEN_TTL)],
         usedSessions := s.usedSessions + {sid},
         logins := s.logins[l := s.logins[l].(stage := Opened(sid))])
    case Mint(l) =>
      var x := s.logins[l];
      s.(minted := s.minted + {Minted(Some(l), Token(x.user, x.version, Some(x.stage.session)))})
    case BumpVersion(u) =>
      if u in s.users then s.(users := s.users[u := s.users[u].(version := s.users[u].version + 1)]) else s
    case RevokeSession(u, sid) =>
      s.(sessions := Revoked(s, x => x == sid && x in s.sessions && s.sessions[x].user == u))
    case RevokeByToken(sid) => s.(sessions := Revoked(s, x => x == sid))
    case RevokeAll(u, spared) =>
      s.(sessions := Revoked(s, x => x in s.sessions && s.sessions[x].user == u && Some(x) != spared))
    case DeleteExpired =>
      s.(sessions := map sid | sid in s.sessions && !(s.sessions[sid].expiresAt < s.now) :: s.sessions[sid])
    case DeleteAccount(u) =>
      s.(users := s.users - {u},
         sessions := map sid | sid in s.sessions && s.sessions[sid].user != u :: s.sessions[sid])
  }

  ghost predicate Run(ss: seq<State>, acts: seq<Action>) {
    && |ss| == |acts| + 1
    && forall i :: 0 <= i < |acts| ==> Enabled(ss[i], acts[i]) && ss[i + 1] == Apply(ss[i], acts[i])
  }

  // ----- the invariant -----

  ghost predicate UsersOk(s: State) {
    forall u :: u in s.users ==>
      u < s.nextUser && u in s.lastSet && s.users[u].hash.password == s.lastSet[u]
  }

  /** Nothing in progress or issued is ahead of the row it came from. */
  ghost predicate NotAhead(s: State, u: UserId, version: nat) {
    u < s.nextUser && (u in s.users ==> version <= s.users[u].version)
  }

  ghost predicate LoginsOk(s: State) {
    forall l :: l in s.logins ==>
      var x := s.logins[l];
      && NotAhead(s, x.user, x.version)
      && (!x.stage.Read? ==> x.hash.password == x.password)
      && (x.stage.Opened? ==> x.stage.session in s.usedSessions)
  }

  ghost predicate TokenOk(s: State, m: Minted) {
    && NotAhead(s, m.token.user, m.token.version)
    && (m.token.session.Some? ==> m.token.session.value in s.usedSessions)
    && (m.login.Some? ==>
          m.login.value in s.logins
          && m.token.user == s.logins[m.login.value].user && m.token.version == s.logins[m.login.value].version)
  }

  ghost predicate Inv(s: State) {
    && UsersOk(s) && LoginsOk(s)
    && (forall m :: m in s.minted ==> TokenOk(s, m))
    && s.sessions.Keys <= s.usedSessions
  }

  /** Versions only rise, ids are not reused, and logins keep what they read. */
  ghost predicate Later(s: State, s': State) {
    && s.nextUser <= s'.nextUser && s.usedSessions <= s'.usedSessions
    && (forall u :: u in s'.users && u < s.nextUser ==> u in s.users && s.users[u].version <= s'.users[u].version)
    && (forall l :: l in s.logins ==>
          l in s'.logins && s'.logins[l].user == s.logins[l].user && s'.logins[l].version == s.logins[l].version)
  }

  lemma VersionsRise(s: State, a: Action, u: UserId)
    requires Enabled(s, a) && Inv(s) && u in Apply(s, a).users && u < s.nextUser
    ensures u in s.users && s.users[u].version <= Apply(s, a).users[u].version
  {
  }

  lemma LoginsKeepWhatTheyRead(s: State, a: Action, l: LoginId)
    requires Enabled(s, a) && l in s.logins
    ensures var s' := Apply(s, a);
            l in s'.logins && s'.logins[l].user == s.logins[l].user && s'.logins[l].version == s.logins[l].version
  {
  }

  lemma StepIsLater(s: State, a: Action)
    requires Enabled(s, a) && Inv(s)
    ensures Later(s, Apply(s, a))
  {
    var s' := Apply(s, a);
    forall u | u in s'.users && u < s.nextUser ensures u in s.users && s.users[u].version <= s'.users[u].version {
      VersionsRise(s, a, u);
    }
    forall l | l in s.logins
      ensures l in s'.logins && s'.logins[l].user == s.logins[l].user && s'.logins[l].version == s.logins[l].version
    {
      LoginsKeepWhatTheyRead(s, a, l);
    }
  }

  lemma StepKeepsUsers(s: State, a: Action)
    requires Enabled(s, a) && Inv(s)
    ensures UsersOk(Apply(s, a))
  {
    if a.UpgradeHash? {
      assert s.logins[a.l].hash.password == s.logins[a.l].password;
    }
  }

  lemma StepKeepsLogins(s: State, a: Action)
    requires Enabled(s, a) && Inv(s)
    ensures LoginsOk(Apply(s, a))
  {
    StepIsLater(s, a);
    var s' := Apply(s, a);
    forall l | l in s'.logins
      ensures var x := s'.logins[l];
              && NotAhead(s', x.user, x.version)
              && (!x.stage.Read? ==> x.hash.password == x.password)
              && (x.stage.Opened? ==> x.stage.session in s'.usedSessions)
    {
      if l in s.logins {
        assert NotAhead(s, s.logins[l].user, s.logins[l].version);
      }
    }
  }

  lemma StepKeepsTokens(s: State, a: Action)
    requires Enabled(s, a) && Inv(s)
    ensures forall m :: m in Apply(s, a).minted ==> TokenOk(Apply(s, a), m)
  {
    StepIsLater(s, a);
    var s' := Apply(s, a);
    forall m | m in s'.minted ensures TokenOk(s', m) {
      if m in s.minted {
        assert TokenOk(s, m);
      } else {
        assert NotAhead(s, m.token.user, m.token.version);
      }
    }
  }

  lemma StepKeepsInv(s: State, a: Action)
    requires Enabled(s, a) && Inv(s)
    ensures Inv(Apply(s, a))
  {
    StepKeepsUsers(s, a);
    StepKeepsLogins(s, a);
    StepKeepsTokens(s, a);
  }

  /** A new installation, before anyone has registered. */
  function Empty(now: int): State {
    State(now, map[], 0, map[], {}, map[], map[], {})
  }

  lemma EmptyMeetsInv(now: int)
    ensures Inv(Empty(now))
  {
  }

  lemma {:induction false} RunKeepsInv(ss: seq<State>, acts: seq<Action>, i: nat)
    requires Run(ss, acts) && Inv(ss[0]) && i < |ss|
    ensures Inv(ss[i])
  {
    if i == 0 {
    } else {
      RunKeepsInv(ss, acts, i - 1);
      StepKeepsInv(ss[i - 1], acts[i - 1]);
    }
  }

  // ----- passwords -----

  /**
   Whatever logins are in progress, every stored hash is a hash of the password its account set last:
   a late re-hash never brings a replaced password back, and it never signs anyone out.
   */
  lemma StoredHashIsCurrent(ss: seq<State>, acts: seq<Action>, i: nat, u: UserId)
    requires Run(ss, acts) && Inv(ss[0]) && i < |ss| && u in ss[i].users
    ensures u in ss[i].lastSet && ss[i].users[u].hash.password == ss[i].lastSet[u]
    ensures i < |acts| && acts[i].UpgradeHash? ==>
              && u in ss[i + 1].users && ss[i + 1].users[u].version == ss[i].users[u].version
              && ss[i + 1].users[u].hash.password == ss[i].users[u].hash.password
              && (forall t :: Accepts(ss[i + 1], t) == Accepts(ss[i], t))
  {
    RunKeepsInv(ss, acts, i);
  }

  // ----- tokens -----

  /** No statement makes a token acceptable that was not. */
  lemma AcceptanceIsNeverGained(s: State, a: Action, m: Minted)
    requires Enabled(s, a) && Inv(s) && m in s.minted && Accepts(Apply(s, a), m.token)
    ensures Accepts(s, m.token)
  {
    assert TokenOk(s, m);
    StepIsLater(s, a);
  }

  lemma StepKeepsRefusal(s: State, a: Action, m: Minted)
    requires Enabled(s, a) && Inv(s) && m in s.minted && !Accepts(s, m.token)
    ensures m in Apply(s, a).minted && !Accepts(Apply(s, a), m.token)
  {
    if Accepts(Apply(s, a), m.token) {
      AcceptanceIsNeverGained(s, a, m);
    }
  }

  /** Once an issued token is refused, for whatever reason, it is refused in every later state. */
  lemma {:induction false} RefusalIsFinal(ss: seq<State>, acts: seq<Action>, i: nat, j: nat, m: Minted)
    requires Run(ss, acts) && Inv(ss[0]) && i <= j < |ss| && m in ss[i].minted && !Accepts(ss[i], m.token)
    ensures m in ss[j].minted && !Accepts(ss[j], m.token)
    decreases j
  {
    if i == j {
    } else {
      RefusalIsFinal(ss, acts, i, j - 1, m);
      RunKeepsInv(ss, acts, j - 1);
      StepKeepsRefusal(ss[j - 1], acts[j - 1], m);
    }
  }

  /** The account's version was raised: a password reset that redeems its ticket, or a logout everywhere. */
  ghost predicate SignsOutEverywhere(s: State, a: Action, u: UserId) {
    || (a.BumpVersion? && a.u == u && u in s.users)
    || (a.ResetPassword? && Redeems(s, u, a.digest))
  }

  ghost predicate Passed(s: State, u: UserId, version: nat) {
    u < s.nextUser && (u in s.users ==> s.users[u].version > version)
  }

  lemma {:induction false} VersionStaysPassed(ss: seq<State>, acts: seq<Action>, i: nat, j: nat, u: UserId, v: nat)
    requires Run(ss, acts) && Inv(ss[0]) && i <= j < |ss| && Passed(ss[i], u, v)
    ensures Passed(ss[j], u, v)
    decreases j
  {
    if i == j {
    } else {
      VersionStaysPassed(ss, acts, i, j - 1, u, v);
      RunKeepsInv(ss, acts, j - 1);
      StepIsLater(ss[j - 1], acts[j - 1]);
    }
  }

  lemma {:induction false} LoginKeepsWhatItRead(ss: seq<State>, acts: seq<Action>, i: nat, j: nat, l: LoginId)
    requires Run(ss, acts) && Inv(ss[0]) && i <= j < |ss| && l in ss[i].logins
    ensures l in ss[j].logins
    ensures ss[j].logins[l].user == ss[i].logins[l].user && ss[j].logins[l].version == ss[i].logins[l].version
    decreases j
  {
    if i == j {
    } else {
      LoginKeepsWhatItRead(ss, acts, i, j - 1, l);
      RunKeepsInv(ss, acts, j - 1);
      StepIsLater(ss[j - 1], acts[j - 1]);
    }
  }

  /**
   A login that read the user row before a reset or a logout everywhere can still finish, but no
   token it mints, before or after, is accepted from then on.
   */
  lemma OldLoginsMintNothingUsable(ss: seq<State>, acts: seq<Action>, i: nat, j: nat, l: LoginId, m: Minted)
    requires Run(ss, acts) && Inv(ss[0]) && i < j < |ss|
    requires l in ss[i].logins && SignsOutEverywhere(ss[i], acts[i], ss[i].logins[l].user)
    requires m in ss[j].minted && m.login == Some(l)
    ensures !Accepts(ss[j], m.token)
  {
    RunKeepsInv(ss, acts, i);
    RunKeepsInv(ss, acts, j);
    var (u, v) := (ss[i].logins[l].user, ss[i].logins[l].version);
    assert NotAhead(ss[i], u, v);
    assert Passed(ss[i + 1], u, v);
    VersionStaysPassed(ss, acts, i + 1, j, u, v);
    LoginKeepsWhatItRead(ss, acts, i, j, l);
    assert TokenOk(ss[j], m);
  }

  /** Signing one device out refuses exactly its own token; every other token fares as before. */
  lemma RevokingIsPrecise(s: State, u: UserId, sid: SessionId, t: Token)
    ensures var s' := Apply(s, RevokeSession(u, sid));
            Accepts(s', t) <==> Accepts(s, t) && !(t.session == Some(sid) && t.user == u)
    ensures var s' := Apply(s, RevokeByToken(sid));
            Accepts(s', t) <==> Accepts(s, t) && t.session != Some(sid)
    ensures forall spared :: (var s' := Apply(s, RevokeAll(u, spared));
            Accepts(s', t) <==> Accepts(s, t) && (t.user == u && t.session.Some? ==> t.session == spared))
  {
  }
}
