/**
 When a token is accepted, said of whole runs: from its login's reading of the user row to the request
 that presents it.  The same for a password reset, from its mail to its use.
 */
module Acceptance {
  import opened Wrappers
  import opened Credentials

  lemma RunStep(ss: seq<State>, acts: seq<Action>, n: nat)
    requires Run(ss, acts) && 0 < n < |ss|
    ensures Enabled(ss[n - 1], acts[n - 1]) && ss[n] == Apply(ss[n - 1], acts[n - 1])
  {
  }

  // ----- the version of an account -----

  /** The action ends every token of the account: it raises the version or removes the account. */
  ghost predicate EndsAll(s: State, a: Action, u: UserId) {
    SignsOutEverywhere(s, a, u) || a == DeleteAccount(u)
  }

  ghost predicate EndedAllBetween(ss: seq<State>, acts: seq<Action>, u: UserId, i: nat, j: nat)
    requires j <= |acts| < |ss|
  {
    i < j && (EndsAll(ss[j - 1], acts[j - 1], u) || EndedAllBetween(ss, acts, u, i, j - 1))
  }

  ghost predicate HasVersion(s: State, u: UserId, version: nat) {
    u in s.users && s.users[u].version == version
  }

  lemma VersionAfter(s: State, a: Action, u: UserId)
    requires Enabled(s, a) && u in s.users && u < s.nextUser
    ensures u in Apply(s, a).users <==> a != DeleteAccount(u)
    ensures a != DeleteAccount(u) ==>
              Apply(s, a).users[u].version == s.users[u].version + (if SignsOutEverywhere(s, a, u) then 1 else 0)
  {
  }

  lemma RemovedStaysRemoved(s: State, a: Action, u: UserId)
    requires Enabled(s, a) && u !in s.users && u < s.nextUser
    ensures u !in Apply(s, a).users
  {
  }

  lemma IdsOnlyGrow(s: State, a: Action)
    requires Enabled(s, a)
    ensures s.nextUser <= Apply(s, a).nextUser
  {
  }

  lemma StepKeepsVersion(s: State, a: Action, u: UserId, version: nat)
    requires Enabled(s, a) && Inv(s) && NotAhead(s, u, version)
    ensures HasVersion(Apply(s, a), u, version) <==> HasVersion(s, u, version) && !EndsAll(s, a, u)
    ensures NotAhead(Apply(s, a), u, version)
  {
    IdsOnlyGrow(s, a);
    if u in s.users {
      VersionAfter(s, a, u);
    } else {
      RemovedStaysRemoved(s, a, u);
    }
  }

  /** An account keeps a version exactly until a reset, a sign-out everywhere or its deletion. */
  lemma {:induction false} VersionUntilEnded(ss: seq<State>, acts: seq<Action>, i: nat, j: nat, u: UserId, version: nat)
    requires Run(ss, acts) && Inv(ss[0]) && i <= j < |ss| && HasVersion(ss[i], u, version)
    ensures HasVersion(ss[j], u, version) <==> !EndedAllBetween(ss, acts, u, i, j)
    ensures NotAhead(ss[j], u, version)
    decreases j
  {
    if i == j {
      RunKeepsInv(ss, acts, i);
    } else {
      VersionUntilEnded(ss, acts, i, j - 1, u, version);
      RunKeepsInv(ss, acts, j - 1);
      RunStep(ss, acts, j);
      StepKeepsVersion(ss[j - 1], acts[j - 1], u, version);
    }
  }

  /**
   A token without a session is honoured: once accepted it stays so exactly until a reset, a sign-out
   everywhere or the deletion of the account.
   */
  lemma BareTokenAcceptedExactlyWhen(ss: seq<State>, acts: seq<Action>, i: nat, j: nat, u: UserId, version: nat)
    requires Run(ss, acts) && Inv(ss[0]) && i <= j < |ss| && u in ss[i].users && ss[i].users[u].version == version
    ensures Accepts(ss[i], Token(u, version, None))
    ensures Accepts(ss[j], Token(u, version, None)) <==> !EndedAllBetween(ss, acts, u, i, j)
  {
    VersionUntilEnded(ss, acts, i, j, u, version);
  }

  // ----- one session -----

  /** The action signs this one device out, or removes its account. */
  ghost predicate EndsSession(a: Action, u: UserId, sid: SessionId) {
    || a == RevokeByToken(sid) || a == RevokeSession(u, sid) || a == DeleteAccount(u)
    || (a.RevokeAll? && a.u == u && a.spared != Some(sid))
  }

  ghost predicate EndedSessionBetween(acts: seq<Action>, u: UserId, sid: SessionId, i: nat, j: nat)
    requires j <= |acts|
  {
    i < j && (EndsSession(acts[j - 1], u, sid) || EndedSessionBetween(acts, u, sid, i, j - 1))
  }

  /** The row of a session that nobody has ended: there until some time after it expires. */
  ghost predicate Open(s: State, u: UserId, sid: SessionId, expiresAt: int) {
    if sid in s.sessions then s.sessions[sid] == Session(u, false, expiresAt) else expiresAt < s.now
  }

  ghost predicate Closed(s: State, sid: SessionId) {
    sid in s.sessions ==> s.sessions[sid].revoked
  }

  lemma StepKeepsOpen(s: State, a: Action, u: UserId, sid: SessionId, expiresAt: int)
    requires Enabled(s, a) && sid in s.usedSessions && Open(s, u, sid, expiresAt)
    ensures if EndsSession(a, u, sid) then Closed(Apply(s, a), sid) else Open(Apply(s, a), u, sid, expiresAt)
    ensures sid in Apply(s, a).usedSessions
  {
  }

  lemma StepKeepsClosed(s: State, a: Action, sid: SessionId)
    requires Enabled(s, a) && sid in s.usedSessions && Closed(s, sid)
    ensures Closed(Apply(s, a), sid) && sid in Apply(s, a).usedSessions
  {
  }

  lemma {:induction false} OpenUntilEnded(ss: seq<State>, acts: seq<Action>, i: nat, j: nat, u: UserId, sid: SessionId,
                                          expiresAt: int)
    requires Run(ss, acts) && i <= j < |ss| && sid in ss[i].usedSessions && Open(ss[i], u, sid, expiresAt)
    ensures sid in ss[j].usedSessions
    ensures if EndedSessionBetween(acts, u, sid, i, j) then Closed(ss[j], sid) else Open(ss[j], u, sid, expiresAt)
    decreases j
  {
    if i == j {
    } else {
      OpenUntilEnded(ss, acts, i, j - 1, u, sid, expiresAt);
      RunStep(ss, acts, j);
      if EndedSessionBetween(acts, u, sid, i, j - 1) {
        StepKeepsClosed(ss[j - 1], acts[j - 1], sid);
      } else {
        StepKeepsOpen(ss[j - 1], acts[j - 1], u, sid, expiresAt);
      }
    }
  }

  // ----- a login's token -----

  /** Login `l` reads the row of `u` at step `i` and opens session `sid` at step `k`. */
  ghost predicate LogsIn(ss: seq<State>, acts: seq<Action>, i: nat, k: nat, l: LoginId, u: UserId, sid: SessionId) {
    && Run(ss, acts) && Inv(ss[0]) && i < k < |acts|
    && acts[i].ReadUser? && acts[i].l == l && acts[i].u == u && acts[k] == OpenSession(l, sid)
  }

  /** The token it mints: what it read of the row, and its session. */
  function TokenOf(s: State, u: UserId, sid: SessionId): Token
    requires u in s.users
  {
    Token(u, s.users[u].version, Some(sid))
  }

  lemma SessionOpened(ss: seq<State>, acts: seq<Action>, i: nat, k: nat, l: LoginId, u: UserId, sid: SessionId)
    requires LogsIn(ss, acts, i, k, l, u, sid)
    ensures u in ss[i].users && ss[k].logins[l].user == u && ss[k].logins[l].version == ss[i].users[u].version
    ensures sid in ss[k + 1].sessions && sid in ss[k + 1].usedSessions
    ensures ss[k + 1].sessions[sid] == Session(u, false, ss[k].now + 4 * 3600)
  {
    RunStep(ss, acts, i + 1);
    RunStep(ss, acts, k + 1);
    LoginKeepsWhatItRead(ss, acts, i + 1, k, l);
  }

  ghost predicate HasOpened(s: State, l: LoginId, sid: SessionId) {
    l in s.logins && s.logins[l].stage == Opened(sid)
  }

  lemma StepKeepsStage(s: State, a: Action, l: LoginId, sid: SessionId)
    requires Enabled(s, a) && (HasOpened(s, l, sid) || a == OpenSession(l, sid))
    ensures HasOpened(Apply(s, a), l, sid)
  {
  }

  lemma RunKeepsStage(ss: seq<State>, acts: seq<Action>, j: nat, l: LoginId, sid: SessionId)
    requires Run(ss, acts) && 0 < j < |ss| && (HasOpened(ss[j - 1], l, sid) || acts[j - 1] == OpenSession(l, sid))
    ensures HasOpened(ss[j], l, sid)
  {
    RunStep(ss, acts, j);
    StepKeepsStage(ss[j - 1], acts[j - 1], l, sid);
  }

  lemma {:induction false} SessionKept(ss: seq<State>, acts: seq<Action>, k: nat, j: nat, l: LoginId, sid: SessionId)
    requires Run(ss, acts) && k < j < |ss| && acts[k] == OpenSession(l, sid)
    ensures HasOpened(ss[j], l, sid)
    decreases j
  {
    if j == k + 1 {
      RunKeepsStage(ss, acts, j, l, sid);
    } else {
      SessionKept(ss, acts, k, j - 1, l, sid);
      RunKeepsStage(ss, acts, j, l, sid);
    }
  }

  /** What the login mints once its session is open is that token. */
  lemma LoginMints(ss: seq<State>, acts: seq<Action>, i: nat, k: nat, m: nat, l: LoginId, u: UserId, sid: SessionId)
    requires LogsIn(ss, acts, i, k, l, u, sid) && k < m < |acts| && acts[m] == Mint(l)
    ensures u in ss[i].users && Minted(Some(l), TokenOf(ss[i], u, sid)) in ss[m + 1].minted
  {
    SessionOpened(ss, acts, i, k, l, u, sid);
    SessionKept(ss, acts, k, m, l, sid);
    LoginKeepsWhatItRead(ss, acts, k, m, l);
    RunStep(ss, acts, m + 1);
  }

  lemma AcceptsOpenSession(s: State, u: UserId, version: nat, sid: SessionId, expiresAt: int,
                           outdated: bool, ended: bool)
    requires (HasVersion(s, u, version) <==> !outdated)
    requires if ended then Closed(s, sid) else Open(s, u, sid, expiresAt)
    ensures Accepts(s, Token(u, version, Some(sid))) <==> !outdated && !ended && s.now < expiresAt
  {
  }

  /**
   A login's token is accepted if and only if, since the login read the user row, the account was neither
   reset nor signed out everywhere nor deleted, nobody has ended its session, and four hours have not
   passed since the session was opened.
   */
  lemma TokenAcceptedExactlyWhen(ss: seq<State>, acts: seq<Action>, i: nat, k: nat, j: nat, l: LoginId, u: UserId,
                                 sid: SessionId)
    requires LogsIn(ss, acts, i, k, l, u, sid) && k < j < |ss|
    ensures u in ss[i].users
    ensures Accepts(ss[j], TokenOf(ss[i], u, sid)) <==>
              && !EndedAllBetween(ss, acts, u, i, j)
              && !EndedSessionBetween(acts, u, sid, k + 1, j)
              && ss[j].now < ss[k].now + 4 * 3600
  {
    SessionOpened(ss, acts, i, k, l, u, sid);
    AcceptedSince(ss, acts, i, k, j, u, ss[i].users[u].version, sid, ss[k].now + 4 * 3600);
  }

  lemma AcceptedSince(ss: seq<State>, acts: seq<Action>, i: nat, k: nat, j: nat, u: UserId, version: nat,
                      sid: SessionId, expiresAt: int)
    requires Run(ss, acts) && Inv(ss[0]) && i < k < j < |ss| && HasVersion(ss[i], u, version)
    requires sid in ss[k + 1].usedSessions && Open(ss[k + 1], u, sid, expiresAt)
    ensures Accepts(ss[j], Token(u, version, Some(sid))) <==>
              && !EndedAllBetween(ss, acts, u, i, j)
              && !EndedSessionBetween(acts, u, sid, k + 1, j)
              && ss[j].now < expiresAt
  {
    var (outdated, ended) := (EndedAllBetween(ss, acts, u, i, j), EndedSessionBetween(acts, u, sid, k + 1, j));
    VersionUntilEnded(ss, acts, i, j, u, version);
    OpenUntilEnded(ss, acts, k + 1, j, u, sid, expiresAt);
    AcceptsOpenSession(ss[j], u, version, sid, expiresAt, outdated, ended);
  }

  /**
   A login gets through exactly with the password its account set last: then it can be verified, open a
   session and mint its token, and with any other it cannot be verified.
   */
  lemma LogsInExactlyWith(s: State, l: LoginId, u: UserId, password: string, sid: SessionId)
    requires Inv(s) && l !in s.logins && u in s.users && sid !in s.usedSessions
    ensures Enabled(s, ReadUser(l, u, password))
    ensures var r := Apply(s, ReadUser(l, u, password));
            && u in s.lastSet && (Enabled(r, Verify(l)) <==> password == s.lastSet[u])
            && (Enabled(r, Verify(l)) ==>
                  && Enabled(Apply(r, Verify(l)), OpenSession(l, sid))
                  && Enabled(Apply(Apply(r, Verify(l)), OpenSession(l, sid)), Mint(l)))
  {
  }

  // ----- password resets -----

  /** The action leaves the reset ticket of the account alone. */
  ghost predicate KeepsTicket(s: State, a: Action, u: UserId) {
    && !(a.RequestReset? && a.u == u) && a != DeleteAccount(u)
    && !(a.ResetPassword? && Redeems(s, u, a.digest))
  }

  ghost predicate HoldsTicket(s: State, u: UserId, digest: string, expiresAt: int) {
    u in s.users && s.users[u].reset == Some(ResetTicket(digest, expiresAt)) && u < s.nextUser
  }

  lemma StepKeepsTicket(s: State, a: Action, u: UserId, digest: string, expiresAt: int)
    requires Enabled(s, a) && HoldsTicket(s, u, digest, expiresAt) && KeepsTicket(s, a, u)
    ensures HoldsTicket(Apply(s, a), u, digest, expiresAt)
  {
  }

  lemma {:induction false} TicketIsKept(ss: seq<State>, acts: seq<Action>, i: nat, j: nat, u: UserId, digest: string,
                                        expiresAt: int)
    requires Run(ss, acts) && i <= j < |ss| && HoldsTicket(ss[i], u, digest, expiresAt)
    requires forall m :: i <= m < j ==> KeepsTicket(ss[m], acts[m], u)
    ensures HoldsTicket(ss[j], u, digest, expiresAt)
    decreases j
  {
    if i == j {
    } else {
      TicketIsKept(ss, acts, i, j - 1, u, digest, expiresAt);
      RunStep(ss, acts, j);
      StepKeepsTicket(ss[j - 1], acts[j - 1], u, digest, expiresAt);
    }
  }

  /**
   A reset sets the password, raises the version and spends its ticket if and only if it presents the
   mailed token within the hour.
   */
  lemma ResetTakesEffectExactlyWhen(ss: seq<State>, acts: seq<Action>, i: nat, j: nat, u: UserId, digest: string)
    requires Run(ss, acts) && Inv(ss[0]) && i < j < |acts| && acts[i] == RequestReset(u, digest) && u in ss[i].users
    requires acts[j].ResetPassword? && forall m :: i < m < j ==> KeepsTicket(ss[m], acts[m], u)
    ensures u in ss[j].users && u in ss[j + 1].users
    ensures var (was, now) := (ss[j].users[u], ss[j + 1].users[u]);
            if acts[j].digest == digest && ss[j].now < ss[i].now + 3600
            then now == User(acts[j].hash, was.version + 1, None) else now == was
  {
    RunKeepsInv(ss, acts, i);
    RunStep(ss, acts, i + 1);
    TicketIsKept(ss, acts, i + 1, j, u, digest, ss[i].now + 3600);
    RunStep(ss, acts, j + 1);
  }

  /** A login re-hashes a legacy password exactly while the stored hash is the one it checked. */
  lemma RehashTakesEffectExactlyWhen(s: State, l: LoginId, salt: nat)
    requires Enabled(s, UpgradeHash(l, salt)) && Inv(s) && s.logins[l].user in s.users
    ensures var (u, x) := (s.logins[l].user, s.logins[l]);
            var (was, now) := (s.users[u], Apply(s, UpgradeHash(l, salt)).users[u]);
            && now.hash == (if was.hash == x.hash then PasswordHash(was.hash.password, false, salt) else was.hash)
            && now == was.(hash := now.hash)
  {
    assert s.logins[l].hash.password == s.logins[l].password;
  }
}
