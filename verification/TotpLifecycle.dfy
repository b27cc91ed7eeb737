/**
 The second factor of one account over its whole life.  A request reads the factor, checks a code
 against the secret it read, and only then consumes the step or confirms the enrolment, so the factor may
 be switched off, or enrolled anew, between any two of these.
 */
module TotpLifecycle {
  import opened Wrappers
  import opened Totp

  type RequestId = nat

  /** A request in progress: the secret it read, whether the factor was on then, and the step its code showed. */
  datatype Check = Check(secret: string, wasEnabled: bool, step: Option<nat>)

  /** Generated secrets are never repeated: `issued` holds all of them. */
  datatype State = State(now: nat, factor: Factor, issued: set<string>, checks: map<RequestId, Check>)

  datatype Action =
    | Tick(seconds: nat)
    | Stage(secret: string)
    | Read(v: RequestId)
    | Validate(v: RequestId, step: nat)
    | Confirm(v: RequestId, hashes: seq<CodeHash>)
    | Consume(v: RequestId)
    | UseRecovery(code: CodeHash)
    | Disable

  /** Confirming is for requests that found the factor off, consuming for those that found it on. */
  ghost predicate Enabled(s: State, a: Action) {
    match a
    case Tick(_) => true
    case Stage(secret) => secret !in s.issued
    case Read(v) => v !in s.checks && s.factor.secret.Some?
    case Validate(v, step) => v in s.checks && s.checks[v].step.None? && InSkew(s.now, step)
    case Confirm(v, _) => v in s.checks && s.checks[v].step.Some? && !s.checks[v].wasEnabled
    case Consume(v) => v in s.checks && s.checks[v].step.Some? && s.checks[v].wasEnabled
    case UseRecovery(_) => true
    case Disable => true
  }

  ghost predicate Confirms(f: Factor, hashes: seq<CodeHash>) {
    !f.enabled && f.secret.Some? && Distinct(hashes)
  }

  /** The factor after the statement, as the methods of `Totp.SecondFactor` leave it. */
  ghost function FactorAfter(s: State, a: Action): Factor
    requires Enabled(s, a)
  {
    match a
    case Stage(secret) => if s.factor.enabled then s.factor else s.factor.(secret := Some(secret))
    case Confirm(v, hashes) =>
      if Confirms(s.factor, hashes)
      then Factor(s.factor.secret, true, s.checks[v].step.value, map h | h in hashes :: false) else s.factor
    case Consume(v) => WithStep(s.factor, s.checks[v].step.value)
    case UseRecovery(h) => WithUsed(s.factor, h)
    case Disable => Factor(None, false, 0, map[])
    case _ => s.factor
  }

  ghost function Apply(s: State, a: Action): State
    requires Enabled(s, a)
  {
    State(if a.Tick? then s.now + a.seconds else s.now,
          FactorAfter(s, a),
          if a.Stage? then s.issued + {a.secret} else s.issued,
          match a
          case Read(v) => s.checks[v := Check(s.factor.secret.value, s.factor.enabled, None)]
          case Validate(v, step) => s.checks[v := s.checks[v].(step := Some(step))]
          case Confirm(v, _) => s.checks - {v}
          case Consume(v) => s.checks - {v}
          case _ => s.checks)
  }

  ghost predicate Run(ss: seq<State>, acts: seq<Action>) {
    && |ss| == |acts| + 1
    && forall i :: 0 <= i < |acts| ==> Enabled(ss[i], acts[i]) && ss[i + 1] == Apply(ss[i], acts[i])
  }

  lemma RunStep(ss: seq<State>, acts: seq<Action>, n: nat)
    requires Run(ss, acts) && 0 < n < |ss|
    ensures Enabled(ss[n - 1], acts[n - 1]) && ss[n] == Apply(ss[n - 1], acts[n - 1])
  {
  }

  /** A stored secret was issued, and a factor that is on has one. */
  ghost predicate Inv(s: State) {
    && (s.factor.secret.Some? ==> s.factor.secret.value in s.issued)
    && (s.factor.enabled ==> s.factor.secret.Some?)
  }

  lemma {:induction false} RunKeepsInv(ss: seq<State>, acts: seq<Action>, i: nat)
    requires Run(ss, acts) && Inv(ss[0]) && i < |ss|
    ensures Inv(ss[i])
  {
    if i == 0 {
    } else {
      RunKeepsInv(ss, acts, i - 1);
      RunStep(ss, acts, i);
    }
  }

  // ----- how long a secret stays the current one -----

  /** The statement replaces or removes the stored secret. */
  ghost predicate Changes(s: State, a: Action) {
    a.Disable? || (a.Stage? && !s.factor.enabled)
  }

  ghost predicate ChangedBetween(ss: seq<State>, acts: seq<Action>, i: nat, j: nat)
    requires j <= |acts| < |ss|
  {
    i < j && (Changes(ss[j - 1], acts[j - 1]) || ChangedBetween(ss, acts, i, j - 1))
  }

  predicate DisabledBetween(acts: seq<Action>, i: nat, j: nat)
    requires j <= |acts|
  {
    i < j && (acts[j - 1].Disable? || DisabledBetween(acts, i, j - 1))
  }

  /** `secret` is the one codes are to be checked against. */
  ghost predicate IsCurrent(s: State, secret: string) {
    s.factor.secret == Some(secret)
  }

  lemma StepKeepsCurrent(s: State, a: Action, secret: string)
    requires Enabled(s, a) && Inv(s) && secret in s.issued
    ensures IsCurrent(Apply(s, a), secret) <==> IsCurrent(s, secret) && !Changes(s, a)
    ensures secret in Apply(s, a).issued
  {
  }

  /** A secret is the current one exactly until it is replaced or removed: it never comes back. */
  lemma {:induction false} CurrentUntilChanged(ss: seq<State>, acts: seq<Action>, i: nat, j: nat, secret: string)
    requires Run(ss, acts) && Inv(ss[0]) && i <= j < |ss| && IsCurrent(ss[i], secret)
    ensures IsCurrent(ss[j], secret) <==> !ChangedBetween(ss, acts, i, j)
    ensures secret in ss[j].issued
    decreases j
  {
    if i == j {
      RunKeepsInv(ss, acts, i);
    } else {
      CurrentUntilChanged(ss, acts, i, j - 1, secret);
      RunKeepsInv(ss, acts, j - 1);
      RunStep(ss, acts, j);
      StepKeepsCurrent(ss[j - 1], acts[j - 1], secret);
    }
  }

  /** A factor that is on stays on, with its secret, until it is switched off. */
  lemma {:induction false} OnUntilDisabled(ss: seq<State>, acts: seq<Action>, i: nat, j: nat)
    requires Run(ss, acts) && i <= j < |ss| && ss[i].factor.enabled
    ensures ChangedBetween(ss, acts, i, j) <==> DisabledBetween(acts, i, j)
    ensures !DisabledBetween(acts, i, j) ==> ss[j].factor.enabled
    decreases j
  {
    if i == j {
    } else {
      OnUntilDisabled(ss, acts, i, j - 1);
      RunStep(ss, acts, j);
    }
  }

  // ----- what a step was checked against -----

  ghost predicate Ends(a: Action, v: RequestId) {
    a == Consume(v) || (a.Confirm? && a.v == v)
  }

  /** The statement of request `v` that ends it succeeds with its step. */
  ghost predicate Accepted(s: State, a: Action, v: RequestId)
    requires Enabled(s, a) && Ends(a, v)
  {
    if a.Consume? then StepIsNew(s.factor, s.checks[v].step.value) else Confirms(s.factor, a.hashes)
  }

  lemma {:induction false} CheckKeepsWhatItRead(ss: seq<State>, acts: seq<Action>, i: nat, j: nat, v: RequestId)
    requires Run(ss, acts) && i < j < |ss| && acts[i] == Read(v) && forall m :: i < m < j ==> !Ends(acts[m], v)
    ensures v in ss[j].checks && IsCurrent(ss[i], ss[j].checks[v].secret)
    ensures ss[j].checks[v].wasEnabled == ss[i].factor.enabled
    decreases j
  {
    RunStep(ss, acts, j);
    if j == i + 1 {
    } else {
      CheckKeepsWhatItRead(ss, acts, i, j - 1, v);
    }
  }

  /**
   In every run, when a request reaches the statement that ends it, the secret its code was checked
   against is the current one if and only if none was staged or removed since the request read the
   factor; for one that found the factor on, if and only if it was not switched off since.
   */
  lemma CheckedAgainstCurrentExactlyWhen(ss: seq<State>, acts: seq<Action>, i: nat, j: nat, v: RequestId)
    requires Run(ss, acts) && Inv(ss[0]) && i < j < |acts| && acts[i] == Read(v) && Ends(acts[j], v)
    requires forall m :: i < m < j ==> !Ends(acts[m], v)
    ensures v in ss[j].checks
    ensures IsCurrent(ss[j], ss[j].checks[v].secret) <==> !ChangedBetween(ss, acts, i, j)
    ensures acts[j] == Consume(v) ==>
              (IsCurrent(ss[j], ss[j].checks[v].secret) <==> !DisabledBetween(acts, i, j))
  {
    CheckKeepsWhatItRead(ss, acts, i, j, v);
    CurrentUntilChanged(ss, acts, i, j, ss[j].checks[v].secret);
    assert Enabled(ss[j], acts[j]);
    if acts[j] == Consume(v) {
      OnUntilDisabled(ss, acts, i, j);
    }
  }

  // ----- accepted steps -----

  lemma StepKeepsFloor(s: State, a: Action, floor: int)
    requires Enabled(s, a) && s.factor.enabled && s.factor.lastStep >= floor && !a.Disable?
    ensures Apply(s, a).factor.enabled && Apply(s, a).factor.lastStep >= floor
  {
  }

  lemma {:induction false} FloorHolds(ss: seq<State>, acts: seq<Action>, i: nat, j: nat, floor: int)
    requires Run(ss, acts) && i <= j < |ss| && ss[i].factor.enabled && ss[i].factor.lastStep >= floor
    requires !DisabledBetween(acts, i, j)
    ensures ss[j].factor.enabled && ss[j].factor.lastStep >= floor
    decreases j
  {
    if i == j {
    } else {
      FloorHolds(ss, acts, i, j - 1, floor);
      RunStep(ss, acts, j);
      StepKeepsFloor(ss[j - 1], acts[j - 1], floor);
    }
  }

  /**
   While the factor is on and not switched off, whatever is staged, read, confirmed or recovered in
   between, accepted steps rise strictly, those of requests that read another secret included.
   */
  lemma AcceptedStepsRise(ss: seq<State>, acts: seq<Action>, i: nat, j: nat, v: RequestId, w: RequestId)
    requires Run(ss, acts) && i < j < |acts| && ss[i].factor.enabled && !DisabledBetween(acts, i, j)
    requires acts[i] == Consume(v) && acts[j] == Consume(w)
    requires Accepted(ss[i], acts[i], v) && Accepted(ss[j], acts[j], w)
    ensures ss[i].checks[v].step.value < ss[j].checks[w].step.value
  {
    RunStep(ss, acts, i + 1);
    NotDisabledLater(acts, i, i + 1, j);
    StepKeepsFloor(ss[i], acts[i], ss[i].factor.lastStep);
    FloorHolds(ss, acts, i + 1, j, ss[i].checks[v].step.value);
  }

  /** From its confirmation until it is switched off, every accepted step is above the confirming one. */
  lemma ConfirmingStepIsTheFloor(ss: seq<State>, acts: seq<Action>, i: nat, j: nat, v: RequestId, w: RequestId)
    requires Run(ss, acts) && i < j < |acts| && !DisabledBetween(acts, i, j)
    requires acts[i].Confirm? && acts[i].v == v && Accepted(ss[i], acts[i], v)
    requires acts[j] == Consume(w)
    ensures ss[i + 1].factor.enabled && ss[i + 1].factor.lastStep == ss[i].checks[v].step.value
    ensures Accepted(ss[j], acts[j], w) ==> ss[i].checks[v].step.value < ss[j].checks[w].step.value
  {
    RunStep(ss, acts, i + 1);
    NotDisabledLater(acts, i, i + 1, j);
    FloorHolds(ss, acts, i + 1, j, ss[i].checks[v].step.value);
  }

  lemma {:induction false} NotDisabledLater(acts: seq<Action>, i: nat, m: nat, j: nat)
    requires i <= m <= j <= |acts| && !DisabledBetween(acts, i, j)
    ensures !DisabledBetween(acts, m, j)
    decreases j
  {
    if m == j {
    } else {
      NotDisabledLater(acts, i, m, j - 1);
    }
  }

  // ----- a step checked against a removed secret -----

  lemma RunGrows(ss: seq<State>, acts: seq<Action>, a: Action) returns (ss': seq<State>, acts': seq<Action>)
    requires Run(ss, acts) && Enabled(ss[|acts|], a)
    ensures ss' == ss + [Apply(ss[|acts|], a)] && acts' == acts + [a] && Run(ss', acts')
  {
    ss', acts' := ss + [Apply(ss[|acts|], a)], acts + [a];
    forall i | 0 <= i < |acts'| ensures Enabled(ss'[i], acts'[i]) && ss'[i + 1] == Apply(ss'[i], acts'[i]) {
      assert ss'[i] == ss[i] && (i < |acts| ==> acts'[i] == acts[i] && ss'[i + 1] == ss[i + 1]);
    }
  }

  /** An account enrolled with secret `a` and recovery code `r`, its last accepted step that of the clock. */
  function Enrolled(a: string, r: CodeHash): State {
    State(3000, Factor(Some(a), true, 100, map[r := false]), {a}, map[])
  }

  /**
   A login checks its code against `a`; meanwhile the factor is switched off with the recovery code and
   `b` is staged.
   */
  lemma ReenrolBegins(a: string, b: string, r: CodeHash) returns (ss: seq<State>, acts: seq<Action>)
    requires a != b
    ensures Run(ss, acts) && ss[0] == Enrolled(a, r)
    ensures acts == [Read(1), Validate(1, 101), UseRecovery(r), Disable, Stage(b)]
    ensures ss[5] == State(3000, Factor(Some(b), false, 0, map[]), {a, b}, map[1 := Check(a, true, Some(101))])
  {
    ss, acts := [Enrolled(a, r)], [];
    ss, acts := RunGrows(ss, acts, Read(1));
    ss, acts := RunGrows(ss, acts, Validate(1, 101));
    ss, acts := RunGrows(ss, acts, UseRecovery(r));
    ss, acts := RunGrows(ss, acts, Disable);
    ss, acts := RunGrows(ss, acts, Stage(b));
  }

  /**
   The new enrolment is confirmed, and then the login's step, checked against the removed secret, is
   accepted for it.
   */
  lemma RemovedSecretIsAccepted(a: string, b: string, r: CodeHash) returns (ss: seq<State>, acts: seq<Action>)
    requires a != b
    ensures Run(ss, acts) && ss[0] == Enrolled(a, r) && Inv(ss[0]) && |acts| == 9
    ensures acts[0] == Read(1) && acts[8] == Consume(1) && Accepted(ss[8], acts[8], 1)
    ensures ss[8].factor.enabled && IsCurrent(ss[8], b) && ss[8].checks[1].secret == a
  {
    ss, acts := ReenrolBegins(a, b, r);
    ss, acts := RunGrows(ss, acts, Read(2));
    ss, acts := RunGrows(ss, acts, Validate(2, 100));
    ss, acts := RunGrows(ss, acts, Confirm(2, []));
    ss, acts := RunGrows(ss, acts, Consume(1));
  }
}
