/**
 Time-based one-time codes (sections 4.2 and 5.2 of RFC 6238, section 5.3 of RFC 4226) and the
 stored second factor that makes each of them single-use.  HMAC-SHA-1 and the digest of a recovery
 code are parameters.
 */
module Totp {
  import opened Wrappers
  import opened Arithmetic
  import opened Text
  import opened Base32

  const DIGITS := 6
  const PERIOD := 30

  type Hmac = (seq<nat>, nat) -> seq<nat>

  /** Twenty bytes, as SHA-1 gives. */
  ghost predicate IsHmac(hmac: Hmac) {
    forall k, c :: |hmac(k, c)| == 20 && AreBytes(hmac(k, c))
  }

  // ----- computing a code -----

  /** Dynamic truncation: four bytes at an offset named by the last nibble, without the top bit. */
  function Truncated(mac: seq<nat>): (v: nat)
    requires |mac| == 20
    ensures v < 0x8000_0000
  {
    var offset := mac[19] % 16;
    FromBase(256, mac[offset..offset + 4]) % 0x8000_0000
  }

  function DigitChar(d: nat): char
    requires d < 10
  {
    ('0' as int + d) as char
  }

  /** `v` in exactly `n` decimal digits. */
  function Decimal(n: nat, v: nat): (s: string)
    ensures |s| == n && forall i :: 0 <= i < n ==> '0' <= s[i] <= '9'
  {
    var d := ToBase(10, n, v);
    seq(n, i requires 0 <= i < n => DigitChar(d[i]))
  }

  function CodeAt(hmac: Hmac, key: seq<nat>, counter: nat): (s: string)
    requires IsHmac(hmac)
    ensures |s| == DIGITS
  {
    Decimal(DIGITS, Truncated(hmac(key, counter)) % 1_000_000)
  }

  method TotpCode(hmac: Hmac, key: seq<nat>, counter: nat) returns (code: string)
    requires IsHmac(hmac)
    ensures code == CodeAt(hmac, key, counter)
  {
    var value := Truncated(hmac(key, counter));
    var mod, i := 1, 0;
    while i < DIGITS
      invariant 0 <= i <= DIGITS && mod == Pow(10, i)
    {
      mod := mod * 10;
      i := i + 1;
    }
    assert mod == 1_000_000 by { assert Pow(10, 3) == 1000 && Pow(10, 6) == Pow(10, 3) * 10 * 10 * 10; }
    code := Decimal(DIGITS, value % mod);
  }

  // ----- what a code is -----

  lemma FourBytes(a: nat, b: nat, c: nat, d: nat)
    ensures FromBase(256, [a, b, c, d]) == a * 0x100_0000 + b * 0x1_0000 + c * 0x100 + d
  {
    assert FromBase(256, []) == 0;
    AppendDigit(256, [], a);
    AppendDigit(256, [a], b);
    AppendDigit(256, [a, b], c);
    AppendDigit(256, [a, b, c], d);
    assert [] + [a] == [a] && [a] + [b] == [a, b] && [a, b] + [c] == [a, b, c] && [a, b, c] + [d] == [a, b, c, d];
  }

  lemma TopBitDropped(a: nat, low: nat)
    requires a < 256 && low < 0x100_0000
    ensures (a * 0x100_0000 + low) % 0x8000_0000 == (a % 128) * 0x100_0000 + low
  {
    Quotient(a * 0x100_0000 + low, 0x8000_0000, a / 128, (a % 128) * 0x100_0000 + low);
  }

  /** Section 5.3 of RFC 4226: four bytes at the offset in the last byte's low nibble, without the top bit. */
  lemma TruncationTakesFourBytes(mac: seq<nat>)
    requires |mac| == 20 && AreBytes(mac)
    ensures var o := mac[19] % 16;
            Truncated(mac) == (mac[o] % 128) * 0x100_0000 + mac[o + 1] * 0x1_0000 + mac[o + 2] * 0x100 + mac[o + 3]
  {
    var o := mac[19] % 16;
    assert mac[o..o + 4] == [mac[o], mac[o + 1], mac[o + 2], mac[o + 3]];
    FourBytes(mac[o], mac[o + 1], mac[o + 2], mac[o + 3]);
    TopBitDropped(mac[o], mac[o + 1] * 0x1_0000 + mac[o + 2] * 0x100 + mac[o + 3]);
  }

  /** The number a decimal numeral denotes, most significant digit first. */
  function Numeral(s: string): int {
    if s == [] then 0 else Numeral(s[..|s| - 1]) * 10 + (s[|s| - 1] as int - '0' as int)
  }

  lemma {:induction false} DecimalReadsAs(n: nat, v: nat)
    ensures Numeral(Decimal(n, v)) == FromBase(10, ToBase(10, n, v))
  {
    if n == 0 {
    } else {
      DecimalReadsAs(n - 1, v / 10);
      AppendDigit(10, ToBase(10, n - 1, v / 10), v % 10);
      assert Decimal(n, v)[..n - 1] == Decimal(n - 1, v / 10);
    }
  }

  /** A code is six decimal digits that read as the truncated value modulo a million. */
  lemma CodeReadsAs(hmac: Hmac, key: seq<nat>, counter: nat)
    requires IsHmac(hmac)
    ensures var code := CodeAt(hmac, key, counter);
            && |code| == 6 && (forall i :: 0 <= i < 6 ==> '0' <= code[i] <= '9')
            && Numeral(code) == Truncated(hmac(key, counter)) % 1_000_000
  {
    var v := Truncated(hmac(key, counter)) % 1_000_000;
    assert Pow(10, 6) == 1_000_000 by { assert Pow(10, 3) == 1000 && Pow(10, 6) == Pow(10, 3) * 10 * 10 * 10; }
    NumberBack(10, 6, v);
    DecimalReadsAs(6, v);
  }

  /** A step covers exactly the thirty seconds from 30 * step. */
  lemma StepCoversThirtySeconds(now: nat, step: nat)
    ensures Counter(now) == step <==> 30 * step <= now < 30 * step + 30
  {
  }

  /** The digest printed in section 5.4 of RFC 4226. */
  function PublishedDigest(): (mac: seq<nat>)
    ensures |mac| == 20 && AreBytes(mac)
    ensures mac[19] == 0x5a && mac[10] == 0x50 && mac[11] == 0xef && mac[12] == 0x7f && mac[13] == 0x19
  {
    [0x1f, 0x86, 0x98, 0x69, 0x0e, 0x02, 0xca, 0x16, 0x61, 0x85,
     0x50, 0xef, 0x7f, 0x19, 0xda, 0x8e, 0x94, 0x5b, 0x55, 0x5a]
  }

  lemma PublishedValue()
    ensures Truncated(PublishedDigest()) == 0x50ef7f19
  {
    TruncationTakesFourBytes(PublishedDigest());
  }

  /** It gives the value and the code printed there. */
  lemma PublishedExample(hmac: Hmac, key: seq<nat>, counter: nat)
    requires IsHmac(hmac) && hmac(key, counter) == PublishedDigest()
    ensures Truncated(hmac(key, counter)) == 0x50ef7f19 && Numeral(CodeAt(hmac, key, counter)) == 872921
  {
    PublishedValue();
    CodeReadsAs(hmac, key, counter);
  }

  /** Two codes are the same text exactly when the truncated values agree in their last six digits. */
  lemma CodesAgree(hmac: Hmac, key: seq<nat>, a: nat, b: nat)
    requires IsHmac(hmac)
    ensures CodeAt(hmac, key, a) == CodeAt(hmac, key, b) <==>
              Truncated(hmac(key, a)) % 1_000_000 == Truncated(hmac(key, b)) % 1_000_000
  {
    var (x, y) := (Truncated(hmac(key, a)) % 1_000_000, Truncated(hmac(key, b)) % 1_000_000);
    assert Pow(10, 6) == 1_000_000 by { assert Pow(10, 3) == 1000 && Pow(10, 6) == Pow(10, 3) * 10 * 10 * 10; }
    NumberBack(10, 6, x);
    NumberBack(10, 6, y);
    var (dx, dy) := (ToBase(10, 6, x), ToBase(10, 6, y));
    if Decimal(6, x) == Decimal(6, y) {
      forall i | 0 <= i < 6 ensures dx[i] == dy[i] {
        assert Decimal(6, x)[i] == DigitChar(dx[i]) && Decimal(6, y)[i] == DigitChar(dy[i]);
      }
      assert dx == dy;
    }
  }

  // ----- checking a code -----

  function Counter(now: nat): nat {
    now / PERIOD
  }

  predicate WellFormed(code: string) {
    |code| == DIGITS && forall i :: 0 <= i < |code| ==> '0' <= code[i] <= '9'
  }

  /** The steps that may be presented at `now`: one either side, none below zero. */
  predicate InSkew(now: nat, step: nat) {
    Counter(now) - 1 <= step <= Counter(now) + 1
  }

  /** The earliest step around counter `c` whose code is the one presented. */
  function MatchKey(hmac: Hmac, key: seq<nat>, code: string, c: nat): Option<nat>
    requires IsHmac(hmac)
  {
    if c >= 1 && CodeAt(hmac, key, c - 1) == code then Some(c - 1)
    else if CodeAt(hmac, key, c) == code then Some(c)
    else if CodeAt(hmac, key, c + 1) == code then Some(c + 1)
    else None
  }

  function Match(hmac: Hmac, secret: string, rawCode: string, now: nat): Option<nat>
    requires IsHmac(hmac)
  {
    var (code, key) := (Trim(rawCode), DecodeSecret(secret));
    if !WellFormed(code) || key.None? then None else MatchKey(hmac, key.value, code, Counter(now))
  }

  /**
   A match is within one step of the clock and shows the presented code, and no earlier step there
   does; without a match none does.
   */
  lemma MatchIsEarliest(hmac: Hmac, secret: string, rawCode: string, now: nat, e: nat)
    requires IsHmac(hmac) && WellFormed(Trim(rawCode)) && DecodeSecret(secret).Some? && InSkew(now, e)
    ensures var (m, key) := (Match(hmac, secret, rawCode, now), DecodeSecret(secret).value);
            && (m.Some? ==> InSkew(now, m.value) && CodeAt(hmac, key, m.value) == Trim(rawCode))
            && (CodeAt(hmac, key, e) == Trim(rawCode) ==> m.Some? && m.value <= e)
  {
    MatchKeyIsEarliest(hmac, DecodeSecret(secret).value, Trim(rawCode), Counter(now), e);
  }

  /**
   What an authenticator with the same secret shows is accepted: the code of the clock's own step, or of
   either neighbour, matches, with white space of any kind around it.
   */
  lemma ShownCodeMatches(hmac: Hmac, secret: string, now: nat, step: nat, typed: string)
    requires IsHmac(hmac) && DecodeSecret(secret).Some? && now / 30 - 1 <= step <= now / 30 + 1
    requires Trim(typed) == CodeAt(hmac, DecodeSecret(secret).value, step)
    ensures Match(hmac, secret, typed, now).Some? && Match(hmac, secret, typed, now).value <= step
  {
    CodeReadsAs(hmac, DecodeSecret(secret).value, step);
    MatchKeyIsEarliest(hmac, DecodeSecret(secret).value, Trim(typed), Counter(now), step);
  }

  lemma MatchKeyIsEarliest(hmac: Hmac, key: seq<nat>, code: string, c: nat, e: nat)
    requires IsHmac(hmac) && c - 1 <= e <= c + 1
    ensures var m := MatchKey(hmac, key, code, c);
            && (m.Some? ==> c - 1 <= m.value <= c + 1 && CodeAt(hmac, key, m.value) == code)
            && (CodeAt(hmac, key, e) == code ==> m.Some? && m.value <= e)
  {
  }

  /** The search over the accepted skew, skipping the step below zero. */
  method FindStep(hmac: Hmac, key: seq<nat>, code: string, counter: nat) returns (step: nat, ok: bool)
    requires IsHmac(hmac)
    ensures MatchKey(hmac, key, code, counter) == if ok then Some(step) else None
  {
    var delta := -1;
    while delta <= 1
      invariant -1 <= delta <= 2
      invariant delta > -1 && counter >= 1 ==> CodeAt(hmac, key, counter - 1) != code
      invariant delta > 0 ==> CodeAt(hmac, key, counter) != code
      invariant delta > 1 ==> CodeAt(hmac, key, counter + 1) != code
    {
      if counter + delta >= 0 {
        var expected := TotpCode(hmac, key, counter + delta);
        if expected == code {
          return counter + delta, true;
        }
      }
      delta := delta + 1;
    }
    return 0, false;
  }

  method AllDigits(code: string) returns (ok: bool)
    ensures ok <==> forall i :: 0 <= i < |code| ==> '0' <= code[i] <= '9'
  {
    var i := 0;
    while i < |code|
      invariant 0 <= i <= |code|
      invariant forall j :: 0 <= j < i ==> '0' <= code[j] <= '9'
    {
      if code[i] < '0' || code[i] > '9' {
        return false;
      }
      i := i + 1;
    }
    return true;
  }

  method ValidateTotp(hmac: Hmac, secret: string, rawCode: string, now: nat) returns (step: nat, ok: bool)
    requires IsHmac(hmac)
    ensures Match(hmac, secret, rawCode, now) == if ok then Some(step) else None
  {
    var code := Trim(rawCode);
    if |code| != DIGITS {
      return 0, false;
    }
    var digits := AllDigits(code);
    if !digits {
      return 0, false;
    }
    var key := DecodeSecret(secret);
    if key.None? {
      return 0, false;
    }
    step, ok := FindStep(hmac, key.value, code, now / PERIOD);
  }

  // ----- the stored factor -----

  type CodeHash = string

  /** The second-factor columns of one account; `codes` says of each recovery digest whether it is used. */
  datatype Factor = Factor(secret: Option<string>, enabled: bool, lastStep: int, codes: map<CodeHash, bool>)

  predicate StepIsNew(f: Factor, step: int) {
    f.lastStep < step
  }

  predicate CodeIsUnused(f: Factor, h: CodeHash) {
    h in f.codes && !f.codes[h]
  }

  function WithStep(f: Factor, step: int): Factor {
    if StepIsNew(f, step) then f.(lastStep := step) else f
  }

  function WithUsed(f: Factor, h: CodeHash): Factor {
    if CodeIsUnused(f, h) then f.(codes := f.codes[h := true]) else f
  }

  ghost predicate Distinct(hashes: seq<CodeHash>) {
    forall i, j :: 0 <= i < j < |hashes| ==> hashes[i] != hashes[j]
  }

  class SecondFactor {
    var factor: Factor

    constructor ()
      ensures factor == Factor(None, false, 0, map[])
    {
      factor := Factor(None, false, 0, map[]);
    }

    method StageTotpSecret(secret: string) returns (ok: bool)
      modifies this
      ensures ok <==> !old(factor).enabled
      ensures factor == if ok then old(factor).(secret := Some(secret)) else old(factor)
    {
      if factor.enabled {
        return false;
      }
      factor := factor.(secret := Some(secret));
      return true;
    }

    /**
     Switches the factor on with the step that proved it, and replaces every recovery code.  A digest
     that occurs twice violates the unique index and rolls the whole change back.
     */
    method ConfirmTotp(step: int, hashes: seq<CodeHash>) returns (ok: bool)
      modifies this
      ensures ok <==> !old(factor).enabled && old(factor).secret.Some? && Distinct(hashes)
      ensures !ok ==> factor == old(factor)
      ensures ok ==> factor == Factor(old(factor).secret, true, step, map h | h in hashes :: false)
    {
      if factor.enabled || factor.secret.None? {
        return false;
      }
      var codes: map<CodeHash, bool> := map[];
      var i := 0;
      while i < |hashes|
        invariant 0 <= i <= |hashes| && Distinct(hashes[..i]) && factor == old(factor)
        invariant codes == map h | h in hashes[..i] :: false
      {
        if hashes[i] in codes {
          return false;
        }
        codes := codes[hashes[i] := false];
        i := i + 1;
      }
      assert hashes[..i] == hashes;
      factor := Factor(factor.secret, true, step, codes);
      return true;
    }

    method ConsumeTotpStep(step: int) returns (ok: bool)
      modifies this
      ensures ok == StepIsNew(old(factor), step) && factor == WithStep(old(factor), step)
      ensures ok <==> step > old(factor).lastStep
      ensures factor == if ok then old(factor).(lastStep := step) else old(factor)
    {
      ok := factor.lastStep < step;
      if ok {
        factor := factor.(lastStep := step);
      }
    }

    method ConsumeRecoveryCode(h: CodeHash) returns (ok: bool)
      modifies this
      ensures ok == CodeIsUnused(old(factor), h) && factor == WithUsed(old(factor), h)
      ensures ok <==> h in old(factor).codes && old(factor).codes[h] == false
      ensures factor == if ok then old(factor).(codes := old(factor).codes[h := true]) else old(factor)
    {
      ok := h in factor.codes && !factor.codes[h];
      if ok {
        factor := factor.(codes := factor.codes[h := true]);
      }
    }

    method DisableTotp()
      modifies this
      ensures factor == Factor(None, false, 0, map[])
    {
      factor := Factor(None, false, 0, map[]);
    }

    /**
     Accepts a current one-time code or an unused recovery code, and spends whichever it was.  The
     secret was read earlier, so it may differ from the stored one.
     */
    method VerifySecondFactor(hmac: Hmac, digest: string -> CodeHash, secret: string, code: string, now: nat)
      returns (ok: bool)
      requires IsHmac(hmac)
      modifies this
      ensures var (m, h) := (Match(hmac, secret, code, now), digest(Normalized(code)));
              && (ok <==> code != "" && if m.Some? then StepIsNew(old(factor), m.value)
                                        else CodeIsUnused(old(factor), h))
              && factor == if code == "" then old(factor)
                           else if m.Some? then WithStep(old(factor), m.value)
                           else WithUsed(old(factor), h)
      ensures ok && factor.lastStep != old(factor).lastStep ==>
                0 <= factor.lastStep && InSkew(now, factor.lastStep) && factor.lastStep > old(factor).lastStep
    {
      if code == "" {
        return false;
      }
      var step, valid := ValidateTotp(hmac, secret, code, now);
      if valid {
        ok := ConsumeTotpStep(step);
        return;
      }
      ok := ConsumeRecoveryCode(digest(Normalized(code)));
    }
  }

  /** How a recovery code is compared: outer white space and inner spaces gone, lower case. */
  function Normalized(code: string): string {
    Lower(Remove(Trim(code), ' '))
  }

  /** `c` is the lower-case `code` as people type it: letters in either case and spaces anywhere. */
  predicate TypedAs(c: string, code: string)
    decreases |c|
  {
    if c == [] then code == []
    else if c[0] == ' ' then TypedAs(c[1..], code)
    else code != [] && LowerChar(c[0]) == code[0] && TypedAs(c[1..], code[1..])
  }

  lemma {:induction false} TypedIsCode(c: string, code: string)
    requires TypedAs(c, code)
    ensures Lower(Remove(c, ' ')) == code
    decreases |c|
  {
    if c == [] {
    } else if c[0] == ' ' {
      TypedIsCode(c[1..], code);
    } else {
      TypedIsCode(c[1..], code[1..]);
      assert Lower(Remove(c, ' ')) == [code[0]] + Lower(Remove(c[1..], ' '));
    }
  }

  /** However it is typed, with white space of any kind around it, a recovery code is compared as it was issued. */
  lemma TypedCodesAreNormalized(c: string, code: string)
    requires TypedAs(Trim(c), code)
    ensures Normalized(c) == code
  {
    TypedIsCode(Trim(c), code);
  }

  // ----- one enrolment -----

  /** A verification reaching the database: a validated step with the clock it was read at, or a recovery code. */
  datatype Attempt = Step(step: nat, reading: nat) | Recovery(code: CodeHash)

  function Spend(f: Factor, a: Attempt): Factor {
    match a
    case Step(step, _) => WithStep(f, step)
    case Recovery(h) => WithUsed(f, h)
  }

  function After(f: Factor, atts: seq<Attempt>, i: nat): Factor
    requires i <= |atts|
  {
    if i == 0 then f else Spend(After(f, atts, i - 1), atts[i - 1])
  }

  predicate Accepted(f: Factor, atts: seq<Attempt>, i: nat)
    requires i < |atts|
  {
    match atts[i]
    case Step(step, _) => StepIsNew(After(f, atts, i), step)
    case Recovery(h) => CodeIsUnused(After(f, atts, i), h)
  }

  lemma {:induction false} OnlyForward(f: Factor, atts: seq<Attempt>, i: nat, j: nat)
    requires i <= j <= |atts|
    ensures After(f, atts, i).lastStep <= After(f, atts, j).lastStep
    ensures forall h :: CodeIsUnused(After(f, atts, j), h) ==> CodeIsUnused(After(f, atts, i), h)
    decreases j
  {
    if i == j {
    } else {
      OnlyForward(f, atts, i, j - 1);
    }
  }

  /**
   In any order of verifications after the factor was confirmed at `f.lastStep`: accepted steps rise
   strictly above it, so no step is accepted twice, and each recovery code works at most once.
   */
  lemma SingleUse(f: Factor, atts: seq<Attempt>, i: nat, j: nat)
    requires i < j < |atts| && Accepted(f, atts, i) && Accepted(f, atts, j)
    ensures atts[i].Step? && atts[j].Step? ==> f.lastStep < atts[i].step < atts[j].step
    ensures atts[i].Recovery? && atts[j].Recovery? ==> atts[i].code != atts[j].code
  {
    OnlyForward(f, atts, 0, i);
    OnlyForward(f, atts, i + 1, j);
  }

  // ----- how many acceptances a stretch of time allows -----

  ghost predicate DistinctSteps(atts: seq<Attempt>, idx: set<nat>) {
    && (forall i :: i in idx ==> i < |atts| && atts[i].Step?)
    && (forall i, j :: i in idx && j in idx && i != j ==> atts[i].step != atts[j].step)
  }

  lemma {:induction false} AtMostTheRange(atts: seq<Attempt>, idx: set<nat>, lo: int, hi: int)
    requires DistinctSteps(atts, idx) && lo <= hi + 1
    requires forall i :: i in idx ==> lo <= atts[i].step <= hi
    ensures |idx| <= hi - lo + 1
    decreases hi - lo + 1
  {
    if hi < lo {
      assert idx == {};
    } else if i :| i in idx && atts[i].step == hi {
      AtMostTheRange(atts, idx - {i}, lo, hi - 1);
    } else {
      AtMostTheRange(atts, idx, lo, hi - 1);
    }
  }

  /**
   Verifications whose clock readings fall between `t0` and `t1` succeed with a one-time code at most
   counter(t1) - counter(t0) + 3 times.
   */
  lemma AcceptancesAreBounded(f: Factor, atts: seq<Attempt>, t0: nat, t1: nat)
    requires t0 <= t1
    requires forall i :: 0 <= i < |atts| && atts[i].Step? ==> InSkew(atts[i].reading, atts[i].step)
    ensures var spent := set i: nat |
              i < |atts| && atts[i].Step? && t0 <= atts[i].reading <= t1 && Accepted(f, atts, i);
            |spent| <= Counter(t1) - Counter(t0) + 3
  {
    var spent := set i: nat | i < |atts| && atts[i].Step? && t0 <= atts[i].reading <= t1 && Accepted(f, atts, i);
    forall i, j | i in spent && j in spent && i != j ensures atts[i].step != atts[j].step {
      if i < j { SingleUse(f, atts, i, j); } else { SingleUse(f, atts, j, i); }
    }
    forall i | i in spent ensures Counter(t0) - 1 <= atts[i].step <= Counter(t1) + 1 {
      assert Counter(t0) <= Counter(atts[i].reading) <= Counter(t1);
    }
    AtMostTheRange(atts, spent, Counter(t0) - 1, Counter(t1) + 1);
  }
}
