/**
 The unpadded base-32 codec of section 6 of RFC 4648, as the standard library decodes it, and the
 shape in which a one-time-code secret may be pasted back.
 */
module Base32 {
  import opened Wrappers
  import opened Arithmetic
  import opened Text

  predicate AreBytes(s: seq<nat>) {
    forall i :: 0 <= i < |s| ==> s[i] < 256
  }

  predicate AreDigits(s: seq<nat>) {
    forall i :: 0 <= i < |s| ==> s[i] < 32
  }

  // ----- groups of five bytes, eight digits -----

  function EncodeGroup(g: seq<nat>): (d: seq<nat>)
    requires |g| == 5
    ensures |d| == 8 && AreDigits(d)
  {
    ToBase(32, 8, FromBase(256, g))
  }

  function DecodeGroup(d: seq<nat>): (g: seq<nat>)
    requires |d| == 8
    ensures |g| == 5 && AreBytes(g)
  {
    ToBase(256, 5, FromBase(32, d))
  }

  lemma GroupSpace()
    ensures Pow(256, 5) == Pow(32, 8) == 0x100_0000_0000
  {
    assert Pow(256, 2) == 0x1_0000 && Pow(256, 4) == Pow(256, 2) * 256 * 256;
    assert Pow(32, 2) == 1024 && Pow(32, 4) == Pow(32, 2) * 32 * 32;
    assert Pow(32, 6) == Pow(32, 4) * 32 * 32 && Pow(32, 8) == Pow(32, 6) * 32 * 32;
  }

  lemma GroupRoundTrip(g: seq<nat>, d: seq<nat>)
    requires |g| == 5 && AreBytes(g) && |d| == 8 && AreDigits(d)
    ensures DecodeGroup(EncodeGroup(g)) == g
    ensures EncodeGroup(DecodeGroup(d)) == d
  {
    GroupSpace();
    NumberBound(256, g);
    NumberBack(32, 8, FromBase(256, g));
    DigitsBack(256, g);
    NumberBound(32, d);
    NumberBack(256, 5, FromBase(32, d));
    DigitsBack(32, d);
  }

  lemma PrefixValue(b: nat, s: seq<nat>, k: nat)
    requires k < |s|
    ensures FromBase(b, s[..k + 1]) == FromBase(b, s[..k]) * b + s[k]
  {
    assert s[..k + 1] == s[..k] + [s[k]];
    AppendDigit(b, s[..k], s[k]);
  }

  lemma FiveBytes(g: seq<nat>)
    requires |g| == 5
    ensures FromBase(256, g) == (((g[0] * 256 + g[1]) * 256 + g[2]) * 256 + g[3]) * 256 + g[4]
  {
    assert g[..0] == [] && g[..5] == g;
    PrefixValue(256, g, 0);
    PrefixValue(256, g, 1);
    PrefixValue(256, g, 2);
    PrefixValue(256, g, 3);
    PrefixValue(256, g, 4);
  }

  lemma FourDigits(d: seq<nat>)
    requires |d| == 8
    ensures FromBase(32, d[..4]) == ((d[0] * 32 + d[1]) * 32 + d[2]) * 32 + d[3]
  {
    assert d[..0] == [];
    PrefixValue(32, d, 0);
    PrefixValue(32, d, 1);
    PrefixValue(32, d, 2);
    PrefixValue(32, d, 3);
  }

  lemma EightDigits(d: seq<nat>)
    requires |d| == 8
    ensures FromBase(32, d) ==
            ((((((d[0] * 32 + d[1]) * 32 + d[2]) * 32 + d[3]) * 32 + d[4]) * 32 + d[5]) * 32 + d[6]) * 32 + d[7]
  {
    assert d[..8] == d;
    FourDigits(d);
    PrefixValue(32, d, 4);
    PrefixValue(32, d, 5);
    PrefixValue(32, d, 6);
    PrefixValue(32, d, 7);
  }

  /** Eight digits and the five bytes they encode are the same forty bits, most significant first. */
  lemma GroupIsTheSameNumber(g: seq<nat>)
    requires |g| == 5 && AreBytes(g)
    ensures var d := EncodeGroup(g);
            ((((((d[0] * 32 + d[1]) * 32 + d[2]) * 32 + d[3]) * 32 + d[4]) * 32 + d[5]) * 32 + d[6]) * 32 + d[7]
            == (((g[0] * 256 + g[1]) * 256 + g[2]) * 256 + g[3]) * 256 + g[4]
  {
    GroupSpace();
    NumberBound(256, g);
    NumberBack(32, 8, FromBase(256, g));
    FiveBytes(g);
    EightDigits(EncodeGroup(g));
  }

  // ----- whole strings -----

  function Encode(b: seq<nat>): (d: seq<nat>)
    requires |b| % 5 == 0
    ensures |d| * 5 == |b| * 8 && AreDigits(d)
  {
    if b == [] then [] else EncodeGroup(b[..5]) + Encode(b[5..])
  }

  /** How many whole bytes an incomplete last group yields. */
  function TailBytes(n: nat): nat {
    if n == 2 then 1 else if n == 4 then 2 else if n == 5 then 3 else if n == 7 then 4 else 0
  }

  function Zeros(n: nat): (z: seq<nat>)
    ensures |z| == n
  {
    seq(n, _ => 0)
  }

  function Decode(d: seq<nat>): (b: seq<nat>)
    ensures AreBytes(b)
    ensures |d| % 8 == 0 ==> |b| % 5 == 0 && |b| * 8 == |d| * 5
  {
    if |d| < 8 then (if d == [] then [] else DecodeGroup(d + Zeros(8 - |d|))[..TailBytes(|d|)])
    else DecodeGroup(d[..8]) + Decode(d[8..])
  }

  lemma EncodeStep(g: seq<nat>, b: seq<nat>)
    requires |g| == 5 && |b| % 5 == 0
    ensures Encode(g + b) == EncodeGroup(g) + Encode(b)
  {
    assert (g + b)[..5] == g && (g + b)[5..] == b;
  }

  lemma DecodeStep(g: seq<nat>, d: seq<nat>)
    requires |g| == 8
    ensures Decode(g + d) == DecodeGroup(g) + Decode(d)
  {
    assert (g + d)[..8] == g && (g + d)[8..] == d;
  }

  lemma GroupThere(g: seq<nat>)
    requires |g| == 5 && AreBytes(g)
    ensures DecodeGroup(EncodeGroup(g)) == g
  {
    GroupRoundTrip(g, Zeros(8));
  }

  lemma {:induction false} DecodeEncode(b: seq<nat>)
    requires |b| % 5 == 0 && AreBytes(b)
    ensures Decode(Encode(b)) == b
  {
    if b == [] {
    } else {
      DecodeEncode(b[5..]);
      GroupThere(b[..5]);
      DecodeStep(EncodeGroup(b[..5]), Encode(b[5..]));
      assert b == b[..5] + b[5..];
    }
  }

  lemma GroupBack(g: seq<nat>)
    requires |g| == 8 && AreDigits(g)
    ensures EncodeGroup(DecodeGroup(g)) == g
  {
    GroupRoundTrip(Zeros(5), g);
  }

  lemma {:induction false} EncodeDecode(d: seq<nat>)
    requires |d| % 8 == 0 && AreDigits(d)
    ensures Encode(Decode(d)) == d
  {
    if d == [] {
    } else {
      EncodeDecode(d[8..]);
      GroupBack(d[..8]);
      EncodeStep(DecodeGroup(d[..8]), Decode(d[8..]));
      assert d == d[..8] + d[8..];
    }
  }

  // ----- the alphabet -----

  predicate InAlphabet(c: char) {
    'A' <= c <= 'Z' || '2' <= c <= '7'
  }

  function DigitOf(c: char): (d: nat)
    requires InAlphabet(c)
    ensures d < 32
  {
    if 'A' <= c <= 'Z' then c as int - 'A' as int else c as int - '2' as int + 26
  }

  function CharOf(d: nat): (c: char)
    requires d < 32
    ensures InAlphabet(c) && DigitOf(c) == d
  {
    if d < 26 then ('A' as int + d) as char else ('2' as int + (d - 26)) as char
  }

  /** The alphabet of section 6 of RFC 4648. */
  lemma AlphabetIs(d: nat)
    requires d < 32
    ensures CharOf(d) == "ABCDEFGHIJKLMNOPQRSTUVWXYZ234567"[d]
  {
  }

  predicate AllInAlphabet(s: string) {
    forall i :: 0 <= i < |s| ==> InAlphabet(s[i])
  }

  function CharsOf(d: seq<nat>): (s: string)
    requires AreDigits(d)
    ensures |s| == |d| && AllInAlphabet(s) && forall i :: 0 <= i < |d| ==> s[i] == CharOf(d[i])
  {
    seq(|d|, i requires 0 <= i < |d| => CharOf(d[i]))
  }

  function DigitsOf(s: string): (d: seq<nat>)
    requires AllInAlphabet(s)
    ensures |d| == |s| && AreDigits(d) && forall i :: 0 <= i < |s| ==> d[i] == DigitOf(s[i])
  {
    seq(|s|, i requires 0 <= i < |s| => DigitOf(s[i]))
  }

  function EncodeToString(b: seq<nat>): (s: string)
    requires |b| % 5 == 0
    ensures |s| == |b| / 5 * 8 && AllInAlphabet(s)
  {
    CharsOf(Encode(b))
  }

  function StripNewlines(s: string): string {
    if s == [] then []
    else (if s[0] == '\r' || s[0] == '\n' then [] else [s[0]]) + StripNewlines(s[1..])
  }

  /** The decoder passes over line breaks. */
  function DecodeString(s: string): Option<seq<nat>> {
    var t := StripNewlines(s);
    if AllInAlphabet(t) then Some(Decode(DigitsOf(t))) else None
  }

  lemma {:induction false} NothingToStrip(s: string)
    requires AllInAlphabet(s)
    ensures StripNewlines(s) == s
  {
    if s == [] {
    } else {
      NothingToStrip(s[1..]);
    }
  }

  lemma StringRoundTrip(b: seq<nat>)
    requires |b| % 5 == 0 && AreBytes(b)
    ensures DecodeString(EncodeToString(b)) == Some(b)
  {
    NothingToStrip(EncodeToString(b));
    assert DigitsOf(CharsOf(Encode(b))) == Encode(b);
    DecodeEncode(b);
  }

  lemma DecodedStringEncodesBack(s: string)
    requires |s| % 8 == 0 && AllInAlphabet(s)
    ensures EncodeToString(Decode(DigitsOf(s))) == s
  {
    EncodeDecode(DigitsOf(s));
    assert CharsOf(DigitsOf(s)) == s;
  }

  // ----- pasted secrets -----

  /** Removes outer white space and inner spaces, upper-cases, and drops '=' padding. */
  function CleanSecret(s: string): string {
    TrimSuffixChar(Upper(Remove(Trim(s), ' ')), '=')
  }

  function DecodeSecret(s: string): Option<seq<nat>> {
    var key := DecodeString(CleanSecret(s));
    if key.None? || |key.value| == 0 then None else key
  }

  /**
   `c` is `secret` as people copy it: any letter in either case, spaces and line breaks anywhere, and any
   '=' padding after it.
   */
  predicate CopyOf(c: string, secret: string)
    decreases |c|
  {
    if c == [] then secret == []
    else if c[0] == ' ' || c[0] == '\r' || c[0] == '\n' then CopyOf(c[1..], secret)
    else if c[0] == '=' then secret == [] && forall i :: 0 <= i < |c| ==> c[i] == '=' || c[i] == ' '
    else secret != [] && UpperChar(c[0]) == secret[0] && CopyOf(c[1..], secret[1..])
  }

  function Pad(n: nat): string {
    seq(n, _ => '=')
  }

  lemma {:induction false} PaddingIsPad(c: string) returns (n: nat)
    requires forall i :: 0 <= i < |c| ==> c[i] == '=' || c[i] == ' '
    ensures Upper(Remove(c, ' ')) == Pad(n)
  {
    if c == [] {
      n := 0;
    } else {
      n := PaddingIsPad(c[1..]);
      if c[0] == '=' {
        assert Upper(Remove(c, ' ')) == ['='] + Upper(Remove(c[1..], ' '));
        n := n + 1;
      }
    }
  }

  /** Letters of the secret and line breaks. */
  predicate Unpadded(body: string) {
    forall i :: 0 <= i < |body| ==> body[i] != '='
  }

  /** `c`, its spaces gone and upper-cased, is `secret`, perhaps broken into lines, and its padding. */
  ghost predicate Splits(c: string, secret: string, body: string, n: nat) {
    Upper(Remove(c, ' ')) == body + Pad(n) && Unpadded(body) && StripNewlines(body) == secret
  }

  lemma SplitOneMore(c: string, secret: string, body: string, n: nat)
    requires c != [] && c[0] != ' ' && UpperChar(c[0]) != '=' && Splits(c[1..], secret, body, n)
    ensures var u := UpperChar(c[0]);
            Splits(c, (if u == '\r' || u == '\n' then [] else [u]) + secret, [u] + body, n)
  {
    assert Upper(Remove(c, ' ')) == [UpperChar(c[0])] + Upper(Remove(c[1..], ' '));
    assert ([UpperChar(c[0])] + body)[1..] == body;
  }

  lemma {:induction false} CopyIsSecretAndPadding(c: string, secret: string) returns (body: string, n: nat)
    requires CopyOf(c, secret) && AllInAlphabet(secret)
    ensures Splits(c, secret, body, n)
    decreases |c|
  {
    if c == [] {
      body, n := [], 0;
    } else if c[0] == ' ' {
      body, n := CopyIsSecretAndPadding(c[1..], secret);
    } else if c[0] == '=' {
      n := PaddingIsPad(c);
      body := [];
    } else {
      var rest := if c[0] == '\r' || c[0] == '\n' then secret else secret[1..];
      body, n := CopyIsSecretAndPadding(c[1..], rest);
      SplitOneMore(c, rest, body, n);
      body := [UpperChar(c[0])] + body;
    }
  }

  lemma {:induction false} DropPadding(s: string, n: nat)
    requires Unpadded(s)
    ensures TrimSuffixChar(s + Pad(n), '=') == s
  {
    if n == 0 {
      assert s + Pad(0) == s;
    } else {
      assert (s + Pad(n))[..|s| + n - 1] == s + Pad(n - 1);
      DropPadding(s, n - 1);
    }
  }

  /**
   Every copy of a generated secret, with white space of any kind around it, decodes to the original
   bytes.
   */
  lemma CopiesDecode(bytes: seq<nat>, c: string)
    requires |bytes| == 20 && AreBytes(bytes) && CopyOf(Trim(c), EncodeToString(bytes))
    ensures DecodeSecret(c) == Some(bytes)
  {
    var secret := EncodeToString(bytes);
    var body, n := CopyIsSecretAndPadding(Trim(c), secret);
    DropPadding(body, n);
    NothingToStrip(secret);
    StringRoundTrip(bytes);
  }
}
