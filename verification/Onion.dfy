/**
 Tor v3 hostnames: 56 base-32 characters that encode a 32-byte key, two checksum bytes and the
 version (section 6 of Tor's rend-spec-v3).  SHA3-256 is a parameter.
 */
module Onion {
  import opened Wrappers
  import opened Text
  import opened Base32

  type Sha3 = seq<nat> -> seq<nat>

  const VERSION := 3
  const SUFFIX := ".onion"

  /** Digests are 32 bytes. */
  ghost predicate IsSha3(sha3: Sha3) {
    forall m :: |sha3(m)| == 32 && AreBytes(sha3(m))
  }

  function Ascii(s: string): seq<nat> {
    seq(|s|, i requires 0 <= i < |s| => s[i] as int)
  }

  function Checksum(sha3: Sha3, key: seq<nat>): seq<nat>
    requires |sha3(Ascii(".onion checksum") + key + [VERSION])| >= 2
  {
    sha3(Ascii(".onion checksum") + key + [VERSION])[..2]
  }

  predicate LowerBase32(c: char) {
    'a' <= c <= 'z' || '2' <= c <= '7'
  }

  /** ^[a-z2-7]{56}\.onion$ */
  predicate MatchesPattern(h: string) {
    |h| == 62 && h[56..] == SUFFIX && forall i :: 0 <= i < 56 ==> LowerBase32(h[i])
  }

  predicate IsV3Hostname(sha3: Sha3, hostname: string)
    requires IsSha3(sha3)
  {
    var h := Lower(Trim(hostname));
    && MatchesPattern(h)
    && var decoded := DecodeString(Upper(h[..56]));
       && decoded.Some? && |decoded.value| == 35 && decoded.value[34] == VERSION
       && decoded.value[32..34] == Checksum(sha3, decoded.value[..32])
  }

  // ----- the address of a key -----

  function AddressBytes(sha3: Sha3, key: seq<nat>): (b: seq<nat>)
    requires IsSha3(sha3) && |key| == 32
    ensures |b| == 35 && b[..32] == key && b[32..34] == Checksum(sha3, key) && b[34] == VERSION
    ensures AreBytes(key) ==> AreBytes(b)
  {
    key + Checksum(sha3, key) + [VERSION]
  }

  function HostnameOf(sha3: Sha3, key: seq<nat>): string
    requires IsSha3(sha3) && |key| == 32
  {
    Lower(EncodeToString(AddressBytes(sha3, key))) + SUFFIX
  }

  lemma UpperOfLower(s: string)
    requires AllInAlphabet(s)
    ensures Upper(Lower(s)) == s
    ensures forall i :: 0 <= i < |s| ==> LowerBase32(Lower(s)[i])
  {
  }

  lemma LowerOfUpper(s: string)
    requires forall i :: 0 <= i < |s| ==> LowerBase32(s[i])
    ensures Lower(Upper(s)) == s && AllInAlphabet(Upper(s))
  {
  }

  /** The hostname of a key has the right shape and decodes to the key's address. */
  lemma HostnameDecodes(sha3: Sha3, key: seq<nat>)
    requires IsSha3(sha3) && |key| == 32 && AreBytes(key)
    ensures var h := HostnameOf(sha3, key);
            MatchesPattern(h) && DecodeString(Upper(h[..56])) == Some(AddressBytes(sha3, key))
  {
    var s := EncodeToString(AddressBytes(sha3, key));
    UpperOfLower(s);
    StringRoundTrip(AddressBytes(sha3, key));
    assert HostnameOf(sha3, key)[..56] == Lower(s) && HostnameOf(sha3, key)[56..] == SUFFIX;
  }

  lemma AcceptedIsHostname(sha3: Sha3, hostname: string) returns (key: seq<nat>)
    requires IsSha3(sha3) && IsV3Hostname(sha3, hostname)
    ensures |key| == 32 && AreBytes(key) && Lower(Trim(hostname)) == HostnameOf(sha3, key)
  {
    var h := Lower(Trim(hostname));
    var s := Upper(h[..56]);
    LowerOfUpper(h[..56]);
    NothingToStrip(s);
    var decoded := DecodeString(s).value;
    assert decoded == Decode(DigitsOf(s));
    key := decoded[..32];
    assert AddressBytes(sha3, key) == decoded;
    DecodedStringEncodesBack(s);
    assert h == h[..56] + h[56..];
  }

  /**
   A hostname is accepted exactly when, trimmed and lower-cased, it is the hostname of some 32-byte
   key.
   */
  lemma AcceptedIffHostnameOfKey(sha3: Sha3, hostname: string)
    requires IsSha3(sha3)
    ensures IsV3Hostname(sha3, hostname) <==>
              exists key :: |key| == 32 && AreBytes(key) && Lower(Trim(hostname)) == HostnameOf(sha3, key)
  {
    if IsV3Hostname(sha3, hostname) {
      var key := AcceptedIsHostname(sha3, hostname);
    }
    forall key | |key| == 32 && AreBytes(key) && Lower(Trim(hostname)) == HostnameOf(sha3, key)
      ensures IsV3Hostname(sha3, hostname)
    {
      HostnameDecodes(sha3, key);
    }
  }

  /**
   A hostname is accepted exactly when, trimmed and lower-cased, it is 56 letters a to z or digits 2 to 7
   and ".onion", and decodes to a key, the first two bytes of the digest of ".onion checksum", the key and
   the version, and the version.
   */
  lemma AcceptedBytes(sha3: Sha3, hostname: string)
    requires IsSha3(sha3)
    ensures IsV3Hostname(sha3, hostname) <==>
              var h := Lower(Trim(hostname));
              && |h| == 62 && h[56..] == ".onion"
              && (forall i :: 0 <= i < 56 ==> 'a' <= h[i] <= 'z' || '2' <= h[i] <= '7')
              && DecodeString(Upper(h[..56])).Some?
              && var b := DecodeString(Upper(h[..56])).value;
                 && |b| == 35 && b[34] == 3
                 && var text := [46, 111, 110, 105, 111, 110, 32, 99, 104, 101, 99, 107, 115, 117, 109];
                    var digest := sha3(text + b[..32] + [3]);
                    b[32] == digest[0] && b[33] == digest[1]
  {
    var h := Lower(Trim(hostname));
    ChecksumText();
    if MatchesPattern(h) && DecodeString(Upper(h[..56])).Some? && |DecodeString(Upper(h[..56])).value| == 35 {
      var b := DecodeString(Upper(h[..56])).value;
      var sum := Checksum(sha3, b[..32]);
      assert b[32..34] == [b[32], b[33]] && sum == [sum[0], sum[1]];
    }
  }

  lemma ChecksumText()
    ensures Ascii(".onion checksum") == [46, 111, 110, 105, 111, 110, 32, 99, 104, 101, 99, 107, 115, 117, 109]
  {
  }

  lemma TrimIsIdentity(s: string)
    requires s != [] && !IsSpace(s[0]) && !IsSpace(s[|s| - 1])
    ensures Trim(s) == s
  {
  }

  lemma HostnameIsClean(sha3: Sha3, key: seq<nat>)
    requires IsSha3(sha3) && |key| == 32 && AreBytes(key)
    ensures Lower(Trim(HostnameOf(sha3, key))) == HostnameOf(sha3, key)
  {
    HostnameDecodes(sha3, key);
    var h := HostnameOf(sha3, key);
    assert Lower(h) == h;
    assert LowerBase32(h[0]) && h[61] == 'n' by { assert h[56..][5] == SUFFIX[5]; }
    TrimIsIdentity(h);
  }

  /** The key an accepted hostname carries. */
  function KeyOf(sha3: Sha3, hostname: string): seq<nat>
    requires IsSha3(sha3) && IsV3Hostname(sha3, hostname)
  {
    DecodeString(Upper(Lower(Trim(hostname))[..56])).value[..32]
  }

  /** An accepted hostname, trimmed and lower-cased, is the hostname of the key it carries. */
  lemma HostnameOfItsKey(sha3: Sha3, hostname: string)
    requires IsSha3(sha3) && IsV3Hostname(sha3, hostname)
    ensures var key := KeyOf(sha3, hostname);
            |key| == 32 && AreBytes(key) && Lower(Trim(hostname)) == HostnameOf(sha3, key)
  {
    var key := AcceptedIsHostname(sha3, hostname);
    HostnameDecodes(sha3, key);
  }

  /**
   Each key has exactly one accepted lower-case hostname: it has one, no other accepted hostname carries
   it, and different keys have different ones.
   */
  lemma OneHostnamePerKey(sha3: Sha3, key: seq<nat>, other: seq<nat>)
    requires IsSha3(sha3) && |key| == 32 && AreBytes(key) && |other| == 32 && AreBytes(other)
    ensures IsV3Hostname(sha3, HostnameOf(sha3, key))
    ensures forall h :: IsV3Hostname(sha3, h) && Lower(Trim(h)) == h ==>
              (KeyOf(sha3, h) == key <==> h == HostnameOf(sha3, key))
    ensures HostnameOf(sha3, key) == HostnameOf(sha3, other) <==> key == other
  {
    forall h | IsV3Hostname(sha3, h) && Lower(Trim(h)) == h
      ensures KeyOf(sha3, h) == key <==> h == HostnameOf(sha3, key)
    {
      HostnameOfItsKey(sha3, h);
      HostnameDecodes(sha3, key);
    }
    HostnameIsClean(sha3, key);
    AcceptedIffHostnameOfKey(sha3, HostnameOf(sha3, key));
    HostnameDecodes(sha3, key);
    HostnameDecodes(sha3, other);
    assert AddressBytes(sha3, key)[..32] == key && AddressBytes(sha3, other)[..32] == other;
  }
}
