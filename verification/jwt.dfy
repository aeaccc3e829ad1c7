/**
 * Signed tokens as the jsonwebtoken library produces and checks them,
 * with the cryptography left uninterpreted. A token's text is a
 * self-delimiting encoding, over the letters a-e, of its claims, its
 * issue time, its expiry and the key it was signed with; the signature is
 * modelled as a perfect MAC, one that never collides across keys, by
 * encoding the key itself. Verification decodes the text and accepts it
 * only under the same key and before the expiry.
 */
module Jwt {
  import opened Rows

  /** One claim of a token's payload, such as `userId` → 17. */
  datatype Claim = Claim(key: string, value: nat)

  /** What `jwt.verify` hands back: the signed claims plus `iat` and `exp`. */
  datatype Payload = Payload(claims: seq<Claim>, iat: nat, exp: nat)

  datatype Decoded = Decoded(payload: Payload, key: string)

  /** Text made only of the letters the encoding uses (so never a space). */
  predicate Letters(s: string) {
    forall i :: 0 <= i < |s| ==> 'a' <= s[i] <= 'e'
  }

  function EncNat(n: nat): (r: string)
    ensures |r| > 0 && Letters(r)
  {
    if n == 0 then "b" else "a" + EncNat(n - 1)
  }

  function DecNat(s: string): Option<(nat, string)>
    decreases |s|
  {
    if |s| == 0 then None
    else if s[0] == 'b' then Some((0, s[1..]))
    else if s[0] == 'a' then
      match DecNat(s[1..])
      case Some((n, rest)) => Some((n + 1, rest))
      case None => None
    else None
  }

  lemma {:induction false} DecNatEncNat(n: nat, rest: string)
    ensures DecNat(EncNat(n) + rest) == Some((n, rest))
  {
    if n == 0 {
      assert (EncNat(0) + rest)[1..] == rest;
    } else {
      DecNatEncNat(n - 1, rest);
      assert (EncNat(n) + rest)[1..] == EncNat(n - 1) + rest;
    }
  }

  predicate IsScalar(n: nat) {
    n < 0xD800 || (0xE000 <= n < 0x11_0000)
  }

  /** A string: each character as its code point, then a 'c'. */
  function EncStr(s: string): (r: string)
    ensures |r| > 0 && Letters(r)
  {
    if |s| == 0 then "c" else EncNat(s[0] as int) + EncStr(s[1..])
  }

  function DecStr(s: string): Option<(string, string)>
    decreases |s|
  {
    if |s| == 0 then None
    else if s[0] == 'c' then Some(([], s[1..]))
    else
      match DecNat(s)
      case None => None
      case Some((n, rest)) =>
        if !IsScalar(n) || |rest| >= |s| then None
        else
          match DecStr(rest)
          case None => None
          case Some((t, rest')) => Some(([n as char] + t, rest'))
  }

  lemma {:induction false} DecStrEncStr(s: string, rest: string)
    ensures DecStr(EncStr(s) + rest) == Some((s, rest))
  {
    if |s| == 0 {
      assert (EncStr(s) + rest)[1..] == rest;
    } else {
      var tail := EncStr(s[1..]) + rest;
      assert EncStr(s) + rest == EncNat(s[0] as int) + tail;
      DecNatEncNat(s[0] as int, tail);
      assert EncNat(s[0] as int)[0] == (if s[0] as int == 0 then 'b' else 'a');
      DecStrEncStr(s[1..], rest);
      assert [(s[0] as int) as char] + s[1..] == s;
    }
  }

  /** The claims: 'e' before each claim, 'd' after the last. */
  function EncClaims(cs: seq<Claim>): (r: string)
    ensures |r| > 0 && Letters(r)
  {
    if |cs| == 0 then "d"
    else "e" + EncStr(cs[0].key) + EncNat(cs[0].value) + EncClaims(cs[1..])
  }

  function DecClaims(s: string): Option<(seq<Claim>, string)>
    decreases |s|
  {
    if |s| == 0 then None
    else if s[0] == 'd' then Some(([], s[1..]))
    else if s[0] != 'e' then None
    else
      match DecStr(s[1..])
      case None => None
      case Some((k, r1)) =>
        match DecNat(r1)
        case None => None
        case Some((v, r2)) =>
          if |r2| >= |s| then None
          else
            match DecClaims(r2)
            case None => None
            case Some((cs, r3)) => Some(([Claim(k, v)] + cs, r3))
  }

  lemma DecClaimsCons(s: string, k: string, v: nat, r1: string, r2: string)
    requires |s| > 0 && s[0] == 'e'
    requires DecStr(s[1..]) == Some((k, r1)) && DecNat(r1) == Some((v, r2))
    requires |r2| < |s| && DecClaims(r2).Some?
    ensures DecClaims(s) == Some(([Claim(k, v)] + DecClaims(r2).value.0, DecClaims(r2).value.1))
  {
  }

  lemma EncClaimsSplit(cs: seq<Claim>, rest: string)
    requires |cs| > 0
    ensures (EncClaims(cs) + rest)[0] == 'e'
    ensures (EncClaims(cs) + rest)[1..] == EncStr(cs[0].key) + (EncNat(cs[0].value) + (EncClaims(cs[1..]) + rest))
  {
    var b, c, d := EncStr(cs[0].key), EncNat(cs[0].value), EncClaims(cs[1..]);
    assert EncClaims(cs) == "e" + b + c + d;
    ShiftTag("e", b, c, d, rest);
  }

  /** Dropping a one-letter tag from a concatenation, regrouped to the right. */
  lemma ShiftTag(tag: string, b: string, c: string, d: string, rest: string)
    requires |tag| == 1
    ensures (tag + b + c + d + rest)[0] == tag[0]
    ensures (tag + b + c + d + rest)[1..] == b + (c + (d + rest))
  {
    assert tag + b + c + d + rest == tag + (b + (c + (d + rest)));
  }

  lemma {:induction false} DecClaimsEncClaims(cs: seq<Claim>, rest: string)
    ensures DecClaims(EncClaims(cs) + rest) == Some((cs, rest))
  {
    if |cs| == 0 {
      assert (EncClaims(cs) + rest)[1..] == rest;
    } else {
      var c := cs[0];
      var tail := EncClaims(cs[1..]) + rest;
      var r1 := EncNat(c.value) + tail;
      EncClaimsSplit(cs, rest);
      DecStrEncStr(c.key, r1);
      DecNatEncNat(c.value, tail);
      DecClaimsEncClaims(cs[1..], rest);
      DecClaimsCons(EncClaims(cs) + rest, c.key, c.value, r1, tail);
      assert [Claim(c.key, c.value)] + cs[1..] == cs;
    }
  }

  /** `jwt.sign(claims, key, { expiresIn })` issued at `iat`, expiring at `exp`. */
  function Sign(claims: seq<Claim>, key: string, iat: nat, exp: nat): (text: string)
    ensures |text| > 0 && Letters(text)
  {
    EncClaims(claims) + EncNat(iat) + EncNat(exp) + EncStr(key)
  }

  function Decode(text: string): Option<Decoded> {
    match DecClaims(text)
    case None => None
    case Some((cs, r1)) =>
      match DecNat(r1)
      case None => None
      case Some((iat, r2)) =>
        match DecNat(r2)
        case None => None
        case Some((exp, r3)) =>
          match DecStr(r3)
          case None => None
          case Some((key, r4)) =>
            if r4 == [] then Some(Decoded(Payload(cs, iat, exp), key)) else None
  }

  lemma DecodeSign(claims: seq<Claim>, key: string, iat: nat, exp: nat)
    ensures Decode(Sign(claims, key, iat, exp)) == Some(Decoded(Payload(claims, iat, exp), key))
  {
    var e := EncNat(exp) + EncStr(key);
    var m := EncNat(iat) + e;
    assert Sign(claims, key, iat, exp) == EncClaims(claims) + m;
    DecClaimsEncClaims(claims, m);
    DecNatEncNat(iat, e);
    DecNatEncNat(exp, EncStr(key));
    assert EncStr(key) == EncStr(key) + [];
    DecStrEncStr(key, []);
    DecodeParts(EncClaims(claims) + m, claims, m, iat, e, exp, EncStr(key), key);
  }

  /** Decoding chains its four readers and accepts only when nothing is left over. */
  lemma DecodeParts(text: string, cs: seq<Claim>, r1: string, iat: nat, r2: string, exp: nat, r3: string, key: string)
    requires DecClaims(text) == Some((cs, r1))
    requires DecNat(r1) == Some((iat, r2)) && DecNat(r2) == Some((exp, r3))
    requires DecStr(r3) == Some((key, []))
    ensures Decode(text) == Some(Decoded(Payload(cs, iat, exp), key))
  {
  }

  /**
   * `jwt.verify(text, key)` at time `now`: the payload when the text decodes,
   * was signed with `key` and `now` is before its expiry; otherwise the
   * failure the library would throw, as `None`.
   */
  function Verify(text: string, key: string, now: nat): (r: Option<Payload>)
    ensures r.Some? <==> Decode(text).Some? && Decode(text).value.key == key && now < Decode(text).value.payload.exp
    ensures r.Some? ==> r.value == Decode(text).value.payload
  {
    match Decode(text)
    case None => None
    case Some(d) => if d.key == key && now < d.payload.exp then Some(d.payload) else None
  }

  /** A signed token verifies exactly under its own key and before it expires. */
  lemma VerifySign(claims: seq<Claim>, key: string, iat: nat, exp: nat, key': string, now: nat)
    ensures Verify(Sign(claims, key, iat, exp), key', now) ==
            (if key' == key && now < exp then Some(Payload(claims, iat, exp)) else None)
  {
    DecodeSign(claims, key, iat, exp);
  }

  /** Reading a claim: `payload[key]`, undefined when the token carries no such claim. */
  function ClaimValue(claims: seq<Claim>, key: string): (r: Option<nat>)
    ensures r.None? <==> forall c :: c in claims ==> c.key != key
    ensures r.Some? ==> Claim(key, r.value) in claims
  {
    if |claims| == 0 then None
    else if claims[0].key == key then Some(claims[0].value)
    else ClaimValue(claims[1..], key)
  }
}
