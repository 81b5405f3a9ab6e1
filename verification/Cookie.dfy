/** internal/auth/cookie.go: signed session cookies. HMAC-SHA256 (RFC 2104) under the signer's
    key is a parameter: a deterministic function of the payload. Times are nanoseconds. */
module Cookie {
  import opened Outcomes
  import opened Text
  import opened Decimal
  import opened Base64

  datatype Signer = Signer(mac: Bytes -> Bytes, ttl: int)

  /** DefaultSessionTTL, 24 hours. */
  const DAY: int := 86_400_000_000_000

  /** Time.Unix: whole seconds, rounded down. */
  function Unix(t: int): int {
    t / 1_000_000_000
  }

  predicate FitsInt64(n: int) {
    -0x8000_0000_0000_0000 <= n < 0x8000_0000_0000_0000
  }

  function BytesOf(s: string): Bytes
    requires forall c | c in s :: c < 128 as char
  {
    seq(|s|, i requires 0 <= i < |s| => CodeOf(s, i))
  }

  function CodeOf(s: string, i: nat): Byte
    requires i < |s| && forall c | c in s :: c < 128 as char
  {
    assert s[i] in s;
    s[i] as int
  }

  /** string(payload), one character a byte. */
  function StringOf(b: Bytes): string {
    seq(|b|, i requires 0 <= i < |b| => b[i] as char)
  }

  lemma PrintIsAscii(n: int)
    ensures forall c | c in Print(n) :: c < 128 as char
  {
    var m: int := if n < 0 then -n else n;
    assert forall c | c in PrintNat(m) :: IsDigit(c);
  }

  function Payload(exp: int): Bytes {
    PrintIsAscii(exp);
    BytesOf(Print(exp))
  }

  function Assemble(payload: Bytes, sig: Bytes): string {
    Encode(Url, payload) + "." + Encode(Url, sig)
  }

  function Sign(signer: Signer, exp: int): string {
    Assemble(Payload(exp), signer.mac(Payload(exp)))
  }

  function Issue(signer: Signer, now: int): string {
    Sign(signer, Unix(now + signer.ttl))
  }

  function Verify(signer: Signer, value: string, now: int): bool {
    var parts := Split(value, '.');
    |parts| == 2 &&
    var payload := Decode(Url, parts[0]);
    var sig := Decode(Url, parts[1]);
    payload.Some? && sig.Some? && sig.value == signer.mac(payload.value) &&
    var exp := ParseInt64(StringOf(payload.value));
    exp.Some? && Unix(now) < exp.value
  }

  lemma PayloadReadsBack(exp: int)
    requires FitsInt64(exp)
    ensures ParseInt64(StringOf(Payload(exp))) == Some(exp)
  {
    PrintIsAscii(exp);
    assert StringOf(Payload(exp)) == Print(exp);
    ParseUndoesPrint(exp);
  }

  lemma AssembledTakesApart(payload: Bytes, sig: Bytes)
    ensures Split(Assemble(payload, sig), '.') == [Encode(Url, payload), Encode(Url, sig)]
    ensures Decode(Url, Encode(Url, payload)) == Some(payload) && Decode(Url, Encode(Url, sig)) == Some(sig)
  {
    var parts := [Encode(Url, payload), Encode(Url, sig)];
    EncodingHasNoSeparator(Url, payload);
    EncodingHasNoSeparator(Url, sig);
    assert parts[1..] == [parts[1]];
    assert Join(parts, '.') == parts[0] + ['.'] + parts[1];
    SplitOfJoin(parts, '.');
    DecodeUndoesEncode(Url, payload);
    DecodeUndoesEncode(Url, sig);
  }

  /** Any payload put together with any signature is accepted exactly when the signature is its
      own and it spells an expiry still to come: a signature moved to another payload fails
      unless the two payloads have the same MAC. */
  lemma VerifyAssembled(signer: Signer, payload: Bytes, sig: Bytes, now: int)
    ensures Verify(signer, Assemble(payload, sig), now) <==>
      && sig == signer.mac(payload)
      && ParseInt64(StringOf(payload)).Some? && Unix(now) < ParseInt64(StringOf(payload)).value
  {
    AssembledTakesApart(payload, sig);
  }

  lemma SignedPayload(signer: Signer, exp: int, payload: Bytes, now: int)
    requires payload == Payload(exp) && ParseInt64(StringOf(payload)) == Some(exp)
    ensures Verify(signer, Sign(signer, exp), now) <==> Unix(now) < exp
  {
    VerifyAssembled(signer, payload, signer.mac(payload), now);
  }

  lemma SignedIsValid(signer: Signer, exp: int, value: string, now: int)
    requires FitsInt64(exp) && value == Sign(signer, exp)
    ensures Verify(signer, value, now) <==> Unix(now) < exp
  {
    PayloadReadsBack(exp);
    SignedPayload(signer, exp, Payload(exp), now);
  }

  /** A cookie issued at `issued` is good at `now` exactly while `now` is before its expiry, in
      whole seconds. */
  lemma IssuedIsValidUntilExpiry(signer: Signer, issued: int, now: int)
    requires FitsInt64(Unix(issued + signer.ttl))
    ensures Verify(signer, Issue(signer, issued), now) <==> Unix(now) < Unix(issued + signer.ttl)
  {
    SignedIsValid(signer, Unix(issued + signer.ttl), Issue(signer, issued), now);
  }

  /** With the default lifetime: exactly 86400 seconds from the second of issue. */
  lemma DefaultLifetimeIsOneDay(signer: Signer, issued: int, now: int)
    requires signer.ttl == DAY && FitsInt64(Unix(issued) + 86_400)
    ensures Verify(signer, Issue(signer, issued), now) <==> Unix(now) < Unix(issued) + 86_400
  {
    IssuedIsValidUntilExpiry(signer, issued, now);
  }

  // The format itself

  /** A cookie is the expiry in decimal, its signature, and a dot between the two. */
  lemma IssuedForm(signer: Signer, issued: int)
    ensures var exp := (issued + signer.ttl) / 1_000_000_000;
            Issue(signer, issued) == Encode(Url, Payload(exp)) + "." + Encode(Url, signer.mac(Payload(exp)))
            && |Payload(exp)| == |Print(exp)|
            && forall i | 0 <= i < |Print(exp)| :: Payload(exp)[i] == Print(exp)[i] as int
  {
    PrintIsAscii((issued + signer.ttl) / 1_000_000_000);
  }

  /** Text with one dot, taken apart. */
  lemma OneDot(a: string, b: string)
    requires '.' !in a && '.' !in b
    ensures Split(a + "." + b, '.') == [a, b]
  {
    var parts := [a, b];
    assert parts[1..] == [b];
    assert Join(parts, '.') == a + ['.'] + b;
    SplitOfJoin(parts, '.');
  }

  ghost predicate WellSigned(signer: Signer, value: string, a: string, b: string, now: int) {
    && value == a + "." + b && '.' !in a && '.' !in b
    && Decode(Url, a).Some? && Decode(Url, b) == Some(signer.mac(Decode(Url, a).value))
    && ParseInt64(StringOf(Decode(Url, a).value)).Some?
    && now / 1_000_000_000 < ParseInt64(StringOf(Decode(Url, a).value)).value
  }

  /** Any text is accepted exactly when it is two parts around one dot, the second signs the first,
      and the first is an expiry still to come. */
  lemma VerifyLaw(signer: Signer, value: string, now: int)
    ensures Verify(signer, value, now) <==> exists a, b :: WellSigned(signer, value, a, b, now)
  {
    var parts := Split(value, '.');
    if |parts| == 2 {
      assert Join(parts, '.') == parts[0] + ['.'] + parts[1] by { assert parts[1..] == [parts[1]]; }
      assert value == parts[0] + "." + parts[1];
      assert parts[0] in parts && parts[1] in parts;
      if Verify(signer, value, now) {
        assert WellSigned(signer, value, parts[0], parts[1], now);
      }
    }
    forall a, b | WellSigned(signer, value, a, b, now) ensures Verify(signer, value, now) {
      OneDot(a, b);
    }
  }
}
