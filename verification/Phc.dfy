/** internal/auth/hash.go: PHC strings for argon2id hashes. argon2 itself (RFC 9106) is a
    parameter: a deterministic function of token, salt and parameters. */
module Phc {
  import opened Outcomes
  import opened Text
  import opened Decimal
  import opened Base64

  datatype Params = Params(memoryKiB: nat, time: nat, threads: nat, keyLen: nat, saltLen: nat)

  /** What fits the source's uint32 and uint8 fields. */
  predicate InRange(p: Params) {
    && p.memoryKiB < 0x1_0000_0000 && p.time < 0x1_0000_0000 && p.threads < 0x100
    && p.keyLen < 0x1_0000_0000 && p.saltLen < 0x1_0000_0000
  }

  /** What argon2 takes: it panics on no pass, no lane, or no byte of key. */
  predicate Usable(p: Params) {
    p.time >= 1 && p.threads >= 1 && p.keyLen >= 1
  }

  const VERSION: nat := 19
  const DEFAULT := Params(65536, 1, 4, 32, 16)

  datatype Parsed = Parsed(params: Params, salt: Bytes, key: Bytes)

  datatype Failure = Malformed | BadVersion | UnsupportedVersion | BadParams | BadSalt | BadKey

  /** argon2.IDKey: a key of params.keyLen bytes. */
  type Kdf = (string, Bytes, Params) -> Bytes

  ghost predicate KeysHaveLength(kdf: Kdf) {
    forall token, salt, p | Usable(p) :: |kdf(token, salt, p)| == p.keyLen
  }

  function ParamField(p: Params): string {
    "m=" + PrintNat(p.memoryKiB) + (",t=" + PrintNat(p.time) + (",p=" + PrintNat(p.threads)))
  }

  /** The six parts between the dollar signs. */
  function Fields(x: Parsed): seq<string> {
    ["", "argon2id", "v=" + PrintNat(VERSION), ParamField(x.params), Encode(Std, x.salt), Encode(Std, x.key)]
  }

  /** The format string of hashTokenWithParams. */
  function PrintPhc(x: Parsed): string {
    "$argon2id$v=" + PrintNat(VERSION) + "$" + ParamField(x.params)
    + "$" + Encode(Std, x.salt) + "$" + Encode(Std, x.key)
  }

  function HashTokenWithParams(kdf: Kdf, token: string, p: Params, salt: Bytes): string
    requires Usable(p)
  {
    PrintPhc(Parsed(p, salt, kdf(token, salt, p)))
  }

  function HashToken(kdf: Kdf, token: string, salt: Bytes): string {
    HashTokenWithParams(kdf, token, DEFAULT, salt)
  }

  /** What follows a literal of a scan format. */
  function After(literal: string, s: string): Option<string> {
    if literal <= s then Some(s[|literal|..]) else None
  }

  /** One literal, then one %d into an unsigned variable. */
  function ScanField(literal: string, s: string, limit: nat): Option<(nat, string)> {
    var t := After(literal, s);
    if t.None? then None else ScanUint(t.value, limit)
  }

  /** Sscanf(s, "v=%d", &version). */
  function ScanVersion(s: string): Option<int> {
    var t := After("v=", s);
    if t.None? then None else
      var v := ScanInt(t.value);
      if v.None? then None else Some(v.value.0)
  }

  /** Sscanf(s, "m=%d,t=%d,p=%d", ...): what follows the last number is not looked at. */
  function ScanParams(s: string): Option<(nat, nat, nat)> {
    var m := ScanField("m=", s, 0x1_0000_0000);
    if m.None? then None else
      var t := ScanField(",t=", m.value.1, 0x1_0000_0000);
      if t.None? then None else
        var p := ScanField(",p=", t.value.1, 0x100);
        if p.None? then None else Some((m.value.0, t.value.0, p.value.0))
  }

  function ParseParts(parts: seq<string>): Result<Parsed, Failure> {
    if |parts| != 6 || parts[0] != "" || parts[1] != "argon2id" then Err(Malformed)
    else
      var version := ScanVersion(parts[2]);
      if version.None? then Err(BadVersion)
      else if version.value != VERSION then Err(UnsupportedVersion)
      else
        var p := ScanParams(parts[3]);
        var salt := Decode(Std, parts[4]);
        var key := Decode(Std, parts[5]);
        if p.None? then Err(BadParams)
        else if salt.None? then Err(BadSalt)
        else if key.None? then Err(BadKey)
        else Ok(Parsed(Params(p.value.0, p.value.1, p.value.2, |key.value|, |salt.value|), salt.value, key.value))
  }

  function ParsePhc(encoded: string): Result<Parsed, Failure> {
    ParseParts(Split(encoded, '$'))
  }

  /** An error, argon2's panic, or a verdict. */
  datatype Checked = Refused(why: Failure) | Panics | Verdict(matches: bool)

  function VerifyHash(kdf: Kdf, token: string, encoded: string): Checked {
    match ParsePhc(encoded)
    case Err(why) => Refused(why)
    case Ok(x) => if Usable(x.params) then Verdict(kdf(token, x.salt, x.params) == x.key) else Panics
  }

  // Parsing undoes printing

  lemma {:induction false} JoinCons(head: string, rest: seq<string>)
    requires rest != []
    ensures Join([head] + rest, '$') == head + "$" + Join(rest, '$')
  {
    assert ([head] + rest)[1..] == rest;
  }

  lemma JoinSix(a: string, b: string, c: string, d: string, e: string, f: string)
    ensures Join([a, b, c, d, e, f], '$') == a + "$" + (b + "$" + (c + "$" + (d + "$" + (e + "$" + f))))
  {
    JoinCons(e, [f]);
    JoinCons(d, [e, f]);
    JoinCons(c, [d, e, f]);
    JoinCons(b, [c, d, e, f]);
    JoinCons(a, [b, c, d, e, f]);
    assert [a] + [b, c, d, e, f] == [a, b, c, d, e, f] && [b] + [c, d, e, f] == [b, c, d, e, f];
    assert [c] + [d, e, f] == [c, d, e, f] && [d] + [e, f] == [d, e, f] && [e] + [f] == [e, f];
  }

  lemma Regroup(version: string, params: string, salt: string, key: string)
    ensures "" + "$" + ("argon2id" + "$" + ("v=" + version + "$" + (params + "$" + (salt + "$" + key))))
         == "$argon2id$v=" + version + "$" + params + "$" + salt + "$" + key
  {
    var tail := "$" + (params + "$" + (salt + "$" + key));
    assert "" + "$" + ("argon2id" + "$" + ("v=" + version + tail)) == "$argon2id$v=" + version + tail;
    assert tail == "$" + params + "$" + salt + "$" + key;
    assert "$argon2id$v=" + version + tail == "$argon2id$v=" + version + "$" + params + "$" + salt + "$" + key;
  }

  lemma PrintIsJoin(x: Parsed)
    ensures PrintPhc(x) == Join(Fields(x), '$')
  {
    var f := Fields(x);
    JoinSix(f[0], f[1], f[2], f[3], f[4], f[5]);
    Regroup(PrintNat(VERSION), f[3], f[4], f[5]);
  }

  lemma NumbersHaveNoDollar(n: nat)
    ensures '$' !in PrintNat(n)
  {
  }

  lemma FieldsHaveNoDollar(x: Parsed)
    ensures forall f | f in Fields(x) :: '$' !in f
  {
    NumbersHaveNoDollar(VERSION);
    NumbersHaveNoDollar(x.params.memoryKiB);
    NumbersHaveNoDollar(x.params.time);
    NumbersHaveNoDollar(x.params.threads);
    EncodingHasNoSeparator(Std, x.salt);
    EncodingHasNoSeparator(Std, x.key);
  }

  /** One field scanned back: a literal, a number, and whatever does not continue the number. */
  lemma FieldScansBack(literal: string, n: nat, rest: string, limit: nat)
    requires n < limit && (rest == "" || !IsDigit(rest[0]))
    ensures ScanField(literal, literal + PrintNat(n) + rest, limit) == Some((n, rest))
  {
    AfterLiteral(literal, PrintNat(n), rest);
    ScanUndoesPrint(n, rest, limit);
  }

  lemma AfterLiteral(literal: string, a: string, b: string)
    ensures After(literal, literal + a + b) == Some(a + b)
  {
    assert (literal + a + b)[|literal|..] == a + b;
  }

  lemma LastFieldScansBack(literal: string, n: nat, limit: nat)
    requires n < limit
    ensures ScanField(literal, literal + PrintNat(n), limit) == Some((n, ""))
  {
    FieldScansBack(literal, n, "", limit);
    assert literal + PrintNat(n) + "" == literal + PrintNat(n);
  }

  /** Three fields in a row, given each one's scan. */
  lemma ThreeFields(s: string, mid: string, tail: string, m: nat, t: nat, p: nat)
    requires ScanField("m=", s, 0x1_0000_0000) == Some((m, mid))
    requires ScanField(",t=", mid, 0x1_0000_0000) == Some((t, tail))
    requires ScanField(",p=", tail, 0x100) == Some((p, ""))
    ensures ScanParams(s) == Some((m, t, p))
  {
  }

  lemma ParamsScanBack(p: Params)
    requires InRange(p)
    ensures ScanParams(ParamField(p)) == Some((p.memoryKiB, p.time, p.threads))
  {
    var tail := ",p=" + PrintNat(p.threads);
    var mid := ",t=" + PrintNat(p.time) + tail;
    FieldScansBack("m=", p.memoryKiB, mid, 0x1_0000_0000);
    FieldScansBack(",t=", p.time, tail, 0x1_0000_0000);
    LastFieldScansBack(",p=", p.threads, 0x100);
    ThreeFields("m=" + PrintNat(p.memoryKiB) + mid, mid, tail, p.memoryKiB, p.time, p.threads);
    assert ParamField(p) == "m=" + PrintNat(p.memoryKiB) + mid;
  }

  lemma VersionScansBack(literal: string, n: nat)
    requires literal == "v=" && n < 0x8000_0000_0000_0000
    ensures ScanVersion(literal + PrintNat(n)) == Some(n)
  {
    AfterLiteral(literal, PrintNat(n), "");
    assert literal + PrintNat(n) + "" == literal + PrintNat(n);
    ScanIntUndoesPrint(n, "");
  }

  /** What ParseParts does once every part reads back. */
  lemma PartsParse(parts: seq<string>, x: Parsed)
    requires |parts| == 6 && parts[0] == "" && parts[1] == "argon2id"
    requires ScanVersion(parts[2]) == Some(VERSION)
    requires ScanParams(parts[3]) == Some((x.params.memoryKiB, x.params.time, x.params.threads))
    requires Decode(Std, parts[4]) == Some(x.salt) && Decode(Std, parts[5]) == Some(x.key)
    requires |x.salt| == x.params.saltLen && |x.key| == x.params.keyLen
    ensures ParseParts(parts) == Ok(x)
  {
  }

  lemma VersionReadsBack(field: string, version: nat)
    requires field == "v=" + PrintNat(version) && version < 100
    ensures ScanVersion(field) == Some(version)
  {
    VersionScansBack("v=", version);
  }

  /** Parsing a printed hash gives back its parameters, salt and key. */
  lemma ParseUndoesPrint(x: Parsed)
    requires InRange(x.params) && |x.salt| == x.params.saltLen && |x.key| == x.params.keyLen
    ensures ParsePhc(PrintPhc(x)) == Ok(x)
  {
    var parts := Fields(x);
    PrintedSplits(x);
    assert ScanVersion(parts[2]) == Some(VERSION) by { VersionReadsBack(parts[2], VERSION); }
    assert ScanParams(parts[3]) == Some((x.params.memoryKiB, x.params.time, x.params.threads))
    by { ParamsScanBack(x.params); }
    assert Decode(Std, parts[4]) == Some(x.salt) by { DecodeUndoesEncode(Std, x.salt); }
    assert Decode(Std, parts[5]) == Some(x.key) by { DecodeUndoesEncode(Std, x.key); }
    PartsParse(parts, x);
  }

  lemma PrintedSplits(x: Parsed)
    ensures Split(PrintPhc(x), '$') == Fields(x)
  {
    PrintIsJoin(x);
    FieldsHaveNoDollar(x);
    SplitOfJoin(Fields(x), '$');
  }

  /** Checking any token against a hash of `token` compares the two derived keys; in particular
      the token itself is always accepted. */
  lemma HashThenVerify(kdf: Kdf, token: string, other: string, p: Params, salt: Bytes)
    requires KeysHaveLength(kdf) && InRange(p) && Usable(p) && |salt| == p.saltLen
    ensures var encoded := HashTokenWithParams(kdf, token, p, salt);
      && VerifyHash(kdf, token, encoded) == Verdict(true)
      && VerifyHash(kdf, other, encoded) == Verdict(kdf(other, salt, p) == kdf(token, salt, p))
  {
    ParseUndoesPrint(Parsed(p, salt, kdf(token, salt, p)));
  }

  /** With the default parameters and any 16 bytes of salt, every token is accepted against its
      own hash. */
  lemma HashTokenVerifies(kdf: Kdf, token: string, salt: Bytes)
    requires KeysHaveLength(kdf) && |salt| == 16
    ensures VerifyHash(kdf, token, HashToken(kdf, token, salt)) == Verdict(true)
  {
    HashThenVerify(kdf, token, token, DEFAULT, salt);
  }

  // The format itself

  lemma VersionPrints()
    ensures PrintNat(19) == "19"
  {
    assert PrintNat(1) == "1" && PrintNat(9) == "9";
    PrintLaw(19);
  }

  /** A printed hash, letter by letter around its numbers. */
  lemma PrintedForm(x: Parsed)
    ensures PrintPhc(x) == "$argon2id$v=19$m=" + PrintNat(x.params.memoryKiB) + ",t=" + PrintNat(x.params.time)
                           + ",p=" + PrintNat(x.params.threads) + "$" + Encode(Std, x.salt) + "$" + Encode(Std, x.key)
  {
    VersionPrints();
    ParamsForm(x.params);
    PrintedParts("$argon2id$v=" + PrintNat(19), PrintNat(x.params.memoryKiB), PrintNat(x.params.time),
                 PrintNat(x.params.threads), "$" + Encode(Std, x.salt) + "$" + Encode(Std, x.key), x);
  }

  lemma ParamsForm(p: Params)
    ensures ParamField(p) == "m=" + PrintNat(p.memoryKiB) + ",t=" + PrintNat(p.time) + ",p=" + PrintNat(p.threads)
  {
  }

  lemma PrintedParts(head: string, m: string, t: string, p: string, tail: string, x: Parsed)
    requires head == "$argon2id$v=" + PrintNat(19) && head == "$argon2id$v=19"
    requires m == PrintNat(x.params.memoryKiB) && t == PrintNat(x.params.time) && p == PrintNat(x.params.threads)
    requires ParamField(x.params) == "m=" + m + ",t=" + t + ",p=" + p
    requires tail == "$" + Encode(Std, x.salt) + "$" + Encode(Std, x.key)
    ensures PrintPhc(x) == "$argon2id$v=19$m=" + m + ",t=" + t + ",p=" + p
                           + "$" + Encode(Std, x.salt) + "$" + Encode(Std, x.key)
  {
    var key := Encode(Std, x.key);
    var salt := Encode(Std, x.salt);
    var params := "m=" + m + ",t=" + t + ",p=" + p;
    assert PrintPhc(x) == head + "$" + params + "$" + salt + "$" + key;
    assert head + "$" + params == "$argon2id$v=19$m=" + m + ",t=" + t + ",p=" + p;
  }

  /** HashToken's parameters: 64 MiB, one pass, four lanes, a 32-byte key and a 16-byte salt. */
  lemma DefaultParameters(kdf: Kdf, token: string, salt: Bytes)
    ensures HashToken(kdf, token, salt) == HashTokenWithParams(kdf, token, Params(65536, 1, 4, 32, 16), salt)
    ensures HashToken(kdf, token, salt) == PrintPhc(Parsed(Params(65536, 1, 4, 32, 16), salt,
                                                           kdf(token, salt, Params(65536, 1, 4, 32, 16))))
  {
  }

  /** What is accepted as a hash: six parts, the first empty, the algorithm and version 19 named, three
      numbers that fit, and two texts in base64. */
  lemma AcceptedForm(encoded: string)
    ensures var parts := Split(encoded, '$');
            ParsePhc(encoded).Ok? <==>
              && |parts| == 6 && parts[0] == "" && parts[1] == "argon2id" && ScanVersion(parts[2]) == Some(19)
              && ScanParams(parts[3]).Some? && Decode(Std, parts[4]).Some? && Decode(Std, parts[5]).Some?
    ensures ParsePhc(encoded).Ok? ==>
              var parts := Split(encoded, '$'); var x := ParsePhc(encoded).value;
              && ScanParams(parts[3]) == Some((x.params.memoryKiB, x.params.time, x.params.threads))
              && Decode(Std, parts[4]) == Some(x.salt) && Decode(Std, parts[5]) == Some(x.key)
              && x.params.saltLen == |x.salt| && x.params.keyLen == |x.key|
  {
  }

  /** The outcome of a check: an error for what is no hash, argon2's panic for parameters it does not
      take, and otherwise whether the derived key is the stored one. */
  lemma CheckLaw(kdf: Kdf, token: string, encoded: string)
    ensures VerifyHash(kdf, token, encoded).Refused? <==> ParsePhc(encoded).Err?
    ensures ParsePhc(encoded).Ok? ==>
              var x := ParsePhc(encoded).value;
              if x.params.time == 0 || x.params.threads == 0 || x.params.keyLen == 0
              then VerifyHash(kdf, token, encoded) == Panics
              else VerifyHash(kdf, token, encoded) == Verdict(kdf(token, x.salt, x.params) == x.key)
  {
  }
}
