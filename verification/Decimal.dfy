/** Decimal printing and the parsers that read it back: strconv.FormatInt and ParseInt, and the
    %d verbs of fmt.Sscanf. */
module Decimal {
  import opened Outcomes
  import opened Text

  predicate IsDigit(c: char) { '0' <= c <= '9' }

  function DigitChar(n: nat): (c: char)
    requires n < 10
    ensures IsDigit(c) && DigitValue(c) == n
  {
    '0' + n as char
  }

  function DigitValue(c: char): nat
    requires IsDigit(c)
  {
    c as int - '0' as int
  }

  function PrintNat(n: nat): (s: string)
    ensures s != "" && forall c | c in s :: IsDigit(c)
  {
    if n < 10 then [DigitChar(n)] else PrintNat(n / 10) + [DigitChar(n % 10)]
  }

  function Print(n: int): string {
    if n < 0 then "-" + PrintNat(-n) else PrintNat(n)
  }

  /** The number a run of digits spells. */
  function NatOf(s: string): nat
    requires forall c | c in s :: IsDigit(c)
  {
    if s == "" then 0 else
      var n := |s| - 1;
      assert s[n] in s;
      10 * NatOf(s[..n]) + DigitValue(s[n])
  }

  lemma {:induction false} NatOfPrinted(n: nat)
    ensures NatOf(PrintNat(n)) == n
  {
    if n < 10 {
      assert PrintNat(n)[..0] == "";
    } else {
      var s := PrintNat(n);
      assert s[..|s| - 1] == PrintNat(n / 10);
      NatOfPrinted(n / 10);
    }
  }

  /** strconv.ParseInt(s, 10, 64). */
  function ParseInt64(s: string): Option<int> {
    var signed := s != "" && (s[0] == '-' || s[0] == '+');
    var digits := if signed then s[1..] else s;
    if digits == "" || exists c | c in digits :: !IsDigit(c) then None
    else
      var n: int := NatOf(digits);
      var v := if signed && s[0] == '-' then -n else n;
      if -0x8000_0000_0000_0000 <= v < 0x8000_0000_0000_0000 then Some(v) else None
  }

  lemma PrintedDigits(n: nat)
    ensures var s := PrintNat(n); s != "" && IsDigit(s[0]) && NatOf(s) == n
  {
    NatOfPrinted(n);
    assert PrintNat(n)[0] in PrintNat(n);
  }

  /** A run of digits parses to its value, with or without a minus sign. */
  lemma ParseDigits(digits: string, n: int)
    requires digits != "" && (forall c | c in digits :: IsDigit(c)) && IsDigit(digits[0]) && NatOf(digits) == n
    ensures n < 0x8000_0000_0000_0000 ==> ParseInt64(digits) == Some(n)
    ensures n <= 0x8000_0000_0000_0000 ==> ParseInt64("-" + digits) == Some(-n)
  {
    assert ("-" + digits)[1..] == digits;
  }

  lemma ParseUndoesPrint(n: int)
    requires -0x8000_0000_0000_0000 <= n < 0x8000_0000_0000_0000
    ensures ParseInt64(Print(n)) == Some(n)
  {
    var m: nat := if n < 0 then -n else n;
    PrintedDigits(m);
    ParseDigits(PrintNat(m), m);
  }

  /** Length of the digits `s` starts with. */
  function DigitRun(s: string): (k: nat)
    ensures k <= |s| && forall c | c in s[..k] :: IsDigit(c)
    ensures k < |s| ==> !IsDigit(s[k])
  {
    if s == "" || !IsDigit(s[0]) then 0 else
      var k := DigitRun(s[1..]);
      assert s[..k + 1] == [s[0]] + s[1..][..k];
      k + 1
  }

  predicate SkippedBlank(c: char) { IsSpace(c) && c != '\n' }

  /** One %d into an unsigned variable below `limit`: blanks, then digits. What is left over
      comes second. */
  function ScanUint(s: string, limit: nat): Option<(nat, string)> {
    var t := TrimLeft(s, SkippedBlank);
    var k := DigitRun(t);
    if k == 0 || NatOf(t[..k]) >= limit then None else Some((NatOf(t[..k]), t[k..]))
  }

  /** One %d into an int: a sign may come before the digits. */
  function ScanInt(s: string): Option<(int, string)> {
    var t := TrimLeft(s, SkippedBlank);
    var signed := t != "" && (t[0] == '-' || t[0] == '+');
    var u := if signed then t[1..] else t;
    var k := DigitRun(u);
    if k == 0 then None
    else
      var n: int := NatOf(u[..k]);
      var v := if signed && t[0] == '-' then -n else n;
      if -0x8000_0000_0000_0000 <= v < 0x8000_0000_0000_0000 then Some((v, u[k..])) else None
  }

  lemma DigitRunStops(s: string, k: nat)
    requires k <= |s| && (forall i | 0 <= i < k :: IsDigit(s[i])) && (k < |s| ==> !IsDigit(s[k]))
    ensures DigitRun(s) == k
  {
    if k > 0 {
      DigitRunStops(s[1..], k - 1);
    }
  }

  lemma DigitRunOf(digits: string, rest: string)
    requires forall c | c in digits :: IsDigit(c)
    requires rest == "" || !IsDigit(rest[0])
    ensures DigitRun(digits + rest) == |digits|
    ensures (digits + rest)[..|digits|] == digits && (digits + rest)[|digits|..] == rest
  {
    var s := digits + rest;
    assert forall i | 0 <= i < |digits| :: s[i] == digits[i] && s[i] in digits;
    assert rest != "" ==> s[|digits|] == rest[0];
    DigitRunStops(s, |digits|);
  }

  lemma NothingToSkip(s: string)
    requires s != "" && IsDigit(s[0])
    ensures TrimLeft(s, SkippedBlank) == s
  {
  }

  lemma PrintedThenRest(n: nat, rest: string)
    requires rest == "" || !IsDigit(rest[0])
    ensures var s := PrintNat(n) + rest; var k := |PrintNat(n)|;
            && 0 < k && IsDigit(s[0]) && TrimLeft(s, SkippedBlank) == s && DigitRun(s) == k
            && s[..k] == PrintNat(n) && s[k..] == rest
  {
    var digits := PrintNat(n);
    var s := digits + rest;
    assert digits[0] in digits && s[0] == digits[0];
    NothingToSkip(s);
    DigitRunOf(digits, rest);
  }

  /** Scanning a printed number stops at the first character that is not a digit. */
  lemma ScanUndoesPrint(n: nat, rest: string, limit: nat)
    requires n < limit && (rest == "" || !IsDigit(rest[0]))
    ensures ScanUint(PrintNat(n) + rest, limit) == Some((n, rest))
  {
    PrintedThenRest(n, rest);
    NatOfPrinted(n);
  }

  /** Scanning an integer that begins with digits, after what is skipped. */
  lemma ScanDigits(s: string, k: nat, n: nat)
    requires 0 < k <= |s| && IsDigit(s[0]) && TrimLeft(s, SkippedBlank) == s && DigitRun(s) == k
    requires NatOf(s[..k]) == n < 0x8000_0000_0000_0000
    ensures ScanInt(s) == Some((n, s[k..]))
  {
  }

  lemma ScanIntUndoesPrint(n: nat, rest: string)
    requires n < 0x8000_0000_0000_0000 && (rest == "" || !IsDigit(rest[0]))
    ensures ScanInt(PrintNat(n) + rest) == Some((n, rest))
  {
    PrintedThenRest(n, rest);
    NatOfPrinted(n);
    ScanDigits(PrintNat(n) + rest, |PrintNat(n)|, n);
  }

  // The notation itself

  /** Printing is positional, most significant digit first and without leading zeros. */
  lemma {:induction false} PrintLaw(n: nat)
    ensures PrintNat(0) == "0"
    ensures n > 0 ==> PrintNat(n)[0] != '0'
    ensures n >= 10 ==> PrintNat(n) == PrintNat(n / 10) + PrintNat(n % 10)
    ensures n < 10 ==> |PrintNat(n)| == 1 && PrintNat(n)[0] as int == 48 + n
  {
    if n >= 10 {
      PrintLaw(n / 10);
      assert PrintNat(n)[0] == PrintNat(n / 10)[0];
    }
  }

  lemma SignLaw(n: int)
    requires n >= 0
    ensures Print(n) == PrintNat(n) && (n > 0 ==> Print(-n) == "-" + PrintNat(n))
  {
  }

  /** The value of digits, one digit at a time. */
  lemma ValueLaw(digits: string, c: char)
    requires (forall d | d in digits :: IsDigit(d)) && '0' <= c <= '9'
    ensures NatOf("") == 0
    ensures (forall d | d in digits + [c] :: IsDigit(d)) && NatOf(digits + [c]) == 10 * NatOf(digits) + (c as int - 48)
  {
    assert (digits + [c])[..|digits|] == digits;
  }

  /** A 64-bit integer is digits with at most one sign before them, and nothing else. */
  lemma ParseLaw(digits: string)
    requires digits != "" && forall d | d in digits :: '0' <= d <= '9'
    ensures ParseInt64(digits) == if NatOf(digits) < 0x8000_0000_0000_0000 then Some(NatOf(digits)) else None
    ensures ParseInt64("+" + digits) == ParseInt64(digits)
    ensures NatOf(digits) <= 0x8000_0000_0000_0000 ==> ParseInt64("-" + digits) == Some(-(NatOf(digits) as int))
    ensures NatOf(digits) > 0x8000_0000_0000_0000 ==> ParseInt64("-" + digits).None?
  {
    assert digits[0] in digits;
    assert ("+" + digits)[1..] == digits && ("-" + digits)[1..] == digits;
  }

  lemma ParseRefuses(s: string, c: char)
    requires c in s && !('0' <= c <= '9') && (c != s[0] || (c != '-' && c != '+'))
    ensures ParseInt64(s).None?
  {
    var digits := if s[0] == '-' || s[0] == '+' then s[1..] else s;
    assert s == [s[0]] + s[1..];
    assert c in digits && !IsDigit(c);
  }

  lemma ParseRefusesNoDigits()
    ensures ParseInt64("").None? && ParseInt64("-").None? && ParseInt64("+").None?
  {
    assert "-"[1..] == "" && "+"[1..] == "";
  }

  /** Scanning a number takes all the digits there are, and refuses what does not fit. */
  lemma ScanTakesDigits(digits: string, rest: string, limit: nat)
    requires digits != "" && (forall d | d in digits :: IsDigit(d)) && (rest == "" || !IsDigit(rest[0]))
    ensures ScanUint(digits + rest, limit) == if NatOf(digits) < limit then Some((NatOf(digits), rest)) else None
  {
    DigitRunOf(digits, rest);
    assert digits[0] in digits && (digits + rest)[0] == digits[0];
    NothingToSkip(digits + rest);
  }

  /** It skips white space on the line before them. */
  lemma ScanSkipsBlanks(blank: char, text: string, limit: nat)
    requires IsSpace(blank) && blank != '\n'
    ensures ScanUint([blank] + text, limit) == ScanUint(text, limit)
  {
    assert ([blank] + text)[1..] == text;
  }

  /** And it wants at least one. */
  lemma ScanWantsDigits(text: string, limit: nat)
    requires text == "" || (!IsDigit(text[0]) && (!IsSpace(text[0]) || text[0] == '\n'))
    ensures ScanUint(text, limit).None?
  {
  }
}
