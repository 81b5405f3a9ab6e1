/** Go string helpers the models share. A string is a sequence of characters. */
module Text {

  /** unicode.IsSpace. */
  predicate IsSpace(c: char) {
    || '\t' <= c <= '\r' || c == ' ' || c == '\U{0085}' || c == '\U{00A0}' || c == '\U{1680}'
    || '\U{2000}' <= c <= '\U{200A}' || c == '\U{2028}' || c == '\U{2029}' || c == '\U{202F}'
    || c == '\U{205F}' || c == '\U{3000}'
  }

  function TrimLeft(s: string, cut: char -> bool): (t: string)
    ensures t == [] || !cut(t[0])
    ensures |t| <= |s| && t == s[|s| - |t|..]
    ensures forall i :: 0 <= i < |s| - |t| ==> cut(s[i])
  {
    if s != [] && cut(s[0]) then TrimLeft(s[1..], cut) else s
  }

  function TrimRight(s: string, cut: char -> bool): (t: string)
    ensures t == [] || !cut(t[|t| - 1])
    ensures t <= s
    ensures forall i :: |t| <= i < |s| ==> cut(s[i])
  {
    if s != [] && cut(s[|s| - 1]) then TrimRight(s[..|s| - 1], cut) else s
  }

  function Trim(s: string, cut: char -> bool): string {
    TrimRight(TrimLeft(s, cut), cut)
  }

  /** strings.TrimSpace. */
  function TrimSpace(s: string): string {
    Trim(s, IsSpace)
  }

  /** What has no character to trim at either end is left alone. */
  lemma TrimKeeps(s: string, cut: char -> bool)
    requires s == [] || (!cut(s[0]) && !cut(s[|s| - 1]))
    ensures Trim(s, cut) == s
  {
  }

  /** What is left starts and ends with a character that is not cut. */
  lemma TrimEnds(s: string, cut: char -> bool)
    ensures var t := Trim(s, cut); t != [] ==> !cut(t[0]) && !cut(t[|t| - 1])
  {
    var l, t := TrimLeft(s, cut), Trim(s, cut);
    assert t != [] ==> t[0] == l[0];
  }

  lemma TrimIsPart(s: string, cut: char -> bool)
    ensures forall c | c in Trim(s, cut) :: c in s
  {
    var l := TrimLeft(s, cut);
    assert forall c | c in l :: c in s;
  }

  lemma TrimmedAway(s: string, cut: char -> bool)
    ensures Trim(s, cut) == [] <==> forall c | c in s :: cut(c)
  {
    TrimEnds(s, cut);
    TrimIsPart(s, cut);
    if Trim(s, cut) != [] {
      assert Trim(s, cut)[0] in s;
    }
  }

  /** Trimming twice is trimming once, and something is left exactly when something was not cut. */
  lemma TrimTwice(s: string, cut: char -> bool)
    ensures Trim(Trim(s, cut), cut) == Trim(s, cut)
    ensures Trim(s, cut) == [] <==> forall c | c in s :: cut(c)
    ensures forall c | c in Trim(s, cut) :: c in s
  {
    TrimEnds(s, cut);
    TrimKeeps(Trim(s, cut), cut);
    TrimmedAway(s, cut);
    TrimIsPart(s, cut);
  }

  /** Trimming a text with cut characters around it. */
  lemma {:induction false} TrimAround(left: string, core: string, right: string, cut: char -> bool)
    requires (forall c | c in left :: cut(c)) && (forall c | c in right :: cut(c))
    requires core == [] || (!cut(core[0]) && !cut(core[|core| - 1]))
    ensures Trim(left + core + right, cut) == core
  {
    if core == [] {
      assert forall c | c in left + core + right :: cut(c);
      TrimmedAway(left + core + right, cut);
    } else {
      TrimLeftPast(left, core + right, cut);
      assert left + core + right == left + (core + right);
      TrimRightPast(core, right, cut);
    }
  }

  lemma {:induction false} TrimLeftPast(left: string, rest: string, cut: char -> bool)
    requires (forall c | c in left :: cut(c)) && rest != [] && !cut(rest[0])
    ensures TrimLeft(left + rest, cut) == rest
  {
    if left == [] {
      assert left + rest == rest;
    } else {
      assert left[0] in left && (left + rest)[1..] == left[1..] + rest;
      TrimLeftPast(left[1..], rest, cut);
    }
  }

  lemma {:induction false} TrimRightPast(rest: string, right: string, cut: char -> bool)
    requires (forall c | c in right :: cut(c)) && rest != [] && !cut(rest[|rest| - 1])
    ensures TrimRight(rest + right, cut) == rest
  {
    if right == [] {
      assert rest + right == rest;
    } else {
      var n := |right| - 1;
      assert right[n] in right && (rest + right)[..|rest| + n] == rest + right[..n];
      TrimRightPast(rest, right[..n], cut);
    }
  }

  /** Index of the first `c` in `s`, or |s|. */
  function IndexOf(s: string, c: char): (i: nat)
    ensures i <= |s| && c !in s[..i]
    ensures i < |s| ==> s[i] == c
    ensures i == |s| <==> c !in s
  {
    if s == [] || s[0] == c then 0 else 1 + IndexOf(s[1..], c)
  }

  /** strings.Split with a one-character separator. */
  function Split(s: string, sep: char): (parts: seq<string>)
    ensures parts != []
    ensures forall p | p in parts :: sep !in p
    ensures Join(parts, sep) == s
  {
    var i := IndexOf(s, sep);
    if i == |s| then [s] else
      var rest := Split(s[i + 1..], sep);
      assert s == s[..i] + [sep] + s[i + 1..];
      [s[..i]] + rest
  }

  /** strings.Join with a one-character separator. */
  function Join(parts: seq<string>, sep: char): string {
    if parts == [] then ""
    else if |parts| == 1 then parts[0]
    else parts[0] + [sep] + Join(parts[1..], sep)
  }

  lemma IndexOfFirst(head: string, c: char, tail: string)
    requires c !in head
    ensures IndexOf(head + [c] + tail, c) == |head|
  {
    var s := head + [c] + tail;
    assert s[|head|] == c;
    assert forall k | 0 <= k < |head| :: s[k] == head[k];
  }

  /** Splitting undoes joining when no part contains the separator. */
  lemma {:induction false} SplitOfJoin(parts: seq<string>, sep: char)
    requires parts != [] && forall p | p in parts :: sep !in p
    ensures Split(Join(parts, sep), sep) == parts
  {
    if |parts| > 1 {
      var rest := Join(parts[1..], sep);
      IndexOfFirst(parts[0], sep, rest);
      var s := Join(parts, sep);
      assert s[..|parts[0]|] == parts[0] && s[|parts[0]| + 1..] == rest;
      SplitOfJoin(parts[1..], sep);
    }
  }

  lemma {:induction false} JoinSnoc(parts: seq<string>, last: string, sep: char)
    requires parts != []
    ensures Join(parts + [last], sep) == Join(parts, sep) + [sep] + last
  {
    if |parts| == 1 {
      assert (parts + [last])[1..] == [last];
    } else {
      assert (parts + [last])[1..] == parts[1..] + [last];
      JoinSnoc(parts[1..], last, sep);
    }
  }

  /** White space by code point: the five control characters from 9 to 13, the blank, and the ones
      Unicode adds. */
  lemma SpaceMeans(c: char)
    ensures IsSpace(c) <==>
              || 9 <= c as int <= 13 || 0x2000 <= c as int <= 0x200A
              || c as int in {0x20, 0x85, 0xA0, 0x1680, 0x2028, 0x2029, 0x202F, 0x205F, 0x3000}
  {
  }
}
