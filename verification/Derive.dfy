/** core/repository.go: what makes a repository valid, and the repository derived from a git
    workspace that declares none. */
module Derive {
  import opened Outcomes
  import opened Text
  import opened Paths

  datatype Info = Info(id: string, path: string, defaultBranch: string, url: string, beadPrefix: string)

  datatype Failure =
    | EmptyId | ReservedId | SeparatorInId | EmptyPath | RelativePath | EmptyBranch
    | EmptyPrefix | PrefixLength | PrefixCharacter
    | NilRepository | IdTaken | PrefixTaken

  const UNSPECIFIED := "unspecified"

  predicate Lower(c: char) { 'a' <= c <= 'z' }

  predicate Digit(c: char) { '0' <= c <= '9' }

  predicate PrefixChar(c: char) { Lower(c) || Digit(c) || c == '-' }

  /** Two to eight characters of [a-z0-9-]. */
  predicate GoodPrefix(prefix: string) {
    2 <= |prefix| <= 8 && forall c | c in prefix :: PrefixChar(c)
  }

  method ValidateBeadPrefix(prefix: string) returns (failed: Option<Failure>)
    ensures failed == PrefixFailure(prefix)
    ensures failed.None? <==> GoodPrefix(prefix)
  {
    if prefix == "" {
      return Some(EmptyPrefix);
    }
    if |prefix| < 2 || |prefix| > 8 {
      return Some(PrefixLength);
    }
    for i := 0 to |prefix|
      invariant forall j | 0 <= j < i :: PrefixChar(prefix[j])
    {
      var c := prefix[i];
      if !('a' <= c <= 'z' || '0' <= c <= '9' || c == '-') {
        assert c in prefix;
        return Some(PrefixCharacter);
      }
    }
    return None;
  }

  function PrefixFailure(prefix: string): Option<Failure> {
    if prefix == "" then Some(EmptyPrefix)
    else if |prefix| < 2 || |prefix| > 8 then Some(PrefixLength)
    else if exists c | c in prefix :: !PrefixChar(c) then Some(PrefixCharacter)
    else None
  }

  function Validate(r: Info): Option<Failure> {
    if TrimSpace(r.id) == "" then Some(EmptyId)
    else if r.id == UNSPECIFIED then Some(ReservedId)
    else if '/' in r.id || '\\' in r.id then Some(SeparatorInId)
    else if TrimSpace(r.path) == "" then Some(EmptyPath)
    else if !IsAbs(r.path) then Some(RelativePath)
    else if TrimSpace(r.defaultBranch) == "" then Some(EmptyBranch)
    else PrefixFailure(r.beadPrefix)
  }

  // sanitizeRepositoryID

  predicate IdChar(c: char) { Lower(c) || Digit(c) || c == '-' || c == '_' }

  predicate Edge(c: char) { c == '-' || c == '_' }

  /** unicode.ToLower, of which only the ASCII part matters here. */
  type Lowering = char -> char

  ghost predicate LowersAscii(lower: Lowering) {
    && (forall c | 'A' <= c <= 'Z' :: lower(c) as int == c as int + 32)
    && (forall c: char | c < 128 as char && !('A' <= c <= 'Z') :: lower(c) == c)
  }

  function Mapped(lower: Lowering, c: char): char {
    if IdChar(lower(c)) then lower(c) else '-'
  }

  function MappedAll(lower: Lowering, s: string): string {
    seq(|s|, i requires 0 <= i < |s| => Mapped(lower, s[i]))
  }

  function Sanitized(lower: Lowering, s: string): string {
    Trim(MappedAll(lower, s), Edge)
  }

  method SanitizeRepositoryId(lower: Lowering, s: string) returns (id: string)
    ensures id == Sanitized(lower, s)
  {
    if s == "" {
      return "";
    }
    var b := "";
    for i := 0 to |s|
      invariant b == MappedAll(lower, s[..i])
    {
      var r := lower(s[i]);
      if 'a' <= r <= 'z' || '0' <= r <= '9' || r == '-' || r == '_' {
        b := b + [r];
      } else {
        b := b + "-";
      }
      assert s[..i + 1][..i] == s[..i];
    }
    assert s[..|s|] == s;
    return Trim(b, Edge);
  }

  lemma SanitizedShape(lower: Lowering, s: string)
    ensures forall c | c in Sanitized(lower, s) :: IdChar(c)
    ensures Sanitized(lower, s) != "" ==>
              !Edge(Sanitized(lower, s)[0]) && !Edge(Sanitized(lower, s)[|Sanitized(lower, s)| - 1])
  {
    var m := MappedAll(lower, s);
    TrimTwice(m, Edge);
    forall c | c in Sanitized(lower, s) ensures IdChar(c) {
      assert c in m;
    }
    var l := TrimLeft(m, Edge);
    assert Sanitized(lower, s) != "" ==> Sanitized(lower, s)[0] == l[0];
  }

  /** Sanitizing an id again changes nothing. */
  lemma SanitizeTwice(lower: Lowering, s: string)
    requires LowersAscii(lower)
    ensures Sanitized(lower, Sanitized(lower, s)) == Sanitized(lower, s)
  {
    var id := Sanitized(lower, s);
    SanitizedShape(lower, s);
    assert MappedAll(lower, id) == id by {
      forall i | 0 <= i < |id| ensures Mapped(lower, id[i]) == id[i] {
        assert id[i] in id;
      }
    }
    TrimKeeps(id, Edge);
  }

  // derivePrefix

  predicate PrefixLetter(c: char) { Lower(c) || Digit(c) }

  function Letters(id: string): string {
    if id == "" then "" else
      var n := |id| - 1;
      Letters(id[..n]) + if PrefixLetter(id[n]) then [id[n]] else []
  }

  /** The first two letters or digits of the id, or "wp" if it has fewer. */
  function PrefixFor(id: string): string {
    if |Letters(id)| < 2 then "wp" else Letters(id)[..2]
  }

  lemma {:induction false} LettersGrow(id: string, k: nat)
    requires k <= |id|
    ensures Letters(id[..k]) <= Letters(id)
    decreases |id|
  {
    if k == |id| {
      assert id[..k] == id;
    } else {
      assert id[..|id| - 1][..k] == id[..k];
      LettersGrow(id[..|id| - 1], k);
    }
  }

  method DerivePrefix(id: string) returns (prefix: string)
    ensures prefix == PrefixFor(id)
  {
    var letters := "";
    var i := 0;
    while i < |id| && |letters| < 2
      invariant 0 <= i <= |id| && letters == Letters(id[..i]) && |letters| <= 2
    {
      var c := id[i];
      assert id[..i + 1][..i] == id[..i];
      if 'a' <= c <= 'z' {
        letters := letters + [c];
      } else if '0' <= c <= '9' {
        letters := letters + [c];
      }
      i := i + 1;
    }
    LettersGrow(id, i);
    assert i == |id| ==> id[..i] == id;
    if |letters| < 2 {
      return "wp";
    }
    return letters;
  }

  lemma {:induction false} LettersAreLetters(id: string)
    ensures forall c | c in Letters(id) :: PrefixLetter(c)
  {
    if id != "" {
      LettersAreLetters(id[..|id| - 1]);
    }
  }

  /** Whatever the id, the derived prefix is two letters or digits, which validation accepts. */
  lemma DerivedPrefixIsGood(id: string)
    ensures |PrefixFor(id)| == 2 && (forall c | c in PrefixFor(id) :: PrefixLetter(c))
    ensures GoodPrefix(PrefixFor(id)) && PrefixFailure(PrefixFor(id)).None?
  {
    LettersAreLetters(id);
    forall c | c in PrefixFor(id) ensures PrefixLetter(c) {
      if |Letters(id)| >= 2 { assert c in Letters(id); }
    }
  }

  // deriveRepositoryFromWorkspace

  /** What the git runner answers: None stands for an error. */
  datatype GitAnswers = GitAnswers(symbolicRef: Option<string>, remoteUrl: Option<string>)

  function IdFor(lower: Lowering, abs: string): string {
    var id := Sanitized(lower, Base(abs));
    if id == "" || id == UNSPECIFIED then "workspace" else id
  }

  function BranchFrom(git: GitAnswers): string {
    if git.symbolicRef.Some? && git.symbolicRef.value != "" then git.symbolicRef.value else "main"
  }

  function Derived(lower: Lowering, abs: string, git: GitAnswers): Info {
    var id := IdFor(lower, abs);
    Info(id, abs, BranchFrom(git), if git.remoteUrl.Some? then git.remoteUrl.value else "", PrefixFor(id))
  }

  method DeriveRepository(lower: Lowering, abs: string, git: GitAnswers) returns (r: Result<Info, Failure>)
    ensures var info := Derived(lower, abs, git);
            r == if Validate(info).Some? then Err(Validate(info).value) else Ok(info)
  {
    var id := SanitizeRepositoryId(lower, Base(abs));
    if id == "" || id == UNSPECIFIED {
      id := "workspace";
    }
    var branch := "main";
    if git.symbolicRef.Some? && git.symbolicRef.value != "" {
      branch := git.symbolicRef.value;
    }
    var url := "";
    if git.remoteUrl.Some? {
      url := git.remoteUrl.value;
    }
    var prefix := DerivePrefix(id);
    var info := Info(id, abs, branch, url, prefix);
    var failed := Validate(info);
    if failed.Some? {
      return Err(failed.value);
    }
    return Ok(info);
  }

  lemma IdCharIsPlain(c: char)
    requires IdChar(c)
    ensures !IsSpace(c) && c != '/' && c != '\\'
  {
  }

  predicate GoodId(id: string) {
    TrimSpace(id) != "" && id != UNSPECIFIED && '/' !in id && '\\' !in id
  }

  /** Text with a first character that is no white space is not blank. */
  lemma NotBlank(s: string)
    requires s != "" && !IsSpace(s[0])
    ensures TrimSpace(s) != ""
  {
    TrimmedAway(s, IsSpace);
    assert s[0] in s;
  }

  lemma IdCharsAreGood(id: string)
    requires id != "" && id != UNSPECIFIED && forall c | c in id :: IdChar(c)
    ensures GoodId(id)
  {
    forall c | c in id ensures !IsSpace(c) && c != '/' && c != '\\' {
      IdCharIsPlain(c);
    }
    assert id[0] in id;
    NotBlank(id);
  }

  lemma FallbackChars(fallback: string)
    requires fallback == "workspace"
    ensures fallback != "" && fallback != UNSPECIFIED && forall c | c in fallback :: IdChar(c)
  {
    assert fallback[0] == 'w' && UNSPECIFIED[0] == 'u';
    assert forall i | 0 <= i < |fallback| :: Lower(fallback[i]);
  }

  lemma DerivedIdIsGood(lower: Lowering, abs: string, id: string)
    requires id == IdFor(lower, abs)
    ensures GoodId(id)
  {
    SanitizedShape(lower, Base(abs));
    if id == "workspace" {
      FallbackChars(id);
    }
    IdCharsAreGood(id);
  }

  /** Validate as one condition. */
  lemma ValidateIff(r: Info)
    ensures Validate(r).None? <==>
      && GoodId(r.id) && TrimSpace(r.path) != "" && IsAbs(r.path) && TrimSpace(r.defaultBranch) != ""
      && PrefixFailure(r.beadPrefix).None?
  {
  }

  lemma AbsIsNotBlank(path: string)
    requires IsAbs(path)
    ensures TrimSpace(path) != ""
  {
    assert !IsSpace('/');
    NotBlank(path);
  }

  lemma ValidIfGood(info: Info)
    requires GoodId(info.id) && PrefixFailure(info.beadPrefix).None?
    ensures Validate(info).None? <==> IsAbs(info.path) && TrimSpace(info.defaultBranch) != ""
  {
    ValidateIff(info);
    if IsAbs(info.path) {
      AbsIsNotBlank(info.path);
    }
  }

  /** Whatever the workspace is called and whatever git answers: the derived repository passes
      validation exactly when the path is absolute and the branch is not blank. */
  lemma DerivedIsValidIff(lower: Lowering, abs: string, git: GitAnswers)
    ensures Validate(Derived(lower, abs, git)).None? <==> IsAbs(abs) && TrimSpace(BranchFrom(git)) != ""
  {
    var info := Derived(lower, abs, git);
    DerivedIdIsGood(lower, abs, info.id);
    DerivedPrefixIsGood(info.id);
    ValidIfGood(info);
  }

  // In plain terms

  predicate AllBlank(s: string) {
    forall c | c in s :: IsSpace(c)
  }

  predicate PrefixText(prefix: string) {
    2 <= |prefix| <= 8 && forall c | c in prefix :: 'a' <= c <= 'z' || '0' <= c <= '9' || c == '-'
  }

  lemma PrefixFailureMeans(prefix: string)
    ensures PrefixFailure(prefix) ==
              if prefix == "" then Some(EmptyPrefix)
              else if |prefix| < 2 || |prefix| > 8 then Some(PrefixLength)
              else if PrefixText(prefix) then None
              else Some(PrefixCharacter)
  {
  }

  lemma BlankMeans(s: string)
    ensures TrimSpace(s) == "" <==> AllBlank(s)
  {
    TrimmedAway(s, IsSpace);
  }

  /** What validation reports: the first of these that fails, in this order. */
  lemma FirstFailure(r: Info)
    ensures Validate(r) ==
              if AllBlank(r.id) then Some(EmptyId)
              else if r.id == "unspecified" then Some(ReservedId)
              else if '/' in r.id || '\\' in r.id then Some(SeparatorInId)
              else if AllBlank(r.path) then Some(EmptyPath)
              else if r.path == "" || r.path[0] != '/' then Some(RelativePath)
              else if AllBlank(r.defaultBranch) then Some(EmptyBranch)
              else PrefixFailure(r.beadPrefix)
  {
    var id, path, branch := AllBlank(r.id), AllBlank(r.path), AllBlank(r.defaultBranch);
    assert (TrimSpace(r.id) == "") == id by { BlankMeans(r.id); }
    assert (TrimSpace(r.path) == "") == path by { BlankMeans(r.path); }
    assert (TrimSpace(r.defaultBranch) == "") == branch by { BlankMeans(r.defaultBranch); }
  }

  /** A repository is valid exactly when its id is neither blank nor the reserved one and holds no
      path separator, its path is absolute, its branch not blank, and its prefix two to eight
      characters of [a-z0-9-]. */
  lemma ValidMeans(r: Info)
    ensures Validate(r).None? <==>
              && !AllBlank(r.id) && r.id != "unspecified" && '/' !in r.id && '\\' !in r.id
              && r.path != "" && r.path[0] == '/' && !AllBlank(r.defaultBranch) && PrefixText(r.beadPrefix)
  {
    FirstFailure(r);
    PrefixFailureMeans(r.beadPrefix);
    SlashIsNotBlank(r.path);
  }

  lemma SlashIsNotBlank(path: string)
    ensures path != "" && path[0] == '/' ==> !AllBlank(path)
  {
    if path != "" && path[0] == '/' {
      assert path[0] in path && !IsSpace('/');
    }
  }

  /** A sanitized id is the text lowered, with a dash for every character outside [a-z0-9-_], less
      the dashes and underscores at its ends. */
  lemma SanitizedMeans(lower: Lowering, s: string) returns (left: string, right: string)
    ensures |left + Sanitized(lower, s) + right| == |s|
    ensures forall i | 0 <= i < |s| :: (left + Sanitized(lower, s) + right)[i] ==
              if 'a' <= lower(s[i]) <= 'z' || '0' <= lower(s[i]) <= '9' || lower(s[i]) == '-' || lower(s[i]) == '_'
              then lower(s[i]) else '-'
    ensures (forall c | c in left :: c == '-' || c == '_') && forall c | c in right :: c == '-' || c == '_'
  {
    var m := MappedAll(lower, s);
    left, right := TrimmedParts(m, Edge);
    assert left + Sanitized(lower, s) + right == m;
  }

  /** What trimming takes off the two ends. */
  lemma TrimmedParts(s: string, cut: char -> bool) returns (left: string, right: string)
    ensures s == left + Trim(s, cut) + right
    ensures (forall c | c in left :: cut(c)) && forall c | c in right :: cut(c)
  {
    var l := TrimLeft(s, cut);
    left := LeftPart(s, cut, l);
    right := RightPart(l, cut, Trim(s, cut));
    Glued(left, Trim(s, cut), right);
  }

  lemma Glued(a: string, b: string, c: string)
    ensures a + b + c == a + (b + c)
  {
  }

  lemma LeftPart(s: string, cut: char -> bool, l: string) returns (left: string)
    requires l == TrimLeft(s, cut)
    ensures s == left + l && forall c | c in left :: cut(c)
  {
    left := s[..|s| - |l|];
  }

  lemma RightPart(l: string, cut: char -> bool, t: string) returns (right: string)
    requires t == TrimRight(l, cut)
    ensures l == t + right && forall c | c in right :: cut(c)
  {
    right := l[|t|..];
    forall c | c in right ensures cut(c) {
      var i :| 0 <= i < |right| && right[i] == c;
      assert l[|t| + i] == c;
    }
  }

  /** A derived prefix is the id's first two characters of [a-z0-9], or "wp" if it has no two. */
  lemma PrefixMeans(id: string)
    ensures forall i, j | FirstTwo(id, i, j) :: PrefixFor(id) == [id[i], id[j]]
    ensures (forall i, j :: !FirstTwo(id, i, j)) ==> PrefixFor(id) == "wp"
  {
    LettersAt(id);
    forall i, j | FirstTwo(id, i, j) ensures PrefixFor(id) == [id[i], id[j]] {
      TwoLetters(id, i, j);
    }
  }

  predicate FirstTwo(id: string, i: int, j: int) {
    && 0 <= i < j < |id| && PrefixLetter(id[i]) && PrefixLetter(id[j])
    && forall k | 0 <= k < j && k != i :: !PrefixLetter(id[k])
  }

  lemma {:induction false} NoLetters(id: string)
    requires forall c | c in id :: !PrefixLetter(c)
    ensures Letters(id) == ""
  {
    if id != "" {
      assert id[|id| - 1] in id && forall c | c in id[..|id| - 1] :: c in id;
      NoLetters(id[..|id| - 1]);
    }
  }

  lemma {:induction false} LettersConcat(a: string, b: string)
    ensures Letters(a + b) == Letters(a) + Letters(b)
  {
    if b == "" {
      assert a + b == a;
    } else {
      var n := |b| - 1;
      assert (a + b)[..|a| + n] == a + b[..n];
      LettersConcat(a, b[..n]);
    }
  }

  lemma OneLetter(c: char)
    ensures Letters([c]) == if PrefixLetter(c) then [c] else ""
  {
    assert [c][..0] == "";
  }

  /** Letters up to and with a letter that is the only one. */
  lemma LettersUpTo(front: string, i: nat)
    requires i < |front| && PrefixLetter(front[i]) && forall k | 0 <= k < |front| && k != i :: !PrefixLetter(front[k])
    ensures Letters(front) == [front[i]]
  {
    NoLetters(front[..i]);
    NoLetters(front[i + 1..]);
    OneLetter(front[i]);
    LettersConcat(front[..i], [front[i]]);
    LettersConcat(front[..i] + [front[i]], front[i + 1..]);
    assert front == front[..i] + [front[i]] + front[i + 1..];
  }

  lemma LettersFrom(front: string, c: char, rest: string)
    requires |Letters(front)| == 1 && PrefixLetter(c)
    ensures PrefixFor(front + [c] + rest) == Letters(front) + [c]
  {
    OneLetter(c);
    LettersConcat(front, [c]);
    LettersConcat(front + [c], rest);
    var two := Letters(front) + [c];
    assert (two + Letters(rest))[..2] == two;
  }

  lemma TwoLetters(id: string, i: int, j: int)
    requires FirstTwo(id, i, j)
    ensures PrefixFor(id) == [id[i], id[j]]
  {
    LettersUpTo(id[..j], i);
    LettersFrom(id[..j], id[j], id[j + 1..]);
    assert id == id[..j] + [id[j]] + id[j + 1..];
  }

  /** An id with two letters has a first two. */
  lemma {:induction false} LettersAt(id: string)
    ensures |Letters(id)| >= 1 ==>
              exists i :: 0 <= i < |id| && PrefixLetter(id[i]) && forall k | 0 <= k < i :: !PrefixLetter(id[k])
    ensures |Letters(id)| >= 2 ==> exists i, j :: FirstTwo(id, i, j)
  {
    if id != "" {
      var n := |id| - 1;
      LettersAt(id[..n]);
      if |Letters(id)| >= 1 && |Letters(id[..n])| == 0 {
        NoneBefore(id[..n]);
        assert PrefixLetter(id[n]);
      }
      if |Letters(id)| >= 2 {
        if |Letters(id[..n])| >= 2 {
          var i, j :| FirstTwo(id[..n], i, j);
          assert FirstTwo(id, i, j);
        } else {
          var i := OnlyLetter(id[..n]);
          assert FirstTwo(id, i, n);
        }
      }
    }
  }

  lemma {:induction false} NoneBefore(id: string)
    requires Letters(id) == ""
    ensures forall k | 0 <= k < |id| :: !PrefixLetter(id[k])
  {
    if id != "" {
      NoneBefore(id[..|id| - 1]);
    }
  }

  lemma {:induction false} OnlyLetter(id: string) returns (i: nat)
    requires |Letters(id)| == 1
    ensures i < |id| && PrefixLetter(id[i]) && forall k | 0 <= k < |id| && k != i :: !PrefixLetter(id[k])
  {
    var n := |id| - 1;
    if PrefixLetter(id[n]) {
      i := n;
      NoneBefore(id[..n]);
    } else {
      i := OnlyLetter(id[..n]);
    }
  }

  /** Everything about a derived repository but its prefix: the sanitized last element of its path,
      or "workspace"; git's branch, or "main"; git's remote, or nothing. */
  lemma DerivedMeans(lower: Lowering, abs: string, git: GitAnswers)
    ensures var info := Derived(lower, abs, git); var id := Sanitized(lower, Base(abs));
            && info.id == (if id == "" || id == "unspecified" then "workspace" else id)
            && info.path == abs && info.beadPrefix == PrefixFor(info.id)
            && (git.symbolicRef.None? || git.symbolicRef == Some("") ==> info.defaultBranch == "main")
            && (git.symbolicRef.Some? && git.symbolicRef.value != "" ==> info.defaultBranch == git.symbolicRef.value)
            && info.url == (if git.remoteUrl.Some? then git.remoteUrl.value else "")
  {
  }
}
