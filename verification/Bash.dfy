/** cmd/gemba-bridge/preuse.go: the scan over a command's tokens. */
module Bash {
  import opened Outcomes
  import opened Text
  import opened Paths
  import opened BashTokens

  datatype Verdict = Allow | Deny(why: string)

  /** A session's surface as the scanner sees it: the verdict on reading or writing a path. */
  datatype Surface = Surface(read: string -> Verdict, write: string -> Verdict)

  datatype Intent = Reads | Writes

  /** Recognised command names and what they do to their path argument. Everything below holds
      for any such table. */
  type VerbTable = map<string, Intent>

  /** bashVerbIntent. */
  const BASH_VERBS: VerbTable := map[
    "cat" := Reads, "less" := Reads, "more" := Reads, "head" := Reads, "tail" := Reads,
    "ls" := Reads, "stat" := Reads, "file" := Reads,
    "grep" := Reads, "egrep" := Reads, "rg" := Reads, "ack" := Reads,
    "find" := Reads, "fd" := Reads, "awk" := Reads, "diff" := Reads, "cd" := Reads,
    "cp" := Writes, "mv" := Writes, "rm" := Writes, "touch" := Writes, "mkdir" := Writes, "sed" := Writes]

  /** The command name a token spells: without /usr/bin/, and only its last element. */
  function Verb(token: string): string {
    Base(if "/usr/bin/" <= token then token[9..] else token)
  }

  predicate Skipped(token: string) {
    "-" <= token || token == "&&" || token == "||" || token == ";" || token == "|"
  }

  /** The first token of `tokens` that is neither a flag nor a shell operator. */
  ghost predicate IsNextPath(tokens: seq<string>, path: string) {
    exists k :: 0 <= k < |tokens| && tokens[k] == path && !Skipped(path) && forall j | 0 <= j < k :: Skipped(tokens[j])
  }

  function NextPath(tokens: seq<string>): (r: Option<string>)
    ensures r.None? ==> forall t | t in tokens :: Skipped(t)
    ensures r.Some? ==> IsNextPath(tokens, r.value)
  {
    if tokens == [] then None
    else if Skipped(tokens[0]) then
      var r := NextPath(tokens[1..]);
      assert r.Some? ==> IsNextPath(tokens, r.value) by {
        if r.Some? {
          var k :| 0 <= k < |tokens[1..]| && tokens[1..][k] == r.value && !Skipped(r.value)
                  && forall j | 0 <= j < k :: Skipped(tokens[1..][j]);
          assert forall j | 0 < j < k + 1 :: Skipped(tokens[j]) by {
            assert forall j | 0 < j < k + 1 :: tokens[j] == tokens[1..][j - 1];
          }
          assert tokens[k + 1] == r.value;
        }
      }
      r
    else Some(tokens[0])
  }

  method NextPathArg(tokens: seq<string>) returns (path: string, found: bool)
    ensures NextPath(tokens) == if found then Some(path) else None
  {
    for i := 0 to |tokens|
      invariant NextPath(tokens) == NextPath(tokens[i..])
    {
      var t := tokens[i];
      if "-" <= t {
        continue;
      }
      if t == "&&" || t == "||" || t == ";" || t == "|" {
        continue;
      }
      return t, true;
    }
    return "", false;
  }

  function Judge(surface: Surface, intent: Intent, path: string): Verdict {
    match intent
    case Reads => surface.read(path)
    case Writes => surface.write(path)
  }

  /** The verdict on token `i` as a command: what the surface says of its next path argument. */
  function VerdictAt(verbs: VerbTable, tokens: seq<string>, i: nat, surface: Surface): Verdict
    requires i < |tokens|
  {
    var path := NextPath(tokens[i + 1..]);
    if Verb(tokens[i]) !in verbs || path.None? || path.value == "" then Allow
    else Judge(surface, verbs[Verb(tokens[i])], path.value)
  }

  predicate AllowsAt(verbs: VerbTable, tokens: seq<string>, i: nat, surface: Surface) {
    i < |tokens| ==> VerdictAt(verbs, tokens, i, surface).Allow?
  }

  ghost predicate DeniesFirstAt(verbs: VerbTable, tokens: seq<string>, i: nat, surface: Surface) {
    !AllowsAt(verbs, tokens, i, surface) && forall j: nat | j < i :: AllowsAt(verbs, tokens, j, surface)
  }

  /** `v` is the verdict of the first denied position, or Allow if there is none. */
  ghost predicate FirstDenial(verbs: VerbTable, tokens: seq<string>, surface: Surface, v: Verdict) {
    match v
    case Allow => forall i: nat :: AllowsAt(verbs, tokens, i, surface)
    case Deny(why) =>
      exists i: nat ::
        DeniesFirstAt(verbs, tokens, i, surface) && why == "Bash: " + VerdictAt(verbs, tokens, i, surface).why
  }

  method InspectBash(command: string, surface: Surface, verbs: VerbTable := BASH_VERBS) returns (v: Verdict)
    ensures FirstDenial(verbs, Tokens(TrimSpace(command)), surface, v)
  {
    var cmd := TrimSpace(command);
    if cmd == "" {
      return Allow;
    }
    var tokens := TokenizeBash(cmd);
    v := InspectTokens(tokens, surface, verbs);
  }

  /** The loop of inspectBash. */
  method InspectTokens(tokens: seq<string>, surface: Surface, verbs: VerbTable) returns (v: Verdict)
    ensures FirstDenial(verbs, tokens, surface, v)
  {
    for i := 0 to |tokens|
      invariant forall j: nat | j < i :: AllowsAt(verbs, tokens, j, surface)
    {
      var verdict := InspectToken(tokens, i, surface, verbs);
      if verdict.Deny? {
        assert DeniesFirstAt(verbs, tokens, i, surface);
        return Deny("Bash: " + verdict.why);
      }
    }
    return Allow;
  }

  /** The body of that loop, a `continue` being an allowing verdict. */
  method InspectToken(tokens: seq<string>, i: nat, surface: Surface, verbs: VerbTable) returns (v: Verdict)
    requires i < |tokens|
    ensures v == VerdictAt(verbs, tokens, i, surface)
  {
    var verb := Verb(tokens[i]);
    if verb !in verbs {
      return Allow;
    }
    var path, found := NextPathArg(tokens[i + 1..]);
    if !found || path == "" {
      return Allow;
    }
    match verbs[verb]
    case Reads => return surface.read(path);
    case Writes => return surface.write(path);
  }

  lemma NextPathUnique(tokens: seq<string>, path: string)
    requires IsNextPath(tokens, path)
    ensures NextPath(tokens) == Some(path)
  {
    var k :| 0 <= k < |tokens| && tokens[k] == path && !Skipped(path) && forall j | 0 <= j < k :: Skipped(tokens[j]);
    assert tokens[k] in tokens;
    var r := NextPath(tokens).value;
    var m :| 0 <= m < |tokens| && tokens[m] == r && !Skipped(r) && forall j | 0 <= j < m :: Skipped(tokens[j]);
    assert m == k;
  }

  /** Token `i` spells a known verb whose next path argument is `path`, and the surface denies
      that path for the verb's intent. */
  ghost predicate DeniedPath(verbs: VerbTable, tokens: seq<string>, surface: Surface, i: nat, path: string) {
    && i < |tokens| && Verb(tokens[i]) in verbs && IsNextPath(tokens[i + 1..], path)
    && Judge(surface, verbs[Verb(tokens[i])], path).Deny?
  }

  lemma DeniedPathDenies(verbs: VerbTable, tokens: seq<string>, surface: Surface, i: nat, path: string)
    requires DeniedPath(verbs, tokens, surface, i, path) && "" !in tokens
    ensures !AllowsAt(verbs, tokens, i, surface)
  {
    NextPathUnique(tokens[i + 1..], path);
    assert path in tokens[i + 1..];
  }

  /** Deny exactly when some token spells a known verb whose next path argument the surface
      denies for that verb's intent: the scanner's guard against an empty path decides nothing. */
  lemma DeniesExactlyDeniedPaths(verbs: VerbTable, text: string, surface: Surface, v: Verdict)
    requires FirstDenial(verbs, Tokens(text), surface, v)
    ensures v.Deny? <==> exists i: nat, path :: DeniedPath(verbs, Tokens(text), surface, i, path)
  {
    var tokens := Tokens(text);
    NoEmptyToken(text);
    if v.Deny? {
      var i: nat :| DeniesFirstAt(verbs, tokens, i, surface);
      assert DeniedPath(verbs, tokens, surface, i, NextPath(tokens[i + 1..]).value);
    } else {
      forall i: nat, path | DeniedPath(verbs, tokens, surface, i, path) ensures false {
        DeniedPathDenies(verbs, tokens, surface, i, path);
      }
    }
  }

  predicate Wider(a: Surface, b: Surface, path: string) {
    (a.read(path).Allow? ==> b.read(path).Allow?) && (a.write(path).Allow? ==> b.write(path).Allow?)
  }

  /** Widening the surface never turns an allowed command into a denied one. */
  lemma WideningKeepsAllowing(verbs: VerbTable, tokens: seq<string>, a: Surface, b: Surface, va: Verdict, vb: Verdict)
    requires FirstDenial(verbs, tokens, a, va) && FirstDenial(verbs, tokens, b, vb)
    requires forall path | path in tokens :: Wider(a, b, path)
    ensures va.Allow? ==> vb.Allow?
  {
    if va.Allow? {
      forall i: nat ensures AllowsAt(verbs, tokens, i, b) {
        if i < |tokens| && NextPath(tokens[i + 1..]).Some? {
          var path := NextPath(tokens[i + 1..]).value;
          assert path in tokens[i + 1..] && path in tokens;
          assert AllowsAt(verbs, tokens, i, a) && Wider(a, b, path);
        }
      }
    }
  }

  lemma VerdictUnique(verbs: VerbTable, tokens: seq<string>, surface: Surface, v: Verdict, w: Verdict)
    requires FirstDenial(verbs, tokens, surface, v) && FirstDenial(verbs, tokens, surface, w)
    ensures v == w
  {
    if v.Deny? && w.Deny? {
      var i: nat :| DeniesFirstAt(verbs, tokens, i, surface)
              && v.why == "Bash: " + VerdictAt(verbs, tokens, i, surface).why;
      var k: nat :| DeniesFirstAt(verbs, tokens, k, surface)
              && w.why == "Bash: " + VerdictAt(verbs, tokens, k, surface).why;
      assert i == k;
    }
  }

  // The white space around a command

  /** The first word does not begin, nor the last one end, with unquoted white space that the
      tokenizer would keep and trimming takes (a line break, say). */
  predicate Firm(words: seq<Word>) {
    words == [] ||
    var first, last := WrittenWord(words[0]), WrittenWord(words[|words| - 1]);
    (first != "" ==> !IsSpace(first[0])) && (last != "" ==> !IsSpace(last[|last| - 1]))
  }

  lemma {:induction false} WrittenIsLonger(w: Word)
    ensures |Meaning(w)| <= |WrittenWord(w)|
  {
    if w != [] {
      WrittenIsLonger(w[..|w| - 1]);
    }
  }

  lemma {:induction false} FirstGap(words: seq<Word>, gaps: seq<string>)
    requires |gaps| == |words| + 1
    ensures Line(words, gaps) == gaps[0] + Line(words, gaps[0 := ""])
  {
    if words != [] {
      var n := |words| - 1;
      FirstGap(words[..n], gaps[..n + 1]);
      assert gaps[0 := ""][..n + 1] == gaps[..n + 1][0 := ""];
      Assoc(gaps[0], Line(words[..n], gaps[..n + 1][0 := ""]), WrittenWord(words[n]));
      Assoc(gaps[0], Line(words[..n], gaps[..n + 1][0 := ""]) + WrittenWord(words[n]), gaps[n + 1]);
    }
  }

  lemma {:induction false} FirstWord(words: seq<Word>, gaps: seq<string>)
    requires |gaps| == |words| + 1 && words != [] && gaps[0] == ""
    ensures WrittenWord(words[0]) <= Line(words, gaps)
  {
    var n := |words| - 1;
    var front := Line(words[..n], gaps[..n + 1]);
    if n == 0 {
      assert front == "" && "" + WrittenWord(words[0]) == WrittenWord(words[0]);
    } else {
      FirstWord(words[..n], gaps[..n + 1]);
    }
    assert front + WrittenWord(words[n]) <= Line(words, gaps);
  }

  lemma LastWord(words: seq<Word>, gaps: seq<string>)
    requires |gaps| == |words| + 1 && words != []
    ensures var n := |words|; var core := Line(words, gaps[n := ""]);
            && Line(words, gaps) == core + gaps[n]
            && |WrittenWord(words[n - 1])| <= |core|
            && core[|core| - |WrittenWord(words[n - 1])|..] == WrittenWord(words[n - 1])
  {
    var n := |words|;
    assert gaps[n := ""][..n] == gaps[..n];
    var front := Line(words[..n - 1], gaps[..n]) + WrittenWord(words[n - 1]);
    assert front + "" == front;
  }

  /** A line's words between blank ends: what is in the middle starts and ends with a word. */
  lemma LineCore(words: seq<Word>, gaps: seq<string>) returns (core: string)
    requires ValidLine(words, gaps) && Firm(words) && words != []
    ensures Line(words, gaps) == gaps[0] + core + gaps[|words|]
    ensures core == Line(words, gaps[0 := ""][|words| := ""]) && core != ""
    ensures !IsSpace(core[0]) && !IsSpace(core[|core| - 1])
  {
    var n := |words|;
    var inner := gaps[0 := ""];
    core := Line(words, inner[n := ""]);
    FirstGap(words, gaps);
    LastWord(words, inner);
    Assoc(gaps[0], core, gaps[n]);
    FirstWord(words, inner[n := ""]);
    WrittenIsLonger(words[0]);
    WrittenIsLonger(words[n - 1]);
    var last := WrittenWord(words[n - 1]);
    assert core[|core| - 1] == core[|core| - |last|..][|last| - 1];
  }

  lemma InnerIsValid(words: seq<Word>, gaps: seq<string>)
    requires ValidLine(words, gaps)
    ensures ValidLine(words, gaps[0 := ""][|words| := ""])
  {
  }

  lemma GapIsSpace(gap: string)
    requires IsGap(gap)
    ensures forall c | c in gap :: IsSpace(c)
  {
  }

  /** Trimming a line takes its outer gaps and nothing else, so its words are still tokenized. */
  lemma TrimmedLine(words: seq<Word>, gaps: seq<string>)
    requires ValidLine(words, gaps) && Firm(words)
    ensures Tokens(TrimSpace(Line(words, gaps))) == Meanings(words)
  {
    GapIsSpace(gaps[0]);
    GapIsSpace(gaps[|words|]);
    if words == [] {
      TrimmedAway(gaps[0], IsSpace);
      assert Meanings(words) == [] == Tokens("");
    } else {
      var core := LineCore(words, gaps);
      TrimAround(gaps[0], core, gaps[|words|], IsSpace);
      InnerIsValid(words, gaps);
      TokenizingUndoesQuoting(words, gaps[0 := ""][|words| := ""]);
    }
  }

  /** Two spellings of the same words get the same verdict, whatever the quotes and the spacing
      around and between them. */
  lemma QuotingDoesNotMatter(
    verbs: VerbTable, surface: Surface,
    words: seq<Word>, gaps: seq<string>, v: Verdict,
    words': seq<Word>, gaps': seq<string>, v': Verdict)
    requires ValidLine(words, gaps) && ValidLine(words', gaps') && Meanings(words) == Meanings(words')
    requires Firm(words) && Firm(words')
    requires FirstDenial(verbs, Tokens(TrimSpace(Line(words, gaps))), surface, v)
    requires FirstDenial(verbs, Tokens(TrimSpace(Line(words', gaps'))), surface, v')
    ensures v == v'
  {
    TrimmedLine(words, gaps);
    TrimmedLine(words', gaps');
    VerdictUnique(verbs, Meanings(words), surface, v, v');
  }
}
