/** The scanner in plain terms: which commands are denied, with the verbs, the flags and the
    operators written out. */
module BashLaws {
  import opened Outcomes
  import opened Text
  import opened Paths
  import opened PathLaws
  import opened BashTokens
  import opened Bash

  // Command names

  /** The token is the name itself, or a path that ends in it. */
  ghost predicate Spells(token: string, name: string) {
    exists pre, slashes :: EndsIn(token, name, pre, slashes)
  }

  lemma UsrBinOnly(rest: string)
    requires OnlySlashes(rest)
    ensures Base("/usr/bin/" + rest) == "bin" && (Base(rest) == "." || Base(rest) == "/")
  {
    var token := "/usr/bin/" + rest;
    assert token == "/usr/" + "bin" + ("/" + rest);
    assert EndsIn(token, "bin", "/usr/", "/" + rest);
    EndsBase(token, "bin", "/usr/", "/" + rest);
    AllTrimmed(rest);
  }

  lemma {:induction false} AllTrimmed(s: string)
    requires OnlySlashes(s)
    ensures TrimRight(s, c => c == '/') == ""
  {
    if s != "" {
      var n := |s| - 1;
      assert s[n] in s && forall c | c in s[..n] :: c in s;
      AllTrimmed(s[..n]);
    }
  }

  lemma SomethingLeft(rest: string)
    requires !OnlySlashes(rest)
    ensures TrimRight(rest, c => c == '/') != ""
  {
    RestIsSlashes(rest);
    var n := |TrimRight(rest, c => c == '/')|;
    assert rest == rest[..n] + rest[n..];
  }

  lemma LastPart(body: string) returns (pre: string, name: string)
    requires body != "" && body[|body| - 1] != '/'
    ensures name == Split(body, '/')[|Split(body, '/')| - 1] && body == pre + name
    ensures name != "" && '/' !in name && (pre == "" || pre[|pre| - 1] == '/')
  {
    pre := LastElement(body);
    name := Split(body, '/')[|Split(body, '/')| - 1];
    assert name in Split(body, '/');
    assert name == "" ==> body == pre;
  }

  /** The last element of a path that is more than slashes, and what is around it. */
  lemma TakenApart(rest: string) returns (pre: string, slashes: string)
    requires !OnlySlashes(rest)
    ensures Base(rest) != "" && '/' !in Base(rest) && EndsIn(rest, Base(rest), pre, slashes)
  {
    var body := TrimRight(rest, c => c == '/');
    slashes := rest[|body|..];
    RestIsSlashes(rest);
    SomethingLeft(rest);
    var name;
    pre, name := LastPart(body);
  }

  lemma EndsInBelow(dir: string, rest: string, name: string, pre: string, slashes: string)
    requires EndsIn(rest, name, pre, slashes) && dir != "" && dir[|dir| - 1] == '/'
    ensures EndsIn(dir + rest, name, dir + pre, slashes)
  {
    assert dir + rest == (dir + pre) + name + slashes;
  }

  /** Dropping /usr/bin/ does not change a path's last element, unless there is nothing else. */
  lemma UsrBinDropped(rest: string)
    requires !OnlySlashes(rest)
    ensures Base("/usr/bin/" + rest) == Base(rest)
  {
    var pre, slashes := TakenApart(rest);
    EndsInBelow("/usr/bin/", rest, Base(rest), pre, slashes);
    EndsBase("/usr/bin/" + rest, Base(rest), "/usr/bin/" + pre, slashes);
  }

  lemma VerbIsBase(token: string, name: string)
    requires name != "" && name != "." && name != "bin" && '/' !in name
    ensures Verb(token) == name <==> Base(token) == name
  {
    if "/usr/bin/" <= token {
      var rest := token[9..];
      assert token == "/usr/bin/" + rest;
      if OnlySlashes(rest) {
        UsrBinOnly(rest);
        assert "/" != name by { assert "/"[0] == '/'; }
      } else {
        UsrBinDropped(rest);
      }
    }
  }

  /** A token stands for a command exactly when it is its name, or a path ending in it. */
  lemma VerbIffSpelled(token: string, name: string)
    requires name != "" && name != "." && name != "bin" && '/' !in name
    ensures Verb(token) == name <==> Spells(token, name)
  {
    VerbIsBase(token, name);
    BaseIff(token, name);
  }

  /** So a command may be given by its name, or in any directory. */
  lemma VerbInAnyDirectory(dir: string, name: string)
    requires name != "" && name != "." && name != "bin" && '/' !in name
    ensures Verb(name) == name && Verb(dir + "/" + name) == name
  {
    BaseOfJoined(dir, name);
    VerbIsBase(name, name);
    VerbIsBase(dir + "/" + name, name);
  }

  // Arguments

  predicate FlagOrOperator(t: string) {
    (t != "" && t[0] == '-') || t == "&&" || t == "||" || t == ";" || t == "|"
  }

  /** Token j is the first after token i that is neither a flag nor a shell operator. */
  predicate Argument(tokens: seq<string>, i: nat, j: nat) {
    i < j < |tokens| && !FlagOrOperator(tokens[j]) && forall k | i < k < j :: FlagOrOperator(tokens[k])
  }

  lemma SkippedMeans(t: string)
    ensures Skipped(t) <==> FlagOrOperator(t)
  {
    assert "-" <= t <==> t != "" && t[0] == '-';
  }

  lemma ArgumentIsNext(tokens: seq<string>, i: nat, j: nat)
    requires Argument(tokens, i, j)
    ensures IsNextPath(tokens[i + 1..], tokens[j])
  {
    var rest := tokens[i + 1..];
    forall k | 0 <= k < |rest| ensures Skipped(rest[k]) <==> FlagOrOperator(tokens[i + 1 + k]) {
      SkippedMeans(rest[k]);
    }
    assert rest[j - i - 1] == tokens[j];
  }

  lemma NextIsArgument(tokens: seq<string>, i: nat, path: string) returns (j: nat)
    requires i < |tokens| && IsNextPath(tokens[i + 1..], path)
    ensures Argument(tokens, i, j) && tokens[j] == path
  {
    var rest := tokens[i + 1..];
    var k :| 0 <= k < |rest| && rest[k] == path && !Skipped(path) && forall m | 0 <= m < k :: Skipped(rest[m]);
    j := i + 1 + k;
    SkippedMeans(path);
    forall m | i < m < j ensures FlagOrOperator(tokens[m]) {
      assert rest[m - i - 1] == tokens[m];
      SkippedMeans(tokens[m]);
    }
  }

  // The shipped table

  predicate ReadsIts(name: string) {
    name in ["cat", "less", "more", "head", "tail", "ls", "stat", "file", "grep", "egrep", "rg", "ack", "find", "fd",
             "awk", "diff", "cd"]
  }

  predicate WritesIts(name: string) {
    name in ["cp", "mv", "rm", "touch", "mkdir", "sed"]
  }

  lemma TableKnows(name: string)
    ensures name in BASH_VERBS <==> ReadsIts(name) || WritesIts(name)
  {
  }

  lemma TableReads(name: string)
    requires name in BASH_VERBS
    ensures BASH_VERBS[name].Reads? <==> ReadsIts(name)
  {
  }

  lemma TableWrites(name: string)
    requires name in BASH_VERBS
    ensures BASH_VERBS[name].Writes? <==> WritesIts(name)
  {
  }

  /** The shipped table is those two lists. */
  lemma TableMeans(name: string)
    ensures name in BASH_VERBS <==> ReadsIts(name) || WritesIts(name)
    ensures name in BASH_VERBS ==> (BASH_VERBS[name].Reads? <==> ReadsIts(name))
    ensures name in BASH_VERBS ==> (BASH_VERBS[name].Writes? <==> WritesIts(name))
  {
    TableKnows(name);
    if name in BASH_VERBS {
      TableReads(name);
      TableWrites(name);
    }
  }

  predicate Letters(name: string) {
    forall c | c in name :: 'a' <= c <= 'z'
  }

  lemma ReadingNames(name: string)
    requires ReadsIts(name)
    ensures Letters(name) && |name| >= 2 && name != "bin"
  {
    if |name| == 2 {
      assert name in ["ls", "rg", "fd", "cd"];
    } else if |name| == 3 {
      assert name in ["cat", "ack", "awk"];
    } else if |name| == 4 {
      assert name in ["less", "more", "head", "tail", "stat", "file", "grep", "find", "diff"];
    } else {
      assert name == "egrep";
    }
  }

  lemma WritingNames(name: string)
    requires WritesIts(name)
    ensures Letters(name) && |name| >= 2 && name != "bin"
  {
    if |name| == 2 {
      assert name in ["cp", "mv", "rm"];
    } else if |name| == 3 {
      assert name == "sed";
    } else {
      assert name in ["touch", "mkdir"];
    }
  }

  lemma TableNamesArePlain(name: string)
    requires ReadsIts(name) || WritesIts(name)
    ensures name != "" && name != "." && name != "bin" && '/' !in name
  {
    if ReadsIts(name) {
      ReadingNames(name);
    } else {
      WritingNames(name);
    }
  }

  /** What the surface says of the argument of a command. */
  function SurfaceSays(surface: Surface, name: string, path: string): Verdict {
    if ReadsIts(name) then surface.read(path) else if WritesIts(name) then surface.write(path) else Allow
  }

  /** Token i stands for the command, token j is its argument, and the surface denies that. */
  ghost predicate DeniedCommand(tokens: seq<string>, surface: Surface, i: nat, j: nat, name: string) {
    Argument(tokens, i, j) && Spells(tokens[i], name) && SurfaceSays(surface, name, tokens[j]).Deny?
  }

  lemma DeniedCommandIsDenied(tokens: seq<string>, surface: Surface, i: nat, j: nat, name: string)
    requires DeniedCommand(tokens, surface, i, j, name)
    ensures DeniedPath(BASH_VERBS, tokens, surface, i, tokens[j])
    ensures Judge(surface, BASH_VERBS[Verb(tokens[i])], tokens[j]) == SurfaceSays(surface, name, tokens[j])
  {
    TableNamesArePlain(name);
    VerbIffSpelled(tokens[i], name);
    TableMeans(name);
    ArgumentIsNext(tokens, i, j);
  }

  lemma DeniedIsDeniedCommand(tokens: seq<string>, surface: Surface, i: nat, path: string) returns (j: nat)
    requires DeniedPath(BASH_VERBS, tokens, surface, i, path)
    ensures DeniedCommand(tokens, surface, i, j, Verb(tokens[i])) && tokens[j] == path
    ensures Judge(surface, BASH_VERBS[Verb(tokens[i])], path) == SurfaceSays(surface, Verb(tokens[i]), path)
  {
    var name := Verb(tokens[i]);
    TableMeans(name);
    TableNamesArePlain(name);
    VerbIffSpelled(tokens[i], name);
    j := NextIsArgument(tokens, i, path);
  }

  /** The scanner's law: a command line is denied exactly when somewhere in it a reading command is
      followed by an argument that may not be read, or a writing one by one that may not be written. */
  lemma DeniesExactlyDeniedCommands(text: string, surface: Surface, v: Verdict)
    requires FirstDenial(BASH_VERBS, Tokens(text), surface, v)
    ensures v.Deny? <==> exists i: nat, j: nat, name :: DeniedCommand(Tokens(text), surface, i, j, name)
  {
    var tokens := Tokens(text);
    DeniesExactlyDeniedPaths(BASH_VERBS, text, surface, v);
    if v.Deny? {
      var i: nat, path :| DeniedPath(BASH_VERBS, tokens, surface, i, path);
      var j := DeniedIsDeniedCommand(tokens, surface, i, path);
    } else {
      forall i: nat, j: nat, name ensures !DeniedCommand(tokens, surface, i, j, name) {
        if DeniedCommand(tokens, surface, i, j, name) {
          DeniedCommandIsDenied(tokens, surface, i, j, name);
          assert false;
        }
      }
    }
  }

  /** And the reason given is the surface's own, for the first such command. */
  lemma ReportsTheFirst(text: string, surface: Surface, v: Verdict) returns (i: nat, j: nat, name: string)
    requires FirstDenial(BASH_VERBS, Tokens(text), surface, v) && v.Deny?
    ensures DeniedCommand(Tokens(text), surface, i, j, name)
    ensures v.why == "Bash: " + SurfaceSays(surface, name, Tokens(text)[j]).why
    ensures forall i': nat, j': nat, name' :: i' < i ==> !DeniedCommand(Tokens(text), surface, i', j', name')
  {
    var tokens := Tokens(text);
    NoEmptyToken(text);
    i :| DeniesFirstAt(BASH_VERBS, tokens, i, surface)
         && v.why == "Bash: " + VerdictAt(BASH_VERBS, tokens, i, surface).why;
    name := Verb(tokens[i]);
    j := DeniedIsDeniedCommand(tokens, surface, i, NextPath(tokens[i + 1..]).value);
    forall i': nat, j': nat, name' | i' < i ensures !DeniedCommand(tokens, surface, i', j', name') {
      if DeniedCommand(tokens, surface, i', j', name') {
        DeniedCommandIsDenied(tokens, surface, i', j', name');
        DeniedPathDenies(BASH_VERBS, tokens, surface, i', tokens[j']);
        assert false;
      }
    }
  }

  // Quotes that are never closed

  /** An open quote takes everything to the end of the line into the current word. */
  lemma OpenQuote(words: seq<Word>, gaps: seq<string>, w: Word, q: char, rest: string)
    requires ValidLine(words, gaps) && (words == [] || gaps[|words|] != "")
    requires ValidWord(w) && IsQuote(q) && q !in rest
    ensures Tokens(Line(words, gaps) + WrittenWord(w) + ([q] + rest))
         == Meanings(words) + if Meaning(w) + rest == "" then [] else [Meaning(w) + rest]
  {
    var line := Line(words, gaps);
    ScanLine(words, gaps);
    ScanConcat(START, line, WrittenWord(w));
    var s0 := Scan(Meanings(words), "", None);
    ScanWord(s0, w);
    assert "" + Meaning(w) == Meaning(w);
    var s1 := s0.(cur := Meaning(w));
    ScanConcat(START, line + WrittenWord(w), [q] + rest);
    ScanConcat(s1, [q], rest);
    ScanOne(s1, q);
    ScanQuoted(s1.(quote := Some(q)), q, rest);
  }
}
