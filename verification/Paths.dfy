/** The lexical parts of Go's path/filepath on slash-separated paths. */
module Paths {
  import opened Text

  function Drop(stack: seq<string>): seq<string>
    requires stack != []
  {
    stack[..|stack| - 1]
  }

  /** One path element processed by Clean, `stack` holding the output so far. */
  function CleanOne(stack: seq<string>, part: string, rooted: bool): seq<string> {
    if part == "" || part == "." then stack
    else if part != ".." then stack + [part]
    else if stack != [] && stack[|stack| - 1] != ".." then Drop(stack)
    else if rooted then stack
    else stack + [".."]
  }

  function CleanAll(parts: seq<string>, rooted: bool): seq<string> {
    if parts == [] then [] else
      CleanOne(CleanAll(parts[..|parts| - 1], rooted), parts[|parts| - 1], rooted)
  }

  predicate IsAbs(path: string) {
    path != "" && path[0] == '/'
  }

  /** filepath.Clean. */
  function Clean(path: string): string {
    var stack := CleanAll(Split(path, '/'), IsAbs(path));
    if IsAbs(path) then "/" + Join(stack, '/')
    else if stack == [] then "."
    else Join(stack, '/')
  }

  /** filepath.Base: the last element, trailing slashes aside. */
  function Base(path: string): string {
    if path == "" then "." else
      var trimmed := TrimRight(path, c => c == '/');
      if trimmed == "" then "/" else
        var parts := Split(trimmed, '/');
        parts[|parts| - 1]
  }

  /** strings.Contains(s, ".."). */
  predicate HasDots(s: string) {
    exists i :: 0 <= i < |s| - 1 && s[i] == '.' && s[i + 1] == '.'
  }

  /** An element Clean leaves alone. */
  predicate Plain(part: string) {
    part != "" && part != "." && part != ".." && '/' !in part
  }

  /** Every directory a path lies in. */
  function Ancestors(path: string): set<string> {
    set i | 0 < i < |path| && path[i] == '/' :: path[..i]
  }

  lemma {:induction false} CleanAllPlain(parts: seq<string>, rooted: bool)
    requires forall p | p in parts :: Plain(p)
    ensures CleanAll(parts, rooted) == parts
  {
    if parts != [] {
      var n := |parts| - 1;
      CleanAllPlain(parts[..n], rooted);
      assert parts[n] in parts && parts == parts[..n] + [parts[n]];
    }
  }

  lemma JoinHead(parts: seq<string>)
    requires parts != [] && parts[0] != ""
    ensures Join(parts, '/') != "" && Join(parts, '/')[0] == parts[0][0]
  {
  }

  /** Clean leaves alone a relative path made of plain elements. */
  lemma CleanFixesPlainPaths(parts: seq<string>)
    requires parts != [] && forall p | p in parts :: Plain(p)
    ensures Clean(Join(parts, '/')) == Join(parts, '/')
  {
    var path := Join(parts, '/');
    assert Plain(parts[0]);
    JoinHead(parts);
    assert !IsAbs(path) by { assert parts[0][0] in parts[0]; }
    SplitOfJoin(parts, '/');
    CleanAllPlain(parts, false);
  }

  lemma CleanFixesPlain(part: string)
    requires Plain(part)
    ensures Clean(part) == part
  {
    CleanFixesPlainPaths([part]);
  }

  lemma {:induction false} JoinKeepsDots(parts: seq<string>)
    requires ".." in parts
    ensures HasDots(Join(parts, '/'))
  {
    var whole := Join(parts, '/');
    if parts[0] == ".." {
      assert whole[0] == '.' && whole[1] == '.';
    } else {
      var rest := Join(parts[1..], '/');
      JoinKeepsDots(parts[1..]);
      var i :| 0 <= i < |rest| - 1 && rest[i] == '.' && rest[i + 1] == '.';
      var off := |parts[0]| + 1;
      assert whole[off..] == rest;
      assert whole[off + i] == rest[i] && whole[off + i + 1] == rest[i + 1];
    }
  }

  lemma {:induction false} CleanAllParts(parts: seq<string>, rooted: bool)
    requires forall p | p in parts :: '/' !in p
    ensures forall p | p in CleanAll(parts, rooted) :: Plain(p) || p == ".."
  {
    if parts != [] {
      CleanAllParts(parts[..|parts| - 1], rooted);
    }
  }

  /** A cleaned relative path without ".." is made of plain elements, so cleaning it again
      changes nothing. */
  lemma CleanTwice(path: string)
    requires !HasDots(Clean(path)) && !IsAbs(path)
    ensures Clean(Clean(path)) == Clean(path)
  {
    var stack := CleanAll(Split(path, '/'), false);
    CleanAllParts(Split(path, '/'), false);
    if stack == [] {
      assert Split(".", '/') == ["."] && CleanAll(["."][..0], false) == [];
    } else {
      if ".." in stack {
        JoinKeepsDots(stack);
        assert false;
      }
      CleanFixesPlainPaths(stack);
    }
  }

  lemma SplitTrailingSlash(path: string)
    ensures Split(path + "/", '/') == Split(path, '/') + [""]
  {
    var parts := Split(path, '/');
    JoinSnoc(parts, "", '/');
    assert path + "/" == path + ['/'] + "";
    SplitOfJoin(parts + [""], '/');
  }

  lemma CleanAllEmptyLast(parts: seq<string>, rooted: bool)
    ensures CleanAll(parts + [""], rooted) == CleanAll(parts, rooted)
  {
    assert (parts + [""])[..|parts|] == parts;
  }

  /** The trailing slash of a directory entry is cleaned away. */
  lemma CleanTrailingSlash(path: string)
    requires path != ""
    ensures Clean(path + "/") == Clean(path)
  {
    SplitTrailingSlash(path);
    CleanAllEmptyLast(Split(path, '/'), IsAbs(path));
    assert (path + "/")[0] == path[0];
  }

  // Joining and resolving

  /** filepath.Join of two elements. */
  function JoinPath(dir: string, name: string): string {
    if dir == "" then (if name == "" then "" else Clean(name))
    else if name == "" then Clean(dir)
    else Clean(dir + "/" + name)
  }

  /** Where the system looks for a path: relative ones start at the working directory. */
  function Resolve(cwd: string, path: string): string {
    if IsAbs(path) then Clean(path) else Clean(cwd + "/" + path)
  }

  /** What every path below a cleaned absolute directory begins with. */
  function Slashed(dir: string): string {
    if dir == "/" then "/" else dir + "/"
  }

  /** Cleaning continued from a stack. */
  function CleanOnto(stack: seq<string>, parts: seq<string>): seq<string> {
    if parts == [] then stack else CleanOne(CleanOnto(stack, parts[..|parts| - 1]), parts[|parts| - 1], true)
  }

  lemma {:induction false} CleanAllIsOnto(parts: seq<string>)
    ensures CleanAll(parts, true) == CleanOnto([], parts)
  {
    if parts != [] {
      CleanAllIsOnto(parts[..|parts| - 1]);
    }
  }

  lemma {:induction false} CleanOntoConcat(stack: seq<string>, a: seq<string>, b: seq<string>)
    ensures CleanOnto(stack, a + b) == CleanOnto(CleanOnto(stack, a), b)
  {
    if b == [] {
      assert a + b == a;
    } else {
      var n := |b| - 1;
      assert (a + b)[..|a| + n] == a + b[..n] && (a + b)[|a| + n] == b[n];
      CleanOntoConcat(stack, a, b[..n]);
    }
  }

  lemma {:induction false} CleanOntoPlain(stack: seq<string>, parts: seq<string>)
    requires forall p | p in parts :: Plain(p)
    ensures CleanOnto(stack, parts) == stack + parts
  {
    if parts != [] {
      var n := |parts| - 1;
      CleanOntoPlain(stack, parts[..n]);
      assert parts[n] in parts && stack + parts == (stack + parts[..n]) + [parts[n]];
    }
  }

  lemma {:induction false} CleanAllConcatPlain(a: seq<string>, b: seq<string>, rooted: bool)
    requires forall p | p in b :: Plain(p)
    ensures CleanAll(a + b, rooted) == CleanAll(a, rooted) + b
  {
    if b == [] {
      assert a + b == a;
    } else {
      var n := |b| - 1;
      assert (a + b)[..|a| + n] == a + b[..n] && (a + b)[|a| + n] == b[n] && b[n] in b;
      CleanAllConcatPlain(a, b[..n], rooted);
    }
  }

  /** Cleaning a relative path first makes no difference below a rooted one. */
  lemma {:induction false} CleanOntoCleaned(stack: seq<string>, parts: seq<string>)
    requires forall p | p in parts :: '/' !in p
    ensures CleanOnto(stack, CleanAll(parts, false)) == CleanOnto(stack, parts)
  {
    if parts != [] {
      var n := |parts| - 1;
      var front := CleanAll(parts[..n], false);
      CleanOntoCleaned(stack, parts[..n]);
      CleanAllParts(parts[..n], false);
      CleanOntoOne(stack, front, parts[n]);
    }
  }

  lemma CleanOntoOne(stack: seq<string>, front: seq<string>, part: string)
    requires forall p | p in front :: Plain(p) || p == ".."
    ensures CleanOnto(stack, CleanOne(front, part, false)) == CleanOne(CleanOnto(stack, front), part, true)
  {
    if part == ".." && front != [] && front[|front| - 1] != ".." {
      assert front[|front| - 1] in front;
    } else if part != "" && part != "." {
      assert (front + [part])[..|front|] == front;
    }
  }

  lemma {:induction false} SplitConcat(a: string, b: string)
    ensures Split(a + "/" + b, '/') == Split(a, '/') + Split(b, '/')
  {
    JoinConcat(Split(a, '/'), Split(b, '/'));
    assert a + "/" + b == a + ['/'] + b;
    SplitOfJoin(Split(a, '/') + Split(b, '/'), '/');
  }

  lemma {:induction false} JoinConcat(a: seq<string>, b: seq<string>)
    requires a != [] && b != []
    ensures Join(a + b, '/') == Join(a, '/') + ['/'] + Join(b, '/')
  {
    if |a| == 1 {
      assert (a + b)[1..] == b;
    } else {
      assert (a + b)[1..] == a[1..] + b;
      JoinConcat(a[1..], b);
    }
  }

  /** A rooted path written from its stack, and one with more plain elements below it. */
  lemma SlashedJoin(stack: seq<string>, rel: seq<string>)
    requires rel != [] && (forall p | p in stack :: Plain(p))
    ensures "/" + Join(stack + rel, '/') == Slashed("/" + Join(stack, '/')) + Join(rel, '/')
  {
    if stack == [] {
      assert stack + rel == rel;
    } else {
      assert stack[0] in stack;
      JoinHead(stack);
      JoinConcat(stack, rel);
    }
  }

  lemma {:induction false} RootedStackIsPlain(parts: seq<string>)
    requires forall p | p in parts :: '/' !in p
    ensures forall p | p in CleanAll(parts, true) :: Plain(p)
  {
    if parts != [] {
      RootedStackIsPlain(parts[..|parts| - 1]);
    }
  }

  /** The elements of a rooted path once cleaned. */
  function RootedStack(path: string): seq<string> {
    CleanAll(Split(path, '/'), true)
  }

  lemma CleanRooted(path: string)
    requires IsAbs(path)
    ensures Clean(path) == "/" + Join(RootedStack(path), '/') && IsAbs(Clean(path))
    ensures forall p | p in RootedStack(path) :: Plain(p)
  {
    RootedStackIsPlain(Split(path, '/'));
  }

  /** The stack of a path below the working directory continues the directory's. */
  lemma StackBelow(cwd: string, rel: string)
    ensures RootedStack(cwd + "/" + rel) == CleanOnto(RootedStack(cwd), Split(rel, '/'))
  {
    SplitConcat(cwd, rel);
    CleanAllIsOnto(Split(cwd, '/'));
    CleanAllIsOnto(Split(cwd + "/" + rel, '/'));
    CleanOntoConcat([], Split(cwd, '/'), Split(rel, '/'));
  }

  lemma StackOfJoined(stack: seq<string>)
    requires forall p | p in stack :: Plain(p)
    ensures RootedStack("/" + Join(stack, '/')) == stack
  {
    var path := "/" + Join(stack, '/');
    assert path == "" + "/" + Join(stack, '/');
    SplitConcat("", Join(stack, '/'));
    assert Split("", '/') == [""];
    var parts := Split(Join(stack, '/'), '/');
    CleanAllIsOnto([""] + parts);
    CleanOntoConcat([], [""], parts);
    assert [""][..0] == [] && CleanOnto([], [""]) == [];
    if stack == [] {
      assert parts == [""];
    } else {
      assert forall p | p in stack :: '/' !in p;
      SplitOfJoin(stack, '/');
      CleanOntoPlain([], stack);
    }
  }

  /** Joining a directory, however it is written, with a clean name and resolving the result is
      the resolved directory with the name below it. */
  lemma ResolveJoined(cwd: string, dir: string, name: string)
    requires IsAbs(cwd) && dir != "" && name != ""
    requires forall p | p in Split(name, '/') :: Plain(p)
    ensures Resolve(cwd, JoinPath(dir, name)) == Slashed(Resolve(cwd, dir)) + name
  {
    if IsAbs(dir) {
      ResolveJoinedRooted(cwd, dir, name);
    } else {
      ResolveJoinedRelative(cwd, dir, name);
    }
  }

  lemma ResolveJoinedRooted(cwd: string, dir: string, name: string)
    requires IsAbs(dir) && name != "" && forall p | p in Split(name, '/') :: Plain(p)
    ensures Resolve(cwd, JoinPath(dir, name)) == Slashed(Clean(dir)) + name
  {
    var stack := RootedStack(dir) + Split(name, '/');
    SplitConcat(dir, name);
    CleanAllConcatPlain(Split(dir, '/'), Split(name, '/'), true);
    CleanRooted(dir);
    CleanRooted(dir + "/" + name);
    assert JoinPath(dir, name) == "/" + Join(stack, '/');
    StackOfJoined(stack);
    RootedBelow(dir, JoinPath(dir, name), name);
  }

  lemma PlainNotEmpty(stack: seq<string>)
    requires forall p | p in stack :: Plain(p) || p == ".."
    ensures forall p | p in stack :: p != "" && '/' !in p
  {
  }

  lemma RelativeIsJoin(dir: string, name: string)
    requires !IsAbs(dir) && dir != "" && name != "" && forall p | p in Split(name, '/') :: Plain(p)
    ensures JoinPath(dir, name) == Join(CleanAll(Split(dir, '/'), false) + Split(name, '/'), '/')
  {
    SplitConcat(dir, name);
    CleanAllConcatPlain(Split(dir, '/'), Split(name, '/'), false);
    assert (dir + "/" + name)[0] == dir[0];
  }

  /** A path written from elements that are not empty is taken apart into them. */
  lemma JoinedTakenApart(stack: seq<string>)
    requires stack != [] && forall p | p in stack :: p != "" && '/' !in p
    ensures !IsAbs(Join(stack, '/')) && Split(Join(stack, '/'), '/') == stack
  {
    assert stack[0] in stack;
    JoinHead(stack);
    assert stack[0][0] in stack[0];
    SplitOfJoin(stack, '/');
  }

  /** A relative directory joined with a clean name, taken apart again. */
  lemma JoinedRelative(dir: string, name: string)
    requires !IsAbs(dir) && dir != "" && name != "" && forall p | p in Split(name, '/') :: Plain(p)
    ensures var joined := JoinPath(dir, name);
            !IsAbs(joined) && Split(joined, '/') == CleanAll(Split(dir, '/'), false) + Split(name, '/')
  {
    var stack := CleanAll(Split(dir, '/'), false) + Split(name, '/');
    RelativeIsJoin(dir, name);
    CleanAllParts(Split(dir, '/'), false);
    PlainNotEmpty(stack);
    JoinedTakenApart(stack);
  }

  lemma StackBelowJoined(cwd: string, dir: string, joined: string, parts: seq<string>)
    requires Split(joined, '/') == CleanAll(Split(dir, '/'), false) + parts && forall p | p in parts :: Plain(p)
    ensures RootedStack(cwd + "/" + joined) == RootedStack(cwd + "/" + dir) + parts
  {
    var front := CleanAll(Split(dir, '/'), false);
    StackBelow(cwd, joined);
    CleanOntoConcat(RootedStack(cwd), front, parts);
    CleanOntoCleaned(RootedStack(cwd), Split(dir, '/'));
    StackBelow(cwd, dir);
    CleanOntoPlain(RootedStack(cwd + "/" + dir), parts);
  }

  lemma ResolveJoinedRelative(cwd: string, dir: string, name: string)
    requires IsAbs(cwd) && !IsAbs(dir) && dir != "" && name != "" && forall p | p in Split(name, '/') :: Plain(p)
    ensures Resolve(cwd, JoinPath(dir, name)) == Slashed(Resolve(cwd, dir)) + name
  {
    var joined := JoinPath(dir, name);
    JoinedRelative(dir, name);
    StackBelowJoined(cwd, dir, joined, Split(name, '/'));
    RootedBelow(cwd + "/" + dir, cwd + "/" + joined, name);
  }

  /** A rooted path whose stack is another's with a name below it. */
  lemma RootedBelow(dir: string, path: string, name: string)
    requires IsAbs(dir) && IsAbs(path) && RootedStack(path) == RootedStack(dir) + Split(name, '/')
    ensures Clean(path) == Slashed(Clean(dir)) + name
  {
    CleanRooted(dir);
    CleanRooted(path);
    SlashedJoin(RootedStack(dir), Split(name, '/'));
  }

  /** A cleaned relative path without "..", other than ".", is made of plain elements. */
  lemma CleanedPartsArePlain(path: string)
    requires !IsAbs(path) && !HasDots(Clean(path)) && Clean(path) != "."
    ensures forall p | p in Split(Clean(path), '/') :: Plain(p)
  {
    var stack := CleanAll(Split(path, '/'), false);
    CleanAllParts(Split(path, '/'), false);
    if ".." in stack {
      JoinKeepsDots(stack);
      assert false;
    }
    SplitOfJoin(stack, '/');
  }

  /** The directories above a path below dir: those above dir, dir itself, and those of the rest. */
  lemma AncestorsOfJoined(dir: string, rel: string, a: string)
    requires dir != "" && !IsAbs(rel) && a in Ancestors(Slashed(dir) + rel)
    ensures a in Ancestors(dir) || a == dir || (Slashed(dir) < a && a[|Slashed(dir)|..] in Ancestors(rel))
  {
    var home := Slashed(dir);
    var path := home + rel;
    var i :| 0 < i < |path| && path[i] == '/' && a == path[..i];
    if i < |dir| {
      assert dir[i] == '/' && a == dir[..i];
    } else if i < |home| {
      assert a == dir;
    } else {
      var j := i - |home|;
      assert rel[j] == '/' && a == home + rel[..j] && a[|home|..] == rel[..j];
    }
  }
}
