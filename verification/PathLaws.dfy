/** What Clean, Base, Resolve and HasDots mean, independently of how they go about it. */
module PathLaws {
  import opened Text
  import opened Paths

  /** A rooted path is cleaned step by step: empty and "." elements change nothing, a plain element
      goes one level down, ".." one level up, and not above the root. */
  lemma CleanSteps(path: string, name: string)
    requires IsAbs(path) && Plain(name)
    ensures Clean("/") == "/" && Clean("/..") == "/"
    ensures Clean(path + "/") == Clean(path) == Clean(path + "/.")
    ensures Clean(path + "/" + name) == (if Clean(path) == "/" then "/" else Clean(path) + "/") + name
    ensures Clean(path + "/" + name + "/..") == Clean(path)
  {
    RootOnly();
    CleanTrailingSlash(path);
    DotStep(path);
    PlainStep(path, name);
    UpStep(path, name);
  }

  lemma RootOnly()
    ensures Clean("/") == "/" && Clean("/..") == "/"
  {
    assert "/" == "" + "/" + "";
    SplitConcat("", "");
    assert Split("", '/') == [""];
    assert ["", ""][..1] == [""] && [""][..0] == [];
    assert CleanAll(["", ""], true) == [];
    assert "/.." == "" + "/" + "..";
    SplitConcat("", "..");
    SingleSplits("..");
    assert ["", ".."][..1] == [""];
    assert CleanAll(["", ".."], true) == [];
  }

  lemma SingleSplits(part: string)
    requires '/' !in part
    ensures Split(part, '/') == [part]
  {
    SplitOfJoin([part], '/');
  }

  lemma StepOf(path: string, part: string)
    requires IsAbs(path) && '/' !in part
    ensures IsAbs(path + "/" + part)
    ensures Clean(path) == "/" + Join(RootedStack(path), '/')
    ensures Clean(path + "/" + part) == "/" + Join(CleanOne(RootedStack(path), part, true), '/')
    ensures RootedStack(path + "/" + part) == CleanOne(RootedStack(path), part, true)
    ensures forall p | p in RootedStack(path) :: Plain(p)
  {
    SplitConcat(path, part);
    SingleSplits(part);
    assert (Split(path, '/') + [part])[..|Split(path, '/')|] == Split(path, '/');
    CleanRooted(path);
    CleanRooted(path + "/" + part);
  }

  lemma DotStep(path: string)
    requires IsAbs(path)
    ensures Clean(path + "/.") == Clean(path)
  {
    StepOf(path, ".");
    assert path + "/." == path + "/" + ".";
  }

  lemma PlainStep(path: string, name: string)
    requires IsAbs(path) && Plain(name)
    ensures Clean(path + "/" + name) == (if Clean(path) == "/" then "/" else Clean(path) + "/") + name
  {
    StepOf(path, name);
    var stack := RootedStack(path);
    if stack != [] {
      assert stack[0] in stack;
      JoinHead(stack);
      JoinSnoc(stack, name, '/');
    }
  }

  lemma UpStep(path: string, name: string)
    requires IsAbs(path) && Plain(name)
    ensures Clean(path + "/" + name + "/..") == Clean(path)
  {
    var down := path + "/" + name;
    StepOf(path, name);
    StepOf(down, "..");
    assert down + "/" + ".." == path + "/" + name + "/..";
    assert (RootedStack(path) + [name])[..|RootedStack(path)|] == RootedStack(path);
  }

  /** An absolute path is found where it says, a relative one below the working directory. */
  lemma ResolveStarts(cwd: string, path: string)
    ensures path != "" && path[0] == '/' ==> Resolve(cwd, path) == Clean(path)
    ensures path == "" || path[0] != '/' ==> Resolve(cwd, path) == Clean(cwd + "/" + path)
  {
  }

  lemma DotsAreDots(a: string, b: string)
    ensures HasDots(a + ".." + b)
  {
    var s := a + ".." + b;
    assert s[|a|] == '.' && s[|a| + 1] == '.';
  }

  predicate DotsAt(s: string, i: nat) {
    i + 2 <= |s| && s[i..i + 2] == ".."
  }

  lemma DotsMean(s: string)
    ensures HasDots(s) <==> exists i: nat :: DotsAt(s, i)
  {
    if HasDots(s) {
      var i :| 0 <= i < |s| - 1 && s[i] == '.' && s[i + 1] == '.';
      assert s[i..i + 2] == [s[i], s[i + 1]];
      assert DotsAt(s, i);
    } else {
      forall i: nat ensures !DotsAt(s, i) {
        if i + 2 <= |s| {
          assert s[i..i + 2] == [s[i], s[i + 1]];
        }
      }
    }
  }

  // The last element

  predicate OnlySlashes(s: string) {
    forall c | c in s :: c == '/'
  }

  /** A text that ends, slashes aside, in the element `name`. */
  ghost predicate EndsIn(text: string, name: string, pre: string, slashes: string) {
    text == pre + name + slashes && (pre == "" || pre[|pre| - 1] == '/') && OnlySlashes(slashes)
  }

  /** Base is the last element: it is `name` exactly when the text ends in it. */
  lemma BaseIff(text: string, name: string)
    requires name != "" && name != "." && '/' !in name
    ensures Base(text) == name <==> exists pre, slashes :: EndsIn(text, name, pre, slashes)
  {
    if Base(text) == name {
      BaseEnds(text, name);
    } else if exists pre, slashes :: EndsIn(text, name, pre, slashes) {
      var pre, slashes :| EndsIn(text, name, pre, slashes);
      EndsBase(text, name, pre, slashes);
      assert false;
    }
  }

  lemma TrimSlashes(body: string, slashes: string)
    requires body != "" && body[|body| - 1] != '/' && OnlySlashes(slashes)
    ensures TrimRight(body + slashes, c => c == '/') == body
  {
    TrimRightPast(body, slashes, c => c == '/');
  }

  lemma {:induction false} EndsBase(text: string, name: string, pre: string, slashes: string)
    requires name != "" && '/' !in name && EndsIn(text, name, pre, slashes)
    ensures Base(text) == name
  {
    var body := pre + name;
    assert body[|body| - 1] == name[|name| - 1] && name[|name| - 1] in name;
    TrimSlashes(body, slashes);
    SingleSplits(name);
    if pre == "" {
      assert body == name;
    } else {
      var dir := pre[..|pre| - 1];
      assert body == dir + "/" + name;
      SplitConcat(dir, name);
    }
  }

  lemma RestIsSlashes(text: string)
    ensures var body := TrimRight(text, c => c == '/'); text == body + text[|body|..] && OnlySlashes(text[|body|..])
  {
    var body := TrimRight(text, c => c == '/');
    forall c | c in text[|body|..] ensures c == '/' {
      var i :| 0 <= i < |text[|body|..]| && text[|body|..][i] == c;
      assert text[|body| + i] == c;
    }
  }

  /** What comes before the last element. */
  lemma LastElement(body: string) returns (pre: string)
    ensures var parts := Split(body, '/'); body == pre + parts[|parts| - 1]
    ensures pre == "" || pre[|pre| - 1] == '/'
  {
    var parts := Split(body, '/');
    var n := |parts| - 1;
    if n == 0 {
      pre := "";
    } else {
      JoinSnoc(parts[..n], parts[n], '/');
      assert parts == parts[..n] + [parts[n]];
      pre := Join(parts[..n], '/') + "/";
    }
  }

  lemma BaseEnds(text: string, name: string)
    requires name != "" && name != "." && '/' !in name && Base(text) == name
    ensures exists pre, slashes :: EndsIn(text, name, pre, slashes)
  {
    var body := TrimRight(text, c => c == '/');
    RestIsSlashes(text);
    assert body != "";
    var pre := LastElement(body);
    assert EndsIn(text, name, pre, text[|body|..]);
  }

  /** In particular: alone, or after any directory. */
  lemma BaseOfJoined(dir: string, name: string)
    requires name != "" && '/' !in name
    ensures Base(name) == name && Base(dir + "/" + name) == name
  {
    assert EndsIn(name, name, "", "");
    EndsBase(name, name, "", "");
    var pre := dir + "/";
    assert dir + "/" + name == pre + name + "";
    EndsBase(dir + "/" + name, name, pre, "");
  }
}
