/** Path normalisation (src/fs/path.cxx): an in-place string algorithm, and the component stack it refines. */
module Paths {
  import opened StdString

  // ---------- The reference: a stack of components ----------

  /** The pieces between slashes; always at least one. */
  function Components(path: string): (cs: seq<string>)
    ensures |cs| >= 1
    ensures forall c | c in cs :: '/' !in c
  {
    if path == "" then [""]
    else
      var rest := Components(path[1..]);
      if path[0] == '/' then [""] + rest else [[path[0]] + rest[0]] + rest[1..]
  }

  function Push(stack: seq<string>, c: string): seq<string> {
    if c == "" || c == "." then stack
    else if c == ".." then if stack == [] then [] else stack[..|stack| - 1]
    else stack + [c]
  }

  function Resolve(stack: seq<string>, cs: seq<string>): seq<string>
    decreases |cs|
  {
    if cs == [] then stack else Resolve(Push(stack, cs[0]), cs[1..])
  }

  predicate GoodName(c: string) {
    c != "" && c != "." && c != ".." && '/' !in c
  }

  predicate Good(stack: seq<string>) {
    forall c | c in stack :: GoodName(c)
  }

  /** Every component with a slash before it. */
  function Render(stack: seq<string>): string {
    if stack == [] then "" else Render(stack[..|stack| - 1]) + "/" + stack[|stack| - 1]
  }

  /** The absolute path that a stack stands for. */
  function Absolute(stack: seq<string>): string {
    if stack == [] then "/" else Render(stack)
  }

  predicate IsAbsolute(path: string) {
    path != "" && path[0] == '/'
  }

  /** A working directory as getcwd() reports it. */
  predicate Canonical(cwd: string) {
    cwd == Absolute(Resolve([], Components(cwd)))
  }

  /** The components of `path`, seen from `cwd`. */
  function StackOf(path: string, cwd: string): seq<string> {
    Resolve(if IsAbsolute(path) then [] else Resolve([], Components(cwd)), Components(path))
  }

  /** Does the working directory come in as a lone slash? */
  predicate RootCwd(path: string, cwd: string) {
    !IsAbsolute(path) && cwd == "/"
  }

  /** What normalize_path() returns: the stack's path, but with a second slash in front if a relative path is taken from
      the root directory and something is left of it. */
  function Normal(path: string, cwd: string): string {
    if path == "" then ""
    else (if RootCwd(path, cwd) && StackOf(path, cwd) != [] then "/" else "") + Absolute(StackOf(path, cwd))
  }

  // ---------- The algorithm ----------

  method NormalizePath(path: string, cwd: string) returns (ret: string)
    requires |path| < NPOS && Canonical(cwd)
    ensures ret == Normal(path, cwd)
  {
    ret := "";
    var slashes: nat := 0;
    var start: nat := 0;
    var end := Find(path, "/", 0);
    ghost var stack := BaseStack(path, cwd);
    BaseRendered(path, cwd);
    assert path[0..] == path;
    while start < |path|
      invariant start <= |path| || (start == NPOS && path != "")
      invariant start <= |path| ==> end == Find(path, "/", start)
      invariant Progress(path, cwd, start, stack, ret, slashes)
      decreases start < |path|, |path| - start
    {
      var component := Substr(path, start, end - start);
      RoundKeeps(path, cwd, start, stack, ret, slashes, end);
      ret, slashes := TakeComponent(component, cwd, ret, slashes);
      stack := Push(stack, component);
      start := if end != NPOS then end + 1 else end;
      end := Find(path, "/", start);
    }
    if path != "" {
      Finished(path, cwd, start, stack, ret, slashes);
    }
    if slashes > 0 && ret == "" {
      ret := ret + "/";
    }
  }

  /** The body of the loop, for one component. */
  method TakeComponent(component: string, cwd: string, oldRet: string, oldSlashes: nat) returns (ret: string, slashes: nat)
    requires (oldRet != "" ==> oldRet[0] == '/') && (cwd != "" ==> cwd[0] == '/')
    ensures (ret, slashes) == Round(oldRet, oldSlashes, component, cwd)
  {
    ret, slashes := oldRet, oldSlashes;
    if |component| > 0 {
      if slashes == 0 && ret == "" {
        ret := ret + cwd;
      }
      if component == ".." {
        if |ret| > 1 {
          ret := ret[..RFind(ret, '/')];
        }
        slashes := slashes + 1;
      } else if component == "." {
        slashes := slashes + 1;
      } else {
        ret := ret + "/";
        ret := ret + component;
      }
    } else {
      slashes := slashes + 1;
    }
  }

  /** Cut the string at its last slash. */
  function Chopped(ret: string): string {
    if '/' in ret then ret[..RFind(ret, '/')] else ret
  }

  /** One round of the loop. */
  function Round(ret: string, slashes: nat, c: string, cwd: string): (string, nat) {
    var full := if slashes == 0 && ret == "" then ret + cwd else ret;
    if c == "" then (ret, slashes + 1)
    else if c == ".." then (if |full| > 1 then Chopped(full) else full, slashes + 1)
    else if c == "." then (full, slashes + 1)
    else (full + "/" + c, slashes)
  }

  /** What the loop keeps: the string is the rendered stack, and the components behind `start` are still to come. */
  ghost predicate Progress(path: string, cwd: string, start: nat, stack: seq<string>, ret: string, slashes: nat) {
    && Good(stack)
    && (if start == 0 then ret == "" && slashes == 0 && stack == BaseStack(path, cwd)
        else ret == Lead(path, cwd) + Render(stack) && (ret == "" || IsAbsolute(path) ==> slashes > 0))
    && (ret != "" ==> ret[0] == '/')
    && StackOf(path, cwd) == Resolve(stack, Remaining(path, start))
  }

  lemma RoundKeeps(path: string, cwd: string, start: nat, stack: seq<string>, ret: string, slashes: nat, end: nat)
    requires |path| < NPOS && Canonical(cwd) && start < |path| && end == Find(path, "/", start)
    requires Progress(path, cwd, start, stack, ret, slashes)
    ensures var c := Substr(path, start, end - start);
            var (next, more) := Round(ret, slashes, c, cwd);
            Progress(path, cwd, if end != NPOS then end + 1 else end, Push(stack, c), next, more)
  {
    var c, further := Substr(path, start, end - start), if end != NPOS then end + 1 else end;
    NextComponent(path, start, end);
    assert Resolve(stack, Remaining(path, start)) == Resolve(Push(stack, c), Remaining(path, further));
    if c == "" {
      assert start == 0 ==> IsAbsolute(path);
    } else {
      FullRendered(path, cwd, start, stack, ret, slashes);
      RoundRenders(Lead(path, cwd), stack, c, if slashes == 0 && ret == "" then ret + cwd else ret);
    }
  }

  /** The string that the component is applied to. */
  lemma FullRendered(path: string, cwd: string, start: nat, stack: seq<string>, ret: string, slashes: nat)
    requires Canonical(cwd) && start < |path| && Progress(path, cwd, start, stack, ret, slashes)
    requires start == 0 ==> !IsAbsolute(path)
    ensures (if slashes == 0 && ret == "" then ret + cwd else ret) == Lead(path, cwd) + Render(stack)
    ensures cwd != "" && cwd[0] == '/'
  {
    BaseRendered(path, cwd);
  }

  lemma RoundRenders(lead: string, stack: seq<string>, c: string, full: string)
    requires Good(stack) && '/' !in c && (lead == "" || lead == "/") && full == lead + Render(stack)
    ensures Good(Push(stack, c))
    ensures lead + Render(Push(stack, c)) ==
              if c == ".." then if |full| > 1 then Chopped(full) else full
              else if c == "" || c == "." then full else full + "/" + c
    ensures lead + Render(Push(stack, c)) != "" ==> (lead + Render(Push(stack, c)))[0] == '/'
  {
    LeadingSlash(lead, Push(stack, c));
    if c == ".." {
      PopRenders(lead, stack, full);
    } else if GoodName(c) {
      NameRenders(lead, stack, c);
    }
  }

  lemma LeadingSlash(lead: string, stack: seq<string>)
    requires lead == "" || lead == "/"
    ensures lead + Render(stack) != "" ==> (lead + Render(stack))[0] == '/'
  {
    RenderStart(stack);
  }

  lemma PopRenders(lead: string, stack: seq<string>, full: string)
    requires Good(stack) && (lead == "" || lead == "/") && full == lead + Render(stack)
    ensures lead + Render(Push(stack, "..")) == if |full| > 1 then Chopped(full) else full
  {
    LastSlash(lead, stack);
  }

  lemma NameRenders(lead: string, stack: seq<string>, c: string)
    requires GoodName(c)
    ensures lead + Render(Push(stack, c)) == lead + Render(stack) + "/" + c
  {
    assert Push(stack, c)[..|stack|] == stack;
    assert lead + (Render(stack) + "/" + c) == lead + Render(stack) + "/" + c;
  }

  lemma {:induction false} RenderStart(stack: seq<string>)
    ensures stack != [] ==> Render(stack) != "" && Render(stack)[0] == '/'
  {
    if stack != [] {
      RenderStart(stack[..|stack| - 1]);
    }
  }

  /** The stack before the first component. */
  function BaseStack(path: string, cwd: string): seq<string> {
    if IsAbsolute(path) then [] else Resolve([], Components(cwd))
  }

  function Lead(path: string, cwd: string): string {
    if RootCwd(path, cwd) then "/" else ""
  }

  /** The components not yet looked at. */
  function Remaining(path: string, start: nat): seq<string> {
    if start <= |path| then Components(path[start..]) else []
  }

  lemma BaseRendered(path: string, cwd: string)
    requires Canonical(cwd)
    ensures Good(BaseStack(path, cwd))
    ensures !IsAbsolute(path) ==> cwd == Lead(path, cwd) + Render(BaseStack(path, cwd))
    ensures cwd != "" && cwd[0] == '/'
    ensures IsAbsolute(path) ==> Lead(path, cwd) + Render(BaseStack(path, cwd)) == ""
  {
    var base := Resolve([], Components(cwd));
    ResolveGood([], Components(cwd));
    LastSlash("", base);
    RenderStart(base);
  }

  /** The end of the loop: a path without any component left is the root directory. */
  lemma Finished(path: string, cwd: string, start: nat, stack: seq<string>, ret: string, slashes: nat)
    requires path != "" && start >= |path| && Canonical(cwd) && Progress(path, cwd, start, stack, ret, slashes)
    ensures Normal(path, cwd) == if slashes > 0 && ret == "" then "/" else ret
  {
    LastSlash(Lead(path, cwd), stack);
    if start == |path| {
      assert path[start..] == "";
      assert Remaining(path, start) == [""];
      assert Resolve(stack, [""]) == Resolve(Push(stack, ""), []) == stack;
    }
  }

  /** One round of the loop takes the first component off. */
  lemma NextComponent(path: string, start: nat, end: nat)
    requires |path| < NPOS && start < |path| && end == Find(path, "/", start)
    ensures end == NPOS ==> Remaining(path, start) == [path[start..]] && '/' !in path[start..]
    ensures end != NPOS ==> start <= end < |path| && '/' !in path[start..end] &&
                            Remaining(path, start) == [path[start..end]] + Remaining(path, end + 1)
  {
    FindsFirst(path, "/", start);
    var tail := path[start..];
    var stop := if end == NPOS then |path| else end;
    forall i | start <= i < stop ensures path[i] != '/' {
      assert !At(path, "/", i);
      assert path[i..i + 1] == [path[i]];
    }
    if end == NPOS {
      NoSlash(tail);
    } else {
      assert path[end..end + 1] == "/";
      var k := end - start;
      assert tail[..k] == path[start..end] && tail[k] == path[end] && tail[k + 1..] == path[end + 1..];
      SplitAtSlash(tail, k);
    }
  }

  lemma {:induction false} NoSlash(p: string)
    requires '/' !in p
    ensures Components(p) == [p]
  {
    if p != "" {
      NoSlash(p[1..]);
      assert [p[0]] + p[1..] == p;
    }
  }

  lemma {:induction false} SplitAtSlash(p: string, k: nat)
    requires k < |p| && p[k] == '/' && '/' !in p[..k]
    ensures Components(p) == [p[..k]] + Components(p[k + 1..])
  {
    if k == 0 {
      assert p[..0] == "";
    } else {
      var tail, before := p[1..], p[..k];
      assert tail[..k - 1] == before[1..] && [p[0]] + before[1..] == before;
      SplitAtSlash(tail, k - 1);
      assert tail[k..] == p[k + 1..];
    }
  }

  lemma {:induction false} ResolveGood(stack: seq<string>, cs: seq<string>)
    requires Good(stack) && forall c | c in cs :: '/' !in c
    ensures Good(Resolve(stack, cs))
    decreases |cs|
  {
    if cs != [] {
      ResolveGood(Push(stack, cs[0]), cs[1..]);
    }
  }

  lemma ChopJoined(before: string, top: string)
    requires '/' !in top
    ensures Chopped(before + "/" + top) == before
  {
    var s := before + "/" + top;
    assert s[|before|] == '/' && s[|before| + 1..] == top;
    RFindsLast(s, '/', |before|);
    assert s[..|before|] == before;
  }

  /** The last slash of a rendered stack is the one before its top. */
  lemma LastSlash(lead: string, stack: seq<string>)
    requires Good(stack) && (lead == "" || lead == "/")
    ensures |lead + Render(stack)| > 1 <==> stack != []
    ensures stack != [] ==> Chopped(lead + Render(stack)) == lead + Render(stack[..|stack| - 1])
  {
    if stack != [] {
      var top, below := stack[|stack| - 1], Render(stack[..|stack| - 1]);
      assert GoodName(top);
      assert lead + Render(stack) == (lead + below) + "/" + top;
      ChopJoined(lead + below, top);
    }
  }
}
