/** The algebra of normalize_path(): what its documentation promises about the result. */
module PathAlgebra {
  import opened Paths

  lemma {:induction false} ComponentsJoin(p: string, q: string)
    ensures Components(p + "/" + q) == Components(p) + Components(q)
  {
    if p == "" {
      assert ("/" + q)[1..] == q && p + "/" + q == "/" + q;
    } else {
      assert (p + "/" + q)[1..] == p[1..] + "/" + q;
      ComponentsJoin(p[1..], q);
    }
  }

  lemma {:induction false} ComponentsRender(stack: seq<string>)
    requires Good(stack)
    ensures Components(Render(stack)) == [""] + stack
  {
    if stack != [] {
      var below, top := stack[..|stack| - 1], stack[|stack| - 1];
      assert GoodName(top);
      ComponentsJoin(Render(below), top);
      ComponentsRender(below);
      NoSlash(top);
      assert stack == below + [top];
    }
  }

  lemma {:induction false} ResolveConcat(stack: seq<string>, a: seq<string>, b: seq<string>)
    ensures Resolve(stack, a + b) == Resolve(Resolve(stack, a), b)
    decreases |a|
  {
    if a == [] {
      assert a + b == b;
    } else {
      assert (a + b)[1..] == a[1..] + b;
      ResolveConcat(Push(stack, a[0]), a[1..], b);
    }
  }

  lemma {:induction false} ResolveNames(stack: seq<string>, names: seq<string>)
    requires Good(names)
    ensures Resolve(stack, names) == stack + names
    decreases |names|
  {
    if names != [] {
      assert GoodName(names[0]);
      ResolveNames(stack + [names[0]], names[1..]);
      assert stack + names == stack + [names[0]] + names[1..];
    }
  }

  /** A stack can be read back from its path. */
  lemma ResolveAbsolute(stack: seq<string>)
    requires Good(stack)
    ensures Resolve([], Components(Absolute(stack))) == stack && IsAbsolute(Absolute(stack))
  {
    RenderStart(stack);
    if stack == [] {
      assert Components("/") == ["", ""];
      assert Resolve([], ["", ""]) == Resolve([], [""]) == Resolve([], []);
    } else {
      ComponentsRender(stack);
      assert Push([], "") == [] && ([""] + stack)[1..] == stack;
      ResolveNames([], stack);
      assert [] + stack == stack;
    }
  }

  lemma StackIsGood(path: string, cwd: string)
    ensures Good(StackOf(path, cwd))
  {
    ResolveGood([], Components(cwd));
    ResolveGood(BaseStack(path, cwd), Components(path));
  }

  lemma NormalForm(path: string, cwd: string)
    requires path != "" && (!RootCwd(path, cwd) || StackOf(path, cwd) == [])
    ensures Normal(path, cwd) == Absolute(StackOf(path, cwd))
  {
    assert "" + Absolute(StackOf(path, cwd)) == Absolute(StackOf(path, cwd));
  }

  /** Unless a relative path is taken from the root directory, the result is the path of the component stack: absolute,
      without empty, "." or ".." components, and without a slash at the end except for the root directory itself. */
  lemma ResultIsNormal(path: string, cwd: string)
    requires path != "" && !RootCwd(path, cwd)
    ensures var ret, stack := Normal(path, cwd), StackOf(path, cwd);
            && ret == Absolute(stack) && Good(stack) && IsAbsolute(ret) && Canonical(ret)
            && Components(ret) == (if stack == [] then ["", ""] else [""] + stack)
            && (ret[|ret| - 1] == '/' <==> ret == "/")
  {
    var stack := StackOf(path, cwd);
    StackIsGood(path, cwd);
    ResolveAbsolute(stack);
    if stack != [] {
      ComponentsRender(stack);
      var top := stack[|stack| - 1];
      assert GoodName(top);
      assert Render(stack)[|Render(stack)| - 1] == top[|top| - 1];
    }
  }

  /** From the root directory a relative path comes out right if and only if nothing is left of it; otherwise it has a
      second slash in front, which a second normalisation takes away. */
  lemma RelativeToRoot(path: string, cwd2: string)
    requires path != "" && !IsAbsolute(path)
    ensures Canonical(Normal(path, "/")) <==> StackOf(path, "/") == []
    ensures Normal(Normal(path, "/"), cwd2) == Absolute(StackOf(path, "/"))
  {
    var stack := StackOf(path, "/");
    StackIsGood(path, "/");
    ResolveAbsolute(stack);
    NormalForm(Normal(path, "/"), cwd2);
    if stack == [] {
      NormalForm(path, "/");
    } else {
      var ret := "/" + Absolute(stack);
      assert ret[1..] == Absolute(stack) && Components(ret) == [""] + Components(Absolute(stack));
      assert Resolve([], Components(ret)) == Resolve(Push([], ""), Components(Absolute(stack)));
      assert |ret| != |Absolute(stack)|;
    }
  }

  /** Normalising twice changes nothing, whatever the working directory is the second time. */
  lemma Idempotent(path: string, cwd: string, cwd2: string)
    requires !RootCwd(path, cwd)
    ensures Normal(Normal(path, cwd), cwd2) == Normal(path, cwd)
  {
    if path != "" {
      StackIsGood(path, cwd);
      ResolveAbsolute(StackOf(path, cwd));
      NormalForm(path, cwd);
      NormalForm(Normal(path, cwd), cwd2);
    }
  }

  /** A prefix may be normalised first. */
  lemma PrefixFirst(p: string, q: string, cwd: string, cwd2: string)
    requires p != "" && !RootCwd(p, cwd)
    ensures Normal(p + "/" + q, cwd) == Normal(Normal(p, cwd) + "/" + q, cwd2)
  {
    var base, stack := BaseStack(p, cwd), StackOf(p, cwd);
    StackIsGood(p, cwd);
    ResolveAbsolute(stack);
    ComponentsJoin(p, q);
    ResolveConcat(base, Components(p), Components(q));
    ComponentsJoin(Absolute(stack), q);
    ResolveConcat([], Components(Absolute(stack)), Components(q));
    assert (p + "/" + q)[0] == p[0];
    assert (Absolute(stack) + "/" + q)[0] == '/';
    NormalForm(p, cwd);
    NormalForm(p + "/" + q, cwd);
    NormalForm(Absolute(stack) + "/" + q, cwd2);
  }
}
