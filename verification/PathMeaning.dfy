/** What normalize_path() is for: the path it returns leads to the same place as the one it was given, wherever no link lies on
    the way (src/fs/path.cxx). */
module PathMeaning {
  import opened Common
  import StdString
  import opened Paths
  import PathAlgebra
  import opened FileTree
  import MakeAllDirs
  import RemoveTree

  /** Neither the place nor anything above it is a link. */
  predicate NoLinkAlong(t: Tree, p: Loc) {
    forall k | 0 <= k <= |p| :: !(p[..k] in t && t[p[..k]].Link?)
  }

  lemma PopsAlong(t: Tree, p: Loc, k: nat)
    requires NoLinkAlong(t, p) && k <= |p|
    ensures NoLinkAlong(t, p[..k])
  {
    forall i | 0 <= i <= k ensures p[..k][..i] == p[..i] {
    }
  }

  lemma PushesAlong(t: Tree, p: Loc, name: string)
    requires NoLinkAlong(t, p) && !(p + [name] in t && t[p + [name]].Link?)
    ensures NoLinkAlong(t, p + [name])
  {
    var next := p + [name];
    assert next[..|next|] == next;
    forall i | 0 <= i <= |p| ensures next[..i] == p[..i] {
    }
  }

  lemma {:induction false} LinksDrop(t: Tree, from: Loc, names: seq<string>, links: nat)
    requires Walk(t, from, names, links).Some?
    ensures Walk(t, from, names, links).value.1 <= links
    decreases links, |names|
  {
    if names != [] {
      var next := from + [names[0]];
      if IsDot(names[0]) {
        LinksDrop(t, DotStep(from, names[0]), names[1..], links);
      } else if next in t && t[next].Link? {
        LinksDrop(t, if t[next].fromRoot then [] else from, t[next].target + names[1..], links - 1);
      } else {
        LinksDrop(t, next, names[1..], links);
      }
    }
  }

  /** A walk that follows no link ends where the component stack says. */
  lemma {:induction false} WalkIsResolve(t: Tree, from: Loc, names: seq<string>, links: nat)
    requires NoLinkAlong(t, from) && "" !in names
    requires Walk(t, from, names, links).Some? && Walk(t, from, names, links).value.1 == links
    ensures Walk(t, from, names, links).value.0 == Resolve(from, names)
    ensures NoLinkAlong(t, Resolve(from, names))
    decreases |names|
  {
    if names != [] {
      var next := from + [names[0]];
      assert names[0] in names;
      assert "" !in names[1..];
      if IsDot(names[0]) {
        PopsAlong(t, from, if names[0] == ".." && from != [] then |from| - 1 else |from|);
        assert from[..|from|] == from;
        WalkIsResolve(t, DotStep(from, names[0]), names[1..], links);
      } else if next in t && t[next].Link? {
        LinksDrop(t, if t[next].fromRoot then [] else from, t[next].target + names[1..], links - 1);
        assert false;
      } else {
        PushesAlong(t, from, names[0]);
        WalkIsResolve(t, next, names[1..], links);
      }
    }
  }

  /** The way down a stack of names. */
  lemma {:induction false} WalkDown(t: Tree, p: Loc, k: nat, links: nat)
    requires NoLinkAlong(t, p) && Good(p) && k <= |p|
    ensures Walk(t, p[..k], p[k..], links) == Some((p, links))
    decreases |p| - k
  {
    if k == |p| {
      assert p[..k] == p && p[k..] == [];
    } else {
      assert GoodName(p[k]) && p[k..][0] == p[k] && p[k..][1..] == p[k + 1..] && p[..k] + [p[k]] == p[..k + 1];
      WalkDown(t, p, k + 1, links);
    }
  }

  // ---------- Paths ----------

  lemma {:induction false} ResolveNonEmpty(stack: seq<string>, cs: seq<string>)
    ensures Resolve(stack, cs) == Resolve(stack, StdString.NonEmpty(cs))
    decreases |cs|
  {
    if cs != [] {
      ResolveNonEmpty(Push(stack, cs[0]), cs[1..]);
      var rest := StdString.NonEmpty(cs[1..]);
      if cs[0] == "" {
        assert [] + rest == rest;
      } else {
        assert ([cs[0]] + rest)[1..] == rest;
      }
    }
  }

  lemma {:induction false} ResolveClimb(from: Loc, names: seq<string>)
    ensures Resolve(Climb(from, names).0, Climb(from, names).1) == Resolve(from, names)
    decreases |names|
  {
    if names != [] && IsDot(names[0]) {
      ResolveClimb(DotStep(from, names[0]), names[1..]);
    }
  }

  lemma {:induction false} ClimbAlong(t: Tree, from: Loc, names: seq<string>)
    requires NoLinkAlong(t, from)
    ensures NoLinkAlong(t, Climb(from, names).0)
    decreases |names|
  {
    if names != [] && IsDot(names[0]) {
      PopsAlong(t, from, if names[0] == ".." && from != [] then |from| - 1 else |from|);
      assert from[..|from|] == from;
      ClimbAlong(t, DotStep(from, names[0]), names[1..]);
    }
  }

  /** The kernel reads the normalised path as the stack, also with the second slash in front. */
  lemma NormalNames(path: string, cwd: string, here: Loc)
    requires path != "" && Canonical(cwd)
    ensures Start(here, Normal(path, cwd)) == ([], StackOf(path, cwd))
  {
    var stack := StackOf(path, cwd);
    PathAlgebra.StackIsGood(path, cwd);
    if stack == [] {
      PathAlgebra.NormalForm(path, cwd);
      assert Normal(path, cwd) == "/";
      assert Components("/") == ["", ""] by {
        assert "/"[1..] == "";
      }
      assert NamesOf("/") == [] by {
        assert ["", ""][1..] == [""] && [""][1..] == [];
      }
    } else {
      var lead := MakeAllDirs.LeadOf(path, cwd);
      RenderStart(stack);
      assert Normal(path, cwd) == lead + Render(stack);
      MakeAllDirs.NamesOfPrefix(lead, stack);
      MakeAllDirs.StartsAtRoot(here, Normal(path, cwd));
    }
  }

  /** Normalisation keeps the meaning of a path: if the way it names, from the working directory, follows no link, then the
      stack is the place where it ends, and the normalised path leads there from anywhere. */
  lemma MeaningKept(t: Tree, cwd: Loc, path: string, here: Loc)
    requires path != "" && Good(cwd) && NoLinkAlong(t, cwd) && NoLinkAlong(t, [])
    requires var (from, names) := Start(cwd, path);
             Walk(t, from, names, MAX_LINKS).Some? && Walk(t, from, names, MAX_LINKS).value.1 == MAX_LINKS
    ensures var (from, names) := Start(cwd, path);
            var (from', names') := Start(here, Normal(path, Absolute(cwd)));
            && Walk(t, from, names, MAX_LINKS).value.0 == StackOf(path, Absolute(cwd))
            && Walk(t, from', names', MAX_LINKS) == Walk(t, from, names, MAX_LINKS)
  {
    var base := if IsAbsolute(path) then [] else cwd;
    var (from, names) := Start(cwd, path);
    PathAlgebra.ResolveAbsolute(cwd);
    ResolveNonEmpty(base, Components(path));
    ResolveClimb(base, NamesOf(path));
    ClimbAlong(t, base, NamesOf(path));
    NamesAreGood(cwd, path);
    WalkIsResolve(t, from, names, MAX_LINKS);
    var p := StackOf(path, Absolute(cwd));
    PathAlgebra.StackIsGood(path, Absolute(cwd));
    NormalNames(path, Absolute(cwd), here);
    WalkDown(t, p, 0, MAX_LINKS);
    assert p[..0] == [] && p[0..] == p;
  }

  /** Where a link lies on the way it can be different: behind a link, ".." leads up from its target. */
  lemma LinkChangesMeaning()
    ensures var names := ["d", "l"] + [".."];
            var end := Walk(RemoveTree.WITH_LINK, [], names, MAX_LINKS);
            end.Some? && end.value.0 == [] && Resolve([], names) == ["d"]
  {
    RemoveTree.WalkThroughLink();
    WalkOn(RemoveTree.WITH_LINK, [], ["d", "l"], [".."], MAX_LINKS);
    assert GoodName("d") && GoodName("l");
    PathAlgebra.ResolveNames([], ["d", "l"]);
    PathAlgebra.ResolveConcat([], ["d", "l"], [".."]);
    assert [] + ["d", "l"] == ["d", "l"];
    assert Resolve(["d", "l"], [".."]) == Push(["d", "l"], "..") == ["d"];
  }
}
