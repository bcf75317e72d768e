/** remove_tree() (src/fs/filesystem.cxx): recursive deletion through directory streams. */
module RemoveTree {
  import opened Common
  import opened Paths
  import opened FileTree
  import PathAlgebra
  import StdString

  /** Names that a directory stream yields, dot entries included. */
  function Entries(t: Tree, at: Loc): set<string> {
    (set p | p in t && |p| == |at| + 1 && at < p :: p[|at|]) + {".", ".."}
  }

  /** `t` is `t0` without some of the nodes below `at`. */
  ghost predicate Shrunk(t0: Tree, t: Tree, at: Loc) {
    && (forall p | p in t :: p in t0 && t[p] == t0[p])
    && (forall p | p in t0 && !(at < p) :: p in t)
  }

  /** `t` is `t0` without some of the nodes at or below `at`; if `all`, without all of them. */
  ghost predicate Pruned(t0: Tree, t: Tree, at: Loc, all: bool) {
    && (forall p | p in t :: p in t0 && t[p] == t0[p])
    && (forall p | p in t0 && !(at <= p) :: p in t)
    && (all ==> forall p | p in t :: !(at <= p))
  }

  /** Everything below the entries still to be visited is there, and nothing is left below the others. */
  ghost predicate Swept(t0: Tree, t: Tree, at: Loc, todo: set<string>) {
    && Shrunk(t0, t, at)
    && (forall p | p in t && at < p :: p[|at|] in todo)
    && (forall p | p in t0 && at < p && p[|at|] in todo :: p in t)
  }

  lemma EntriesCoverBelow(t: Tree, at: Loc)
    requires WellFormed(t)
    ensures Swept(t, t, at, Entries(t, at))
  {
    forall p | p in t && at < p ensures p[|at|] in Entries(t, at) {
      AncestorPresent(t, p, |at| + 1);
      assert p[..|at| + 1][|at|] == p[|at|];
    }
  }

  lemma {:induction false} AncestorPresent(t: Tree, p: Loc, k: nat)
    requires WellFormed(t) && p in t && k <= |p|
    ensures p[..k] in t && (k < |p| ==> t[p[..k]] == Dir)
    decreases |p|
  {
    assert Placed(t, p);
    if k < |p| {
      var parent := p[..|p| - 1];
      AncestorPresent(t, parent, k);
      assert parent[..k] == p[..k];
    } else {
      assert p[..k] == p;
    }
  }

  /** After one entry has been dealt with. */
  lemma EntryDone(t0: Tree, t: Tree, t': Tree, at: Loc, todo: set<string>, name: string)
    requires Swept(t0, t, at, todo) && Pruned(t, t', at + [name], true)
    ensures Swept(t0, t', at, todo - {name})
  {
    forall p | at < p ensures at + [name] <= p <==> p[|at|] == name {
      NamedBelow(at, name, p);
    }
  }

  /** A failed entry: something below `at` may be gone. */
  lemma EntryFailed(t0: Tree, t: Tree, t': Tree, at: Loc, todo: set<string>, name: string)
    requires Swept(t0, t, at, todo) && Pruned(t, t', at + [name], false)
    ensures Shrunk(t0, t', at)
  {
    forall p | p in t && at + [name] <= p ensures at < p {
      assert p[..|at|] == (at + [name])[..|at|] == at;
    }
  }

  lemma NamedBelow(at: Loc, name: string, p: Loc)
    requires at < p
    ensures at + [name] <= p <==> p[|at|] == name
  {
    assert (at + [name])[|at|] == name;
    if p[|at|] == name {
      assert p[..|at| + 1] == at + [name];
    }
  }

  lemma DotEntryDone(t0: Tree, t: Tree, at: Loc, todo: set<string>, name: string)
    requires WellFormed(t) && Swept(t0, t, at, todo) && IsDot(name)
    ensures Swept(t0, t, at, todo - {name})
  {
    forall p | p in t && at < p ensures p[|at|] != name {
      AncestorPresent(t, p, |at| + 1);
      assert Placed(t, p[..|at| + 1]);
    }
  }

  /** What remove_tree(DirStream&) does with one entry that is no dot entry. The stream may not know the entry's type
      (`unknown`), and any system call may fail. */
  method RemoveEntry(fs: FileSystem, at: Loc, name: string) returns (ok: bool)
    requires WellFormed(fs.tree) && at in fs.tree && fs.tree[at] == Dir && at + [name] in fs.tree
    modifies fs
    ensures WellFormed(fs.tree) && Pruned(old(fs.tree), fs.tree, at + [name], ok)
    ensures fs.refusals >= old(fs.refusals) && (!ok <==> fs.refusals > old(fs.refusals))
    decreases Below(fs.tree, at), 0
  {
    var entry := at + [name];
    var unknown: bool := *;
    var refused: bool := *;
    var isDir := fs.tree[entry] == Dir;
    if unknown {
      var found := fs.IsDirAt(at, name, refused);
      if found.None? {
        return false;
      }
      isDir := found.value;
    }
    refused := *;
    if isDir {
      assert Placed(fs.tree, entry);
      assert Walk(fs.tree, at, [name], MAX_LINKS) == Walk(fs.tree, entry, [], MAX_LINKS) == Some((entry, MAX_LINKS));
      var subdir := fs.OpenDirAt(at, name, refused);
      if subdir.None? {
        return false;
      }
      assert entry in Below(fs.tree, at) && entry !in Below(fs.tree, entry);
      ok := RemoveContents(fs, subdir.value);
      if !ok {
        return;
      }
      refused := *;
      ghost var t := fs.tree;
      ok := fs.RemoveDir(entry, refused);
      LeafRemoved(t, entry);
    } else {
      ghost var t := fs.tree;
      NothingBelowFile(t, entry);
      ok := fs.UnlinkAt(at, name, refused);
      LeafRemoved(t, entry);
    }
  }

  lemma LeafRemoved(t: Tree, leaf: Loc)
    requires WellFormed(t) && Below(t, leaf) == {} && leaf != []
    ensures WellFormed(t - {leaf}) && Pruned(t, t - {leaf}, leaf, true)
  {
    forall p | p in t && p != leaf ensures !(leaf <= p) && Placed(t - {leaf}, p) {
      assert p !in Below(t, leaf) && Placed(t, p);
    }
  }

  lemma NothingBelowFile(t: Tree, at: Loc)
    requires WellFormed(t) && at in t && t[at] != Dir
    ensures Below(t, at) == {}
  {
    forall p | p in t ensures !(at < p) {
      if |at| <= |p| {
        assert at < p ==> p[..|at|] == at;
        AncestorPresent(t, p, |at|);
      }
    }
  }

  /** remove_tree(DirStream&): everything below a directory, in whatever order the stream yields it. `ok` is false if a
      system call failed and its exception left. */
  method RemoveContents(fs: FileSystem, at: Loc) returns (ok: bool)
    requires WellFormed(fs.tree) && at in fs.tree && fs.tree[at] == Dir
    modifies fs
    ensures WellFormed(fs.tree) && Shrunk(old(fs.tree), fs.tree, at)
    ensures ok ==> Below(fs.tree, at) == {}
    ensures fs.refusals >= old(fs.refusals) && (!ok <==> fs.refusals > old(fs.refusals))
    decreases Below(fs.tree, at), 1
  {
    ghost var t0 := fs.tree;
    var todo := Entries(fs.tree, at);
    EntriesCoverBelow(t0, at);
    while todo != {}
      invariant fs.refusals == old(fs.refusals)
      invariant WellFormed(fs.tree) && todo <= Entries(t0, at) && Swept(t0, fs.tree, at, todo)
      decreases todo
    {
      var name :| name in todo;
      ghost var t := fs.tree;
      if IsDot(name) {
        DotEntryDone(t0, t, at, todo, name);
      } else {
        StillThere(t0, t, at, todo, name);
        ok := RemoveEntry(fs, at, name);
        if !ok {
          EntryFailed(t0, t, fs.tree, at, todo, name);
          return;
        }
        EntryDone(t0, t, fs.tree, at, todo, name);
      }
      todo := todo - {name};
    }
    ok := true;
  }

  lemma EntryPresent(t: Tree, at: Loc, name: string)
    requires name in Entries(t, at) && !IsDot(name)
    ensures at + [name] in t
  {
    var p :| p in t && |p| == |at| + 1 && at < p && p[|at|] == name;
    assert p == at + [name];
  }

  lemma StillThere(t0: Tree, t: Tree, at: Loc, todo: set<string>, name: string)
    requires Swept(t0, t, at, todo) && name in todo && name in Entries(t0, at) && !IsDot(name)
    requires at in t0 && t0[at] == Dir
    ensures at in t && t[at] == Dir && at + [name] in t
    ensures Below(t, at) <= Below(t0, at)
  {
    EntryPresent(t0, at, name);
    NamedBelow(at, name, at + [name]);
  }

  // ---------- remove_tree() on a path ----------

  predicate EndsInSlash(path: string) {
    path != "" && path[|path| - 1] == '/'
  }

  /** What the stream is opened on: a link at the end of the path is followed only if a slash comes behind it. */
  function OpenPlace(t: Tree, cwd: Loc, path: string): Option<Loc> {
    var (from, names) := Start(cwd, path);
    if path == "" then None
    else if names == [] then Some(from)
    else if EndsInSlash(path) then DirectoryAt(t, Walk(t, from, names, MAX_LINKS))
    else Spot(t, from, names)
  }

  /** What rmdir() is about: nothing if the path is the root directory or ends with a dot entry. A link at its end is never
      followed. */
  function RemovePlace(t: Tree, cwd: Loc, path: string): Option<Loc> {
    var (from, names) := Start(cwd, path);
    if names == [] || IsDot(names[|names| - 1]) then None else Spot(t, from, names)
  }

  /** Does the walk along `names` stay out of what is below `root`? */
  predicate Outside(t: Tree, root: Loc, from: Loc, names: seq<string>, links: nat)
    decreases links, |names|
  {
    !(root < from) &&
    if names == [] then true
    else if IsDot(names[0]) then Outside(t, root, DotStep(from, names[0]), names[1..], links)
    else
      var next := from + [names[0]];
      if next in t && t[next].Link? then
        !(root < next) &&
        (links == 0 || Outside(t, root, if t[next].fromRoot then [] else from, t[next].target + names[1..], links - 1))
      else Outside(t, root, next, names[1..], links)
  }

  /** Does the way to the last name of the path stay out of what is below `root`? */
  predicate ComesFromOutside(t: Tree, root: Loc, cwd: Loc, path: string) {
    var (from, names) := Start(cwd, path);
    names != [] && Outside(t, root, from, names[..|names| - 1], MAX_LINKS)
  }

  ghost predicate Emptied(t0: Tree, t: Tree, root: Loc) {
    Shrunk(t0, t, root) && forall p | p in t :: !(root < p)
  }

  /** A walk that stays outside leads to the same place when the directory has been emptied ... */
  lemma {:induction false} WalkKept(t0: Tree, t: Tree, root: Loc, from: Loc, names: seq<string>, links: nat)
    requires Emptied(t0, t, root) && Outside(t0, root, from, names, links)
    ensures Walk(t, from, names, links) == Walk(t0, from, names, links)
    decreases links, |names|
  {
    if names != [] {
      var next := from + [names[0]];
      if IsDot(names[0]) {
        WalkKept(t0, t, root, DotStep(from, names[0]), names[1..], links);
      } else if next in t0 && t0[next].Link? {
        if links > 0 {
          WalkKept(t0, t, root, if t0[next].fromRoot then [] else from, t0[next].target + names[1..], links - 1);
        }
      } else {
        WalkKept(t0, t, root, next, names[1..], links);
      }
    }
  }

  /** ... and any other walk gets lost in it. */
  lemma {:induction false} WalkLost(t0: Tree, t: Tree, root: Loc, from: Loc, names: seq<string>, links: nat)
    requires Emptied(t0, t, root) && !Outside(t0, root, from, names, links)
    ensures Walk(t, from, names, links).Some? ==> root < Walk(t, from, names, links).value.0
    decreases links, |names|
  {
    if root < from {
      WalkInside(t, root, from, names, links);
    } else {
      var next := from + [names[0]];
      if IsDot(names[0]) {
        WalkLost(t0, t, root, DotStep(from, names[0]), names[1..], links);
      } else if next in t0 && t0[next].Link? {
        if root < next {
          WalkInside(t, root, next, names[1..], links);
        } else {
          WalkLost(t0, t, root, if t0[next].fromRoot then [] else from, t0[next].target + names[1..], links - 1);
        }
      } else {
        WalkLost(t0, t, root, next, names[1..], links);
      }
    }
  }

  lemma {:induction false} WalkInside(t: Tree, root: Loc, from: Loc, names: seq<string>, links: nat)
    requires root < from && forall p | p in t :: !(root < p)
    ensures Walk(t, from, names, links).Some? ==> root < Walk(t, from, names, links).value.0
    decreases |names|
  {
    if names != [] && !IsDot(names[0]) {
      var next := from + [names[0]];
      assert root < next;
      WalkInside(t, root, next, names[1..], links);
    }
  }

  /** After the directory has been emptied, the path leads rmdir() to it if and only if it did so before and does not pass
      through what was below it; otherwise it leads to no directory at all. */
  lemma PlaceKept(t0: Tree, t: Tree, root: Loc, cwd: Loc, path: string)
    requires Emptied(t0, t, root) && OpenPlace(t0, cwd, path) == Some(root) && IsDir(t0, root)
    ensures var before, after := RemovePlace(t0, cwd, path), RemovePlace(t, cwd, path);
            if before == Some(root) && ComesFromOutside(t0, root, cwd, path) then after == Some(root)
            else after.None? || !IsDir(t, after.value)
  {
    var (from, names) := Start(cwd, path);
    if names != [] && !IsDot(names[|names| - 1]) {
      var init, last := names[..|names| - 1], names[|names| - 1];
      if Outside(t0, root, from, init, MAX_LINKS) {
        WalkKept(t0, t, root, from, init, MAX_LINKS);
        if RemovePlace(t0, cwd, path) != Some(root) {
          LastIsLink(t0, from, names, root);
        }
      } else {
        WalkLost(t0, t, root, from, init, MAX_LINKS);
      }
    }
  }

  /** Where a path leads to another directory than its spot, the spot is a link. */
  lemma LastIsLink(t: Tree, from: Loc, names: seq<string>, root: Loc)
    requires names != [] && !IsDot(names[|names| - 1])
    requires DirectoryAt(t, Walk(t, from, names, MAX_LINKS)) == Some(root) && Spot(t, from, names) != Some(root)
    ensures Spot(t, from, names).Some? && !IsDir(t, Spot(t, from, names).value)
  {
    var init, last := names[..|names| - 1], names[|names| - 1];
    assert init + [last] == names;
    WalkOn(t, from, init, [last], MAX_LINKS);
    if !(Spot(t, from, names).value in t && t[Spot(t, from, names).value].Link?) {
      WalkToSpot(t, from, names);
    }
  }

  /** What a path can make remove_tree() touch, told by the kernel's reading of the path alone. Without a slash at its end it is what
      the path names, a link not being followed: if that is no directory, nothing at all is touched. With a slash it is where the
      path leads. */
  ghost predicate NamedOnly(t0: Tree, t: Tree, cwd: Loc, path: string, ok: bool) {
    var (from, names) := Start(cwd, path);
    if path == "" then !ok && t == t0
    else if names == [] then !ok && Pruned(t0, t, from, false)
    else if path[|path| - 1] == '/' then
      match Walk(t0, from, names, MAX_LINKS)
      case None => !ok && t == t0
      case Some((end, _)) => Pruned(t0, t, end, ok) && (!(end in t0 && t0[end].Dir?) ==> !ok && t == t0)
    else
      match Spot(t0, from, names)
      case None => !ok && t == t0
      case Some(spot) => Pruned(t0, t, spot, ok) && (!(spot in t0 && t0[spot].Dir?) ==> !ok && t == t0)
  }

  /** A link is not followed: nothing is touched. */
  method LinkIsRefused(fs: FileSystem, path: string, refusedOpen: bool, refusedRemove: bool) returns (ok: bool)
    requires WellFormed(fs.tree) && path != "" && path[|path| - 1] != '/'
    requires var (from, names) := Start(fs.cwd, path);
             names != [] && Spot(fs.tree, from, names).Some? &&
             Spot(fs.tree, from, names).value in fs.tree && fs.tree[Spot(fs.tree, from, names).value].Link?
    modifies fs
    ensures !ok && fs.tree == old(fs.tree)
  {
    ghost var root;
    ok, root := RemoveTree(fs, path, refusedOpen, refusedRemove);
  }

  /** remove_tree(path). The directory itself is removed by a call that walks along the path once more. */
  method RemoveTree(fs: FileSystem, path: string, refusedOpen: bool, refusedRemove: bool)
    returns (ok: bool, ghost root: Option<Loc>)
    requires WellFormed(fs.tree)
    modifies fs
    ensures root == OpenPlace(old(fs.tree), fs.cwd, path)
    ensures NamedOnly(old(fs.tree), fs.tree, fs.cwd, path, ok)
    ensures WellFormed(fs.tree)
    ensures refusedOpen || root.None? || !IsDir(old(fs.tree), root.value) ==> !ok && fs.tree == old(fs.tree)
    ensures root.Some? ==> Pruned(old(fs.tree), fs.tree, root.value, ok)
    ensures root.Some? && ok ==> fs.tree == map p | p in old(fs.tree) && !(root.value <= p) :: old(fs.tree)[p]
    ensures root.Some? && IsDir(old(fs.tree), root.value) && !refusedOpen ==>
              && (fs.refusals == old(fs.refusals) ==> Emptied(old(fs.tree), fs.tree, root.value) || ok)
              && (ok <==>
                    && fs.refusals == old(fs.refusals)
                    && RemovePlace(old(fs.tree), fs.cwd, path) == root
                    && ComesFromOutside(old(fs.tree), root.value, fs.cwd, path))
  {
    var place := OpenPlace(fs.tree, fs.cwd, path);
    root := place;
    if refusedOpen || place.None? || !IsDir(fs.tree, place.value) {
      return false, root;
    }
    ghost var t0 := fs.tree;
    ok := RemoveContents(fs, place.value);
    if !ok {
      return;
    }
    ghost var t := fs.tree;
    assert forall p | p in t :: p !in Below(t, place.value);
    PlaceKept(t0, t, place.value, fs.cwd, path);
    var again := RemovePlace(fs.tree, fs.cwd, path);
    if again.None? {
      return false, root;
    }
    ok := fs.RemoveDir(again.value, refusedRemove);
    if ok {
      LeafRemoved(t, place.value);
    }
  }

  // ---------- The ways to fail without any refusal happen ----------

  lemma Names(a: string, b: string, c: string)
    requires GoodName(a) && b != "" && c != "" && '/' !in b && '/' !in c
    ensures NamesOf("/" + a + "/" + c) == [a, c]
    ensures NamesOf("/" + a + "/" + b + "/" + c) == [a, b, c]
  {
    var p, q := "/" + a, "/" + a + "/" + b;
    SplitAtSlash(p, 0);
    NoSlash(a);
    assert p[..0] == "" && p[1..] == a;
    NoSlash(b);
    NoSlash(c);
    PathAlgebra.ComponentsJoin(p, c);
    PathAlgebra.ComponentsJoin(p, b);
    PathAlgebra.ComponentsJoin(q, c);
    assert Components(p + "/" + c) == ["", a, c];
    assert Components(q + "/" + c) == ["", a, b, c];
    assert [c][1..] == [] && [b, c][1..] == [c];
    assert StdString.NonEmpty([c]) == [c] + [] && StdString.NonEmpty([b, c]) == [b] + [c];
    assert ["", a, c][1..] == [a, c] && [a, c][1..] == [c] && StdString.NonEmpty([a, c]) == [a, c];
    assert ["", a, b, c][1..] == [a, b, c] && [a, b, c][1..] == [b, c] && StdString.NonEmpty([a, b, c]) == [a, b, c];
  }

  /** A directory d with one link in it, which leads to the root directory. */
  const WITH_LINK: Tree := map[[] := Dir, ["d"] := Dir, ["d", "l"] := Link(true, [])]

  lemma WalkToD(links: nat)
    ensures Walk(WITH_LINK, [], ["d"], links) == Some((["d"], links))
  {
    assert [] + ["d"] == ["d"];
    assert Walk(WITH_LINK, ["d"], [], links) == Some((["d"], links));
  }

  lemma DotAtEnd()
    ensures OpenPlace(WITH_LINK, [], "/d/.") == Some(["d"]) && RemovePlace(WITH_LINK, [], "/d/.") == None
  {
    Names("d", "l", ".");
    assert "/" + "d" + "/" + "." == "/d/.";
    assert Start([], "/d/.") == ([], ["d", "."]);
    WalkToD(MAX_LINKS);
    assert ["d", "."][..1] == ["d"];
  }

  lemma LinkPath()
    ensures Start([], "/d/l/d") == ([], ["d", "l", "d"])
  {
    Names("d", "l", "d");
    assert "/" + "d" + "/" + "l" + "/" + "d" == "/d/l/d";
  }

  lemma WalkThroughLink()
    ensures var end := Walk(WITH_LINK, [], ["d", "l"], MAX_LINKS); end.Some? && end.value.0 == []
    ensures !Outside(WITH_LINK, ["d"], [], ["d", "l"], MAX_LINKS)
  {
    WalkToD(MAX_LINKS);
    assert ["d"] + ["l"] == ["d", "l"] && [] + ["d"] == ["d"] && ["d", "l"][1..] == ["l"];
    assert Walk(WITH_LINK, ["d"], ["l"], MAX_LINKS) == Walk(WITH_LINK, [], [], MAX_LINKS - 1);
    assert Walk(WITH_LINK, [], ["d", "l"], MAX_LINKS) == Walk(WITH_LINK, ["d"], ["l"], MAX_LINKS);
    assert !Outside(WITH_LINK, ["d"], ["d"], ["l"], MAX_LINKS);
  }

  lemma LinkInside()
    ensures OpenPlace(WITH_LINK, [], "/d/l/d") == RemovePlace(WITH_LINK, [], "/d/l/d") == Some(["d"])
    ensures !ComesFromOutside(WITH_LINK, ["d"], [], "/d/l/d")
  {
    LinkPath();
    WalkThroughLink();
    assert ["d", "l", "d"][..2] == ["d", "l"] && [] + ["d"] == ["d"];
  }

  lemma WithoutLink(t: Tree)
    requires Emptied(WITH_LINK, t, ["d"])
    ensures t == map[[] := Dir, ["d"] := Dir]
  {
    assert ["d"] < ["d", "l"];
  }

  lemma WithLinkIsTree()
    ensures WellFormed(WITH_LINK)
  {
    assert ["d"][..0] == [] && ["d", "l"][..1] == ["d"];
    assert Placed(WITH_LINK, ["d"]) && Placed(WITH_LINK, ["d", "l"]);
  }

  method EmptiesAt(path: string) returns (fs: FileSystem, ok: bool)
    requires OpenPlace(WITH_LINK, [], path) == Some(["d"])
    requires !(RemovePlace(WITH_LINK, [], path) == Some(["d"]) && ComesFromOutside(WITH_LINK, ["d"], [], path))
    ensures !ok && (fs.refusals == 0 ==> fs.tree == map[[] := Dir, ["d"] := Dir])
  {
    WithLinkIsTree();
    fs := new FileSystem(WITH_LINK, []);
    ghost var root;
    ok, root := RemoveTree(fs, path, false, false);
    if fs.refusals == 0 {
      WithoutLink(fs.tree);
    }
  }

  /** remove_tree() with no call refused: d has been emptied, but is still there. */
  method EmptiesOnly(dot: bool) returns (fs: FileSystem, ok: bool)
    ensures !ok && (fs.refusals == 0 ==> fs.tree == map[[] := Dir, ["d"] := Dir])
  {
    if dot {
      DotAtEnd();
      fs, ok := EmptiesAt("/d/.");
    } else {
      LinkInside();
      fs, ok := EmptiesAt("/d/l/d");
    }
  }
}
