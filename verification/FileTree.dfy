/** A file system tree with directories, other files and symbolic links, and the system calls that the library's
    directory functions make on it. */
module FileTree {
  import opened Common
  import StdString
  import opened Paths

  /** Where a node is: the names on the way from the root directory, no link among them. */
  type Loc = seq<string>

  datatype Node = Dir | File | Link(fromRoot: bool, target: seq<string>)

  type Tree = map<Loc, Node>

  /** The node at `p` has a proper name and sits in a directory. */
  predicate Placed(t: Tree, p: Loc) {
    p == [] || (p[..|p| - 1] in t && t[p[..|p| - 1]] == Dir && GoodName(p[|p| - 1]))
  }

  ghost predicate WellFormed(t: Tree) {
    && [] in t && t[[]] == Dir
    && forall p {:trigger Placed(t, p)} | p in t :: Placed(t, p)
  }

  predicate IsDir(t: Tree, p: Loc) {
    p in t && t[p] == Dir
  }

  // ---------- How the kernel reads a path ----------

  /** The kernel follows no more links than this for one path. */
  const MAX_LINKS: nat := 40

  predicate IsDot(name: string) {
    name == "." || name == ".."
  }

  /** Where a dot entry leads; the root directory is its own parent. */
  function DotStep(from: Loc, dot: string): Loc {
    if dot == ".." && from != [] then from[..|from| - 1] else from
  }

  /** The kernel's walk along `names`, following links: where it ends, or would end if what is missing were there, and how many
      links may still be followed. Dot entries are found in directories only. */
  function Walk(t: Tree, from: Loc, names: seq<string>, links: nat): Option<(Loc, nat)>
    decreases links, |names|
  {
    if names == [] then Some((from, links))
    else if IsDot(names[0]) then
      if IsDir(t, from) then Walk(t, DotStep(from, names[0]), names[1..], links) else None
    else
      var next := from + [names[0]];
      if next in t && t[next].Link? then
        if links == 0 then None
        else Walk(t, if t[next].fromRoot then [] else from, t[next].target + names[1..], links - 1)
      else Walk(t, next, names[1..], links)
  }

  /** Where a node called `names` is, or would be made: a link at the end is not followed. */
  function Spot(t: Tree, from: Loc, names: seq<string>): Option<Loc>
    requires names != []
  {
    var last := names[|names| - 1];
    var parent := Walk(t, from, names[..|names| - 1], MAX_LINKS);
    if parent.None? then None
    else if !IsDot(last) then Some(parent.value.0 + [last])
    else if IsDir(t, parent.value.0) then Some(DotStep(parent.value.0, last))
    else None
  }

  /** Does lstat() find something? */
  predicate Present(t: Tree, names: seq<string>) {
    names == [] || (Spot(t, [], names).Some? && Spot(t, [], names).value in t)
  }

  /** Does stat() find a directory? */
  predicate LeadsToDir(t: Tree, names: seq<string>) {
    Walk(t, [], names, MAX_LINKS).Some? && IsDir(t, Walk(t, [], names, MAX_LINKS).value.0)
  }

  /** The names in a path string. */
  function NamesOf(path: string): seq<string> {
    StdString.NonEmpty(Components(path))
  }

  /** The leading dot entries of a path. They lead up from the working directory even if that has been removed. */
  function Climb(from: Loc, names: seq<string>): (Loc, seq<string>) {
    if names != [] && IsDot(names[0]) then Climb(DotStep(from, names[0]), names[1..]) else (from, names)
  }

  /** Where the walk along a path starts, and the names that remain. */
  function Start(cwd: Loc, path: string): (Loc, seq<string>) {
    Climb(if IsAbsolute(path) then [] else cwd, NamesOf(path))
  }

  lemma {:induction false} ClimbKeepsEnd(from: Loc, names: seq<string>)
    requires names != [] && !IsDot(names[|names| - 1])
    ensures var rest := Climb(from, names).1; rest != [] && rest[|rest| - 1] == names[|names| - 1]
  {
    if IsDot(names[0]) {
      ClimbKeepsEnd(DotStep(from, names[0]), names[1..]);
    }
  }

  datatype Errno = NO_ERROR | EXISTS | OTHER

  /** mkdir(2), on names. */
  function MkdirErrno(t: Tree, from: Loc, names: seq<string>): Errno {
    if names == [] then EXISTS
    else
      var spot := Spot(t, from, names);
      if spot.None? then OTHER
      else if IsDot(names[|names| - 1]) then EXISTS
      else if !IsDir(t, spot.value[..|spot.value| - 1]) then OTHER
      else if spot.value in t then EXISTS
      else NO_ERROR
  }

  /** Wherever a path leads, it leads there still when anything but links has been added. */
  lemma {:induction false} WalkStable(t: Tree, more: Tree, from: Loc, names: seq<string>, links: nat)
    requires t.Keys <= more.Keys && forall p | p in more :: if p in t then more[p] == t[p] else !more[p].Link?
    requires Walk(t, from, names, links).Some?
    ensures Walk(more, from, names, links) == Walk(t, from, names, links)
    decreases links, |names|
  {
    if names != [] {
      var next := from + [names[0]];
      if IsDot(names[0]) {
        WalkStable(t, more, DotStep(from, names[0]), names[1..], links);
      } else if next in t && t[next].Link? {
        WalkStable(t, more, if t[next].fromRoot then [] else from, t[next].target + names[1..], links - 1);
      } else {
        WalkStable(t, more, next, names[1..], links);
      }
    }
  }

  lemma {:induction false} WalkOn(t: Tree, from: Loc, a: seq<string>, b: seq<string>, links: nat)
    ensures Walk(t, from, a + b, links) ==
              if Walk(t, from, a, links).None? then None
              else Walk(t, Walk(t, from, a, links).value.0, b, Walk(t, from, a, links).value.1)
    decreases links, |a|
  {
    if a == [] {
      assert a + b == b;
    } else {
      var next := from + [a[0]];
      assert (a + b)[1..] == a[1..] + b;
      if IsDot(a[0]) {
        WalkOn(t, DotStep(from, a[0]), a[1..], b, links);
      } else if next in t && t[next].Link? {
        if links > 0 {
          assert t[next].target + (a[1..] + b) == t[next].target + a[1..] + b;
          WalkOn(t, if t[next].fromRoot then [] else from, t[next].target + a[1..], b, links - 1);
        }
      } else {
        WalkOn(t, next, a[1..], b, links);
      }
    }
  }

  /** The walk along all names goes on from the spot of the last one, unless that is a link. */
  lemma WalkToSpot(t: Tree, from: Loc, names: seq<string>)
    requires names != [] && !IsDot(names[|names| - 1]) && Spot(t, from, names).Some?
    requires Spot(t, from, names).value !in t || !t[Spot(t, from, names).value].Link?
    ensures Walk(t, from, names, MAX_LINKS).Some? && Walk(t, from, names, MAX_LINKS).value.0 == Spot(t, from, names).value
  {
    var init, last := names[..|names| - 1], names[|names| - 1];
    assert init + [last] == names;
    WalkOn(t, from, init, [last], MAX_LINKS);
    var (at, links) := Walk(t, from, init, MAX_LINKS).value;
    assert Walk(t, at, [last], links) == Walk(t, at + [last], [], links);
  }

  /** Behind a name that is no link, the walk goes on at its spot. */
  lemma SpotBelow(t: Tree, names: seq<string>, name: string)
    requires names != [] && !IsDot(names[|names| - 1]) && !IsDot(name) && Spot(t, [], names).Some?
    requires Spot(t, [], names).value !in t || !t[Spot(t, [], names).value].Link?
    ensures Spot(t, [], names + [name]) == Some(Spot(t, [], names).value + [name])
  {
    WalkToSpot(t, [], names);
    assert (names + [name])[..|names|] == names;
  }

  lemma {:induction false} ClimbIn(from: Loc, names: seq<string>)
    ensures forall c | c in Climb(from, names).1 :: c in names
  {
    if names != [] && IsDot(names[0]) {
      ClimbIn(DotStep(from, names[0]), names[1..]);
    }
  }

  lemma NamesAreGood(cwd: Loc, path: string)
    ensures forall c | c in Start(cwd, path).1 :: IsDot(c) || GoodName(c)
  {
    StdString.NonEmptyIn(Components(path));
    ClimbIn(if IsAbsolute(path) then [] else cwd, NamesOf(path));
  }

  lemma AddDir(t: Tree, p: Loc)
    requires WellFormed(t) && p !in t && Placed(t, p)
    ensures WellFormed(t[p := Dir])
  {
    var more := t[p := Dir];
    forall q | q in more ensures Placed(more, q) {
      assert Placed(t, q);
    }
  }

  /** The file system, as the library's functions change it by system calls. Every call may be refused for a reason that
      is not in the tree (permissions, quota, ...). */
  class FileSystem {
    var tree: Tree
    const cwd: Loc
    ghost var refusals: nat  // how many calls were refused so

    constructor (t: Tree, cwd: Loc)
      ensures tree == t && this.cwd == cwd && refusals == 0
    {
      tree := t;
      this.cwd := cwd;
      refusals := 0;
    }

    method Mkdir(path: string, refused: bool) returns (errno: Errno)
      requires WellFormed(tree)
      modifies this
      ensures WellFormed(tree)
      ensures var (from, names) := Start(cwd, path);
              && errno == (if refused || path == "" then OTHER else MkdirErrno(old(tree), from, names))
              && tree == if errno == NO_ERROR then old(tree)[Spot(old(tree), from, names).value := Dir] else old(tree)
    {
      if refused || path == "" {
        return OTHER;
      }
      var (from, names) := Start(cwd, path);
      errno := MkdirErrno(tree, from, names);
      if errno == NO_ERROR {
        NamesAreGood(cwd, path);
        AddDir(tree, Spot(tree, from, names).value);
        tree := tree[Spot(tree, from, names).value := Dir];
      }
    }

    /** unlinkat(dir, name, 0) */
    method UnlinkAt(dir: Loc, name: string, refused: bool) returns (ok: bool)
      modifies this
      ensures refusals == old(refusals) + if refused then 1 else 0
      ensures ok == (!refused && dir + [name] in old(tree) && old(tree)[dir + [name]] != Dir)
      ensures tree == if ok then old(tree) - {dir + [name]} else old(tree)
    {
      var at := dir + [name];
      refusals := refusals + if refused then 1 else 0;
      ok := !refused && at in tree && tree[at] != Dir;
      if ok {
        tree := tree - {at};
      }
    }

    /** rmdir(2), or unlinkat(dir, name, AT_REMOVEDIR): only for an empty directory that is not the root. */
    method RemoveDir(at: Loc, refused: bool) returns (ok: bool)
      modifies this
      ensures refusals == old(refusals) + if refused then 1 else 0
      ensures ok == (!refused && at != [] && at in old(tree) && old(tree)[at] == Dir && Below(old(tree), at) == {})
      ensures tree == if ok then old(tree) - {at} else old(tree)
    {
      refusals := refusals + if refused then 1 else 0;
      ok := !refused && at != [] && at in tree && tree[at] == Dir && Below(tree, at) == {};
      if ok {
        tree := tree - {at};
      }
    }

    /** openat(dir, name, O_DIRECTORY): this one follows links. */
    method OpenDirAt(dir: Loc, name: string, refused: bool) returns (found: Option<Loc>)
      modifies `refusals
      ensures refusals == old(refusals) + if refused then 1 else 0
      ensures found == if refused then None else DirectoryAt(tree, Walk(tree, dir, [name], MAX_LINKS))
    {
      refusals := refusals + if refused then 1 else 0;
      found := if refused then None else DirectoryAt(tree, Walk(tree, dir, [name], MAX_LINKS));
    }

    /** fstatat(dir, name, AT_SYMLINK_NOFOLLOW): is it a directory? */
    method IsDirAt(dir: Loc, name: string, refused: bool) returns (found: Option<bool>)
      modifies `refusals
      ensures refusals == old(refusals) + if refused then 1 else 0
      ensures found == if refused || dir + [name] !in tree then None else Some(tree[dir + [name]] == Dir)
    {
      refusals := refusals + if refused then 1 else 0;
      found := if refused || dir + [name] !in tree then None else Some(tree[dir + [name]] == Dir);
    }
  }

  function DirectoryAt(t: Tree, end: Option<(Loc, nat)>): Option<Loc> {
    if end.Some? && IsDir(t, end.value.0) then Some(end.value.0) else None
  }

  /** Everything strictly below a directory. */
  function Below(t: Tree, at: Loc): set<Loc> {
    set p | p in t && at < p
  }
}
