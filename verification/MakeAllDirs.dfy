/** make_all_dirs() (src/fs/filesystem.cxx): a directory and all its parents, prefix by prefix of the normalised path. */
module MakeAllDirs {
  import opened Common
  import opened StdString
  import opened Paths
  import PathAlgebra
  import opened FileTree

  datatype Result = UsageError | FileError | Done(errno: Errno)

  // ---------- Prefixes of a normalised path ----------

  /** A normalised path, possibly with the second slash in front. */
  predicate NormPath(norm: string, lead: string, stack: seq<string>) {
    Good(stack) && (lead == "" || (lead == "/" && stack != [])) && norm == lead + Absolute(stack)
  }

  /** The length of the prefix with k components. */
  function Cut(lead: string, stack: seq<string>, k: nat): nat
    requires k <= |stack|
  {
    |lead + Render(stack[..k])|
  }

  lemma {:induction false} RenderPrefix(stack: seq<string>, k: nat)
    requires k <= |stack|
    ensures Render(stack[..k]) <= Render(stack)
  {
    if k == |stack| {
      assert stack[..k] == stack;
    } else {
      RenderPrefix(stack[..|stack| - 1], k);
      assert stack[..|stack| - 1][..k] == stack[..k];
    }
  }

  lemma PrefixIs(lead: string, stack: seq<string>, k: nat)
    requires k <= |stack|
    ensures Cut(lead, stack, k) <= |lead + Render(stack)|
    ensures (lead + Render(stack))[..Cut(lead, stack, k)] == lead + Render(stack[..k])
  {
    RenderPrefix(stack, k);
  }

  lemma PrefixGrows(lead: string, stack: seq<string>, k: nat)
    requires k < |stack|
    ensures lead + Render(stack[..k + 1]) == lead + Render(stack[..k]) + "/" + stack[k]
  {
    assert stack[..k + 1][..k] == stack[..k];
    assert lead + (Render(stack[..k]) + "/" + stack[k]) == lead + Render(stack[..k]) + "/" + stack[k];
  }

  lemma {:induction false} FindSlash(s: string, from: nat, end: nat)
    requires |s| < NPOS && from <= end <= |s| && '/' !in s[from..end] && (end < |s| ==> s[end] == '/')
    ensures Find(s, "/", from) == if end < |s| then end else NPOS
    decreases end - from
  {
    if from < |s| {
      assert s[from..from + 1] == [s[from]];
    }
    if from < end {
      assert s[from] == s[from..end][0] && s[from + 1..end] == s[from..end][1..];
      FindSlash(s, from + 1, end);
    }
  }

  /** A longer prefix continues with a slash. */
  lemma SlashBehind(lead: string, stack: seq<string>, k: nat)
    requires k < |stack|
    ensures Cut(lead, stack, k) < |lead + Render(stack)| && (lead + Render(stack))[Cut(lead, stack, k)] == '/'
  {
    PrefixGrows(lead, stack, k);
    PrefixIs(lead, stack, k + 1);
    var next := lead + Render(stack[..k + 1]);
    assert next[Cut(lead, stack, k)] == '/';
    assert (lead + Render(stack))[..|next|][Cut(lead, stack, k)] == '/';
  }

  /** The name behind the k-th prefix, and what comes behind it. */
  lemma NameBehind(lead: string, stack: seq<string>, k: nat)
    requires Good(stack) && k < |stack|
    ensures var norm, from, end := lead + Render(stack), Cut(lead, stack, k), Cut(lead, stack, k + 1);
            && from < end <= |norm| && norm[from + 1..end] == stack[k] && '/' !in stack[k]
            && (end < |norm| <==> k + 1 < |stack|) && (end < |norm| ==> norm[end] == '/')
  {
    PrefixGrows(lead, stack, k);
    PrefixIs(lead, stack, k + 1);
    assert GoodName(stack[k]);
    var norm, from, end := lead + Render(stack), Cut(lead, stack, k), Cut(lead, stack, k + 1);
    assert norm[from + 1..end] == norm[..end][from + 1..] == stack[k];
    if k + 1 < |stack| {
      SlashBehind(lead, stack, k + 1);
    } else {
      assert stack[..k + 1] == stack;
    }
  }

  /** The next separator behind the k-th prefix is where the next prefix ends. */
  lemma NextCut(norm: string, lead: string, stack: seq<string>, k: nat, from: nat, end: nat)
    requires Good(stack) && k < |stack| && |norm| < NPOS && norm == lead + Render(stack)
    requires from == Cut(lead, stack, k) && end == Cut(lead, stack, k + 1)
    ensures from < end <= |norm|
    ensures Find(norm, "/", from + 1) == if k + 1 < |stack| then end else NPOS
  {
    NameBehind(lead, stack, k);
    FindSlash(norm, from + 1, end);
  }

  lemma {:induction false} NonEmptyNames(stack: seq<string>)
    requires Good(stack)
    ensures NonEmpty(stack) == stack
  {
    if stack != [] {
      assert GoodName(stack[0]);
      NonEmptyNames(stack[1..]);
      assert [stack[0]] + stack[1..] == stack;
    }
  }

  /** The kernel reads a prefix as its components. */
  lemma NamesOfPrefix(lead: string, stack: seq<string>)
    requires Good(stack) && (lead == "" || lead == "/")
    ensures NamesOf(lead + Render(stack)) == stack
  {
    PathAlgebra.ComponentsRender(stack);
    NonEmptyNames(stack);
    assert ([""] + stack)[1..] == stack;
    assert NonEmpty([""] + stack) == stack by {
      assert [] + stack == stack;
    }
    if lead == "/" {
      assert ("/" + Render(stack))[1..] == Render(stack);
      assert Components("/" + Render(stack)) == [""] + Components(Render(stack));
      assert ([""] + Components(Render(stack)))[1..] == Components(Render(stack));
      assert [] + NonEmpty([""] + stack) == NonEmpty([""] + stack);
    } else {
      assert "" + Render(stack) == Render(stack);
    }
  }

  // ---------- What the loop has done after k prefixes ----------

  /** Is the m-th prefix missing in `t0`, at a known place? */
  predicate Missing(t0: Tree, stack: seq<string>, m: nat)
    requires 0 < m <= |stack|
  {
    Spot(t0, [], stack[..m]).Some? && Spot(t0, [], stack[..m]).value !in t0
  }

  predicate AllMissing(t0: Tree, stack: seq<string>, first: nat, k: nat)
    requires k <= |stack|
  {
    forall m | first < m <= k :: Missing(t0, stack, m)
  }

  /** The places of the prefixes with more than `first` and at most k components. */
  function Spots(t0: Tree, stack: seq<string>, first: nat, k: nat): set<Loc>
    requires first <= k <= |stack| && AllMissing(t0, stack, first, k)
  {
    if first == k then {}
    else
      assert Missing(t0, stack, k);
      Spots(t0, stack, first, k - 1) + {Spot(t0, [], stack[..k]).value}
  }

  /** `t` is `t0` with new directories at `made`, and nothing else. */
  ghost predicate Grown(t0: Tree, t: Tree, made: set<Loc>) {
    made !! t0.Keys && t.Keys == t0.Keys + made && forall p | p in t :: t[p] == if p in t0 then t0[p] else Dir
  }

  /** After k prefixes: those beyond `first` were missing and have been made; nothing else has changed; all k are
      present. The directory made last is empty. */
  ghost predicate Made(t0: Tree, t: Tree, stack: seq<string>, first: nat, k: nat) {
    && Good(stack) && WellFormed(t0) && WellFormed(t)
    && first <= k <= |stack|
    && AllMissing(t0, stack, first, k)
    && Grown(t0, t, Spots(t0, stack, first, k))
    && (forall m | 0 <= m <= k :: Present(t, stack[..m]))
    && (first < k ==> Missing(t0, stack, k) && Below(t, Spot(t0, [], stack[..k]).value) == {})
  }

  /** The new directories do not change where a path leads that led somewhere before. */
  lemma SpotStable(t0: Tree, t: Tree, made: set<Loc>, names: seq<string>)
    requires names != [] && Grown(t0, t, made) && Spot(t0, [], names).Some?
    ensures Spot(t, [], names) == Spot(t0, [], names)
  {
    WalkStable(t0, t, [], names[..|names| - 1], MAX_LINKS);
  }

  /** Nothing is below a place that is not there. */
  lemma {:induction false} NothingBelowMissing(t: Tree, at: Loc, p: Loc)
    requires WellFormed(t) && at !in t && at < p
    ensures p !in t
    decreases |p|
  {
    var parent := p[..|p| - 1];
    assert p in t ==> Placed(t, p);
    if p in t && parent != at {
      assert at < parent;
      NothingBelowMissing(t, at, parent);
    }
  }

  /** The next prefix after one that was made lies in it. */
  lemma NextIsInside(t0: Tree, stack: seq<string>, k: nat)
    requires Good(stack) && 0 < k < |stack| && Missing(t0, stack, k)
    ensures Spot(t0, [], stack[..k + 1]) == Some(Spot(t0, [], stack[..k]).value + [stack[k]])
  {
    assert GoodName(stack[k]) && GoodName(stack[..k][k - 1]);
    SpotBelow(t0, stack[..k], stack[k]);
    assert stack[..k] + [stack[k]] == stack[..k + 1];
  }

  lemma ChildIsBelow(t: Tree, at: Loc, name: string)
    ensures at + [name] in t ==> at + [name] in Below(t, at)
  {
  }

  /** One more prefix that exists: then none was made before. */
  lemma ExistsKeeps(t0: Tree, t: Tree, stack: seq<string>, first: nat, k: nat)
    requires Made(t0, t, stack, first, k) && k < |stack| && MkdirErrno(t, [], stack[..k + 1]) == EXISTS
    ensures first == k && Made(t0, t, stack, k + 1, k + 1)
  {
    assert GoodName(stack[k]) && stack[..k + 1][k] == stack[k];
    if first < k {
      NextIsInside(t0, stack, k);
      SpotStable(t0, t, Spots(t0, stack, first, k), stack[..k + 1]);
      ChildIsBelow(t, Spot(t0, [], stack[..k]).value, stack[k]);
    }
  }

  /** One more prefix that is made. */
  lemma CreatedKeeps(t0: Tree, t: Tree, stack: seq<string>, first: nat, k: nat, spot: Loc)
    requires Made(t0, t, stack, first, k) && k < |stack|
    requires MkdirErrno(t, [], stack[..k + 1]) == NO_ERROR && Spot(t, [], stack[..k + 1]) == Some(spot)
    ensures Made(t0, t[spot := Dir], stack, first, k + 1)
  {
    var before := Spots(t0, stack, first, k);
    assert GoodName(stack[k]) && stack[..k + 1][k] == stack[k];
    if first == k {
      assert t == t0;
    } else {
      NextIsInside(t0, stack, k);
      SpotStable(t0, t, before, stack[..k + 1]);
    }
    AddDir(t, spot);
    assert Missing(t0, stack, k + 1);
    assert Spots(t0, stack, first, k + 1) == before + {spot};
    PresentKept(t0, t, before, stack, k, spot);
    EmptyBelow(t0, t, stack, first, k, spot);
  }

  lemma PresentKept(t0: Tree, t: Tree, before: set<Loc>, stack: seq<string>, k: nat, spot: Loc)
    requires k < |stack| && Grown(t0, t, before) && spot !in t && Spot(t, [], stack[..k + 1]) == Some(spot)
    requires forall m | 0 <= m <= k :: Present(t, stack[..m])
    ensures Grown(t0, t[spot := Dir], before + {spot})
    ensures forall m | 0 <= m <= k + 1 :: Present(t[spot := Dir], stack[..m])
  {
    forall m | 0 <= m <= k + 1 ensures Present(t[spot := Dir], stack[..m]) {
      if m > 0 {
        SpotStable(t, t[spot := Dir], {spot}, stack[..m]);
      }
    }
  }

  lemma EmptyBelow(t0: Tree, t: Tree, stack: seq<string>, first: nat, k: nat, spot: Loc)
    requires Made(t0, t, stack, first, k) && k < |stack|
    requires spot !in t && Spot(t0, [], stack[..k + 1]) == Some(spot)
    ensures Below(t[spot := Dir], spot) == {}
  {
    if first == k {
      assert t.Keys == t0.Keys;
      forall p | spot < p ensures p !in t {
        NothingBelowMissing(t0, spot, p);
      }
    } else {
      NextIsInside(t0, stack, k);
      var last := Spot(t0, [], stack[..k]).value;
      forall p | spot < p ensures p !in t {
        assert last < p && p !in Below(t, last);
      }
    }
  }

  // ---------- The function ----------

  lemma NothingMadeYet(t0: Tree, stack: seq<string>)
    requires WellFormed(t0) && Good(stack)
    ensures Made(t0, t0, stack, 0, 0)
  {
  }

  /** A prefix is a path of its own: not "." and without a slash at the end. */
  lemma PrefixIsPath(lead: string, stack: seq<string>, k: nat)
    requires Good(stack) && 0 < k <= |stack| && (lead == "" || lead == "/")
    ensures OwnPath(lead + Render(stack[..k]), stack[..k])
  {
    NamesOfPrefix(lead, stack[..k]);
    PrefixGrows(lead, stack, k - 1);
    var name, prefix := stack[k - 1], lead + Render(stack[..k]);
    assert GoodName(name);
    assert prefix[|prefix| - 1] == name[|name| - 1];
    RenderStart(stack[..k]);
    assert prefix[0] == '/';
  }

  /** The prefixes of a normalised path, by number of components, as the loop finds them. */
  ghost predicate Pieces(norm: string, stack: seq<string>, ps: seq<string>) {
    && |ps| == |stack| + 1
    && (forall k | 0 <= k <= |stack| :: |ps[k]| <= |norm| && norm[..|ps[k]|] == ps[k])
    && (forall k | 0 <= k < |stack| :: NextAfter(norm, stack, ps, k))
  }

  predicate NextAfter(norm: string, stack: seq<string>, ps: seq<string>, k: nat)
    requires k < |stack| && |ps| == |stack| + 1
  {
    |ps[k]| < |ps[k + 1]| && PieceAt(norm, stack, ps[k], k, ps[k + 1])
  }

  /** The next separator behind `from`. */
  predicate EndsAt(norm: string, from: nat, end: nat) {
    |norm| < NPOS && Find(norm, "/", from + 1) == end
  }

  /** The (k+1)-th prefix, found behind the k-th one. */
  predicate PieceAt(norm: string, stack: seq<string>, before: string, k: nat, piece: string)
    requires k < |stack|
  {
    && EndsAt(norm, |before|, if k + 1 < |stack| then |piece| else NPOS)
    && OwnPath(piece, stack[..k + 1]) && (k + 1 == |stack| ==> piece == norm)
  }

  /** An absolute path without a slash at the end, which the kernel reads as `names`. */
  predicate OwnPath(piece: string, names: seq<string>) {
    IsAbsolute(piece) && piece[|piece| - 1] != '/' && NamesOf(piece) == names
  }

  lemma PieceFound(norm: string, lead: string, stack: seq<string>, k: nat)
    requires NormPath(norm, lead, stack) && |norm| < NPOS && k < |stack|
    ensures |lead + Render(stack[..k])| < |lead + Render(stack[..k + 1])|
    ensures PieceAt(norm, stack, lead + Render(stack[..k]), k, lead + Render(stack[..k + 1]))
  {
    PieceEnds(norm, lead, stack, k);
    PieceReads(norm, lead, stack, k);
  }

  lemma PieceEnds(norm: string, lead: string, stack: seq<string>, k: nat)
    requires NormPath(norm, lead, stack) && |norm| < NPOS && k < |stack|
    ensures |lead + Render(stack[..k])| < |lead + Render(stack[..k + 1])|
    ensures EndsAt(norm, |lead + Render(stack[..k])|, if k + 1 < |stack| then |lead + Render(stack[..k + 1])| else NPOS)
  {
    NextCut(norm, lead, stack, k, |lead + Render(stack[..k])|, |lead + Render(stack[..k + 1])|);
  }

  lemma PieceReads(norm: string, lead: string, stack: seq<string>, k: nat)
    requires NormPath(norm, lead, stack) && k < |stack|
    ensures OwnPath(lead + Render(stack[..k + 1]), stack[..k + 1])
    ensures k + 1 == |stack| ==> lead + Render(stack[..k + 1]) == norm
  {
    PrefixIsPath(lead, stack, k + 1);
    assert k + 1 == |stack| ==> stack[..k + 1] == stack;
  }

  lemma AllPieces(norm: string, lead: string, stack: seq<string>) returns (ps: seq<string>)
    requires NormPath(norm, lead, stack) && |norm| < NPOS && stack != []
    ensures Pieces(norm, stack, ps) && ps[0] == lead
  {
    ps := seq(|stack| + 1, k requires 0 <= k <= |stack| => lead + Render(stack[..k]));
    forall k | 0 <= k <= |stack| ensures |ps[k]| <= |norm| && norm[..|ps[k]|] == ps[k] {
      PrefixIs(lead, stack, k);
    }
    forall k | 0 <= k < |stack| ensures NextAfter(norm, stack, ps, k) {
      PieceFound(norm, lead, stack, k);
    }
    assert stack[..0] == [];
  }

  /** Where the loop is, with `done` prefixes dealt with: at the end of the last one, or before a lone first slash. */
  predicate Position(stack: seq<string>, ps: seq<string>, sepPos: nat, done: nat)
    requires |ps| == |stack| + 1
  {
    && done <= |stack|
    && if sepPos == NPOS then done == |stack|
       else if done == |stack| || sepPos != |ps[done]| then sepPos == 0 && done == 0 && ps[0] == "/"
       else true
  }

  /** Does the path start with a lone slash? */
  predicate StartsLike(norm: string, stack: seq<string>, ps: seq<string>)
    requires |ps| == |stack| + 1
  {
    if ps[0] == "" then stack != []
    else ps[0] == "/" && if stack == [] then norm == "/" else |norm| > 1 && norm[1] == '/'
  }

  /** One search for a separator: either the lone first slash, or the next prefix. */
  lemma NextPiece(norm: string, sepPos: nat, stack: seq<string>, ps: seq<string>, done: nat, next: nat, prefix: string)
    requires Pieces(norm, stack, ps) && |norm| < NPOS && sepPos != NPOS && Position(stack, ps, sepPos, done)
    requires StartsLike(norm, stack, ps)
    requires next == Find(norm, "/", sepPos + 1) && prefix == Substr(norm, 0, next)
    ensures next != NPOS ==> sepPos < next <= |norm|
    ensures prefix != ""
    ensures prefix[|prefix| - 1] == '/' ==> Position(stack, ps, next, done)
    ensures prefix[|prefix| - 1] != '/' ==>
              && IsAbsolute(prefix) && done < |stack| && Position(stack, ps, next, done + 1)
              && NamesOf(prefix) == stack[..done + 1]
  {
    if done < |stack| && sepPos == |ps[done]| {
      assert NextAfter(norm, stack, ps, done);
    } else {
      FindSlash(norm, 1, 1);
      assert norm[..1] == "/";
    }
  }

  lemma StartsAtRoot(cwd: Loc, prefix: string)
    requires IsAbsolute(prefix) && Good(NamesOf(prefix)) && NamesOf(prefix) != []
    ensures Start(cwd, prefix) == ([], NamesOf(prefix))
  {
    assert GoodName(NamesOf(prefix)[0]);
  }

  /** mkdir() for the next prefix. */
  method TryPrefix(fs: FileSystem, prefix: string, refused: set<seq<string>>,
                   ghost t0: Tree, ghost stack: seq<string>, ghost first: nat, ghost done: nat)
    returns (errno: Errno, ghost first': nat, ghost done': nat)
    requires Made(t0, fs.tree, stack, first, done) && done < |stack|
    requires IsAbsolute(prefix) && NamesOf(prefix) == stack[..done + 1]
    modifies fs
    ensures Made(t0, fs.tree, stack, first', done')
    ensures errno == NO_ERROR ==> first' == first && done' == done + 1
    ensures errno == EXISTS ==> first == done && first' == done' == done + 1 && fs.tree == old(fs.tree)
    ensures errno == OTHER ==>
              first' == first && done' == done && fs.tree == old(fs.tree) &&
              (MkdirErrno(fs.tree, [], stack[..done + 1]) == OTHER || stack[..done + 1] in refused)
  {
    ghost var t := fs.tree;
    StartsAtRoot(fs.cwd, prefix);
    errno := fs.Mkdir(prefix, NamesOf(prefix) in refused);
    first', done' := first, done;
    if errno == EXISTS {
      ExistsKeeps(t0, fs.tree, stack, first, done);
      first', done' := done + 1, done + 1;
    } else if errno == NO_ERROR {
      CreatedKeeps(t0, t, stack, first, done, Spot(t, [], stack[..done + 1]).value);
      done' := done + 1;
    }
  }

  /** The prefixes for the path that the method has computed. */
  lemma PiecesOf(path: string, cwd: string) returns (ps: seq<string>)
    requires path != "" && |Normal(path, cwd)| < NPOS
    ensures var norm, stack := Normal(path, cwd), StackOf(path, cwd);
            Pieces(norm, stack, ps) && StartsLike(norm, stack, ps)
  {
    var norm, stack, lead := Normal(path, cwd), StackOf(path, cwd), LeadOf(path, cwd);
    PathAlgebra.StackIsGood(path, cwd);
    if stack == [] {
      ps := ["/"];
      PathAlgebra.NormalForm(path, cwd);
    } else {
      ps := AllPieces(norm, lead, stack);
      RenderStart(stack);
    }
  }

  /** What the loop keeps. */
  ghost predicate LoopInv(t0: Tree, t: Tree, stack: seq<string>, ps: seq<string>,
                          sepPos: nat, ret: Errno, first: nat, done: nat) {
    && |ps| == |stack| + 1 && Position(stack, ps, sepPos, done) && Made(t0, t, stack, first, done)
    && ret == if first < done then NO_ERROR else EXISTS
  }

  /** How the function ends: with all prefixes dealt with, or at the first one that is refused or cannot be made. */
  ghost predicate Ends(t0: Tree, t: Tree, stack: seq<string>, refused: set<seq<string>>,
                        result: Result, first: nat, done: nat) {
    && Made(t0, t, stack, first, done)
    && if done == |stack| then result == Done(if first < done then NO_ERROR else EXISTS)
       else result == FileError &&
            (MkdirErrno(t, [], stack[..done + 1]) == OTHER || stack[..done + 1] in refused)
  }

  lemma LoopEnds(t0: Tree, t: Tree, stack: seq<string>, refused: set<seq<string>>, ps: seq<string>,
                 ret: Errno, first: nat, done: nat)
    requires LoopInv(t0, t, stack, ps, NPOS, ret, first, done)
    ensures Ends(t0, t, stack, refused, Done(ret), first, done)
  {
  }

  /** One round of the loop over the prefixes. */
  method Round(fs: FileSystem, normpath: string, sepPos: nat, oldRet: Errno, refused: set<seq<string>>,
               ghost t0: Tree, ghost stack: seq<string>, ghost ps: seq<string>, ghost first: nat, ghost done: nat)
    returns (next: nat, ret: Errno, failed: bool, ghost first': nat, ghost done': nat)
    requires WellFormed(t0) && |normpath| < NPOS && Pieces(normpath, stack, ps) && StartsLike(normpath, stack, ps)
    requires LoopInv(t0, fs.tree, stack, ps, sepPos, oldRet, first, done) && sepPos != NPOS
    modifies fs
    ensures next != NPOS ==> sepPos < next <= |normpath|
    ensures !failed ==> LoopInv(t0, fs.tree, stack, ps, next, ret, first', done')
    ensures failed ==> Ends(t0, fs.tree, stack, refused, FileError, first', done')
  {
    next, ret, failed, first', done' := Find(normpath, "/", sepPos + 1), oldRet, false, first, done;
    var prefix := Substr(normpath, 0, next);
    NextPiece(normpath, sepPos, stack, ps, done, next, prefix);
    if prefix[|prefix| - 1] != '/' && prefix != "." {
      var errno;
      errno, first', done' := TryPrefix(fs, prefix, refused, t0, stack, first, done);
      failed := errno == OTHER;
      ret := if errno == NO_ERROR then NO_ERROR else oldRet;
    }
  }

  /** The loop over the prefixes of a normalised path. */
  method MakePrefixes(fs: FileSystem, normpath: string, refused: set<seq<string>>,
                      ghost stack: seq<string>, ghost ps: seq<string>)
    returns (result: Result, ghost first: nat, ghost done: nat)
    requires WellFormed(fs.tree) && |normpath| < NPOS && Pieces(normpath, stack, ps) && StartsLike(normpath, stack, ps)
    requires Good(stack)
    modifies fs
    ensures Ends(old(fs.tree), fs.tree, stack, refused, result, first, done)
  {
    var sepPos: nat := 0;
    var ret := EXISTS;
    var failed := false;
    first, done := 0, 0;
    ghost var t0 := fs.tree;
    NothingMadeYet(t0, stack);
    while sepPos != NPOS
      invariant sepPos == NPOS || sepPos <= |normpath|
      invariant LoopInv(t0, fs.tree, stack, ps, sepPos, ret, first, done)
      decreases sepPos != NPOS, |normpath| - sepPos
    {
      sepPos, ret, failed, first, done := Round(fs, normpath, sepPos, ret, refused, t0, stack, ps, first, done);
      if failed {
        return FileError, first, done;
      }
    }
    LoopEnds(t0, fs.tree, stack, refused, ps, ret, first, done);
    result := Done(ret);
  }

  /** make_all_dirs(). `refused`: the directories that mkdir() refuses for a reason that is not in the tree. `first` and
      `done` count the prefixes that existed and those dealt with. */
  method MakeDirs(fs: FileSystem, path: string, cwd: string, refused: set<seq<string>>)
    returns (result: Result, ghost first: nat, ghost done: nat)
    requires WellFormed(fs.tree) && Canonical(cwd) && |path| < NPOS && |Normal(path, cwd)| < NPOS
    modifies fs
    ensures path == "" ==> result == UsageError && fs.tree == old(fs.tree)
    ensures path != "" ==> Ends(old(fs.tree), fs.tree, StackOf(path, cwd), refused, result, first, done)
  {
    var normpath := NormalizePath(path, cwd);
    if path == "" {
      return UsageError, 0, 0;
    }
    ghost var ps := PiecesOf(path, cwd);
    PathAlgebra.StackIsGood(path, cwd);
    result, first, done := MakePrefixes(fs, normpath, refused, StackOf(path, cwd), ps);
  }

  function LeadOf(path: string, cwd: string): string {
    if RootCwd(path, cwd) && StackOf(path, cwd) != [] then "/" else ""
  }

  // ---------- What the result means ----------

  /** The m-th prefix was missing, and belongs at `p`. */
  predicate MissingAt(t0: Tree, stack: seq<string>, m: nat, p: Loc)
    requires 0 < m <= |stack|
  {
    Missing(t0, stack, m) && Spot(t0, [], stack[..m]) == Some(p)
  }

  /** What has something in it is a directory. */
  lemma ProperPrefix(t: Tree, stack: seq<string>, m: nat)
    requires WellFormed(t) && Good(stack) && m < |stack| && Present(t, stack[..m + 1])
    ensures LeadsToDir(t, stack[..m])
  {
    assert stack[..m + 1][..m] == stack[..m] && GoodName(stack[..m + 1][m]);
    var p := Spot(t, [], stack[..m + 1]).value;
    assert Placed(t, p);
    assert p[..|p| - 1] == Walk(t, [], stack[..m], MAX_LINKS).value.0;
  }

  /** On success all prefixes are there, the proper ones leading to directories, and nothing else has changed; EXISTS means
      exactly that the tree is unchanged, and that the last component was there before; NO_ERROR means that the last
      component was created by this call. */
  lemma SuccessMeans(t0: Tree, t: Tree, stack: seq<string>, refused: set<seq<string>>, errno: Errno, first: nat, done: nat)
    requires Ends(t0, t, stack, refused, Done(errno), first, done)
    ensures forall m | 0 <= m <= |stack| :: Present(t, stack[..m])
    ensures forall m | 0 <= m < |stack| :: LeadsToDir(t, stack[..m])
    ensures errno == EXISTS || errno == NO_ERROR
    ensures errno == EXISTS <==> t == t0
    ensures errno == EXISTS <==> Present(t0, stack)
    ensures errno == NO_ERROR ==> stack != [] && exists p :: MissingAt(t0, stack, |stack|, p) && p in t && t[p] == Dir
  {
    assert stack[..|stack|] == stack;
    forall m | 0 <= m < |stack| ensures LeadsToDir(t, stack[..m]) {
      assert Present(t, stack[..m + 1]);
      ProperPrefix(t, stack, m);
    }
    if first < done {
      assert Missing(t0, stack, done);
      var p := Spot(t0, [], stack).value;
      SpotsContain(t0, stack, first, done, done);
      assert MissingAt(t0, stack, |stack|, p) && p in t && p !in t0;
    } else {
      assert t.Keys == t0.Keys;
      assert Present(t, stack[..|stack|]);
      assert t == t0;
    }
  }

  /** On success the path leads to a directory - unless the last component was there before and led to none: a file, or a
      link that leads to no directory. In this case, and in no other one, EXISTS is returned without a directory being there. */
  lemma DirectoryExactly(t0: Tree, t: Tree, stack: seq<string>, refused: set<seq<string>>, errno: Errno, first: nat, done: nat)
    requires Ends(t0, t, stack, refused, Done(errno), first, done)
    ensures LeadsToDir(t, stack) <==> !(Present(t0, stack) && !LeadsToDir(t0, stack))
    ensures errno == EXISTS && !LeadsToDir(t, stack) <==> Present(t0, stack) && !LeadsToDir(t0, stack)
    ensures errno == NO_ERROR ==> LeadsToDir(t, stack)
  {
    SuccessMeans(t0, t, stack, refused, errno, first, done);
    if errno == NO_ERROR {
      var p :| MissingAt(t0, stack, |stack|, p) && p in t && t[p] == Dir;
      assert stack[..|stack|] == stack && GoodName(stack[|stack| - 1]);
      SpotStable(t0, t, Spots(t0, stack, first, done), stack);
      WalkToSpot(t, [], stack);
    }
  }

  /** However it ends, everything that was there is still there, and what is new are directories at the places of a
      contiguous run of prefixes. */
  lemma CreatedRun(t0: Tree, t: Tree, stack: seq<string>, first: nat, done: nat)
    requires Made(t0, t, stack, first, done)
    ensures forall p | p in t0 :: p in t && t[p] == t0[p]
    ensures forall p | p in t && p !in t0 :: t[p] == Dir && exists m | first < m <= done :: MissingAt(t0, stack, m, p)
    ensures forall m, p | first < m <= done && MissingAt(t0, stack, m, p) :: p in t && t[p] == Dir
  {
    forall p | p in t && p !in t0 ensures exists m | first < m <= done :: MissingAt(t0, stack, m, p) {
      var m := SpotsMember(t0, stack, first, done, p);
    }
    forall m, p | first < m <= done && MissingAt(t0, stack, m, p) ensures p in t && t[p] == Dir {
      SpotsContain(t0, stack, first, done, m);
    }
  }

  /** Each new directory is inside the one before. */
  lemma CreatedInside(t0: Tree, t: Tree, stack: seq<string>, first: nat, done: nat, m: nat)
    requires Made(t0, t, stack, first, done) && first < m < done
    ensures exists p :: MissingAt(t0, stack, m, p) && MissingAt(t0, stack, m + 1, p + [stack[m]])
  {
    assert Missing(t0, stack, m) && Missing(t0, stack, m + 1);
    NextIsInside(t0, stack, m);
    var p := Spot(t0, [], stack[..m]).value;
    assert MissingAt(t0, stack, m, p) && MissingAt(t0, stack, m + 1, p + [stack[m]]);
  }

  lemma {:induction false} SpotsMember(t0: Tree, stack: seq<string>, first: nat, k: nat, p: Loc) returns (m: nat)
    requires first <= k <= |stack| && AllMissing(t0, stack, first, k) && p in Spots(t0, stack, first, k)
    ensures first < m <= k && MissingAt(t0, stack, m, p)
  {
    assert Missing(t0, stack, k);
    if Spot(t0, [], stack[..k]).value == p {
      m := k;
    } else {
      m := SpotsMember(t0, stack, first, k - 1, p);
    }
  }

  lemma {:induction false} SpotsContain(t0: Tree, stack: seq<string>, first: nat, k: nat, m: nat)
    requires first < m <= k <= |stack| && AllMissing(t0, stack, first, k) && Missing(t0, stack, m)
    ensures Spot(t0, [], stack[..m]).value in Spots(t0, stack, first, k)
  {
    assert Missing(t0, stack, k);
    if m < k {
      SpotsContain(t0, stack, first, k - 1, m);
    }
  }

  /** It happens: EXISTS for a regular file, and for a dangling link. */
  lemma ExistsMayBeFile(name: string, other: string, node: Node)
    requires GoodName(name) && GoodName(other) && other != name
    requires node == File || node == Link(true, [other])
    ensures var t := map[[] := Dir, [name] := node];
            Ends(t, t, [name], {}, Done(EXISTS), 1, 1) && !LeadsToDir(t, [name])
  {
    var t: Tree := map[[] := Dir, [name] := node];
    assert [name][..1] == [name] && [name][..0] == [];
    assert Walk(t, [], [], MAX_LINKS) == Some(([], MAX_LINKS));
    assert [] + [name] == [name] && [] + [other] == [other];
    assert Spot(t, [], [name]) == Some([name]);
    assert Present(t, [name][..1]) && Present(t, [name][..0]);
    assert Grown(t, t, {});
    assert Placed(t, [name]);
    if node.Link? {
      assert [other] + [name][1..] == [other];
      assert Walk(t, [], [other], MAX_LINKS - 1) == Walk(t, [other], [], MAX_LINKS - 1) == Some(([other], MAX_LINKS - 1));
      assert Walk(t, [], [name], MAX_LINKS) == Some(([other], MAX_LINKS - 1));
    } else {
      assert Walk(t, [], [name], MAX_LINKS) == Walk(t, [name], [], MAX_LINKS) == Some(([name], MAX_LINKS));
    }
  }
}
