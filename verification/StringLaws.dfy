/** What split() promises, stated without its loops: join() is its inverse, and that settles the result. */
module StringLaws {
  import opened StdString
  import opened Strings

  function Join(parts: seq<string>, sep: string): string {
    if parts == [] then "" else if |parts| == 1 then parts[0] else parts[0] + sep + Join(parts[1..], sep)
  }

  /** The separator occurs nowhere in `s`. */
  ghost predicate Free(s: string, sep: string) {
    forall j | 0 <= j :: !At(s, sep, j)
  }

  /** In `part + sep` the separator does not occur before the end of the part. */
  ghost predicate CutFirst(part: string, sep: string) {
    forall j | 0 <= j < |part| :: !At(part + sep, sep, j)
  }

  ghost predicate AllCutFirst(parts: seq<string>, sep: string) {
    forall k | 0 <= k < |parts| :: CutFirst(parts[k], sep)
  }

  /** The string was cut at the leftmost separators, and no more often than allowed. */
  ghost predicate Leftmost(parts: seq<string>, sep: string, maxSplits: nat) {
    && parts != []
    && AllCutFirst(parts[..|parts| - 1], sep)
    && (Free(parts[|parts| - 1], sep) || (maxSplits > 0 && |parts| == maxSplits + 1))
    && (maxSplits > 0 ==> |parts| <= maxSplits + 1)
  }

  function Keeping(str: string, sep: string, maxSplits: nat): Input {
    Input(str, sep, true, false, maxSplits)
  }

  // ---------- termination ----------

  lemma {:induction false} StaysOver(j: Input, k: nat, m: nat)
    requires |j.str| < NPOS && k <= m && Rounds(j, k).Over?
    ensures Rounds(j, m) == Rounds(j, k)
  {
    if k < m {
      StaysOver(j, k, m - 1);
    }
  }

  /** There is at most one result. */
  lemma YieldsOnce(j: Input, parts: seq<string>, others: seq<string>)
    requires |j.str| < NPOS && Yields(j, parts) && Yields(j, others)
    ensures parts == others
  {
    var k: nat :| Rounds(j, k) == Over(parts);
    var m: nat :| Rounds(j, m) == Over(others);
    StaysOver(j, if k < m then k else m, if k < m then m else k);
  }

  /** Where Separates() fails the first position is never left. */
  lemma {:induction false} StaysAtStart(j: Input, k: nat)
    requires |j.str| < NPOS && !Separates(j)
    ensures Rounds(j, k).Running? && Rounds(j, k).pos == 0
  {
    if k > 0 {
      StaysAtStart(j, k - 1);
    }
  }

  /** A limit is kept in every mode. */
  ghost predicate Limited(j: Input, s: State) {
    j.maxSplits > 0 ==> |s.parts| <= if s.Running? then j.maxSplits else j.maxSplits + 1
  }

  lemma {:induction false} StaysLimited(j: Input, k: nat)
    requires |j.str| < NPOS
    ensures Limited(j, Rounds(j, k))
  {
    if k > 0 {
      StaysLimited(j, k - 1);
    }
  }

  /** Every round makes progress. */
  lemma Advances(j: Input, s: State)
    requires |j.str| < NPOS && Fits(j, s) && s.Running? && Separates(j) && Limited(j, s)
    ensures var t := Step(j, s);
            t.Running? ==> t.pos > s.pos || (t.pos == s.pos && |s.parts| < |t.parts| <= j.maxSplits)
  {
  }

  lemma {:induction false} EndsFrom(j: Input, k: nat)
    requires |j.str| < NPOS && Separates(j) && Rounds(j, k).Running?
    ensures exists parts :: Yields(j, parts)
    decreases |j.str| - Rounds(j, k).pos, j.maxSplits - |Rounds(j, k).parts|
  {
    StaysLimited(j, k);
    StaysLimited(j, k + 1);
    Advances(j, Rounds(j, k));
    match Rounds(j, k + 1)
    case Over(parts) => assert Yields(j, parts);
    case Running(_, _) => EndsFrom(j, k + 1);
  }

  /** split() ends exactly if Separates() holds. */
  lemma SplitEnds(j: Input)
    requires |j.str| < NPOS
    ensures (exists parts :: Yields(j, parts)) <==> Separates(j)
  {
    if Separates(j) {
      assert Rounds(j, 0) == Running(0, []);
      EndsFrom(j, 0);
    } else {
      forall parts ensures !Yields(j, parts) {
        forall k: nat ensures Rounds(j, k) != Over(parts) {
          StaysAtStart(j, k);
        }
      }
    }
  }

  lemma LimitHolds(j: Input, parts: seq<string>)
    requires |j.str| < NPOS && Yields(j, parts) && j.maxSplits > 0
    ensures |parts| <= j.maxSplits + 1
  {
    var k: nat :| Rounds(j, k) == Over(parts);
    StaysLimited(j, k);
  }

  // ---------- KEEP_EMPTY ----------

  lemma {:induction false} JoinLast(parts: seq<string>, a: string, b: string, sep: string)
    ensures Join(parts + [a] + [b], sep) == Join(parts + [a + sep + b], sep)
  {
    if parts == [] {
      assert Join([a] + [b], sep) == a + sep + b;
    } else {
      assert (parts + [a] + [b])[1..] == parts[1..] + [a] + [b];
      assert (parts + [a + sep + b])[1..] == parts[1..] + [a + sep + b];
      JoinLast(parts[1..], a, b, sep);
    }
  }

  lemma Around(s: string, a: nat, b: nat, c: nat)
    requires a <= b <= c <= |s|
    ensures s[a..] == s[a..b] + s[b..c] + s[c..]
  {
  }

  ghost predicate Joined(j: Input, s: State)
    requires Fits(j, s)
  {
    Join(if s.Running? then s.parts + [j.str[s.pos..]] else s.parts, j.sep) == j.str
  }

  lemma StepJoins(j: Input, s: State)
    requires |j.str| < NPOS && Fits(j, s) && j.keepEmpty && !j.stripParts && Joined(j, s)
    ensures Joined(j, Step(j, s))
  {
    if s.Running? {
      var end := TokenEnd(j, s.pos, |s.parts|);
      if end != NPOS {
        var token, rest := j.str[s.pos..end], j.str[end + |j.sep|..];
        assert Step(j, s) == Running(end + |j.sep|, s.parts + [token]);
        CutsAt(j.str, j.sep, s.pos, end);
        JoinLast(s.parts, token, rest, j.sep);
      }
    }
  }

  lemma CutsAt(str: string, sep: string, pos: nat, end: nat)
    requires |str| < NPOS && pos <= |str| && end == Find(str, sep, pos) && end != NPOS
    ensures str[pos..] == str[pos..end] + sep + str[end + |sep|..]
  {
    FindsFirst(str, sep, pos);
    AtIs(str, sep, end);
    Around(str, pos, end, end + |sep|);
  }

  lemma {:induction false} StaysJoined(j: Input, k: nat)
    requires |j.str| < NPOS && j.keepEmpty && !j.stripParts
    ensures Joined(j, Rounds(j, k))
  {
    if k == 0 {
      assert [] + [j.str[0..]] == [j.str];
    } else {
      StaysJoined(j, k - 1);
      StepJoins(j, Rounds(j, k - 1));
    }
  }

  /** Joining the parts gives the string back, whatever the limit. */
  lemma JoinUndoesSplit(str: string, sep: string, maxSplits: nat, parts: seq<string>)
    requires |str| < NPOS && Yields(Keeping(str, sep, maxSplits), parts)
    ensures Join(parts, sep) == str
  {
    var j := Keeping(str, sep, maxSplits);
    var k: nat :| Rounds(j, k) == Over(parts);
    StaysJoined(j, k);
  }

  lemma SliceOfSlice<T>(s: seq<T>, a: nat, b: nat, c: nat, d: nat)
    requires a <= b <= |s| && c <= d <= b - a
    ensures s[a..b][c..d] == s[a + c..a + d]
  {
    forall i | 0 <= i < d - c ensures s[a..b][c..d][i] == s[a + c..a + d][i] {
      assert s[a..b][c + i] == s[a + c + i];
    }
  }

  lemma AtSlice(s: string, sep: string, a: nat, b: nat, j: nat)
    requires a <= b <= |s| && j + |sep| <= b - a
    ensures At(s[a..b], sep, j) == At(s, sep, a + j)
  {
    SliceOfSlice(s, a, b, j, j + |sep|);
    AtIs(s[a..b], sep, j);
    AtIs(s, sep, a + j);
  }

  lemma FreeSlice(s: string, sep: string, a: nat, b: nat)
    requires a <= b <= |s| && forall i | a <= i <= b - |sep| :: !At(s, sep, i)
    ensures Free(s[a..b], sep)
  {
    forall j | 0 <= j ensures !At(s[a..b], sep, j) {
      if j + |sep| <= b - a {
        AtSlice(s, sep, a, b, j);
      }
    }
  }

  lemma CutFirstSlice(s: string, sep: string, a: nat, b: nat)
    requires a <= b && At(s, sep, b)
    ensures s[a..b] + sep == s[a..b + |sep|]
    ensures CutFirst(s[a..b], sep) <==> forall i | a <= i < b :: !At(s, sep, i)
  {
    var t := s[a..b + |sep|];
    AtIs(s, sep, b);
    assert s[a..b] + sep == t;
    forall j | 0 <= j < b - a ensures At(t, sep, j) == At(s, sep, a + j) {
      AtSlice(s, sep, a, b + |sep|, j);
    }
    if CutFirst(s[a..b], sep) {
      forall i | a <= i < b ensures !At(s, sep, i) {
        assert !At(t, sep, i - a);
      }
    }
  }

  /** A token up to the next separator. */
  lemma TokenCutFirst(str: string, sep: string, pos: nat, pos2: nat)
    requires |str| < NPOS && pos <= |str| && pos2 == Find(str, sep, pos)
    ensures pos2 == NPOS ==> Free(str[pos..], sep)
    ensures pos2 != NPOS ==> CutFirst(str[pos..pos2], sep)
    ensures pos2 != NPOS && sep != "" ==> Free(str[pos..pos2], sep)
  {
    FindsFirst(str, sep, pos);
    if pos2 == NPOS {
      assert str[pos..] == str[pos..|str|];
      FreeSlice(str, sep, pos, |str|);
    } else {
      CutFirstSlice(str, sep, pos, pos2);
      if sep != "" {
        FreeSlice(str, sep, pos, pos2);
      }
    }
  }

  ghost predicate CutLeftmost(j: Input, s: State) {
    if s.Running? then AllCutFirst(s.parts, j.sep) else Leftmost(s.parts, j.sep, j.maxSplits)
  }

  lemma StepCutsLeftmost(j: Input, s: State)
    requires |j.str| < NPOS && Fits(j, s) && j.sep != "" && j.keepEmpty && !j.stripParts && CutLeftmost(j, s) && Limited(j, s)
    ensures CutLeftmost(j, Step(j, s))
  {
    if s.Running? {
      var pos, parts := s.pos, s.parts;
      var end := TokenEnd(j, pos, |parts|);
      TokenCutFirst(j.str, j.sep, pos, Find(j.str, j.sep, pos));
      if end == NPOS {
        assert (parts + [j.str[pos..]])[..|parts|] == parts;
      }
    }
  }

  lemma {:induction false} StaysLeftmost(j: Input, k: nat)
    requires |j.str| < NPOS && j.sep != "" && j.keepEmpty && !j.stripParts
    ensures CutLeftmost(j, Rounds(j, k))
  {
    if k > 0 {
      StaysLeftmost(j, k - 1);
      StaysLimited(j, k - 1);
      StepCutsLeftmost(j, Rounds(j, k - 1));
    }
  }

  /** The next separator ends the next part. */
  lemma FindsEnd(str: string, pos: nat, part: string, sep: string, after: string)
    requires |str| < NPOS && pos <= |str| && str[pos..] == part + sep + after && CutFirst(part, sep)
    ensures Find(str, sep, pos) == pos + |part| && str[pos..pos + |part|] == part
    ensures pos + |part| + |sep| <= |str| && str[pos + |part| + |sep|..] == after
  {
    var end := pos + |part|;
    Pieces(str, pos, part, sep, after);
    AtIs(str, sep, end);
    CutFirstSlice(str, sep, pos, end);
    FindsFirst(str, sep, pos);
  }

  lemma Pieces(str: string, pos: nat, part: string, sep: string, after: string)
    requires pos <= |str| && str[pos..] == part + sep + after
    ensures var end := pos + |part|;
            && end + |sep| <= |str|
            && str[pos..end] == part && str[end..end + |sep|] == sep && str[end + |sep|..] == after
  {
    var s := part + sep + after;
    assert str[pos..pos + |part|] == s[..|part|] == part;
    assert str[pos + |part|..pos + |part| + |sep|] == s[|part|..|part| + |sep|] == sep;
    assert str[pos + |part| + |sep|..] == s[|part| + |sep|..] == after;
  }

  lemma FindsNone(str: string, pos: nat, sep: string)
    requires |str| < NPOS && pos <= |str| && Free(str[pos..], sep)
    ensures Find(str, sep, pos) == NPOS
  {
    FindsFirst(str, sep, pos);
    var i := Find(str, sep, pos);
    if i != NPOS {
      assert str[pos..|str|] == str[pos..];
      AtSlice(str, sep, pos, |str|, i - pos);
    }
  }

  lemma StartReached(j: Input)
    requires |j.str| < NPOS
    ensures Reaches(j, Running(0, []))
  {
    assert Rounds(j, 0) == Running(0, []);
  }

  /** The parts of a string that was joined are found one by one. */
  lemma {:induction false} FindsPart(j: Input, parts: seq<string>, k: nat) returns (pos: nat)
    requires |j.str| < NPOS && j.sep != "" && j.keepEmpty && !j.stripParts
    requires j.str == Join(parts, j.sep) && Leftmost(parts, j.sep, j.maxSplits) && k < |parts|
    ensures pos <= |j.str| && j.str[pos..] == Join(parts[k..], j.sep)
    ensures Reaches(j, Running(pos, parts[..k]))
  {
    if k == 0 {
      pos := 0;
      assert parts[0..] == parts && j.str[0..] == j.str && parts[..0] == [];
      StartReached(j);
    } else {
      var before := FindsPart(j, parts, k - 1);
      pos := FindsNext(j, parts, k - 1, before);
    }
  }

  lemma PartAt(parts: seq<string>, k: nat, sep: string, maxSplits: nat)
    requires Leftmost(parts, sep, maxSplits) && k + 1 < |parts|
    ensures CutFirst(parts[k], sep) && (maxSplits > 0 ==> k < maxSplits)
    ensures Join(parts[k..], sep) == parts[k] + sep + Join(parts[k + 1..], sep)
    ensures parts[..k] + [parts[k]] == parts[..k + 1]
  {
    var rest := parts[k..];
    assert rest[0] == parts[k] && rest[1..] == parts[k + 1..];
    assert parts[..|parts| - 1][k] == parts[k];
  }

  lemma FindsNext(j: Input, parts: seq<string>, k: nat, before: nat) returns (pos: nat)
    requires |j.str| < NPOS && j.sep != "" && j.keepEmpty && !j.stripParts
    requires Leftmost(parts, j.sep, j.maxSplits) && k + 1 < |parts|
    requires before <= |j.str| && j.str[before..] == Join(parts[k..], j.sep) && Reaches(j, Running(before, parts[..k]))
    ensures pos <= |j.str| && j.str[pos..] == Join(parts[k + 1..], j.sep)
    ensures Reaches(j, Running(pos, parts[..k + 1]))
  {
    var part := parts[k];
    PartAt(parts, k, j.sep, j.maxSplits);
    FindsEnd(j.str, before, part, j.sep, Join(parts[k + 1..], j.sep));
    var end := before + |part|;
    pos := end + |j.sep|;
    assert TokenEnd(j, before, |parts[..k]|) == end && Token(j, before, end) == part;
    assert Keep(j, parts[..k], part) == parts[..k + 1];
    CutRound(j, before, parts[..k], end, parts[..k + 1]);
  }

  lemma FindsLast(j: Input, parts: seq<string>)
    requires |j.str| < NPOS && j.sep != "" && j.keepEmpty && !j.stripParts
    requires j.str == Join(parts, j.sep) && Leftmost(parts, j.sep, j.maxSplits)
    ensures Yields(j, parts)
  {
    var n := |parts| - 1;
    var pos := FindsPart(j, parts, n);
    var part := parts[n];
    assert parts[n..] == [part] && parts[..n] + [part] == parts;
    if !(j.maxSplits > 0 && n == j.maxSplits) {
      FindsNone(j.str, pos, j.sep);
    }
    CutRound(j, pos, parts[..n], NPOS, parts);
  }

  /** What split() returns under KEEP_EMPTY: the one list that joins to the string and was cut leftmost. */
  lemma SplitExactly(str: string, sep: string, maxSplits: nat, parts: seq<string>)
    requires |str| < NPOS && sep != ""
    ensures Yields(Keeping(str, sep, maxSplits), parts) <==> Join(parts, sep) == str && Leftmost(parts, sep, maxSplits)
  {
    var j := Keeping(str, sep, maxSplits);
    if Yields(j, parts) {
      var k: nat :| Rounds(j, k) == Over(parts);
      StaysJoined(j, k);
      StaysLeftmost(j, k);
    } else if Join(parts, sep) == str && Leftmost(parts, sep, maxSplits) {
      FindsLast(j, parts);
      assert false;
    }
  }

  /** split() undoes join() exactly when no part, followed by a separator, holds an earlier one. */
  lemma SplitUndoesJoin(parts: seq<string>, sep: string)
    requires |Join(parts, sep)| < NPOS && sep != ""
    ensures Yields(Keeping(Join(parts, sep), sep, 0), parts) <==> Leftmost(parts, sep, 0)
  {
    SplitExactly(Join(parts, sep), sep, 0, parts);
  }

  lemma OneCharacter(part: string, c: char)
    requires c !in part
    ensures CutFirst(part, [c]) && Free(part, [c])
  {
    forall s, j | 0 <= j < |part| && (s == part || s == part + [c]) ensures !At(s, [c], j) {
      assert s[j..j + 1][0] == part[j];
    }
  }

  /** For a separator of one character it is enough that the parts are free of it ... */
  lemma SplitUndoesJoinByChar(parts: seq<string>, c: char)
    requires parts != [] && forall k | 0 <= k < |parts| :: c !in parts[k]
    requires |Join(parts, [c])| < NPOS
    ensures Yields(Keeping(Join(parts, [c]), [c], 0), parts)
  {
    forall k | 0 <= k < |parts| ensures CutFirst(parts[k], [c]) && Free(parts[k], [c]) {
      OneCharacter(parts[k], c);
    }
    SplitUndoesJoin(parts, [c]);
  }

  /** ... for a longer one it is not: a part may end with the beginning of it. */
  lemma LongSeparatorShifts()
    ensures Free("xa", "aa") && Free("y", "aa")
    ensures Yields(Keeping(Join(["xa", "y"], "aa"), "aa", 0), ["x", "ay"])
  {
    var sep := "aa";
    var str := Join(["xa", "y"], sep);
    assert ["x", "ay"][1..] == ["ay"] && ["xa", "y"][1..] == ["y"];
    assert str == "xaaay" == Join(["x", "ay"], sep);
    forall t, j | t in ["ay", "xa", "y", "xaa"] && j in [0, 1] && !(t == "xaa" && j == 1) ensures !At(t, sep, j) {
      if j + 2 <= |t| {
        assert t[j..j + 2] == [t[j], t[j + 1]];
      }
    }
    assert "x" + sep == "xaa";
    assert AllCutFirst(["x", "ay"][..1], sep);
    SplitExactly(str, sep, 0, ["x", "ay"]);
  }

  // ---------- the other modes ----------

  function StripAll(parts: seq<string>): (r: seq<string>)
    ensures |r| == |parts|
  {
    seq(|parts|, k requires 0 <= k < |parts| => Stripped(parts[k], ""))
  }

  /** Each string loses exactly its strippable margins. */
  lemma AllStripped(parts: seq<string>)
    ensures forall k | 0 <= k < |parts| :: IsStripped(parts[k], StripAll(parts)[k], "")
  {
    forall k | 0 <= k < |parts| ensures IsStripped(parts[k], StripAll(parts)[k], "") {
      StripsMargins(parts[k], "");
    }
  }

  lemma StripAllAdd(parts: seq<string>, token: string)
    ensures StripAll(parts + [token]) == StripAll(parts) + [Stripped(token, "")]
  {
  }

  function Dropped(s: State): State {
    match s
    case Running(pos, parts) => Running(pos, NonEmpty(parts))
    case Over(parts) => Over(NonEmpty(parts))
  }

  function StrippedState(s: State): State {
    match s
    case Running(pos, parts) => Running(pos, StripAll(parts))
    case Over(parts) => Over(StripAll(parts))
  }

  /** Without a limit the default mode is, round by round, KEEP_EMPTY without the empty parts. */
  lemma {:induction false} DropsEmpty(j: Input, k: nat)
    requires |j.str| < NPOS && j.keepEmpty && j.maxSplits == 0
    ensures Reaches(j.(keepEmpty := false), Dropped(Rounds(j, k)))
  {
    var drop := j.(keepEmpty := false);
    if k == 0 {
      assert Rounds(drop, 0) == Dropped(Running(0, []));
    } else {
      DropsEmpty(j, k - 1);
      StepDrops(j, Rounds(j, k - 1));
      Reach(drop, Dropped(Rounds(j, k - 1)));
    }
  }

  lemma StepDrops(j: Input, s: State)
    requires |j.str| < NPOS && Fits(j, s) && j.keepEmpty && j.maxSplits == 0
    ensures Step(j.(keepEmpty := false), Dropped(s)) == Dropped(Step(j, s))
  {
    if s.Running? {
      var pos, end := s.pos, Find(j.str, j.sep, s.pos);
      NonEmptyAdd(s.parts, Token(j, pos, end));
      if At(j.str, j.sep, pos) {
        assert j.str[pos..end] == "";
      }
    }
  }

  /** STRIP_PARTS strips, round by round, the parts found without it. */
  lemma {:induction false} StripsParts(j: Input, k: nat)
    requires |j.str| < NPOS && j.keepEmpty && !j.stripParts
    ensures Reaches(j.(stripParts := true), StrippedState(Rounds(j, k)))
  {
    var strip := j.(stripParts := true);
    if k == 0 {
      assert Rounds(strip, 0) == StrippedState(Running(0, []));
    } else {
      StripsParts(j, k - 1);
      StepStrips(j, Rounds(j, k - 1));
      Reach(strip, StrippedState(Rounds(j, k - 1)));
    }
  }

  lemma StepStrips(j: Input, s: State)
    requires |j.str| < NPOS && Fits(j, s) && j.keepEmpty && !j.stripParts
    ensures Step(j.(stripParts := true), StrippedState(s)) == StrippedState(Step(j, s))
  {
    if s.Running? {
      StripAllAdd(s.parts, Token(j, s.pos, TokenEnd(j, s.pos, |s.parts|)));
    }
  }

  /** All modes in terms of KEEP_EMPTY: parts are stripped first, and empty ones dropped last. */
  lemma ModesAgree(j: Input, parts: seq<string>)
    requires |j.str| < NPOS && j.keepEmpty && !j.stripParts && Yields(j, parts)
    ensures Yields(j.(stripParts := true), StripAll(parts))
    ensures j.maxSplits == 0 ==> Yields(j.(keepEmpty := false), NonEmpty(parts))
    ensures j.maxSplits == 0 ==> Yields(j.(keepEmpty := false, stripParts := true), NonEmpty(StripAll(parts)))
  {
    var k: nat :| Rounds(j, k) == Over(parts);
    StripsParts(j, k);
    if j.maxSplits == 0 {
      DropsEmpty(j, k);
      var strip := j.(stripParts := true);
      var m: nat :| Rounds(strip, m) == Over(StripAll(parts));
      DropsEmpty(strip, m);
    }
  }

  // ---------- a limit, in any mode ----------

  /** The unlimited split, from state `s` on, up to the round that finds part number n, or to its end. */
  function UpToPart(j: Input, n: nat, s: State): (t: State)
    requires |j.str| < NPOS && j.sep != "" && j.maxSplits == 0 && Fits(j, s)
    ensures Fits(j, t) && (t.Running? ==> |t.parts| >= n)
    decreases if s.Running? then |j.str| - s.pos + 1 else 0
  {
    if s.Over? || |s.parts| >= n then s
    else
      Advances(j, s);
      UpToPart(j, n, Step(j, s))
  }

  /** The position behind the separators at `pos`; under KEEP_EMPTY none are skipped. */
  function Skipped(j: Input, pos: nat): (next: nat)
    requires j.sep != "" && pos <= |j.str|
    ensures pos <= next <= |j.str|
    decreases |j.str| - pos
  {
    if !j.keepEmpty && At(j.str, j.sep, pos) then Skipped(j, pos + |j.sep|) else pos
  }

  /** The result under a limit, told by the unlimited split: it is the same if that ends first, or with its part number
      max_splits; otherwise its first max_splits parts are kept, and what is left of the string, behind the separators that
      follow, is the last part, if it is one. */
  function LimitedParts(j: Input): seq<string>
    requires |j.str| < NPOS && j.sep != ""
  {
    match UpToPart(j.(maxSplits := 0), j.maxSplits, Running(0, []))
    case Over(parts) => parts
    case Running(pos, parts) => Keep(j, parts, Token(j, Skipped(j, pos), NPOS))
  }

  /** Below the limit nobody notices it. */
  lemma SameStep(j: Input, s: State)
    requires |j.str| < NPOS && Fits(j, s) && (s.Running? && j.maxSplits > 0 ==> |s.parts| < j.maxSplits)
    ensures Step(j, s) == Step(j.(maxSplits := 0), s)
  {
  }

  lemma {:induction false} LimitReached(j: Input, s: State)
    requires |j.str| < NPOS && j.sep != "" && j.maxSplits > 0 && Reaches(j, s) && Fits(j, s) && |s.parts| <= j.maxSplits
    ensures var t := UpToPart(j.(maxSplits := 0), j.maxSplits, s);
            Reaches(j, t) && |t.parts| <= j.maxSplits
    decreases if s.Running? then |j.str| - s.pos + 1 else 0
  {
    if s.Running? && |s.parts| < j.maxSplits {
      Advances(j.(maxSplits := 0), s);
      SameStep(j, s);
      Reach(j, s);
      AddsOne(j, s);
      LimitReached(j, Step(j, s));
    }
  }

  lemma AddsOne(j: Input, s: State)
    requires |j.str| < NPOS && Fits(j, s)
    ensures s.parts <= Step(j, s).parts && |Step(j, s).parts| <= |s.parts| + 1
  {
  }

  lemma {:induction false} SkipAll(j: Input, pos: nat, parts: seq<string>)
    requires |j.str| < NPOS && j.sep != "" && pos <= |j.str| && Reaches(j, Running(pos, parts))
    ensures Reaches(j, Running(Skipped(j, pos), parts)) && (j.keepEmpty || !At(j.str, j.sep, Skipped(j, pos)))
    decreases |j.str| - pos
  {
    if !j.keepEmpty && At(j.str, j.sep, pos) {
      SkipRound(j, pos, parts);
      SkipAll(j, pos + |j.sep|, parts);
    }
  }

  /** What split() returns under a limit, in any mode. */
  lemma LimitExactly(j: Input, parts: seq<string>)
    requires |j.str| < NPOS && j.sep != "" && j.maxSplits > 0
    ensures Yields(j, parts) <==> parts == LimitedParts(j)
  {
    StartReached(j);
    LimitReached(j, Running(0, []));
    var t := UpToPart(j.(maxSplits := 0), j.maxSplits, Running(0, []));
    if t.Running? {
      SkipAll(j, t.pos, t.parts);
      CutRound(j, Skipped(j, t.pos), t.parts, NPOS, LimitedParts(j));
    }
    assert Yields(j, LimitedParts(j));
    if Yields(j, parts) {
      YieldsOnce(j, parts, LimitedParts(j));
    }
  }

  function Repeated(sep: string, times: nat): string {
    if times == 0 then "" else sep + Repeated(sep, times - 1)
  }

  lemma Rejoin(s: string, a: nat, b: nat, c: nat)
    requires a <= b <= c <= |s|
    ensures s[a..c] == s[a..b] + s[b..c]
  {
  }

  /** Only separators are skipped, and all of them. */
  lemma {:induction false} SkipsSeparators(j: Input, pos: nat) returns (times: nat)
    requires j.sep != "" && pos <= |j.str|
    ensures j.str[pos..Skipped(j, pos)] == Repeated(j.sep, times)
    ensures j.keepEmpty ==> times == 0
    ensures !j.keepEmpty ==> !At(j.str, j.sep, Skipped(j, pos))
    decreases |j.str| - pos
  {
    times := 0;
    if !j.keepEmpty && At(j.str, j.sep, pos) {
      var more := SkipsSeparators(j, pos + |j.sep|);
      times := more + 1;
      AtIs(j.str, j.sep, pos);
      var next := Skipped(j, pos);
      Rejoin(j.str, pos, pos + |j.sep|, next);
    }
  }

  /** `tail` is what is left of the string from `cut` on, stripped if parts are. */
  ghost predicate IsTail(j: Input, cut: nat, tail: string) {
    cut <= |j.str| && if j.stripParts then IsStripped(j.str[cut..], tail, "") else tail == j.str[cut..]
  }

  /** From `pos` to `cut` there are separators, and no other one follows; the tail behind them is added, if there is any. */
  ghost predicate AddsTail(j: Input, pos: nat, found: seq<string>, parts: seq<string>, cut: nat, times: nat, tail: string) {
    && pos <= cut <= |j.str| && j.str[pos..cut] == Repeated(j.sep, times) && !At(j.str, j.sep, cut)
    && IsTail(j, cut, tail) && parts == if tail == "" then found else found + [tail]
  }

  lemma TailAdded(j: Input, pos: nat, found: seq<string>) returns (cut: nat, times: nat, tail: string)
    requires |j.str| < NPOS && j.sep != "" && !j.keepEmpty && pos <= |j.str|
    ensures AddsTail(j, pos, found, Keep(j, found, Token(j, Skipped(j, pos), NPOS)), cut, times, tail)
  {
    cut := Skipped(j, pos);
    times := SkipsSeparators(j, pos);
    tail := Token(j, cut, NPOS);
    StripsMargins(j.str[cut..], "");
  }

  /** The default mode under a limit that is reached: behind the first max_splits parts come separators, and what is left behind all
      of them, if anything is, is the last part. */
  lemma DefaultTail(j: Input, parts: seq<string>) returns (cut: nat, times: nat, tail: string)
    requires |j.str| < NPOS && j.sep != "" && j.maxSplits > 0 && !j.keepEmpty && Yields(j, parts)
    requires UpToPart(j.(maxSplits := 0), j.maxSplits, Running(0, [])).Running?
    ensures var t := UpToPart(j.(maxSplits := 0), j.maxSplits, Running(0, []));
            AddsTail(j, t.pos, t.parts, parts, cut, times, tail)
  {
    LimitExactly(j, parts);
    var t := UpToPart(j.(maxSplits := 0), j.maxSplits, Running(0, []));
    cut, times, tail := TailAdded(j, t.pos, t.parts);
  }

  /** What a state has found is a beginning of the result. */
  lemma {:induction false} FoundIsKept(j: Input, s: State, parts: seq<string>)
    requires |j.str| < NPOS && j.sep != "" && j.maxSplits == 0 && Reaches(j, s) && Fits(j, s) && Yields(j, parts)
    ensures s.parts <= parts
    decreases if s.Running? then |j.str| - s.pos + 1 else 0
  {
    match s
    case Over(found) => YieldsOnce(j, found, parts);
    case Running(_, _) =>
      Advances(j, s);
      AddsOne(j, s);
      Reach(j, s);
      FoundIsKept(j, Step(j, s), parts);
  }

  lemma {:induction false} PartReached(j: Input, n: nat, s: State)
    requires |j.str| < NPOS && j.sep != "" && j.maxSplits == 0 && Reaches(j, s) && Fits(j, s)
    ensures Reaches(j, UpToPart(j, n, s))
    decreases if s.Running? then |j.str| - s.pos + 1 else 0
  {
    if s.Running? && |s.parts| < n {
      Advances(j, s);
      Reach(j, s);
      PartReached(j, n, Step(j, s));
    }
  }

  /** The parts below the limit are those of the unlimited split. */
  lemma LimitKeepsFirst(j: Input, parts: seq<string>, free: seq<string>)
    requires |j.str| < NPOS && j.sep != "" && j.maxSplits > 0
    requires Yields(j, parts) && Yields(j.(maxSplits := 0), free)
    ensures if |free| < j.maxSplits then parts == free
            else j.maxSplits <= |parts| <= j.maxSplits + 1 && parts[..j.maxSplits] == free[..j.maxSplits]
  {
    var u := j.(maxSplits := 0);
    LimitExactly(j, parts);
    StartReached(j);
    StartReached(u);
    LimitReached(j, Running(0, []));
    PartReached(u, j.maxSplits, Running(0, []));
    var t := UpToPart(u, j.maxSplits, Running(0, []));
    FoundIsKept(u, t, free);
    if t.Over? {
      YieldsOnce(u, t.parts, free);
    }
  }

  lemma StrippedFree(s: string, sep: string)
    requires Free(s, sep)
    ensures Free(Stripped(s, ""), sep)
  {
    StripsMargins(s, "");
    var t := Stripped(s, "");
    var k :| 0 <= k <= |s| - |t| && s[k..k + |t|] == t;
    FreeSlice(s, sep, k, k + |t|);
  }

  ghost predicate AllFree(parts: seq<string>, sep: string) {
    forall k | 0 <= k < |parts| :: Free(parts[k], sep)
  }

  lemma StepFree(j: Input, s: State)
    requires |j.str| < NPOS && Fits(j, s) && j.sep != "" && j.maxSplits == 0 && AllFree(s.parts, j.sep)
    ensures AllFree(Step(j, s).parts, j.sep)
  {
    if s.Running? {
      var end := Find(j.str, j.sep, s.pos);
      TokenCutFirst(j.str, j.sep, s.pos, end);
      StrippedFree(if end == NPOS then j.str[s.pos..] else j.str[s.pos..end], j.sep);
    }
  }

  lemma {:induction false} StaysFree(j: Input, k: nat)
    requires |j.str| < NPOS && j.sep != "" && j.maxSplits == 0
    ensures AllFree(Rounds(j, k).parts, j.sep)
  {
    if k > 0 {
      StaysFree(j, k - 1);
      StepFree(j, Rounds(j, k - 1));
    }
  }

  /** Without a limit no part holds the separator, in any mode. */
  lemma PartsAreFree(j: Input, parts: seq<string>)
    requires |j.str| < NPOS && j.sep != "" && j.maxSplits == 0 && Yields(j, parts)
    ensures AllFree(parts, j.sep)
  {
    var k: nat :| Rounds(j, k) == Over(parts);
    StaysFree(j, k);
  }
}
