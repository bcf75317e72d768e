/** strip() and split() (src/string.cxx). */
module Strings {
  import opened StdString

  // ---------- strip() ----------

  /** std::isspace() in the C locale. */
  predicate IsSpace(c: char) {
    c == ' ' || c == '\t' || c == '\n' || c == '\r' || c == 11 as char || c == 12 as char
  }

  predicate Strippable(c: char, stripSet: string) {
    if stripSet == "" then IsSpace(c) else c in stripSet
  }

  predicate AllStrippable(s: string, stripSet: string) {
    forall c | c in s :: Strippable(c, stripSet)
  }

  /** `t` is `s` without its strippable margins. */
  ghost predicate IsStripped(s: string, t: string, stripSet: string) {
    && (t != "" ==> !Strippable(t[0], stripSet) && !Strippable(t[|t| - 1], stripSet))
    && exists k | 0 <= k <= |s| - |t| ::
         s[k..k + |t|] == t && AllStrippable(s[..k], stripSet) && AllStrippable(s[k + |t|..], stripSet)
  }

  /** The first position from `k` on that is not strippable ... */
  function Front(s: string, stripSet: string, k: nat): (r: nat)
    requires k <= |s|
    ensures k <= r <= |s|
    decreases |s| - k
  {
    if k < |s| && Strippable(s[k], stripSet) then Front(s, stripSet, k + 1) else k
  }

  /** ... and the end of what is left when the rest is stripped from behind. */
  function Back(s: string, stripSet: string, k: nat, n: nat): (r: nat)
    requires k <= n <= |s|
    ensures k <= r <= n
    decreases n
  {
    if k < n && Strippable(s[n - 1], stripSet) then Back(s, stripSet, k, n - 1) else n
  }

  function Stripped(s: string, stripSet: string): string {
    var k := Front(s, stripSet, 0);
    s[k..Back(s, stripSet, k, |s|)]
  }

  method Strip(s: string, stripSet: string) returns (t: string)
    ensures t == Stripped(s, stripSet)
  {
    t := s;
    ghost var k: nat := 0;
    while t != "" && Strippable(t[0], stripSet)
      invariant k <= |s| && t == s[k..] && Front(s, stripSet, k) == Front(s, stripSet, 0)
      decreases |t|
    {
      t := t[1..];
      k := k + 1;
    }
    ghost var n := |s|;
    while t != "" && Strippable(t[|t| - 1], stripSet)
      invariant k <= n <= |s| && t == s[k..n] && Back(s, stripSet, k, n) == Back(s, stripSet, k, |s|)
      decreases |t|
    {
      t := t[..|t| - 1];
      n := n - 1;
    }
  }

  lemma {:induction false} FrontIs(s: string, stripSet: string, k: nat)
    requires k <= |s|
    ensures var r := Front(s, stripSet, k);
            && (r < |s| ==> !Strippable(s[r], stripSet))
            && forall i | k <= i < r :: Strippable(s[i], stripSet)
    decreases |s| - k
  {
    if k < |s| && Strippable(s[k], stripSet) {
      FrontIs(s, stripSet, k + 1);
    }
  }

  lemma {:induction false} BackIs(s: string, stripSet: string, k: nat, n: nat)
    requires k <= n <= |s|
    ensures var r := Back(s, stripSet, k, n);
            && (r > k ==> !Strippable(s[r - 1], stripSet))
            && forall i | r <= i < n :: Strippable(s[i], stripSet)
  {
    if k < n && Strippable(s[n - 1], stripSet) {
      BackIs(s, stripSet, k, n - 1);
    }
  }

  /** What is strippable: white space if no set is given, and otherwise exactly the characters of the set. */
  lemma StrippableMeans(c: char, stripSet: string)
    ensures stripSet != "" ==> (Strippable(c, stripSet) <==> c in stripSet)
    ensures stripSet == "" ==> (Strippable(c, stripSet) <==> c in {' ', '\t', '\n', 11 as char, 12 as char, '\r'})
  {
  }

  /** strip() removes exactly the strippable margins. */
  lemma StripsMargins(s: string, stripSet: string)
    ensures IsStripped(s, Stripped(s, stripSet), stripSet)
  {
    var k := Front(s, stripSet, 0);
    var n := Back(s, stripSet, k, |s|);
    FrontIs(s, stripSet, 0);
    BackIs(s, stripSet, k, |s|);
    var t := s[k..n];
    assert t == Stripped(s, stripSet) && k + |t| == n;
    assert s[k..k + |t|] == t && AllStrippable(s[..k], stripSet) && AllStrippable(s[k + |t|..], stripSet);
  }

  // ---------- split() ----------

  /** The arguments of split(). */
  datatype Input = Input(str: string, sep: string, keepEmpty: bool, stripParts: bool, maxSplits: nat)

  /** Inside split(): the position reached and the parts found, or the parts returned. */
  datatype State = Running(pos: nat, parts: seq<string>) | Over(parts: seq<string>)

  predicate Fits(j: Input, s: State) {
    s.Running? ==> s.pos <= |j.str|
  }

  function Token(j: Input, pos1: nat, pos2: nat): string
    requires pos1 <= |j.str| && (pos2 == NPOS || pos1 <= pos2 <= |j.str|)
  {
    var token := if pos2 == NPOS then j.str[pos1..] else j.str[pos1..pos2];
    if j.stripParts then Stripped(token, "") else token
  }

  /** The end of a token that starts at `pos`, if n parts have been found before. */
  function TokenEnd(j: Input, pos: nat, n: nat): (end: nat)
    requires |j.str| < NPOS && pos <= |j.str|
    ensures end == NPOS || (pos <= end && end + |j.sep| <= |j.str|)
  {
    if j.maxSplits > 0 && n == j.maxSplits then NPOS else Find(j.str, j.sep, pos)
  }

  function Keep(j: Input, parts: seq<string>, token: string): seq<string> {
    if token != "" || j.keepEmpty then parts + [token] else parts
  }

  /** One round of the inner loop, which skips separators, or, once that one is done, of the outer loop. */
  function Step(j: Input, s: State): (t: State)
    requires |j.str| < NPOS && Fits(j, s)
    ensures Fits(j, t)
  {
    match s
    case Over(_) => s
    case Running(pos, parts) =>
      if !j.keepEmpty && At(j.str, j.sep, pos) then Running(pos + |j.sep|, parts)
      else
        var end := TokenEnd(j, pos, |parts|);
        var more := Keep(j, parts, Token(j, pos, end));
        if end == NPOS then Over(more) else Running(end + |j.sep|, more)
  }

  function Rounds(j: Input, k: nat): (s: State)
    requires |j.str| < NPOS
    ensures Fits(j, s)
  {
    if k == 0 then Running(0, []) else Step(j, Rounds(j, k - 1))
  }

  ghost predicate Reaches(j: Input, s: State)
    requires |j.str| < NPOS
  {
    exists k: nat :: Rounds(j, k) == s
  }

  /** split() ends and returns `parts`. */
  ghost predicate Yields(j: Input, parts: seq<string>)
    requires |j.str| < NPOS
  {
    Reaches(j, Over(parts))
  }

  /** Does split() end? */
  predicate Separates(j: Input) {
    j.sep != "" || (j.keepEmpty && j.maxSplits > 0)
  }

  predicate WithinLimit(j: Input, parts: seq<string>) {
    j.maxSplits > 0 ==> |parts| <= j.maxSplits
  }

  lemma Reach(j: Input, s: State)
    requires |j.str| < NPOS && Reaches(j, s)
    ensures Fits(j, s) && Reaches(j, Step(j, s))
  {
    var k: nat :| Rounds(j, k) == s;
    assert Rounds(j, k + 1) == Step(j, s);
  }

  lemma SkipRound(j: Input, pos: nat, parts: seq<string>)
    requires |j.str| < NPOS && Reaches(j, Running(pos, parts)) && !j.keepEmpty && At(j.str, j.sep, pos)
    ensures Reaches(j, Running(pos + |j.sep|, parts))
  {
    Reach(j, Running(pos, parts));
  }

  lemma CutRound(j: Input, pos: nat, parts: seq<string>, end: nat, more: seq<string>)
    requires |j.str| < NPOS && pos <= |j.str| && Reaches(j, Running(pos, parts)) && (j.keepEmpty || !At(j.str, j.sep, pos))
    requires end == TokenEnd(j, pos, |parts|) && more == Keep(j, parts, Token(j, pos, end))
    ensures Reaches(j, if end == NPOS then Over(more) else Running(end + |j.sep|, more))
  {
    Reach(j, Running(pos, parts));
  }

  /** The inner loop. */
  method Skip(j: Input, start: nat, ghost parts: seq<string>) returns (pos: nat)
    requires |j.str| < NPOS && start <= |j.str| && j.sep != "" && !j.keepEmpty && Reaches(j, Running(start, parts))
    ensures start <= pos <= |j.str| && !At(j.str, j.sep, pos) && Reaches(j, Running(pos, parts))
  {
    pos := start;
    SubstrIs(j.str, j.sep, pos);
    while Substr(j.str, pos, |j.sep|) == j.sep
      invariant start <= pos <= |j.str| && Reaches(j, Running(pos, parts))
      invariant At(j.str, j.sep, pos) <==> Substr(j.str, pos, |j.sep|) == j.sep
      decreases |j.str| - pos
    {
      SkipRound(j, pos, parts);
      pos := pos + |j.sep|;
      SubstrIs(j.str, j.sep, pos);
    }
  }

  method CutToken(j: Input, pos1: nat, pos2: nat) returns (token: string)
    requires |j.str| < NPOS && pos1 <= |j.str| && (pos2 == NPOS || pos1 <= pos2 <= |j.str|)
    ensures token == Token(j, pos1, pos2)
  {
    token := "";
    var tokenLen := pos2 - pos1;
    if tokenLen > 0 {
      token := Substr(j.str, pos1, tokenLen);
      if j.stripParts {
        token := Strip(token, "");
      }
    }
  }

  method Split(j: Input) returns (parts: seq<string>)
    requires |j.str| < NPOS && Separates(j)
    ensures Yields(j, parts)
  {
    parts := [];
    var pos2: nat := 0;
    assert Rounds(j, 0) == Running(0, []);
    while true
      invariant pos2 <= |j.str| && WithinLimit(j, parts) && Reaches(j, Running(pos2, parts))
      decreases |j.str| - pos2, j.maxSplits - |parts|
    {
      var pos1 := pos2;
      if !j.keepEmpty {
        pos1 := Skip(j, pos1, parts);
      }
      var maxReached := j.maxSplits > 0 && |parts| == j.maxSplits;
      pos2 := if maxReached then NPOS else Find(j.str, j.sep, pos1);
      var token := CutToken(j, pos1, pos2);
      CutRound(j, pos1, parts, pos2, Keep(j, parts, token));
      if token != "" || j.keepEmpty {
        parts := parts + [token];
      }
      if pos2 == NPOS {
        break;
      }
      pos2 := pos2 + |j.sep|;
    }
  }
}
