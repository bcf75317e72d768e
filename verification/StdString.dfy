/** The operations of std::string and std::string_view that the library's string algorithms are made of. */
module StdString {

  /** size_t(-1); no string is that long. */
  const NPOS: nat := 0xFFFF_FFFF_FFFF_FFFF

  /** The characters of `sep` from `k` on stand in `s` behind position `i`. */
  predicate Match(s: string, sep: string, i: nat, k: nat)
    requires k <= |sep| && i + |sep| <= |s|
    decreases |sep| - k
  {
    k == |sep| || (s[i + k] == sep[k] && Match(s, sep, i, k + 1))
  }

  predicate At(s: string, sep: string, i: nat) {
    i + |sep| <= |s| && Match(s, sep, i, 0)
  }

  lemma {:induction false} MatchIs(s: string, sep: string, i: nat, k: nat)
    requires k <= |sep| && i + |sep| <= |s|
    ensures Match(s, sep, i, k) <==> forall j | k <= j < |sep| :: s[i + j] == sep[j]
    decreases |sep| - k
  {
    if k < |sep| {
      MatchIs(s, sep, i, k + 1);
    }
  }

  lemma AtIs(s: string, sep: string, i: nat)
    ensures At(s, sep, i) <==> i + |sep| <= |s| && s[i..i + |sep|] == sep
  {
    if i + |sep| <= |s| {
      MatchIs(s, sep, i, 0);
      var t := s[i..i + |sep|];
      assert forall j | 0 <= j < |sep| :: t[j] == s[i + j];
    }
  }

  /** s.find(sep, pos) */
  function Find(s: string, sep: string, pos: nat): (i: nat)
    requires |s| < NPOS
    ensures i != NPOS ==> pos <= i && i + |sep| <= |s|
    decreases |s| - pos
  {
    if pos > |s| then NPOS
    else if At(s, sep, pos) then pos
    else if pos == |s| then NPOS
    else Find(s, sep, pos + 1)
  }

  /** find() returns the first occurrence at or after `pos`. */
  lemma {:induction false} FindsFirst(s: string, sep: string, pos: nat)
    requires |s| < NPOS
    ensures var i := Find(s, sep, pos);
            && (i != NPOS ==> At(s, sep, i))
            && forall j | pos <= j && (i == NPOS || j < i) :: !At(s, sep, j)
    decreases |s| - pos
  {
    if pos < |s| && !At(s, sep, pos) {
      FindsFirst(s, sep, pos + 1);
    }
  }

  /** s.rfind(c) */
  function RFind(s: string, c: char): (i: nat)
    ensures c in s ==> i < |s|
  {
    if s == "" then NPOS else if s[|s| - 1] == c then |s| - 1 else RFind(s[..|s| - 1], c)
  }

  lemma {:induction false} RFindIs(s: string, c: char)
    requires |s| < NPOS
    ensures var i := RFind(s, c);
            if i == NPOS then c !in s else i < |s| && s[i] == c && c !in s[i + 1..]
  {
    if s != "" && s[|s| - 1] != c {
      var t := s[..|s| - 1];
      RFindIs(t, c);
      assert s == t + [s[|s| - 1]];
      assert c in t ==> s[RFind(t, c) + 1..] == t[RFind(t, c) + 1..] + [s[|s| - 1]];
    }
  }

  /** rfind() returns the last occurrence. */
  lemma {:induction false} RFindsLast(s: string, c: char, i: nat)
    requires i < |s| && s[i] == c && c !in s[i + 1..]
    ensures RFind(s, c) == i
  {
    if i < |s| - 1 {
      assert s[|s| - 1] == s[i + 1..][|s| - i - 2];
      assert s[..|s| - 1][i + 1..] == s[i + 1..][..|s| - i - 2];
      RFindsLast(s[..|s| - 1], c, i);
    }
  }

  /** s.substr(pos, len) */
  function Substr(s: string, pos: nat, len: nat): string
    requires pos <= |s|
  {
    if pos + len <= |s| then s[pos..pos + len] else s[pos..]
  }

  lemma SubstrIs(s: string, sep: string, pos: nat)
    requires pos <= |s|
    ensures Substr(s, pos, |sep|) == sep <==> At(s, sep, pos)
  {
    AtIs(s, sep, pos);
  }

  /** The strings that are not empty. */
  function NonEmpty(parts: seq<string>): (r: seq<string>)
    ensures |r| <= |parts|
  {
    if parts == [] then [] else (if parts[0] == "" then [] else [parts[0]]) + NonEmpty(parts[1..])
  }

  lemma {:induction false} NonEmptyIn(parts: seq<string>)
    ensures forall p | p in NonEmpty(parts) :: p in parts && p != ""
  {
    if parts != [] {
      NonEmptyIn(parts[1..]);
    }
  }

  lemma {:induction false} NonEmptyAdd(parts: seq<string>, last: string)
    ensures NonEmpty(parts + [last]) == NonEmpty(parts) + if last == "" then [] else [last]
  {
    if parts == [] {
      assert [last][1..] == [];
    } else {
      assert (parts + [last])[1..] == parts[1..] + [last];
      NonEmptyAdd(parts[1..], last);
    }
  }
}
