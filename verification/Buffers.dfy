/** Results of unknown length: the buffer grows until the system call, or vsnprintf(), has room enough
    (src/fs/filesystem.cxx, src/formatting.cxx). */
module Buffers {
  import opened Common
  import opened StdString
  import StringLaws

  const START: nat := 128
  const NUL := 0 as char

  /** s.resize(n) */
  function Resize(s: string, n: nat): (t: string)
    ensures |t| == n
  {
    if n <= |s| then s[..n] else s + seq(n - |s|, _ => NUL)
  }

  /** The first bytes of the buffer are overwritten. */
  function Fill(buffer: string, text: string): (b: string)
    requires |text| <= |buffer|
    ensures |b| == |buffer|
  {
    text + buffer[|text|..]
  }

  // ---------- read_symlink() ----------

  /** How often readlink() is called for a target of that length. */
  function ReadLinks(length: nat): nat {
    if length < START then 1 else length - START + 2
  }

  /** `failing` is the call to readlink() that reports an error, if any. */
  method ReadSymlink(target: string, failing: Option<nat>) returns (ret: Option<string>)
    ensures ret == if failing.Some? && failing.value < ReadLinks(|target|) then None else Some(target)
  {
    var buffer := Resize("", START);
    var calls: nat := 0;
    while true
      invariant |buffer| == START + calls && (calls > 0 ==> |buffer| <= |target| + 1)
      invariant failing.Some? ==> calls <= failing.value
      decreases |target| + 1 - |buffer|
    {
      if failing == Some(calls) {
        return None;
      }
      var len := Min(|target|, |buffer|);
      buffer := Fill(buffer, target[..len]);
      calls := calls + 1;
      if len < |buffer| {
        assert target[..len] == target;
        buffer := Resize(buffer, len);
        return Some(buffer);
      }
      buffer := Resize(buffer, len + 1);
    }
  }

  // ---------- get_working_dir() ----------

  /** The size of the buffer after k doublings. */
  function Doubled(size: nat, k: nat): nat
    decreases k
  {
    if k == 0 then size else Doubled(2 * size, k - 1)
  }

  /** How often getcwd() fails for want of room, starting with a buffer of `size` bytes. */
  function Doublings(length: nat, size: nat): (k: nat)
    requires size > 0
    ensures length + 1 <= Doubled(size, k)
    ensures k > 0 ==> Doubled(size, k - 1) < length + 1
    decreases length + 1 - size
  {
    if length + 1 <= size then 0 else 1 + Doublings(length, 2 * size)
  }

  lemma FindsTerminator(text: string, rest: string)
    requires NUL !in text && |text + [NUL] + rest| < NPOS
    ensures Find(text + [NUL] + rest, [NUL], 0) == |text|
  {
    var s := text + [NUL] + rest;
    FindsFirst(s, [NUL], 0);
    AtIs(s, [NUL], |text|);
    assert s[|text|..|text| + 1] == [NUL];
    var i := Find(s, [NUL], 0);
    AtIs(s, [NUL], i);
    assert s[i..i + 1][0] == NUL;
    assert NUL !in s[..|text|] by {
      assert s[..|text|] == text;
    }
  }

  /** getcwd() succeeds: it writes the path and a terminator, behind which the rest of the buffer is cut off. */
  method Receive(buffer: string, cwd: string) returns (ret: string)
    requires NUL !in cwd && |cwd| < |buffer| < NPOS
    ensures ret == cwd
  {
    ret := Fill(buffer, cwd + [NUL]);
    FindsTerminator(cwd, buffer[|cwd| + 1..]);
    var termpos := Find(ret, [NUL], 0);
    if termpos != NPOS {
      ret := Resize(ret, termpos);
    }
  }

  /** `failing` is the call to getcwd() that reports an error other than ERANGE, if any. */
  method GetWorkingDir(cwd: string, failing: Option<nat>) returns (ret: Option<string>)
    requires NUL !in cwd && |cwd| < NPOS / 2 - START
    ensures ret == if failing.Some? && failing.value <= Doublings(|cwd|, START) then None else Some(cwd)
  {
    var buffer := Resize("", START);
    var calls: nat := 0;
    while true
      invariant 0 < |buffer| && |buffer| < 2 * (|cwd| + 1) + START
      invariant Doublings(|cwd|, START) == calls + Doublings(|cwd|, |buffer|)
      invariant failing.Some? ==> calls <= failing.value
      decreases |cwd| + 1 - |buffer|
    {
      if failing == Some(calls) {
        return None;
      }
      calls := calls + 1;
      if |cwd| + 1 > |buffer| {
        buffer := Resize(buffer, |buffer| * 2);
        continue;
      }
      buffer := Receive(buffer, cwd);
      return Some(buffer);
    }
  }

  // ---------- sprintf() ----------

  /** `output` is what the format expands to, None if vsnprintf() reports an error. */
  method Sprintf(output: Option<string>) returns (ret: string, rounds: nat)
    ensures ret == if output.Some? then output.value else ""
    ensures rounds == if output.Some? && |output.value| > START then 2 else 1
  {
    ret := Resize("", START);
    rounds := 0;
    while true
      invariant rounds <= 1 && (rounds == 0 ==> |ret| == START)
      invariant rounds == 1 ==> output.Some? && |output.value| == |ret| > START
      decreases 1 - rounds
    {
      rounds := rounds + 1;
      var written := if output.Some? then |output.value| else -1;
      if written < 0 {
        ret := "";
        break;
      }
      // the terminator goes where std::string keeps its own
      ret := Fill(ret, output.value[..Min(written, |ret|)]);
      if written <= |ret| {
        ret := Resize(ret, written);
        break;
      }
      ret := Resize(ret, written);
    }
  }

  // ---------- expand_temp_path() ----------

  const XS := "XXXXXX"
  const PLACEHOLDER := "{}"

  /** s.rfind(sep) */
  function RFindString(s: string, sep: string, pos: nat): (i: nat)
    requires |s| < NPOS && pos <= |s|
    ensures i != NPOS ==> i <= pos && At(s, sep, i)
    ensures forall j | 0 <= j <= pos && (i == NPOS || i < j) :: !At(s, sep, j)
  {
    if At(s, sep, pos) then pos else if pos == 0 then NPOS else RFindString(s, sep, pos - 1)
  }

  /** The last placeholder of the basename becomes the letters that mkostemps() replaces; without one they are appended. The
      suffix is what comes behind. */
  ghost predicate IsExpansion(pattern: string, path: string, suffix: nat) {
    (exists k: nat :: IsExpansionAt(pattern, path, suffix, k))
    || (path == pattern + XS && suffix == 0
        && forall k | 0 <= k < |pattern| && At(pattern, PLACEHOLDER, k) :: '/' in pattern[k..])
  }

  ghost predicate IsExpansionAt(pattern: string, path: string, suffix: nat, k: nat) {
    && At(pattern, PLACEHOLDER, k) && '/' !in pattern[k..]
    && (forall j | k < j < |pattern| :: !At(pattern, PLACEHOLDER, j))
    && suffix == |pattern| - k - 2
    && path == pattern[..k] + XS + pattern[k + 2..]
  }

  /** Where the last component of the pattern starts. */
  method BaseStart(pattern: string) returns (d: nat)
    requires |pattern| < NPOS
    ensures d <= |pattern| && '/' !in pattern[d..] && (d > 0 ==> pattern[d - 1] == '/')
  {
    RFindIs(pattern, '/');
    var lastsep := RFind(pattern, '/');
    d := if lastsep != NPOS then lastsep + 1 else 0;
  }

  lemma BaseExpands(pattern: string, d: nat, pos: nat)
    requires |pattern| < NPOS && d <= |pattern| && '/' !in pattern[d..]
    requires pos == RFindString(pattern[d..], PLACEHOLDER, |pattern| - d) && pos != NPOS
    ensures var dir, base := pattern[..d], pattern[d..];
            && pos + 2 <= |base|
            && IsExpansionAt(pattern, dir + (base[..pos] + XS + base[pos + 2..]), |base| - pos - 2, d + pos)
  {
    var dir, base, k := pattern[..d], pattern[d..], d + pos;
    BaseAt(pattern, d);
    Splice(pattern, d, pos);
    forall j | k < j < |pattern| ensures !At(pattern, PLACEHOLDER, j) {
      assert !At(base, PLACEHOLDER, j - d);
    }
  }

  lemma Splice(pattern: string, d: nat, pos: nat)
    requires d <= |pattern| && pos + 2 <= |pattern| - d
    ensures var dir, base, k := pattern[..d], pattern[d..], d + pos;
            && base[pos..] == pattern[k..]
            && dir + (base[..pos] + XS + base[pos + 2..]) == pattern[..k] + XS + pattern[k + 2..]
  {
    var dir, base, k := pattern[..d], pattern[d..], d + pos;
    assert dir + base[..pos] == pattern[..k] && base[pos + 2..] == pattern[k + 2..];
  }

  lemma BaseAppends(pattern: string, d: nat)
    requires |pattern| < NPOS && d <= |pattern| && (d > 0 ==> pattern[d - 1] == '/')
    requires RFindString(pattern[d..], PLACEHOLDER, |pattern| - d) == NPOS
    ensures IsExpansion(pattern, pattern[..d] + (pattern[d..] + XS), 0)
  {
    assert pattern[..d] + (pattern[d..] + XS) == pattern + XS;
    BaseAt(pattern, d);
    forall k | 0 <= k < |pattern| && '/' !in pattern[k..] ensures !At(pattern, PLACEHOLDER, k) {
      assert !At(pattern[d..], PLACEHOLDER, k - d);
    }
  }

  lemma BaseAt(pattern: string, d: nat)
    requires d <= |pattern|
    ensures forall j | d <= j :: At(pattern[d..], PLACEHOLDER, j - d) == At(pattern, PLACEHOLDER, j)
    ensures d > 0 ==> forall k | 0 <= k < d :: pattern[d - 1] in pattern[k..]
    ensures forall j, c | 0 <= j <= |pattern| - d && c !in pattern[d..] :: c !in pattern[d..][j..]
  {
    assert pattern[d..] == pattern[d..|pattern|];
    forall k | 0 <= k < d ensures pattern[d - 1] in pattern[k..] {
      assert pattern[k..][d - 1 - k] == pattern[d - 1];
    }
    forall j: nat | d <= j ensures At(pattern[d..], PLACEHOLDER, j - d) == At(pattern, PLACEHOLDER, j) {
      if j + 2 <= |pattern| {
        StringLaws.AtSlice(pattern, PLACEHOLDER, d, |pattern|, j - d);
      }
    }
    forall j, c | 0 <= j <= |pattern| - d && c in pattern[d..][j..] ensures c in pattern[d..] {
    }
  }

  method ExpandTempPath(pattern: string) returns (expanded: Option<(string, nat)>)
    requires |pattern| < NPOS
    ensures expanded == None <==> pattern == "" || pattern[|pattern| - 1] == '/'
    ensures expanded.Some? ==> IsExpansion(pattern, expanded.value.0, expanded.value.1)
  {
    var d := BaseStart(pattern);
    var path, base := pattern[..d], pattern[d..];
    if base == "" {
      return None;
    }
    assert pattern[|pattern| - 1] == base[|base| - 1];
    var suffix: nat := 0;
    var pos := RFindString(base, PLACEHOLDER, |base|);
    if pos != NPOS {
      BaseExpands(pattern, d, pos);
      suffix := |base| - pos - 2;
      base := base[..pos] + XS + base[pos + 2..];
    } else {
      BaseAppends(pattern, d);
      base := base + XS;
    }
    expanded := Some((path + base, suffix));
  }

  /** mkostemps() finds its six letters in front of the suffix, and they are in the last component of the path. */
  lemma ExpansionFits(pattern: string, path: string, suffix: nat)
    requires IsExpansion(pattern, path, suffix)
    ensures suffix + 6 <= |path| && path[|path| - suffix - 6..|path| - suffix] == XS
    ensures '/' !in path[|path| - suffix - 6..]
  {
    if k: nat :| IsExpansionAt(pattern, path, suffix, k) {
      AtIs(pattern, PLACEHOLDER, k);
      var tail := pattern[k + 2..];
      assert path[k..k + 6] == XS && path[k + 6..] == tail;
      assert path[k..] == XS + tail;
      assert forall c | c in tail :: c in pattern[k..];
    } else {
      assert path[|pattern|..] == XS;
    }
  }
}
