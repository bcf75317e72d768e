/** The record of a directory entry, as readdir() returns it, and its name (include/fs/DirEntry.hxx). */
module DirEntries {
  import opened Bytes

  /** offsetof(struct dirent, d_name) */
  const NAME: nat := 19

  const DOT: Byte := 46

  /** `rec` is a record for `name`: a header, the name and its terminator, padded to a multiple of 8 bytes. Nothing is known of
      the header and of the padding. */
  predicate IsRecord(rec: seq<Byte>, name: seq<Byte>) {
    && 0 !in name
    && |rec| == (NAME + |name| + 1 + 7) / 8 * 8
    && rec[NAME..NAME + |name|] == name && rec[NAME + |name|] == 0
  }

  lemma NameBytes(rec: seq<Byte>, name: seq<Byte>)
    requires IsRecord(rec, name)
    ensures forall i | 0 <= i < |name| :: rec[NAME + i] == name[i] != 0
  {
    forall i | 0 <= i < |name| ensures rec[NAME + i] == name[i] != 0 {
      assert rec[NAME + i] == rec[NAME..NAME + |name|][i];
      assert name[i] in name;
    }
  }

  /** std::strlen(name()) */
  method StrLen(rec: seq<Byte>, ghost name: seq<Byte>) returns (n: nat)
    requires IsRecord(rec, name)
    ensures n == |name|
  {
    NameBytes(rec, name);
    n := 0;
    while rec[NAME + n] != 0
      invariant n <= |name|
      decreases |name| - n
    {
      n := n + 1;
    }
  }

  /** nameLength() for a record of d_reclen bytes. All accesses lie inside the record. `searched` tells whether the search
      near its end failed, so that strlen() was called. */
  method NameLength(rec: seq<Byte>, ghost name: seq<Byte>) returns (n: nat, searched: bool)
    requires IsRecord(rec, name)
    ensures n == |name|
    ensures searched <==> |name| >= 8 && (NAME + |name| + 1) % 8 == 0
  {
    NameBytes(rec, name);
    var len: nat := |rec| - NAME - 1;
    len := if len < 8 then 0 else len - 8;
    var endp := NAME + len;
    var i := 0;
    while i < 8
      invariant 0 <= i <= 8 && endp == NAME + len + i
      invariant len <= |name| && len + i <= |name|
    {
      endp := endp + 1;
      if rec[endp - 1] == 0 {
        return endp - NAME - 1, false;
      }
      i := i + 1;
    }
    n := StrLen(rec, name);
    searched := true;
  }

  /** isDotEntry() */
  predicate IsDotEntry(rec: seq<Byte>)
    requires |rec| >= NAME + 3
  {
    if rec[NAME] != DOT then false
    else if rec[NAME + 1] == 0 then true
    else if rec[NAME + 1] != DOT then false
    else rec[NAME + 2] == 0
  }

  /** isDotEntry() recognises "." and ".." and nothing else. */
  lemma DotEntries(rec: seq<Byte>, name: seq<Byte>)
    requires IsRecord(rec, name)
    ensures |rec| >= NAME + 3 && (IsDotEntry(rec) <==> name == [DOT] || name == [DOT, DOT])
  {
    NameBytes(rec, name);
    if |name| == 0 {
      assert rec[NAME] == 0;
    } else if |name| == 1 {
      assert name == [name[0]];
    } else if |name| == 2 {
      assert name == [name[0], name[1]];
    }
  }
}
