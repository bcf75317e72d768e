/** Scatter/gather vectors (src/io/iovector.cxx, include/io/iovector.hxx): lists of memory regions that shrink from the front. */
module IOVectors {
  import opened Common
  import opened Bytes

  /** One memory region: what is left of it to transfer. */
  datatype Region = Region(base: nat, length: nat)

  // ---------- A vector as a list of addresses ----------

  function Range(base: nat, length: nat): (addrs: seq<nat>)
    ensures |addrs| == length && forall i | 0 <= i < length :: addrs[i] == base + i
  {
    seq(length, i requires 0 <= i < length => base + i)
  }

  /** All addresses still to be transferred, in order. */
  function Addresses(rs: seq<Region>): seq<nat> {
    if rs == [] then [] else Range(rs[0].base, rs[0].length) + Addresses(rs[1..])
  }

  predicate Within(addrs: seq<nat>, size: nat) {
    forall i | 0 <= i < |addrs| :: addrs[i] < size
  }

  /** The bytes found at some addresses. */
  function Gather(mem: seq<Byte>, addrs: seq<nat>): seq<Byte>
    requires Within(addrs, |mem|)
  {
    seq(|addrs|, i requires 0 <= i < |addrs| => mem[addrs[i]])
  }

  /** Memory after bytes have been stored at some addresses, one after the other. */
  function Scatter(mem: seq<Byte>, addrs: seq<nat>, bytes: seq<Byte>): (after: seq<Byte>)
    requires |addrs| == |bytes| && Within(addrs, |mem|)
    ensures |after| == |mem|
    decreases |addrs|
  {
    if addrs == [] then mem else Scatter(mem[addrs[0] := bytes[0]], addrs[1..], bytes[1..])
  }

  predicate Distinct(addrs: seq<nat>) {
    forall i, j | 0 <= i < j < |addrs| :: addrs[i] != addrs[j]
  }

  /** Storing in two rounds is storing once. */
  lemma {:induction false} ScatterConcat(mem: seq<Byte>, a: seq<nat>, b: seq<nat>, x: seq<Byte>, y: seq<Byte>)
    requires |a| == |x| && |b| == |y| && Within(a, |mem|) && Within(b, |mem|)
    ensures Within(a + b, |mem|) && Scatter(mem, a + b, x + y) == Scatter(Scatter(mem, a, x), b, y)
    decreases |a|
  {
    if a == [] {
      assert a + b == b && x + y == y;
    } else {
      assert (a + b)[1..] == a[1..] + b && (x + y)[1..] == x[1..] + y;
      ScatterConcat(mem[a[0] := x[0]], a[1..], b, x[1..], y);
    }
  }

  lemma {:induction false} ScatterElsewhere(mem: seq<Byte>, addrs: seq<nat>, bytes: seq<Byte>, at: nat)
    requires |addrs| == |bytes| && Within(addrs, |mem|) && at < |mem| && at !in addrs
    ensures Scatter(mem, addrs, bytes)[at] == mem[at]
    decreases |addrs|
  {
    if addrs != [] {
      ScatterElsewhere(mem[addrs[0] := bytes[0]], addrs[1..], bytes[1..], at);
    }
  }

  /** What was stored is found again if no address is used twice. */
  lemma {:induction false} GatherScatter(mem: seq<Byte>, addrs: seq<nat>, bytes: seq<Byte>)
    requires |addrs| == |bytes| && Within(addrs, |mem|) && Distinct(addrs)
    ensures Gather(Scatter(mem, addrs, bytes), addrs) == bytes
    decreases |addrs|
  {
    if addrs != [] {
      var mem' := mem[addrs[0] := bytes[0]];
      GatherScatter(mem', addrs[1..], bytes[1..]);
      ScatterElsewhere(mem', addrs[1..], bytes[1..], addrs[0]);
      var got := Gather(Scatter(mem, addrs, bytes), addrs);
      assert got[1..] == Gather(Scatter(mem', addrs[1..], bytes[1..]), addrs[1..]);
      assert got == [got[0]] + got[1..] && bytes == [bytes[0]] + bytes[1..];
    }
  }

  // ---------- IOVector::update() ----------

  function Total(rs: seq<Region>): nat {
    if rs == [] then 0 else rs[0].length + Total(rs[1..])
  }

  /** One region after n bytes have been processed; it takes at most as many as it holds. */
  function Consume(r: Region, n: nat): Region {
    Region(r.base + Min(n, r.length), r.length - Min(n, r.length))
  }

  /** The vector after n bytes have been processed: the loop stops at the first region that is not finished. */
  function Advance(rs: seq<Region>, n: nat): seq<Region> {
    if rs == [] then []
    else if n < rs[0].length then [Consume(rs[0], n)] + rs[1..]
    else [Consume(rs[0], n)] + Advance(rs[1..], n - rs[0].length)
  }

  lemma {:induction false} TotalIsAddresses(rs: seq<Region>)
    ensures Total(rs) == |Addresses(rs)|
  {
    if rs != [] {
      TotalIsAddresses(rs[1..]);
    }
  }

  /** update() leaves exactly what has not been delivered. */
  lemma {:induction false} AdvanceLeavesRest(rs: seq<Region>, n: nat)
    ensures Total(rs) == |Addresses(rs)|
    ensures n <= Total(rs) ==> Addresses(Advance(rs, n)) == Addresses(rs)[n..] && Total(Advance(rs, n)) == Total(rs) - n
    ensures n > Total(rs) ==> Total(Advance(rs, n)) == 0
  {
    TotalIsAddresses(rs);
    if rs != [] {
      if n < rs[0].length {
        StopsInFirst(rs, n);
      } else {
        AdvanceLeavesRest(rs[1..], n - rs[0].length);
        PassesFirst(rs, n);
      }
    }
  }

  lemma StopsInFirst(rs: seq<Region>, n: nat)
    requires rs != [] && n < rs[0].length
    ensures n <= Total(rs) && Addresses(Advance(rs, n)) == Addresses(rs)[n..] && Total(Advance(rs, n)) == Total(rs) - n
  {
    var first := rs[0];
    assert Range(first.base + n, first.length - n) == Range(first.base, first.length)[n..];
    assert ([Consume(first, n)] + rs[1..])[1..] == rs[1..];
  }

  lemma PassesFirst(rs: seq<Region>, n: nat)
    requires rs != [] && n >= rs[0].length
    requires Total(rs[1..]) == |Addresses(rs[1..])|
    ensures var first, rest, m := rs[0], Advance(rs[1..], n - rs[0].length), n - rs[0].length;
            && Addresses(Advance(rs, n)) == Addresses(rest) && Total(Advance(rs, n)) == Total(rest)
            && Total(rs) == first.length + Total(rs[1..])
            && (m <= Total(rs[1..]) ==> Addresses(rs)[n..] == Addresses(rs[1..])[m..])
  {
    var first, rest := rs[0], Advance(rs[1..], n - rs[0].length);
    assert ([Consume(first, n)] + rest)[1..] == rest;
    assert Range(first.base + first.length, 0) == [];
    assert [] + Addresses(rest) == Addresses(rest);
  }

  class IOVector {
    const entries: array<Region>

    constructor (rs: seq<Region>)
      ensures fresh(entries) && entries[..] == rs
    {
      entries := new Region[|rs|](i requires 0 <= i < |rs| => rs[i]);
    }

    /** IOMemoryRegion::update() for one entry. */
    method UpdateEntry(i: nat, processed: nat) returns (reduced: nat)
      requires i < entries.Length
      modifies entries
      ensures reduced == Min(processed, old(entries[i]).length)
      ensures entries[..] == old(entries[..])[i := Consume(old(entries[i]), processed)]
    {
      var r := entries[i];
      reduced := if processed < r.length then processed else r.length;
      entries[i] := Region(r.base + reduced, r.length - reduced);
    }

    /** update(): true if nothing remains; an error if more was processed than was left. */
    method Update(processedBytes: nat) returns (finished: bool, inconsistent: bool)
      modifies entries
      ensures entries[..] == Advance(old(entries[..]), processedBytes)
      ensures inconsistent <==> processedBytes > Total(old(entries[..]))
      ensures finished <==> Total(entries[..]) == 0
    {
      ghost var rs := entries[..];
      var processed := processedBytes;
      finished := true;
      var i := 0;
      assert rs[0..] == rs;
      while i < entries.Length
        invariant finished && 0 <= i <= entries.Length && processed >= 0
        invariant Updating(rs, entries[..], processedBytes, i, processed)
      {
        ghost var before, p := entries[..], processed;
        var reduced := UpdateEntry(i, processed);
        processed := processed - reduced;
        assert entries[..] == before[i := Consume(before[i], p)];
        UpdatesOne(rs, before, processedBytes, i, p);
        if entries[i].length != 0 {
          finished := false;
          break;
        }
        i := i + 1;
      }
      inconsistent := processed != 0;
    }
  }

  /** In the loop of update(): the entries in front of `i` are finished, the others untouched, and `left` of the n bytes are
      still to be consumed. */
  ghost predicate Updating(rs: seq<Region>, now: seq<Region>, n: nat, i: nat, left: nat) {
    && i <= |now| == |rs| && now[i..] == rs[i..]
    && Advance(rs, n) == now[..i] + Advance(rs[i..], left)
    && Total(now[..i]) == 0 && n - left == Total(rs) - Total(rs[i..])
    && (i == |rs| ==> now == Advance(rs, n) && Total(now) == 0 && n - left == Total(rs))
  }

  lemma UpdatesOne(rs: seq<Region>, before: seq<Region>, n: nat, i: nat, left: nat)
    requires Updating(rs, before, n, i, left) && i < |rs|
    ensures var now := before[i := Consume(before[i], left)];
            if now[i].length == 0 then rs[i].length <= left && Updating(rs, now, n, i + 1, left - rs[i].length)
            else now == Advance(rs, n) && Total(now) > 0 && n <= Total(rs) && left < rs[i].length
  {
    FirstOfRest(rs, before, i);
    if Consume(before[i], left).length == 0 {
      UpdatesFinished(rs, before, n, i, left);
    } else {
      UpdatesLast(rs, before, n, i, left);
    }
  }

  lemma FirstOfRest(rs: seq<Region>, before: seq<Region>, i: nat)
    requires i < |rs| == |before| && before[i..] == rs[i..]
    ensures before[i] == rs[i..][0] == rs[i] && rs[i..][1..] == rs[i + 1..] == before[i + 1..]
  {
    assert before[i] == before[i..][0] && before[i + 1..] == before[i..][1..];
  }

  lemma UpdatesFinished(rs: seq<Region>, before: seq<Region>, n: nat, i: nat, left: nat)
    requires Updating(rs, before, n, i, left) && i < |rs| && Consume(before[i], left).length == 0
    ensures rs[i].length <= left && Updating(rs, before[i := Consume(before[i], left)], n, i + 1, left - rs[i].length)
  {
    var r := Consume(before[i], left);
    var now := before[i := r];
    FirstOfRest(rs, before, i);
    assert now[..i + 1] == before[..i] + [r];
    TotalAppend(before[..i], r);
    if i + 1 == |rs| {
      assert now[..i + 1] == now;
    }
  }

  lemma UpdatesLast(rs: seq<Region>, before: seq<Region>, n: nat, i: nat, left: nat)
    requires Updating(rs, before, n, i, left) && i < |rs| && Consume(before[i], left).length != 0
    ensures var now := before[i := Consume(before[i], left)];
            now == Advance(rs, n) && Total(now) > 0 && n <= Total(rs) && left < rs[i].length
  {
    var r := Consume(before[i], left);
    var now := before[i := r];
    FirstOfRest(rs, before, i);
    assert now == before[..i] + [r] + rs[i..][1..];
    TotalAtLeast(now, i);
    TotalAtLeast(rs[i..], 0);
  }

  lemma {:induction false} TotalAppend(rs: seq<Region>, r: Region)
    ensures Total(rs + [r]) == Total(rs) + r.length
  {
    if rs == [] {
      assert rs + [r] == [r];
    } else {
      assert (rs + [r])[1..] == rs[1..] + [r];
      TotalAppend(rs[1..], r);
    }
  }

  lemma {:induction false} TotalAtLeast(rs: seq<Region>, i: nat)
    requires i < |rs|
    ensures Total(rs) >= rs[i].length
  {
    if i > 0 {
      TotalAtLeast(rs[1..], i - 1);
    }
  }
}
