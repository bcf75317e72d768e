/** The retry loops of StreamIO (src/io/StreamIO.cxx): partial and interrupted transfers, also with vectors. */
module StreamIO {
  import opened Common
  import opened Bytes
  import opened StreamAnswers
  import opened IOVectors

  lemma AddressesKept(rs: seq<Region>, n: nat, size: nat)
    requires n <= Total(rs) && Within(Addresses(rs), size)
    ensures n <= |Addresses(rs)|
    ensures Addresses(Advance(rs, n)) == Addresses(rs)[n..] && Within(Addresses(Advance(rs, n)), size)
  {
    AdvanceLeavesRest(rs, n);
  }

  lemma GatherSplit(mem: seq<Byte>, addrs: seq<nat>, n: nat)
    requires Within(addrs, |mem|) && n <= |addrs|
    ensures Within(addrs[..n], |mem|) && Within(addrs[n..], |mem|)
    ensures Gather(mem, addrs) == Gather(mem, addrs[..n]) + Gather(mem, addrs[n..])
  {
  }

  /** The memory once n bytes of the source have arrived at `base`. */
  function Filling(mem: seq<Byte>, source: seq<Byte>, base: nat, n: nat): (now: seq<Byte>)
    requires base + n <= |mem| && n <= |source|
    ensures |now| == |mem|
  {
    mem[..base] + source[..n] + mem[base + n..]
  }

  lemma FillingMore(mem: seq<Byte>, source: seq<Byte>, base: nat, n: nat, m: nat)
    requires base + n + m <= |mem| && n + m <= |source|
    ensures Arrived(mem, source, base, n + m, source[n..][m..], Filling(Filling(mem, source, base, n), source[n..], base + n, m))
  {
    var now, buf := Filling(mem, source, base, n), base + n;
    assert now[..buf] == mem[..base] + source[..n];
    assert now[buf + m..] == mem[buf + m..];
    assert source[..n] + source[n..][..m] == source[..n + m];
  }

  /** n bytes have gone from the source to the memory at `base`. */
  predicate Arrived(mem: seq<Byte>, source: seq<Byte>, base: nat, n: nat, left: seq<Byte>, now: seq<Byte>)
    requires base + n <= |mem| && n <= |source|
  {
    left == source[n..] && now == Filling(mem, source, base, n)
  }

  /** A file descriptor with a byte stream behind it, and the process's memory. `answers` is what the kernel will answer,
      call by call, as far as it is known. */
  class Stream {
    var answers: seq<Answer>
    var sink: seq<Byte>
    var source: seq<Byte>
    var mem: seq<Byte>
    var autoRestart: bool

    constructor (answers: seq<Answer>, source: seq<Byte>, mem: seq<Byte>, autoRestart: bool)
      ensures this.answers == answers && sink == [] && this.source == source && this.mem == mem
      ensures this.autoRestart == autoRestart
    {
      this.answers, this.sink, this.source, this.mem := answers, [], source, mem;
      this.autoRestart := autoRestart;
    }

    /** Wait for a transfer of at most `limit` bytes, restarting interrupted calls: the loop that all of read(), write() and
        their vector variants consist of. */
    method NextTransfer(limit: nat) returns (r: Result<nat>)
      modifies `answers
      ensures (r, answers) == Settled(old(answers), autoRestart, limit)
    {
      while answers != []
        invariant Settled(answers, autoRestart, limit) == Settled(old(answers), autoRestart, limit)
        decreases |answers|
      {
        var answer := answers[0];
        answers := answers[1..];
        match answer
        case Count(n) => return Done(if n < limit then n else limit);
        case Error(errno) =>
          var reaction := HandleIOError(errno, autoRestart);
          if reaction.Throw? {
            return Thrown(reaction.error);
          }
      }
      r := Waiting;
    }

    /** read() */
    method Read(buf: nat, length: nat) returns (r: Result<nat>)
      requires buf + length <= |mem|
      modifies `answers, `source, `mem
      ensures (r, answers) == Settled(old(answers), autoRestart, Min(length, |old(source)|))
      ensures !r.Done? ==> source == old(source) && mem == old(mem)
      ensures r.Done? ==> r.value <= length && r.value <= |old(source)| && source == old(source)[r.value..]
      ensures r.Done? ==> mem == Filling(old(mem), old(source), buf, r.value)
    {
      r := NextTransfer(Min(length, |source|));
      if r.Done? {
        mem := Filling(mem, source, buf, r.value);
        source := source[r.value..];
      }
    }

    /** write() */
    method Write(buf: nat, length: nat) returns (r: Result<nat>)
      requires buf + length <= |mem|
      modifies `answers, `sink
      ensures (r, answers) == Settled(old(answers), autoRestart, length)
      ensures !r.Done? ==> sink == old(sink)
      ensures r.Done? ==> r.value <= length && sink == old(sink) + mem[buf..buf + r.value]
    {
      r := NextTransfer(length);
      if r.Done? {
        sink := sink + mem[buf..buf + r.value];
      }
    }

    /** write(WriteIOVector&): what has been written and what the vector still holds are together what the vector held. */
    method WriteVector(iov: IOVector) returns (r: Result<bool>)
      requires Within(Addresses(iov.entries[..]), |mem|)
      modifies `answers, `sink, iov.entries
      ensures Within(Addresses(iov.entries[..]), |mem|)
      ensures sink + Gather(mem, Addresses(iov.entries[..])) == old(sink + Gather(mem, Addresses(iov.entries[..])))
      ensures !r.Done? ==> sink == old(sink) && iov.entries[..] == old(iov.entries[..])
      ensures r.Done? ==> (r.value <==> Addresses(iov.entries[..]) == [])
      ensures r != Thrown(Inconsistent)
      ensures |answers| <= |old(answers)| && (r.Done? ==> |answers| < |old(answers)|)
      ensures var (settled, left) := Settled(old(answers), autoRestart, Total(old(iov.entries[..])));
              && answers == left && (r.Done? <==> settled.Done?)
              && (settled.Done? ==> |sink| == |old(sink)| + settled.value)
              && (settled.Thrown? ==> r == Thrown(settled.error)) && (settled.Waiting? ==> r.Waiting?)
    {
      ghost var rs := iov.entries[..];
      ghost var addrs := Addresses(rs);
      var res := NextTransfer(Length(iov));
      if res.Thrown? {
        return Thrown(res.error);
      } else if res == Waiting {
        return Waiting;
      }
      TotalIsAddresses(rs);
      GatherSplit(mem, addrs, res.value);
      AddressesKept(rs, res.value, |mem|);
      sink := sink + FirstBytes(iov, res.value);
      var finished, inconsistent := iov.Update(res.value);
      TotalIsAddresses(iov.entries[..]);
      r := if inconsistent then Thrown(Inconsistent) else Done(finished);
    }

    /** The number of bytes that the kernel finds in a vector, and the first n of them. */
    function Length(iov: IOVector): nat
      reads iov.entries
    {
      Total(iov.entries[..])
    }

    function FirstBytes(iov: IOVector, n: nat): seq<Byte>
      reads this, iov.entries
      requires Within(Addresses(iov.entries[..]), |mem|) && n <= |Addresses(iov.entries[..])|
    {
      Gather(mem, Addresses(iov.entries[..])[..n])
    }

    /** read(ReadIOVector&): the bytes taken from the source fill the vector's first addresses, in order. */
    method ReadVector(iov: IOVector) returns (r: Result<bool>, ghost n: nat)
      requires Within(Addresses(iov.entries[..]), |mem|)
      modifies `answers, `source, `mem, iov.entries
      ensures n <= |Addresses(old(iov.entries[..]))| && n <= |old(source)|
      ensures source == old(source)[n..] && mem == Filled(old(mem), Addresses(old(iov.entries[..])), old(source), n)
      ensures Addresses(iov.entries[..]) == Addresses(old(iov.entries[..]))[n..]
      ensures Within(Addresses(iov.entries[..]), |mem|)
      ensures !r.Done? ==> n == 0
      ensures r.Done? ==> (r.value <==> Addresses(iov.entries[..]) == [])
      ensures r != Thrown(Inconsistent)
      ensures |answers| <= |old(answers)| && (r.Done? ==> |answers| < |old(answers)|)
      ensures var (settled, left) := Settled(old(answers), autoRestart, Min(Total(old(iov.entries[..])), |old(source)|));
              && answers == left && (r.Done? <==> settled.Done?) && (settled.Done? ==> n == settled.value)
              && (settled.Thrown? ==> r == Thrown(settled.error)) && (settled.Waiting? ==> r.Waiting?)
    {
      ghost var rs := iov.entries[..];
      n := 0;
      TotalIsAddresses(rs);
      var limit := Length(iov);
      var res := NextTransfer(Min(limit, |source|));
      if res.Thrown? {
        return Thrown(res.error), 0;
      } else if res == Waiting {
        return Waiting, 0;
      }
      n := res.value;
      AddressesKept(rs, res.value, |mem|);
      mem := Filled(mem, Addresses(iov.entries[..]), source, res.value);
      source := source[res.value..];
      var finished, inconsistent := iov.Update(res.value);
      TotalIsAddresses(iov.entries[..]);
      r := if inconsistent then Thrown(Inconsistent) else Done(finished);
    }
  }

  /** Memory after the first n bytes have been stored at the first n addresses. */
  function Filled(mem: seq<Byte>, addrs: seq<nat>, bytes: seq<Byte>, n: nat): (after: seq<Byte>)
    requires Within(addrs, |mem|) && n <= |addrs| && n <= |bytes|
    ensures |after| == |mem|
  {
    Scatter(mem, addrs[..n], bytes[..n])
  }

  lemma FilledTwice(mem: seq<Byte>, addrs: seq<nat>, bytes: seq<Byte>, n: nat, m: nat)
    requires Within(addrs, |mem|) && n + m <= |addrs| && n + m <= |bytes|
    ensures Within(addrs[n..], |mem|)
    ensures Filled(Filled(mem, addrs, bytes, n), addrs[n..], bytes[n..], m) == Filled(mem, addrs, bytes, n + m)
  {
    ScatterConcat(mem, addrs[..n], addrs[n..][..m], bytes[..n], bytes[n..][..m]);
    assert addrs[..n] + addrs[n..][..m] == addrs[..n + m];
    assert bytes[..n] + bytes[n..][..m] == bytes[..n + m];
  }

  /** Writing a vector again and again until nothing remains, whatever the counts and interruptions: all regions come out,
      once and in order. */
  method WriteRepeatedly(stream: Stream, iov: IOVector) returns (r: Result<bool>)
    requires Within(Addresses(iov.entries[..]), |stream.mem|)
    modifies stream`answers, stream`sink, iov.entries
    ensures Within(Addresses(iov.entries[..]), |stream.mem|)
    ensures stream.sink + Gather(stream.mem, Addresses(iov.entries[..])) ==
              old(stream.sink + Gather(stream.mem, Addresses(iov.entries[..])))
    ensures r.Done? ==> stream.sink == old(stream.sink + Gather(stream.mem, Addresses(iov.entries[..])))
    ensures r != Thrown(Inconsistent)
  {
    r := Done(false);
    while r.Done? && !r.value
      invariant Within(Addresses(iov.entries[..]), |stream.mem|)
      invariant stream.sink + Gather(stream.mem, Addresses(iov.entries[..])) ==
                old(stream.sink + Gather(stream.mem, Addresses(iov.entries[..])))
      invariant r.Done? && r.value ==> Addresses(iov.entries[..]) == []
      invariant r != Thrown(Inconsistent)
      decreases r.Done? && !r.value, |stream.answers|
    {
      r := stream.WriteVector(iov);
    }
    assert r.Done? ==> stream.sink + [] == stream.sink;
  }

  /** Reading into a vector again and again until it is full: the source's bytes are found in the regions, in order, if
      these do not overlap. */
  method ReadRepeatedly(stream: Stream, iov: IOVector) returns (r: Result<bool>, ghost n: nat)
    requires Within(Addresses(iov.entries[..]), |stream.mem|)
    modifies stream`answers, stream`source, stream`mem, iov.entries
    ensures n <= |Addresses(old(iov.entries[..]))| && n <= |old(stream.source)|
    ensures stream.source == old(stream.source)[n..]
    ensures stream.mem == Filled(old(stream.mem), Addresses(old(iov.entries[..])), old(stream.source), n)
    ensures Addresses(iov.entries[..]) == Addresses(old(iov.entries[..]))[n..]
    ensures r.Done? ==> n == |Addresses(old(iov.entries[..]))|
    ensures r.Done? && Distinct(Addresses(old(iov.entries[..]))) ==>
              Gather(stream.mem, Addresses(old(iov.entries[..]))) == old(stream.source)[..n]
  {
    ghost var addrs, bytes, mem := Addresses(iov.entries[..]), stream.source, stream.mem;
    n := 0;
    r := Done(false);
    while r.Done? && !r.value
      invariant n <= |addrs| && n <= |bytes| && |stream.mem| == |mem|
      invariant stream.source == bytes[n..] && stream.mem == Filled(mem, addrs, bytes, n)
      invariant Addresses(iov.entries[..]) == addrs[n..] && Within(addrs[n..], |mem|)
      invariant r.Done? && r.value ==> n == |addrs|
      decreases r.Done? && !r.value, |stream.answers|
    {
      ghost var m;
      r, m := stream.ReadVector(iov);
      FilledTwice(mem, addrs, bytes, n, m);
      n := n + m;
    }
    if r.Done? && Distinct(addrs) {
      assert addrs[..n] == addrs;
      GatherScatter(mem, addrs, bytes[..n]);
    }
  }

  /** Inside writeAll(): n bytes have been written, with `used` answers that offered `total`. */
  ghost predicate Writing(out: seq<Byte>, mem: seq<Byte>, all: seq<Answer>, autoRestart: bool, base: nat, size: nat,
                          n: nat, used: nat, total: nat, sink: seq<Byte>, answers: seq<Answer>) {
    && base + n <= base + size <= |mem| && sink == out + mem[base..base + n]
    && Underway(all, used, answers, autoRestart, total) && n == Min(size, total)
  }

  /** A write() has not come to anything: the answer used last was an error, or none was left. */
  ghost predicate WriteStopped(out: seq<Byte>, mem: seq<Byte>, all: seq<Answer>, autoRestart: bool, base: nat, size: nat,
                               n: nat, used: nat, sink: seq<Byte>, answers: seq<Answer>, res: Result<nat>) {
    && base + n < base + size <= |mem| && sink == out + mem[base..base + n]
    && used <= |all| && answers == all[used..] && Explains(all, used, autoRestart, res) && n == Min(size, Counts(all[..used]))
  }

  /** One write() of the rest. */
  method WriteOn(stream: Stream, base: nat, size: nat, n: nat,
                 ghost out: seq<Byte>, ghost all: seq<Answer>, ghost used: nat, ghost total: nat)
    returns (res: Result<nat>, ghost more: nat, ghost sum: nat)
    requires Writing(out, stream.mem, all, stream.autoRestart, base, size, n, used, total, stream.sink, stream.answers) && n < size
    modifies stream`answers, stream`sink
    ensures res.Done? ==>
              && n + res.value <= size && |stream.answers| < |old(stream.answers)|
              && Writing(out, stream.mem, all, stream.autoRestart, base, size, n + res.value, more, sum, stream.sink, stream.answers)
    ensures !res.Done? ==>
              WriteStopped(out, stream.mem, all, stream.autoRestart, base, size, n, more, stream.sink, stream.answers, res)
  {
    more, sum := Proceeds(all, used, stream.answers, stream.autoRestart, total, size - n);
    res := stream.Write(base + n, size - n);
    if res.Done? {
      assert stream.mem[base..base + n] + stream.mem[base + n..base + n + res.value] == stream.mem[base..base + n + res.value];
    }
  }

  /** The loop of writeAll(). */
  method WriteLoop(stream: Stream, base: nat, size: nat, ghost out: seq<Byte>, ghost all: seq<Answer>)
    returns (res: Result<nat>, n: nat, ghost used: nat, ghost total: nat)
    requires Writing(out, stream.mem, all, stream.autoRestart, base, size, 0, 0, 0, stream.sink, stream.answers)
    modifies stream`answers, stream`sink
    ensures res.Done? ==>
              n == size && Writing(out, stream.mem, all, stream.autoRestart, base, size, n, used, total, stream.sink, stream.answers)
    ensures !res.Done? ==>
              WriteStopped(out, stream.mem, all, stream.autoRestart, base, size, n, used, stream.sink, stream.answers, res)
  {
    n, used, total, res := 0, 0, 0, Done(0);
    var length := size;
    while length != 0
      invariant n + length == size
      invariant Writing(out, stream.mem, all, stream.autoRestart, base, size, n, used, total, stream.sink, stream.answers)
      decreases |stream.answers|
    {
      res, used, total := WriteOn(stream, base, size, n, out, all, used, total);
      if !res.Done? {
        return;
      }
      n := n + res.value;
      length := length - res.value;
    }
    res := Done(0);
  }

  /** writeAll(): buf and length are advanced by every partial write. What is written is what the answers that were used amount to,
      up to the size; the error is that of the answer used last. */
  method WriteAll(stream: Stream, base: nat, size: nat) returns (r: Result<()>, ghost written: nat, ghost used: nat)
    requires base + size <= |stream.mem|
    modifies stream`answers, stream`sink
    ensures written <= size && stream.sink == old(stream.sink) + stream.mem[base..base + written]
    ensures r.Done? <==> written == size
    ensures used <= |old(stream.answers)| && stream.answers == old(stream.answers)[used..]
    ensures WrittenBy(old(stream.answers), stream.autoRestart, size, r, written, used)
  {
    Beginning(stream.answers, stream.autoRestart);
    var res, n;
    ghost var total;
    res, n, used, total := WriteLoop(stream, base, size, stream.sink, stream.answers);
    written := n;
    match res
    case Done(_) => r := Done(());
    case Thrown(error) => r := Thrown(error);
    case Waiting => r := Waiting;
  }

  /** Inside readAll(). */
  ghost predicate Reading(mem: seq<Byte>, source: seq<Byte>, all: seq<Answer>, autoRestart: bool, base: nat, size: nat,
                          n: nat, used: nat, total: nat, now: seq<Byte>, left: seq<Byte>, answers: seq<Answer>) {
    && base + n <= base + size <= |mem| && n <= |source| && Arrived(mem, source, base, n, left, now)
    && Underway(all, used, answers, autoRestart, total) && n == Min(size, Min(|source|, total))
  }

  ghost predicate ReadStopped(mem: seq<Byte>, source: seq<Byte>, all: seq<Answer>, autoRestart: bool, base: nat, size: nat,
                              n: nat, used: nat, now: seq<Byte>, left: seq<Byte>, answers: seq<Answer>, res: Result<nat>) {
    && base + n < base + size <= |mem| && n <= |source| && Arrived(mem, source, base, n, left, now)
    && used <= |all| && answers == all[used..] && Explains(all, used, autoRestart, res)
    && n == Min(size, Min(|source|, Counts(all[..used])))
  }

  /** One read() of the rest. */
  method ReadOn(stream: Stream, base: nat, size: nat, n: nat,
                ghost mem: seq<Byte>, ghost source: seq<Byte>, ghost all: seq<Answer>, ghost used: nat, ghost total: nat)
    returns (res: Result<nat>, ghost more: nat, ghost sum: nat)
    requires Reading(mem, source, all, stream.autoRestart, base, size, n, used, total, stream.mem, stream.source, stream.answers)
    requires n < size
    modifies stream`answers, stream`source, stream`mem
    ensures res.Done? ==>
              && n + res.value <= size && |stream.answers| < |old(stream.answers)|
              && Reading(mem, source, all, stream.autoRestart, base, size, n + res.value, more, sum,
                         stream.mem, stream.source, stream.answers)
              && (res.value == 0 ==> 0 < more <= |all| && (all[more - 1] == Count(0) || n == |source|))
    ensures !res.Done? ==>
              ReadStopped(mem, source, all, stream.autoRestart, base, size, n, more, stream.mem, stream.source, stream.answers, res)
  {
    more, sum := Proceeds(all, used, stream.answers, stream.autoRestart, total, Min(size - n, |stream.source|));
    res := stream.Read(base + n, size - n);
    if res.Done? {
      FillingMore(mem, source, base, n, res.value);
      Adds(size, |source|, total, n, all[more - 1].n, res.value);
    }
  }

  /** The loop of readAll(); `eof` tells whether it was left for a transfer of no bytes. */
  method ReadLoop(stream: Stream, base: nat, size: nat, ghost mem: seq<Byte>, ghost source: seq<Byte>, ghost all: seq<Answer>)
    returns (res: Result<nat>, eof: bool, n: nat, ghost used: nat, ghost total: nat)
    requires Reading(mem, source, all, stream.autoRestart, base, size, 0, 0, 0, stream.mem, stream.source, stream.answers)
    modifies stream`answers, stream`source, stream`mem
    ensures res.Done? ==>
              && Reading(mem, source, all, stream.autoRestart, base, size, n, used, total,
                         stream.mem, stream.source, stream.answers)
              && if eof then n < size && 0 < used <= |all| && (all[used - 1] == Count(0) || n == |source|) else n == size
    ensures !res.Done? ==>
              ReadStopped(mem, source, all, stream.autoRestart, base, size, n, used, stream.mem, stream.source, stream.answers, res)
  {
    n, used, total, eof, res := 0, 0, 0, false, Done(0);
    var length := size;
    while length != 0
      invariant n + length == size && !eof
      invariant Reading(mem, source, all, stream.autoRestart, base, size, n, used, total, stream.mem, stream.source, stream.answers)
      decreases |stream.answers|
    {
      res, used, total := ReadOn(stream, base, size, n, mem, source, all, used, total);
      if !res.Done? {
        return;
      }
      n := n + res.value;
      length := length - res.value;
      if res.value == 0 {
        eof := true;
        return;
      }
    }
    res := Done(0);
  }

  /** readAll(): the same for reading; a transfer of no bytes is the end of the file. */
  method ReadAll(stream: Stream, base: nat, size: nat) returns (r: Result<()>, ghost taken: nat, ghost used: nat)
    requires base + size <= |stream.mem|
    modifies stream`answers, stream`source, stream`mem
    ensures taken <= size && taken <= |old(stream.source)| && stream.source == old(stream.source)[taken..]
    ensures stream.mem == Filling(old(stream.mem), old(stream.source), base, taken)
    ensures r.Done? <==> taken == size
    ensures used <= |old(stream.answers)| && stream.answers == old(stream.answers)[used..]
    ensures ReadBy(old(stream.answers), stream.autoRestart, size, |old(stream.source)|, r, taken, used)
  {
    Beginning(stream.answers, stream.autoRestart);
    var res, eof, n;
    ghost var total;
    res, eof, n, used, total := ReadLoop(stream, base, size, stream.mem, stream.source, stream.answers);
    taken := n;
    match res
    case Done(_) => r := if eof then Thrown(UnexpectedEof) else Done(());
    case Thrown(error) => r := Thrown(error);
    case Waiting => r := Waiting;
  }
}
