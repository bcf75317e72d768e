/** The buffered reader of inotify records (src/fs/INotify.cxx). */
module INotify {
  import opened Bytes

  /** sizeof(struct inotify_event): wd, mask, cookie and len, four bytes each. */
  const HEADER: nat := 16

  /** One record of the kernel's queue: the first three header fields, and the name with its padding. */
  datatype Record = Record(fields: seq<Byte>, name: seq<Byte>) {
    predicate Valid() { |fields| == 12 && |name| < 0x1_0000_0000 }
  }

  function Encode(r: Record): (bytes: seq<Byte>)
    requires r.Valid()
    ensures |bytes| == HEADER + |r.name|
  {
    r.fields + FromUnsigned(|r.name|) + r.name
  }

  predicate AllValid(rs: seq<Record>) {
    forall r | r in rs :: r.Valid()
  }

  function EncodeAll(rs: seq<Record>): seq<Byte>
    requires AllValid(rs)
  {
    if rs == [] then [] else Encode(rs[0]) + EncodeAll(rs[1..])
  }

  /** event_ptr->len for a record at `offset`. */
  function NameLenAt(buffer: seq<Byte>, offset: nat): nat
    requires offset + HEADER <= |buffer|
  {
    ToUnsigned(buffer, offset + 12)
  }

  /** The record that an Event object at `offset` points to. */
  function RecordAt(buffer: seq<Byte>, offset: nat): Record
    requires offset + HEADER <= |buffer| && offset + HEADER + NameLenAt(buffer, offset) <= |buffer|
  {
    Record(buffer[offset..offset + 12], buffer[offset + HEADER..offset + HEADER + NameLenAt(buffer, offset)])
  }

  /** A record that was encoded into a buffer is found again, wherever it lies. */
  lemma RecordRoundTrip(before: seq<Byte>, r: Record, after: seq<Byte>)
    requires r.Valid()
    ensures var buffer := before + Encode(r) + after;
            && NameLenAt(buffer, |before|) == |r.name|
            && RecordAt(buffer, |before|) == r
  {
    var buffer := before + Encode(r) + after;
    var at := |before|;
    assert buffer == (before + r.fields) + FromUnsigned(|r.name|) + (r.name + after);
    UnsignedRoundTrip(|r.name|, before + r.fields, r.name + after);
    assert buffer[at..at + 12] == r.fields;
    assert buffer[at + HEADER..at + HEADER + |r.name|] == r.name;
  }

  /** Does a buffer hold a whole record at `offset`? */
  predicate Holds(buffer: seq<Byte>, offset: nat) {
    offset + HEADER <= |buffer| && offset + HEADER + NameLenAt(buffer, offset) <= |buffer|
  }

  /** Behind `offset` lie the encoded `pending`: the record there is the first of them, and the others lie behind it. */
  lemma NextRecord(buffer: seq<Byte>, offset: nat, pending: seq<Record>)
    requires AllValid(pending) && pending != [] && offset <= |buffer| && buffer[offset..] == EncodeAll(pending)
    ensures Holds(buffer, offset) && RecordAt(buffer, offset) == pending[0]
    ensures var next := offset + HEADER + NameLenAt(buffer, offset);
            next <= |buffer| && buffer[next..] == EncodeAll(pending[1..])
  {
    var first, others := pending[0], EncodeAll(pending[1..]);
    assert buffer == buffer[..offset] + Encode(first) + others;
    RecordRoundTrip(buffer[..offset], first, others);
    assert buffer[offset + |Encode(first)|..] == others;
  }

  /** The records in a buffer, found by going from one to the next as long as a whole one is there. */
  function Parse(buffer: seq<Byte>, offset: nat): seq<Record>
    decreases |buffer| - offset
  {
    if Holds(buffer, offset) then
      [RecordAt(buffer, offset)] + Parse(buffer, offset + HEADER + NameLenAt(buffer, offset))
    else []
  }

  /** Going through a batch of whole records yields exactly these records. */
  lemma {:induction false} ParseBack(buffer: seq<Byte>, offset: nat, rs: seq<Record>)
    requires AllValid(rs) && offset <= |buffer| && buffer[offset..] == EncodeAll(rs)
    ensures Parse(buffer, offset) == rs
    decreases |rs|
  {
    if rs == [] {
      assert |buffer| == offset;
    } else {
      NextRecord(buffer, offset, rs);
      var next := offset + HEADER + NameLenAt(buffer, offset);
      ParseBack(buffer, next, rs[1..]);
      assert Parse(buffer, offset) == [rs[0]] + Parse(buffer, next);
    }
  }

  datatype Outcome = Event(offset: nat) | ApiError(again: bool)

  /** tryReadEvent(): an optional event, or an exception. */
  datatype Attempt = NoEvent | Found(offset: nat) | Thrown

  /** What read() on the inotify descriptor does: it fails, or delivers some whole records that fit into the buffer. */
  datatype ReadAnswer = ReadFails(again: bool) | Delivers(count: nat)

  /** Can the kernel answer a read() of `size` bytes like this? */
  predicate Possible(queue: seq<Record>, size: nat, answer: ReadAnswer)
    requires AllValid(queue)
  {
    answer.Delivers? ==> 0 < answer.count <= |queue| && |EncodeAll(queue[..answer.count])| <= size
  }

  class Reader {
    const ioBufferSize: nat
    var buffer: seq<Byte>
    var offset: nat
    var queue: seq<Record>              // the kernel's queue
    ghost var pending: seq<Record>      // records in the buffer that have not been returned
    ghost var returned: seq<Record>     // records returned so far

    ghost predicate Valid()
      reads this
    {
      && AllValid(queue) && AllValid(pending)
      && (if offset <= |buffer| then buffer[offset..] == EncodeAll(pending) else pending == [])
    }

    /** Everything the kernel has ever queued, in order. */
    ghost function Stream(): seq<Record>
      reads this
    {
      returned + pending + queue
    }

    constructor (ioBufferSize: nat)
      ensures Valid() && Stream() == [] && this.ioBufferSize == ioBufferSize
    {
      this.ioBufferSize := ioBufferSize;
      buffer := [];
      offset := 0;
      queue := [];
      pending := [];
      returned := [];
    }

    /** A watched file changes: the kernel appends a record. */
    method Happens(r: Record)
      requires Valid() && r.Valid()
      modifies `queue
      ensures Valid() && queue == old(queue) + [r] && Stream() == old(Stream()) + [r]
    {
      queue := queue + [r];
    }

    /** read() into the first `size` bytes of the buffer. */
    method ReadFile(answer: ReadAnswer) returns (read: nat)
      requires AllValid(queue) && Possible(queue, |buffer|, answer)
      modifies `buffer, `queue
      ensures answer.ReadFails? ==> unchanged(this)
      ensures answer.Delivers? ==>
                && read == |EncodeAll(old(queue)[..answer.count])| && read <= |old(buffer)|
                && buffer == EncodeAll(old(queue)[..answer.count]) + old(buffer)[read..]
                && queue == old(queue)[answer.count..]
    {
      read := 0;
      if answer.Delivers? {
        var data := EncodeAll(queue[..answer.count]);
        read := |data|;
        buffer := data + buffer[read..];
        queue := queue[answer.count..];
      }
    }

    /** The part of readEvent() that reads in new data. Before read() is called, the offset is put at the end of the
        buffer, so that nothing is found there if it throws. */
    method Refill(answer: ReadAnswer) returns (ok: bool)
      requires Valid() && Possible(queue, ioBufferSize, answer) && pending == []
      modifies `buffer, `offset, `queue, `pending
      ensures Valid() && Stream() == old(Stream()) && ok == answer.Delivers?
      ensures ok ==> offset == 0 && pending != []
      ensures !ok ==> pending == []
    {
      buffer := Resized(buffer, ioBufferSize);
      offset := ioBufferSize;
      var read := ReadFile(answer);
      if answer.ReadFails? {
        assert buffer[offset..] == [];
        return false;
      }
      offset := 0;
      buffer := Resized(buffer, read);
      pending := old(queue)[..answer.count];
      BatchSplits(old(queue), answer.count, buffer);
      ok := true;
    }

    /** The part of readEvent() that takes the next record from the buffer. */
    method TakeRecord() returns (at: nat)
      requires Valid() && pending != []
      modifies `offset, `returned, `pending
      ensures Valid() && Stream() == old(Stream())
      ensures Holds(buffer, at) && returned == old(returned) + [RecordAt(buffer, at)]
    {
      NextRecord(buffer, offset, pending);
      at := offset;
      offset := offset + HEADER + NameLenAt(buffer, offset);
      returned := returned + [pending[0]];
      pending := pending[1..];
    }

    /** readEvent(). `answer` is what the kernel answers if it is asked. The event returned is the next record of the
        stream, and lies inside the buffer; a failing read() changes nothing of it. */
    method ReadEvent(answer: ReadAnswer) returns (result: Outcome)
      requires Valid() && Possible(queue, ioBufferSize, answer)
      modifies this
      ensures Valid() && Stream() == old(Stream())
      ensures result.ApiError? ==> returned == old(returned) && old(pending) == [] && answer == ReadFails(result.again)
      ensures result.Event? ==> Holds(buffer, result.offset) &&
                                returned == old(returned) + [RecordAt(buffer, result.offset)]
    {
      EncodeNotEmpty(pending);
      if offset >= |buffer| {
        var ok := Refill(answer);
        if !ok {
          return ApiError(answer.again);
        }
      }
      var at := TakeRecord();
      result := Event(at);
    }

    /** tryReadEvent(): EAGAIN becomes "no event". */
    method TryReadEvent(answer: ReadAnswer) returns (result: Attempt)
      requires Valid() && Possible(queue, ioBufferSize, answer)
      modifies this
      ensures Valid() && Stream() == old(Stream())
      ensures result.Found? ==> Holds(buffer, result.offset) &&
                                returned == old(returned) + [RecordAt(buffer, result.offset)]
      ensures !result.Found? ==>
                returned == old(returned) && old(pending) == [] && answer == ReadFails(result == NoEvent)
    {
      var event := ReadEvent(answer);
      match event
      case Event(offset) => result := Found(offset);
      case ApiError(again) => result := if again then NoEvent else Thrown;
    }
  }

  /** What may happen to a reader: a new record in the queue, or a call that finds the kernel ready to answer so. */
  datatype Op = Happening(r: Record) | Call(answer: ReadAnswer)

  function Queued(ops: seq<Op>): seq<Record> {
    if ops == [] then []
    else Queued(ops[..|ops| - 1]) + if ops[|ops| - 1].Happening? then [ops[|ops| - 1].r] else []
  }

  /** Any sequence of happenings and calls, failing ones included; calls that the kernel would not answer in the given way
      are left out. `got` are the records seen through the events, at the time they were returned: they are a prefix of
      everything queued, in order, none lost, repeated or torn. */
  method AnyRun(reader: Reader, ops: seq<Op>) returns (got: seq<Record>)
    requires reader.Valid() && reader.Stream() == []
    requires forall op | op in ops && op.Happening? :: op.r.Valid()
    modifies reader
    ensures got <= Queued(ops) && Queued(ops) == got + reader.pending + reader.queue
  {
    got := [];
    for i := 0 to |ops|
      invariant reader.Valid() && reader.returned == got && reader.Stream() == Queued(ops[..i])
    {
      assert ops[..i + 1][..i] == ops[..i];
      match ops[i]
      case Happening(r) => reader.Happens(r);
      case Call(answer) =>
        if Possible(reader.queue, reader.ioBufferSize, answer) {
          var attempt := reader.TryReadEvent(answer);
          if attempt.Found? {
            got := got + [RecordAt(reader.buffer, attempt.offset)];
          }
        }
    }
    assert ops[..|ops|] == ops;
  }

  /** std::vector::resize() */
  function Resized(bytes: seq<Byte>, n: nat): (r: seq<Byte>)
    ensures |r| == n
  {
    if n <= |bytes| then bytes[..n] else bytes + seq(n - |bytes|, _ => 0)
  }

  lemma BatchSplits(queue: seq<Record>, count: nat, buffer: seq<Byte>)
    requires AllValid(queue) && 0 < count <= |queue|
    ensures AllValid(queue[..count]) && AllValid(queue[count..]) && queue[..count] + queue[count..] == queue
    ensures buffer == EncodeAll(queue[..count]) ==> buffer[0..] == EncodeAll(queue[..count])
  {
  }

  lemma EncodeNotEmpty(rs: seq<Record>)
    requires AllValid(rs)
    ensures EncodeAll(rs) == [] <==> rs == []
  {
  }
}
