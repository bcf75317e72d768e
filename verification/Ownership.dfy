/** Who has to give a resource back? The rules of FDFile and FileBase (include/fs/FDFile.hxx, include/fs/FileBase.hxx),
    for descriptors and, in the case of TempFile, for the path of a temporary file as well. */
module Ownership {
  import opened Common

  /** What a file object remembers: the resource, and whether it has to give it back. */
  datatype Slot<R> = Slot(res: Option<R>, owned: bool) {
    predicate Owns() { res.Some? && owned }
  }

  function Empty<R>(): Slot<R> {
    Slot(None, true)
  }

  /** The slot after takeOwnership() ... */
  function Taken<R>(s: Slot<R>): Slot<R> {
    Slot(None, s.owned)
  }

  /** ... and after releaseOwnership(). */
  function Released<R>(s: Slot<R>): Slot<R> {
    Slot(s.res, false)
  }

  /** The resources that close() and the destructor give back to the system. */
  function GivesBack<R>(s: Slot<R>): seq<R> {
    if s.Owns() then [s.res.value] else []
  }

  datatype Event<R> = HandedIn(res: R) | Closed(res: R) | Returned(res: R) | Lost(res: R)

  /** All file objects of a program and all open resources: `held` are those the program itself has to care for, `lost` those
      nobody cares for any more. */
  datatype World<R(==)> = World(slots: map<nat, Slot<R>>, open: set<R>, held: set<R>, lost: set<R>, log: multiset<Event<R>>)

  datatype Op<R> =
    | Acquire(res: R)                             // the program gets a resource from the system
    | GiveBack(res: R)                            // the program closes one it cares for
    | Construct(id: nat)
    | Open(id: nat, given: Option<R>, owned: bool)
    | Close(id: nat)
    | Move(to: nat, from: nat)                    // move assignment, possibly to itself
    | Take(id: nat)
    | Release(id: nat)
    | Destroy(id: nat)

  /** What the program has to observe: it hands in as owned, and gives back, only what it has to care for. */
  predicate Legal<R>(w: World<R>, op: Op<R>) {
    match op
    case Acquire(res) => res !in w.open
    case GiveBack(res) => res in w.held
    case Construct(id) => id !in w.slots
    case Open(id, res, owned) => id in w.slots && (owned && res.Some? ==> res.value in w.held)
    case Close(id) => id in w.slots
    case Move(to, from) => to in w.slots && from in w.slots
    case Take(id) => id in w.slots
    case Release(id) => id in w.slots
    case Destroy(id) => id in w.slots
  }

  /** An owning slot is overwritten: nobody closes what it held. */
  function Drop<R>(w: World<R>, s: Slot<R>): World<R> {
    if s.Owns() then w.(lost := w.lost + {s.res.value}, log := w.log + multiset{Lost(s.res.value)}) else w
  }

  function SystemClose<R>(w: World<R>, s: Slot<R>): World<R> {
    if s.Owns() then w.(open := w.open - {s.res.value}, log := w.log + multiset{Closed(s.res.value)}) else w
  }

  /** The slot gives up the resource in favour of the program. */
  function Return<R>(w: World<R>, s: Slot<R>): World<R> {
    if s.Owns() then w.(held := w.held + {s.res.value}, log := w.log + multiset{Returned(s.res.value)}) else w
  }

  function HandIn<R>(w: World<R>, s: Slot<R>): World<R> {
    if s.Owns() then w.(held := w.held - {s.res.value}, log := w.log + multiset{HandedIn(s.res.value)}) else w
  }

  function Put<R>(w: World<R>, id: nat, s: Slot<R>): World<R> {
    w.(slots := w.slots[id := s])
  }

  function Apply<R>(w: World<R>, op: Op<R>): World<R>
    requires Legal(w, op)
  {
    match op
    case Acquire(res) => w.(open := w.open + {res}, held := w.held + {res})
    case GiveBack(res) => w.(open := w.open - {res}, held := w.held - {res})
    case Construct(id) => Put(w, id, Empty())
    case Open(id, res, owned) =>
      var s := Slot(res, owned);
      Put(HandIn(Drop(w, w.slots[id]), s), id, s)
    case Close(id) => Put(SystemClose(w, w.slots[id]), id, Empty())
    case Move(to, from) =>
      var s := w.slots[from];
      Put(Put(Drop(w, w.slots[to]), to, s), from, Empty())
    case Take(id) => Put(Return(w, w.slots[id]), id, Taken(w.slots[id]))
    case Release(id) => Put(Return(w, w.slots[id]), id, Released(w.slots[id]))
    case Destroy(id) =>
      var after := SystemClose(w, w.slots[id]);
      after.(slots := after.slots - {id})
  }

  predicate Has<R>(w: World<R>, id: nat, res: R) {
    id in w.slots && w.slots[id] == Slot(Some(res), true)
  }

  ghost predicate Owned<R(!new)>(w: World<R>, res: R) {
    exists id :: Has(w, id, res)
  }

  ghost predicate OneOwner<R(!new)>(w: World<R>) {
    forall id, other, res | Has(w, id, res) && Has(w, other, res) :: id == other
  }

  /** Every open resource is cared for exactly once, or lost. */
  ghost predicate CaredFor<R(!new)>(w: World<R>) {
    && OneOwner(w)
    && (forall res | Owned(w, res) :: res in w.open && res !in w.held && res !in w.lost)
    && (forall res | res in w.held :: res in w.open && res !in w.lost)
    && (forall res | res in w.lost :: res in w.open)
    && (forall res | res in w.open :: res in w.held || res in w.lost || Owned(w, res))
  }

  /** Whatever was handed in has been closed, returned or lost, once for each time, or is owned still. */
  ghost predicate Balanced<R(!new)>(w: World<R>) {
    forall res :: w.log[HandedIn(res)] ==
      w.log[Closed(res)] + w.log[Returned(res)] + w.log[Lost(res)] + if Owned(w, res) then 1 else 0
  }

  /** How the owners change with one slot; `s` is None if the object is destroyed. */
  lemma OwnersAfter<R(!new)>(w: World<R>, v: World<R>, id: nat, s: Option<Slot<R>>)
    requires OneOwner(w)
    requires v.slots == if s.Some? then w.slots[id := s.value] else w.slots - {id}
    requires s.Some? && s.value.Owns() && Owned(w, s.value.res.value) ==> Has(w, id, s.value.res.value)
    ensures OneOwner(v)
    ensures forall res :: Owned(v, res) <==>
              s == Some(Slot(Some(res), true)) || (Owned(w, res) && !Has(w, id, res))
    ensures id in w.slots && w.slots[id].Owns() ==>
              var res := w.slots[id].res.value; Has(w, id, res) && Owned(w, res)
    ensures s.Some? && s.value.Owns() ==> Owned(v, s.value.res.value)
  {
    if id in w.slots && w.slots[id].Owns() {
      assert Has(w, id, w.slots[id].res.value);
    }
    if s.Some? && s.value.Owns() {
      assert Has(v, id, s.value.res.value);
    }
    forall i, res ensures Has(v, i, res) <==> if i == id then s == Some(Slot(Some(res), true)) else Has(w, i, res) {
    }
    forall res ensures Owned(v, res) <==> s == Some(Slot(Some(res), true)) || (Owned(w, res) && !Has(w, id, res)) {
      if s == Some(Slot(Some(res), true)) {
        assert Has(v, id, res);
      } else if Owned(w, res) && !Has(w, id, res) {
        var i :| Has(w, i, res);
        assert Has(v, i, res);
      }
    }
  }

  ghost predicate Inv<R(!new)>(w: World<R>) {
    CaredFor(w) && Balanced(w)
  }

  lemma CloseKeeps<R(!new)>(w: World<R>, id: nat, s: Option<Slot<R>>, v: World<R>)
    requires Inv(w) && id in w.slots && (s.Some? ==> !s.value.Owns())
    requires v == SystemClose(w, w.slots[id]).(slots := v.slots)
    requires v.slots == if s.Some? then w.slots[id := s.value] else w.slots - {id}
    ensures Inv(v)
  {
    OwnersAfter(w, v, id, s);
  }

  lemma ReturnKeeps<R(!new)>(w: World<R>, id: nat, s: Slot<R>)
    requires Inv(w) && id in w.slots && !s.Owns()
    ensures Inv(Put(Return(w, w.slots[id]), id, s))
  {
    OwnersAfter(w, Put(Return(w, w.slots[id]), id, s), id, Some(s));
  }

  lemma DropKeeps<R(!new)>(w: World<R>, id: nat)
    requires Inv(w) && id in w.slots
    ensures Inv(Put(Drop(w, w.slots[id]), id, Empty()))
  {
    OwnersAfter(w, Put(Drop(w, w.slots[id]), id, Empty()), id, Some(Empty()));
  }

  lemma HandInKeeps<R(!new)>(w: World<R>, id: nat, s: Slot<R>)
    requires Inv(w) && (id in w.slots ==> !w.slots[id].Owns()) && (s.Owns() ==> s.res.value in w.held)
    ensures Inv(Put(HandIn(w, s), id, s))
  {
    OwnersAfter(w, Put(HandIn(w, s), id, s), id, Some(s));
  }

  lemma TransferKeeps<R(!new)>(w: World<R>, to: nat, from: nat)
    requires Inv(w) && to in w.slots && from in w.slots && !w.slots[to].Owns() && to != from
    ensures Inv(Put(Put(w, to, w.slots[from]), from, Empty()))
  {
    var u, s := Put(w, from, Empty()), w.slots[from];
    var v := Put(u, to, s);
    OwnersAfter(w, u, from, Some(Empty()));
    OwnersAfter(u, v, to, Some(s));
    assert v.slots == Put(Put(w, to, s), from, Empty()).slots;
    if s.Owns() {
      assert Has(w, from, s.res.value);
    }
  }

  lemma ProgramKeeps<R(!new)>(w: World<R>, v: World<R>, res: R)
    requires Inv(w) && v == w.(open := v.open, held := v.held)
    requires (res !in w.open && v.open == w.open + {res} && v.held == w.held + {res})
          || (res in w.held && v.open == w.open - {res} && v.held == w.held - {res})
    ensures Inv(v)
  {
    SameOwners(w, v);
  }

  lemma OpenKeeps<R(!new)>(w: World<R>, id: nat, s: Slot<R>)
    requires Inv(w) && id in w.slots && (s.Owns() ==> s.res.value in w.held)
    ensures Inv(Put(HandIn(Drop(w, w.slots[id]), s), id, s))
  {
    var u := Put(Drop(w, w.slots[id]), id, Empty());
    DropKeeps(w, id);
    HandInKeeps(u, id, s);
    assert Put(HandIn(Drop(w, w.slots[id]), s), id, s) == Put(HandIn(u, s), id, s);
  }

  lemma MoveKeeps<R(!new)>(w: World<R>, to: nat, from: nat)
    requires Inv(w) && to in w.slots && from in w.slots
    ensures Inv(Put(Put(Drop(w, w.slots[to]), to, w.slots[from]), from, Empty()))
  {
    var u := Put(Drop(w, w.slots[to]), to, Empty());
    var v := Put(Put(Drop(w, w.slots[to]), to, w.slots[from]), from, Empty());
    DropKeeps(w, to);
    if to == from {
      assert v == u;
    } else {
      TransferKeeps(u, to, from);
      assert v == Put(Put(u, to, u.slots[from]), from, Empty());
    }
  }

  lemma OpKeeps<R(!new)>(w: World<R>, op: Op<R>)
    requires Inv(w) && Legal(w, op)
    ensures Inv(Apply(w, op))
  {
    match op
    case Acquire(res) => ProgramKeeps(w, Apply(w, op), res);
    case GiveBack(res) => ProgramKeeps(w, Apply(w, op), res);
    case Construct(id) => HandInKeeps(w, id, Empty());
    case Open(id, given, owned) => OpenKeeps(w, id, Slot(given, owned));
    case Move(to, from) => MoveKeeps(w, to, from);
    case Close(id) => CloseKeeps(w, id, Some(Empty()), Apply(w, op));
    case Destroy(id) => CloseKeeps(w, id, None, Apply(w, op));
    case Take(id) => ReturnKeeps(w, id, Taken(w.slots[id]));
    case Release(id) => ReturnKeeps(w, id, Released(w.slots[id]));
  }

  lemma SameOwners<R(!new)>(w: World<R>, v: World<R>)
    requires v.slots == w.slots
    ensures forall res :: Owned(v, res) <==> Owned(w, res)
    ensures OneOwner(v) <==> OneOwner(w)
  {
    assert forall id, res :: Has(v, id, res) <==> Has(w, id, res);
  }

  // ---------- whole runs ----------

  function Start<R(==)>(): World<R> {
    World(map[], {}, {}, {}, multiset{})
  }

  predicate LegalRun<R>(w: World<R>, ops: seq<Op<R>>)
    decreases |ops|
  {
    ops == [] || (Legal(w, ops[0]) && LegalRun(Apply(w, ops[0]), ops[1..]))
  }

  function Run<R>(w: World<R>, ops: seq<Op<R>>): World<R>
    requires LegalRun(w, ops)
    decreases |ops|
  {
    if ops == [] then w else Run(Apply(w, ops[0]), ops[1..])
  }

  /** In every run each open resource is cared for by exactly one party, or lost, and the balance holds. */
  lemma {:induction false} RunKeeps<R(!new)>(w: World<R>, ops: seq<Op<R>>)
    requires Inv(w) && LegalRun(w, ops)
    ensures Inv(Run(w, ops))
    decreases |ops|
  {
    if ops != [] {
      OpKeeps(w, ops[0]);
      RunKeeps(Apply(w, ops[0]), ops[1..]);
    }
  }

  /** Nothing is closed more often than it was handed in as owned. */
  lemma ClosedOncePerHandIn<R(!new)>(ops: seq<Op<R>>, res: R)
    requires LegalRun(Start(), ops)
    ensures var w := Run(Start(), ops);
            w.log[Closed(res)] + w.log[Returned(res)] + w.log[Lost(res)] <= w.log[HandedIn(res)]
  {
    var start: World<R> := Start();
    assert Inv(start);
    RunKeeps(start, ops);
  }

  /** What an object closes is open, nobody else owns it and the program does not care for it; any other close() leaves
      the system alone. */
  lemma ClosesItsOwn<R(!new)>(before: seq<Op<R>>, op: Op<R>)
    requires LegalRun(Start(), before) && (op.Close? || op.Destroy?) && Legal(Run(Start(), before), op)
    ensures var w, s := Run(Start(), before), Run(Start(), before).slots[op.id];
            && Apply(w, op).open == w.open - set res | res in GivesBack(s)
            && forall res | res in GivesBack(s) ::
                 res in w.open && res !in w.held && forall id | Has(w, id, res) :: id == op.id
  {
    var start: World<R> := Start();
    assert Inv(start);
    RunKeeps(start, before);
    var w, s := Run(start, before), Run(start, before).slots[op.id];
    if s.Owns() {
      assert Has(w, op.id, s.res.value);
      assert Owned(w, s.res.value);
      assert w.open - {s.res.value} == w.open - set res | res in GivesBack(s);
    } else {
      assert w.open == w.open - set res | res in GivesBack(s);
    }
  }

  predicate Touches<R(==)>(op: Op<R>, res: R) {
    match op
    case GiveBack(r) => r == res
    case Open(_, given, owned) => owned && given == Some(res)
    case _ => false
  }

  /** What the program cares for, borrowed or not, stays open until the program itself closes it or hands it in. */
  lemma {:induction false} BorrowedStaysOpen<R(!new)>(w: World<R>, ops: seq<Op<R>>, res: R)
    requires Inv(w) && LegalRun(w, ops) && res in w.held
    requires forall k | 0 <= k < |ops| :: !Touches(ops[k], res)
    ensures res in Run(w, ops).held && res in Run(w, ops).open
    decreases |ops|
  {
    if ops != [] {
      OpKeeps(w, ops[0]);
      assert !Touches(ops[0], res);
      assert res in Apply(w, ops[0]).held;
      BorrowedStaysOpen(Apply(w, ops[0]), ops[1..], res);
    }
  }

  /** Is an owning object overwritten? */
  predicate Overwrites<R>(w: World<R>, op: Op<R>)
    requires Legal(w, op)
  {
    match op
    case Open(id, _, _) => w.slots[id].Owns()
    case Move(to, _) => w.slots[to].Owns()
    case _ => false
  }

  predicate NeverOverwrites<R>(w: World<R>, ops: seq<Op<R>>)
    requires LegalRun(w, ops)
    decreases |ops|
  {
    ops == [] || (!Overwrites(w, ops[0]) && NeverOverwrites(Apply(w, ops[0]), ops[1..]))
  }

  lemma {:induction false} LostGrows<R(!new)>(w: World<R>, ops: seq<Op<R>>)
    requires Inv(w) && LegalRun(w, ops)
    ensures w.lost <= Run(w, ops).lost
    ensures Run(w, ops).lost == w.lost <==> NeverOverwrites(w, ops)
    decreases |ops|
  {
    if ops != [] {
      var v := Apply(w, ops[0]);
      OpKeeps(w, ops[0]);
      LostGrows(v, ops[1..]);
      OneStepLoses(w, ops[0]);
    }
  }

  lemma OneStepLoses<R(!new)>(w: World<R>, op: Op<R>)
    requires Inv(w) && Legal(w, op)
    ensures w.lost <= Apply(w, op).lost
    ensures Apply(w, op).lost == w.lost <==> !Overwrites(w, op)
  {
    if Overwrites(w, op) {
      var id := if op.Open? then op.id else op.to;
      var res := w.slots[id].res.value;
      assert Has(w, id, res);
      assert Owned(w, res);
      assert res in Apply(w, op).lost;
    }
  }

  /** Resources leak exactly if open() or a move overwrites an object that owns one; otherwise, once no object is left, the
      program cares for all that is open. */
  lemma LeaksExactly<R(!new)>(ops: seq<Op<R>>)
    requires LegalRun(Start(), ops)
    ensures var w := Run(Start(), ops);
            && (w.lost == {} <==> NeverOverwrites(Start(), ops))
            && (w.slots == map[] && w.lost == {} ==> w.open == w.held)
  {
    var start: World<R> := Start();
    assert Inv(start);
    RunKeeps(start, ops);
    LostGrows(start, ops);
  }
}
