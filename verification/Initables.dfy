/** Nested init() and finish() of the library (src/cosmos.cxx). */
module Initables {

  const WRAP: nat := 0x1_0000_0000_0000_0000

  /** An object is known by its priority: no two registered objects share one. */
  datatype Call = LibInit(prio: nat) | LibExit(prio: nat)

  /** The counter, the registered objects in the order of the map, those marked initialised, and the calls made so far. */
  datatype State = State(counter: nat, prios: seq<nat>, marked: set<nat>, calls: seq<Call>)

  const START := State(0, [], {}, [])

  predicate Ascending(prios: seq<nat>) {
    forall i, j | 0 <= i < j < |prios| :: prios[i] < prios[j]
  }

  /** std::map::insert() */
  function Insert(prios: seq<nat>, prio: nat): (r: seq<nat>)
    ensures |r| == |prios| + 1
  {
    if prios != [] && prios[|prios| - 1] > prio then Insert(prios[..|prios| - 1], prio) + [prios[|prios| - 1]]
    else prios + [prio]
  }

  lemma {:induction false} InsertHas(prios: seq<nat>, prio: nat)
    ensures forall p :: p in Insert(prios, prio) <==> p in prios || p == prio
  {
    if prios != [] && prios[|prios| - 1] > prio {
      InsertHas(prios[..|prios| - 1], prio);
      assert prios == prios[..|prios| - 1] + [prios[|prios| - 1]];
    }
  }

  /** An insertion keeps the order, exactly if the priority is new. */
  lemma {:induction false} InsertKeeps(prios: seq<nat>, prio: nat)
    requires Ascending(prios)
    ensures Ascending(Insert(prios, prio)) <==> prio !in prios
  {
    InsertHas(prios, prio);
    if prios != [] && prios[|prios| - 1] > prio {
      var front, last := prios[..|prios| - 1], prios[|prios| - 1];
      assert prios == front + [last];
      InsertHas(front, prio);
      InsertKeeps(front, prio);
      var more := Insert(front, prio);
      assert Insert(prios, prio)[..|more|] == more;
      forall i | 0 <= i < |more| ensures more[i] < last {
        assert more[i] in more;
      }
    } else if prios != [] {
      assert Insert(prios, prio) == prios + [prio];
      if prio in prios {
        var i :| 0 <= i < |prios| && prios[i] == prio;
        assert (prios + [prio])[i] == (prios + [prio])[|prios|];
      }
    }
  }

  /** All libInit() calls in ascending order ... */
  function InitCalls(prios: seq<nat>): seq<Call> {
    if prios == [] then [] else InitCalls(prios[..|prios| - 1]) + [LibInit(prios[|prios| - 1])]
  }

  /** ... and all libExit() calls in descending order. */
  function ExitCalls(prios: seq<nat>): seq<Call> {
    if prios == [] then [] else [LibExit(prios[|prios| - 1])] + ExitCalls(prios[..|prios| - 1])
  }

  lemma {:induction false} InitCallsAre(prios: seq<nat>)
    ensures |InitCalls(prios)| == |prios|
    ensures forall i | 0 <= i < |prios| :: InitCalls(prios)[i] == LibInit(prios[i])
  {
    if prios != [] {
      InitCallsAre(prios[..|prios| - 1]);
    }
  }

  lemma {:induction false} ExitCallsAre(prios: seq<nat>)
    ensures |ExitCalls(prios)| == |prios|
    ensures forall i | 0 <= i < |prios| :: ExitCalls(prios)[i] == LibExit(prios[|prios| - 1 - i])
  {
    if prios != [] {
      ExitCallsAre(prios[..|prios| - 1]);
    }
  }

  /** The calls of one session: libInit() by ascending priority, and libExit() exactly the other way round. */
  lemma SessionCalls(prios: seq<nat>)
    requires Ascending(prios)
    ensures var inits, exits, n := InitCalls(prios), ExitCalls(prios), |prios|;
            && |inits| == |exits| == n
            && (forall i | 0 <= i < n :: inits[i].LibInit? && exits[i].LibExit? && exits[n - 1 - i].prio == inits[i].prio)
            && (forall i, k | 0 <= i < k < n :: inits[i].prio < inits[k].prio && exits[i].prio > exits[k].prio)
            && (forall p :: p in prios <==> LibInit(p) in inits)
  {
    InitCallsAre(prios);
    ExitCallsAre(prios);
    var inits := InitCalls(prios);
    forall p | p in prios ensures LibInit(p) in inits {
      var i :| 0 <= i < |prios| && prios[i] == p;
      assert inits[i] == LibInit(p);
    }
  }

  function Elements(prios: seq<nat>): set<nat> {
    set p | p in prios
  }

  function AfterRegister(s: State, prio: nat): State {
    s.(prios := Insert(s.prios, prio))
  }

  function AfterInit(s: State): State {
    var t := s.(counter := (s.counter + 1) % WRAP);
    if s.counter != 0 then t
    else t.(marked := s.marked + Elements(s.prios), calls := s.calls + InitCalls(s.prios))
  }

  function AfterFinish(s: State): State {
    var t := s.(counter := (s.counter + WRAP - 1) % WRAP);
    if t.counter != 0 then t
    else t.(marked := s.marked - Elements(s.prios), calls := s.calls + ExitCalls(s.prios))
  }

  lemma ExitNext(prios: seq<nat>, i: nat)
    requires i < |prios|
    ensures ExitCalls(prios[..i + 1]) == [LibExit(prios[i])] + ExitCalls(prios[..i])
    ensures Elements(prios[i..]) == Elements(prios[i + 1..]) + {prios[i]}
  {
    assert prios[..i + 1][..i] == prios[..i];
    assert prios[i..] == [prios[i]] + prios[i + 1..];
  }

  class Library {
    var counter: nat
    var prios: seq<nat>
    var marked: set<nat>
    ghost var calls: seq<Call>

    ghost function Value(): State
      reads this
    {
      State(counter, prios, marked, calls)
    }

    constructor ()
      ensures Value() == START
    {
      counter, prios, marked, calls := 0, [], {}, [];
    }

    /** registerInitable(); `conflict` means that the process ends with status 9. */
    method Register(prio: nat) returns (conflict: bool)
      modifies this
      ensures conflict <==> prio in old(prios)
      ensures old(Ascending(prios)) ==> Ascending(prios)
      ensures forall p :: p in prios <==> p in old(prios) || p == prio
      ensures Value() == if conflict then old(Value()) else AfterRegister(old(Value()), prio)
    {
      conflict := prio in prios;
      if !conflict {
        InsertHas(prios, prio);
        if Ascending(prios) {
          InsertKeeps(prios, prio);
        }
        prios := Insert(prios, prio);
      }
    }

    method Init()
      modifies this
      ensures Value() == AfterInit(old(Value()))
    {
      var before := counter;
      counter := (counter + 1) % WRAP;
      if before != 0 {
        return;
      }
      assert prios[..|prios|] == prios;
      for i := 0 to |prios|
        invariant counter == (before + 1) % WRAP && prios == old(prios)
        invariant marked == old(marked) + Elements(prios[..i])
        invariant calls == old(calls) + InitCalls(prios[..i])
      {
        assert prios[..i + 1][..i] == prios[..i];
        calls := calls + [LibInit(prios[i])];
        marked := marked + {prios[i]};
      }
    }

    method Finish()
      modifies this
      ensures Value() == AfterFinish(old(Value()))
    {
      counter := (counter + WRAP - 1) % WRAP;
      if counter != 0 {
        return;
      }
      var i := |prios|;
      assert prios[..i] == prios && prios[i..] == [];
      while i > 0
        invariant 0 <= i <= |prios| && counter == 0 && prios == old(prios)
        invariant marked == old(marked) - Elements(prios[i..])
        invariant calls + ExitCalls(prios[..i]) == old(calls) + ExitCalls(prios)
      {
        i := i - 1;
        ExitNext(prios, i);
        calls := calls + [LibExit(prios[i])];
        marked := marked - {prios[i]};
      }
    }
  }

  // ---------- whole runs ----------

  datatype Op = Register(prio: nat) | Init | Finish

  function Apply(s: State, op: Op): State {
    match op
    case Register(prio) => AfterRegister(s, prio)
    case Init => AfterInit(s)
    case Finish => AfterFinish(s)
  }

  /** Balanced calls, registration while the count is zero, each priority once. */
  predicate Proper(s: State, op: Op) {
    match op
    case Register(prio) => s.counter == 0 && prio !in s.prios
    case Init => s.counter < WRAP - 1
    case Finish => s.counter > 0
  }

  predicate ProperRun(s: State, ops: seq<Op>)
    decreases |ops|
  {
    ops == [] || (Proper(s, ops[0]) && ProperRun(Apply(s, ops[0]), ops[1..]))
  }

  function Run(s: State, ops: seq<Op>): State
    decreases |ops|
  {
    if ops == [] then s else Run(Apply(s, ops[0]), ops[1..])
  }

  /** The calls of complete sessions, one for each element of `sessions`. */
  function Sessions(sessions: seq<seq<nat>>): seq<Call> {
    if sessions == [] then []
    else
      var last := sessions[|sessions| - 1];
      Sessions(sessions[..|sessions| - 1]) + InitCalls(last) + ExitCalls(last)
  }

  ghost predicate AllAscending(sessions: seq<seq<nat>>) {
    forall k | 0 <= k < |sessions| :: Ascending(sessions[k])
  }

  /** A repetition of all libInit() calls in ascending order followed by all libExit() calls in the reverse order; while the
      count is positive the last one is half done. Marked are exactly the objects between the two. */
  ghost predicate Orderly(s: State) {
    && s.counter < WRAP && Ascending(s.prios)
    && s.marked == (if s.counter > 0 then Elements(s.prios) else {})
    && exists sessions :: OrderlyWith(s, sessions)
  }

  ghost predicate OrderlyWith(s: State, sessions: seq<seq<nat>>) {
    && AllAscending(sessions)
    && s.calls == Sessions(sessions) + if s.counter > 0 then InitCalls(s.prios) else []
  }

  lemma ProperKeepsOrder(s: State, op: Op)
    requires Orderly(s) && Proper(s, op)
    ensures Orderly(Apply(s, op))
  {
    var sessions :| OrderlyWith(s, sessions);
    var t := Apply(s, op);
    match op {
      case Register(prio) =>
        InsertKeeps(s.prios, prio);
        assert OrderlyWith(t, sessions);
      case Init =>
        assert OrderlyWith(t, sessions);
      case Finish =>
        if s.counter == 1 {
          SessionEnds(s, sessions);
        } else {
          assert OrderlyWith(t, sessions);
        }
    }
  }

  lemma SessionEnds(s: State, sessions: seq<seq<nat>>)
    requires Orderly(s) && OrderlyWith(s, sessions) && s.counter == 1
    ensures Orderly(AfterFinish(s))
  {
    var more := sessions + [s.prios];
    assert more[..|sessions|] == sessions;
    assert OrderlyWith(AfterFinish(s), more);
  }

  lemma {:induction false} StaysOrderly(s: State, ops: seq<Op>)
    requires Orderly(s) && ProperRun(s, ops)
    ensures Orderly(Run(s, ops))
    decreases |ops|
  {
    if ops != [] {
      ProperKeepsOrder(s, ops[0]);
      StaysOrderly(Apply(s, ops[0]), ops[1..]);
    }
  }

  lemma RunsAreOrderly(ops: seq<Op>)
    requires ProperRun(START, ops)
    ensures Orderly(Run(START, ops))
  {
    assert OrderlyWith(START, []);
    StaysOrderly(START, ops);
  }

  // ---------- The count, and who is registered ----------

  function InitsOf(ops: seq<Op>): nat {
    if ops == [] then 0 else (if ops[0].Init? then 1 else 0) + InitsOf(ops[1..])
  }

  function FinishesOf(ops: seq<Op>): nat {
    if ops == [] then 0 else (if ops[0].Finish? then 1 else 0) + FinishesOf(ops[1..])
  }

  /** The count is the number of init() not yet matched by a finish(). */
  lemma {:induction false} CountsCalls(s: State, ops: seq<Op>)
    requires s.counter < WRAP && ProperRun(s, ops)
    ensures Run(s, ops).counter == s.counter + InitsOf(ops) - FinishesOf(ops)
    decreases |ops|
  {
    if ops != [] {
      CountsCalls(Apply(s, ops[0]), ops[1..]);
    }
  }

  /** Registered are the objects that were registered. */
  lemma {:induction false} HasRegistered(s: State, ops: seq<Op>, prio: nat)
    ensures prio in Run(s, ops).prios <==> prio in s.prios || Register(prio) in ops
    decreases |ops|
  {
    if ops != [] {
      if ops[0].Register? {
        InsertHas(s.prios, ops[0].prio);
      }
      HasRegistered(Apply(s, ops[0]), ops[1..], prio);
      assert ops == [ops[0]] + ops[1..];
    }
  }

  /** After balanced calls an object is marked initialised if and only if it was registered and more init() than finish() were called. */
  lemma MarkedExactly(ops: seq<Op>, prio: nat)
    requires ProperRun(START, ops)
    ensures prio in Run(START, ops).marked <==> Register(prio) in ops && InitsOf(ops) > FinishesOf(ops)
  {
    RunsAreOrderly(ops);
    CountsCalls(START, ops);
    HasRegistered(START, ops, prio);
  }

  // ---------- Exactly when ----------

  /** What does no harm to an orderly state: a proper operation, or init() or finish() when there is nobody to call. */
  predicate Harmless(s: State, op: Op) {
    Proper(s, op) || (s.prios == [] && !op.Register?)
  }

  /** One operation keeps the order if and only if it is harmless. */
  lemma KeepsOrderExactly(s: State, op: Op)
    requires Orderly(s)
    ensures Orderly(Apply(s, op)) <==> Harmless(s, op)
  {
    if Proper(s, op) {
      ProperKeepsOrder(s, op);
    } else {
      var sessions :| OrderlyWith(s, sessions);
      match op
      case Register(prio) =>
        InsertHas(s.prios, prio);
        InsertKeeps(s.prios, prio);
        assert prio in Elements(Insert(s.prios, prio));
      case Init => WrapsAround(s, op, sessions);
      case Finish => WrapsAround(s, op, sessions);
    }
  }

  lemma WrapsAround(s: State, op: Op, sessions: seq<seq<nat>>)
    requires Orderly(s) && OrderlyWith(s, sessions) && !Proper(s, op) && !op.Register?
    ensures Orderly(Apply(s, op)) <==> s.prios == []
  {
    if s.prios == [] {
      assert OrderlyWith(Apply(s, op), sessions);
    } else {
      assert s.prios[0] in Elements(s.prios);
    }
  }

  predicate HarmlessRun(s: State, ops: seq<Op>)
    decreases |ops|
  {
    ops == [] || (Harmless(s, ops[0]) && HarmlessRun(Apply(s, ops[0]), ops[1..]))
  }

  ghost predicate AlwaysOrderly(s: State, ops: seq<Op>)
    decreases |ops|
  {
    Orderly(s) && (ops == [] || AlwaysOrderly(Apply(s, ops[0]), ops[1..]))
  }

  lemma {:induction false} OrderlyExactlyFrom(s: State, ops: seq<Op>)
    requires Orderly(s)
    ensures AlwaysOrderly(s, ops) <==> HarmlessRun(s, ops)
    decreases |ops|
  {
    if ops != [] {
      KeepsOrderExactly(s, ops[0]);
      if Harmless(s, ops[0]) {
        OrderlyExactlyFrom(Apply(s, ops[0]), ops[1..]);
      }
    }
  }

  /** A program finds the library orderly throughout if and only if all it does is harmless: as long as objects are registered,
      only balanced calls are. */
  lemma OrderlyExactly(ops: seq<Op>)
    ensures AlwaysOrderly(START, ops) <==> HarmlessRun(START, ops)
  {
    assert OrderlyWith(START, []);
    OrderlyExactlyFrom(START, ops);
  }

  /** One finish() too many: the count wraps around, and the next init() initialises nothing. */
  lemma ExtraFinish(s: State)
    requires s.counter == 0
    ensures AfterFinish(s).counter == WRAP - 1
    ensures AfterInit(AfterFinish(s)) == s
  {
  }

  function Finishes(n: nat): seq<Op> {
    if n == 0 then [] else [Finish] + Finishes(n - 1)
  }

  /** As many finish() as the count says: all libExit() are called. */
  lemma {:induction false} AllFinished(s: State)
    requires 0 < s.counter < WRAP
    ensures Run(s, Finishes(s.counter)) == State(0, s.prios, s.marked - Elements(s.prios), s.calls + ExitCalls(s.prios))
    decreases s.counter
  {
    var next := AfterFinish(s);
    assert Finishes(s.counter)[1..] == Finishes(s.counter - 1);
    assert Run(s, Finishes(s.counter)) == Run(next, Finishes(s.counter - 1));
    if s.counter > 1 {
      AllFinished(next);
    }
  }

  /** Registered while the count is positive: when the count gets back to zero, libExit() is called for an object that was
      never initialised. */
  lemma LateRegistration(s: State, prio: nat)
    requires Orderly(s) && s.counter > 0 && prio !in s.prios
    ensures var t := AfterRegister(s, prio);
            var end := Run(t, Finishes(t.counter));
            && prio !in t.marked && !Orderly(t)
            && end.calls == t.calls + ExitCalls(t.prios)
            && LibExit(prio) in ExitCalls(t.prios)
  {
    KeepsOrderExactly(s, Register(prio));
    InsertHas(s.prios, prio);
    var t := AfterRegister(s, prio);
    AllFinished(t);
    ExitsAll(t.prios);
  }

  lemma {:induction false} ExitsAll(prios: seq<nat>)
    ensures forall p | p in prios :: LibExit(p) in ExitCalls(prios)
  {
    if prios != [] {
      ExitsAll(prios[..|prios| - 1]);
      assert prios == prios[..|prios| - 1] + [prios[|prios| - 1]];
    }
  }
}
