/** The registry at work: programs that build SigAction objects, set them and receive signals, call by call
    (src/proc/SigAction.cxx, include/proc/SigAction.hxx). */
module SigActionUse {
  import opened SigActions
  import opened SigActionProofs

  // ---------- Objects ----------

  /** What can be done to an object. `Assigned` and `Filled` stand for operator=() and for being filled in by set_action() or
      get_action(). */
  datatype Change =
    | Cleared | FlagsSet(siginfo: bool, oneShot: bool, rest: int) | SimpleSet(ptr: int) | InfoSet(ptr: int)
    | Assigned(other: Action) | Filled(raw: Raw, info: int, simple: int)

  /** Other objects are of the same kind; the kernel's entries and the tables hold no stubs with wrong flags and no markers. */
  predicate Possible(change: Change) {
    match change
    case Assigned(other) => Usable(other)
    case Filled(raw, _, simple) =>
      && (raw.code == SimpleStub ==> !raw.siginfo) && (raw.code == InfoStub ==> raw.siginfo)
      && simple != IGNORE && simple != UNKNOWN
    case _ => true
  }

  method Alter(a: SigAction, change: Change)
    requires Usable(a.Value()) && Possible(change)
    modifies a
    ensures Usable(a.Value())
  {
    match change {
      case Cleared => a.Clear();
      case FlagsSet(siginfo, oneShot, rest) => a.SetFlags(siginfo, oneShot, rest);
      case SimpleSet(ptr) => var _ := a.SetSimpleHandler(ptr);
      case InfoSet(ptr) => a.SetInfoHandler(ptr);
      case Assigned(other) =>
        var b := new SigAction();
        b.raw, b.handler := other.raw, other.handler;
        a.Assign(b);
      case Filled(raw, info, simple) =>
        a.raw := raw;
        a.UpdateFromOld(info, simple);
    }
  }

  /** Whatever the public interface makes of an object: it agrees with itself, or is stale. */
  method AnyObject(changes: seq<Change>) returns (a: SigAction)
    requires forall i | 0 <= i < |changes| :: Possible(changes[i])
    ensures Usable(a.Value())
  {
    a := new SigAction();
    for i := 0 to |changes|
      invariant fresh(a) && Usable(a.Value())
    {
      Alter(a, changes[i]);
    }
  }

  /** setHandler() and set_action(), one after the other. */
  method InstallSimple(tables: SignalTables, sig: int, a: SigAction, ptr: int, accepted: bool) returns (failed: bool)
    requires tables.Valid() && IsSignal(sig)
    modifies a, tables.kernel, tables.simpleHandlers, tables.infoHandlers, tables`seen
    ensures failed <==> ptr == UNKNOWN || !accepted
    ensures failed ==> tables.Value() == old(tables.Value())
    ensures !failed ==>
              Dispatch(tables.Value(), sig) ==
                if ptr == IGNORE then Ignored else if ptr == DEFAULT then DefaultAction else CallSimple(ptr)
  {
    failed := a.SetSimpleHandler(ptr);
    if !failed {
      SimpleHandlerTakesEffect(tables.Value(), sig, old(a.Value()), ptr);
      failed := tables.SetAction(sig, a, null, accepted);
    }
  }

  method InstallInfo(tables: SignalTables, sig: int, a: SigAction, ptr: int, accepted: bool) returns (failed: bool)
    requires tables.Valid() && IsSignal(sig)
    modifies a, tables.kernel, tables.simpleHandlers, tables.infoHandlers, tables`seen
    ensures failed <==> !accepted
    ensures failed ==> tables.Value() == old(tables.Value())
    ensures !failed ==> Dispatch(tables.Value(), sig) == if ptr == 0 then NothingCalled else CallInfo(ptr)
  {
    a.SetInfoHandler(ptr);
    InfoHandlerTakesEffect(tables.Value(), sig, old(a.Value()), ptr);
    failed := tables.SetAction(sig, a, null, accepted);
  }

  // ---------- Runs ----------

  /** What the signals of a run call. */
  function Deliveries(r: Registry, ops: seq<Op>): seq<Delivery>
    requires r.Sized() && OnSignals(ops)
  {
    if ops == [] then []
    else
      var before, op := ops[..|ops| - 1], ops[|ops| - 1];
      Deliveries(r, before) + if op.Arrives? then [Dispatch(Run(r, before), op.sig)] else []
  }

  /** The kernel delivers a signal: it calls what the entry says, and forgets a one-shot handler. */
  method Deliver(tables: SignalTables, sig: int) returns (called: Delivery)
    requires tables.Valid() && IsSignal(sig)
    modifies tables.kernel
    ensures called == Dispatch(old(tables.Value()), sig)
    ensures tables.Value() == Apply(old(tables.Value()), Arrives(sig))
  {
    ghost var before := tables.Value();
    var raw := tables.kernel[sig];
    match raw.code {
      case SigDfl => called := DefaultAction;
      case SigIgn => called := Ignored;
      case SimpleStub => called := tables.SimpleHandler(sig);
      case InfoStub => called := tables.InfoHandler(sig);
      case Foreign(address) => called := CallForeign(address);
    }
    if raw.oneShot && raw.code != SigDfl && raw.code != SigIgn {
      tables.kernel[sig] := raw.(code := SigDfl);
      assert tables.kernel[..] == before.kernel[sig := raw.(code := SigDfl)];
    }
  }

  method Perform(tables: SignalTables, op: Op) returns (called: seq<Delivery>)
    requires tables.Valid() && IsSignal(op.sig)
    modifies tables.kernel, tables.simpleHandlers, tables.infoHandlers, tables`seen
    ensures tables.Value() == Apply(old(tables.Value()), op)
    ensures called == if op.Arrives? then [Dispatch(old(tables.Value()), op.sig)] else []
  {
    called := [];
    match op {
      case Set(sig, action) =>
        var a := new SigAction();
        a.raw, a.handler := action.raw, action.handler;
        var _ := tables.SetAction(sig, a, null, true);
      case Outside(sig, raw) =>
        tables.kernel[sig] := raw;
        assert tables.Value() == Installed(old(tables.Value()), sig, raw);
      case Arrives(sig) =>
        var delivery := Deliver(tables, sig);
        called := [delivery];
    }
  }

  /** The classes do what the runs of the theorems say: state and calls of every sequence of operations. */
  method PerformAll(tables: SignalTables, ops: seq<Op>) returns (called: seq<Delivery>)
    requires tables.Valid() && OnSignals(ops)
    modifies tables.kernel, tables.simpleHandlers, tables.infoHandlers, tables`seen
    ensures tables.Value() == Run(old(tables.Value()), ops)
    ensures called == Deliveries(old(tables.Value()), ops)
  {
    called := [];
    ghost var before := tables.Value();
    for i := 0 to |ops|
      invariant tables.Value() == Run(before, ops[..i])
      invariant called == Deliveries(before, ops[..i])
    {
      assert ops[..i + 1][..i] == ops[..i];
      var more := Perform(tables, ops[i]);
      called := called + more;
    }
    assert ops[..|ops|] == ops;
  }
}
