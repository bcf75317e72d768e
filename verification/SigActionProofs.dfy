/** What the signal registry keeps over any sequence of changes and signals. */
module SigActionProofs {
  import opened SigActions

  datatype Op =
    | Set(sig: int, action: Action)       // a successful set_action()
    | Outside(sig: int, raw: Raw)         // sigaction() called by somebody else
    | Arrives(sig: int)                   // the signal is delivered

  /** SigAction objects come from the public interface; others do not know the stubs. */
  predicate Legal(op: Op) {
    IsSignal(op.sig) &&
    match op
    case Set(_, action) => Coherent(action)
    case Outside(_, raw) => raw.code != SimpleStub && raw.code != InfoStub
    case Arrives(_) => true
  }

  /** Delivery of a one-shot signal makes the kernel forget the handler, but not SA_SIGINFO. */
  function Apply(r: Registry, op: Op): (next: Registry)
    requires r.Sized() && IsSignal(op.sig)
    ensures next.Sized()
  {
    match op
    case Set(sig, action) => AfterSet(r, sig, action)
    case Outside(sig, raw) => Installed(r, sig, raw)
    case Arrives(sig) =>
      if r.kernel[sig].oneShot && Dispatch(r, sig) != DefaultAction && Dispatch(r, sig) != Ignored then
        Installed(r, sig, r.kernel[sig].(code := SigDfl))
      else r
  }

  predicate AllLegal(ops: seq<Op>) {
    forall i | 0 <= i < |ops| :: Legal(ops[i])
  }

  predicate OnSignals(ops: seq<Op>) {
    forall i | 0 <= i < |ops| :: IsSignal(ops[i].sig)
  }

  function Run(r: Registry, ops: seq<Op>): (next: Registry)
    requires r.Sized() && OnSignals(ops)
    ensures next.Sized()
  {
    if ops == [] then r else Apply(Run(r, ops[..|ops| - 1]), ops[|ops| - 1])
  }

  /** A process in which libcosmos has not registered anything yet. */
  ghost predicate Fresh(r: Registry) {
    r.Sized() && forall sig | IsSignal(sig) ::
      r.simple[sig] == 0 && r.info[sig] == 0 && r.kernel[sig].code != SimpleStub && r.kernel[sig].code != InfoStub
  }

  // ---------- Coherence of the tables ----------

  ghost predicate TablesFit(r: Registry)
    requires r.Sized()
  {
    forall sig | IsSignal(sig) ::
      && r.simple[sig] != IGNORE && r.simple[sig] != UNKNOWN
      && (r.kernel[sig].code == SimpleStub ==> !r.kernel[sig].siginfo && r.simple[sig] != 0)
      && (r.kernel[sig].code == InfoStub ==> r.kernel[sig].siginfo)
  }

  lemma {:induction false} TablesStayFit(r: Registry, ops: seq<Op>)
    requires r.Sized() && TablesFit(r) && AllLegal(ops)
    ensures TablesFit(Run(r, ops))
  {
    if ops != [] {
      TablesStayFit(r, ops[..|ops| - 1]);
    }
  }

  /** Objects filled in by set_action() or get_action() are coherent again, so they can be handed back. */
  lemma CurrentIsCoherent(r: Registry, sig: int)
    requires r.Sized() && TablesFit(r) && IsSignal(sig)
    ensures Coherent(Current(r, sig))
  {
  }

  /** The action of the last set_action() for `sig`, unless somebody else has changed the setting since. */
  function LastSet(ops: seq<Op>, sig: int): Handler {
    if ops == [] then Simple(UNKNOWN)
    else
      var op := ops[|ops| - 1];
      match op
      case Set(s, action) => if s == sig then action.handler else LastSet(ops[..|ops| - 1], sig)
      case Outside(s, _) => if s == sig then Simple(UNKNOWN) else LastSet(ops[..|ops| - 1], sig)
      case Arrives(_) => LastSet(ops[..|ops| - 1], sig)
  }

  /** If the kernel's entry is one of the stubs, then the matching table holds the callback that was installed last, so
      a signal that arrives calls exactly that callback, and get_action() tells it. */
  lemma {:induction false} StubFindsLastCallback(r: Registry, ops: seq<Op>, sig: int)
    requires Fresh(r) && AllLegal(ops) && IsSignal(sig)
    ensures var now := Run(r, ops);
            && (now.kernel[sig].code == SimpleStub ==>
                  LastSet(ops, sig) == Simple(now.simple[sig]) && Dispatch(now, sig) == CallSimple(LastSet(ops, sig).ptr))
            && (now.kernel[sig].code == InfoStub ==>
                  LastSet(ops, sig) == Info(now.info[sig]) &&
                  Dispatch(now, sig) == if now.info[sig] == 0 then NothingCalled else CallInfo(LastSet(ops, sig).ptr))
            && (now.kernel[sig].code == SimpleStub || now.kernel[sig].code == InfoStub ==>
                  Current(now, sig).handler == LastSet(ops, sig))
  {
    TablesStayFit(r, ops);
    if ops != [] {
      StubFindsLastCallback(r, ops[..|ops| - 1], sig);
    }
  }

  // ---------- Restoring ----------

  /** What a coherent action does once it is set: the delivery no longer depends on what the tables held before. */
  lemma SetTakesEffect(r: Registry, sig: int, a: Action)
    requires r.Sized() && IsSignal(sig) && Coherent(a)
    ensures AfterSet(r, sig, a).kernel == r.kernel[sig := a.raw]
    ensures Dispatch(AfterSet(r, sig, a), sig) ==
              match a.raw.code
              case SigDfl => DefaultAction
              case SigIgn => Ignored
              case SimpleStub => CallSimple(a.handler.ptr)
              case InfoStub => if a.handler.ptr == 0 then NothingCalled else CallInfo(a.handler.ptr)
              case Foreign(address) => CallForeign(address)
    ensures a.raw.code == SimpleStub ==> AfterSet(r, sig, a).simple[sig] == a.handler.ptr
    ensures a.raw.code == InfoStub ==> AfterSet(r, sig, a).info[sig] == a.handler.ptr
  {
  }

  /** What setHandler() followed by set_action() means for a signal, told by the pointer that was given: IGNORE ignores it, DEFAULT
      restores the default action, anything else is called. The flags of the object, but for SA_SIGINFO, are kept. */
  lemma SimpleHandlerTakesEffect(r: Registry, sig: int, a: Action, ptr: int)
    requires r.Sized() && IsSignal(sig) && ptr != UNKNOWN
    ensures var now := AfterSet(r, sig, WithSimple(a, ptr));
            && Dispatch(now, sig) ==
                 (if ptr == IGNORE then Ignored else if ptr == DEFAULT then DefaultAction else CallSimple(ptr))
            && !now.kernel[sig].siginfo && now.kernel[sig].oneShot == a.raw.oneShot && now.kernel[sig].rest == a.raw.rest
            && Current(now, sig).handler == Simple(ptr)
  {
  }

  lemma InfoHandlerTakesEffect(r: Registry, sig: int, a: Action, ptr: int)
    requires r.Sized() && IsSignal(sig)
    ensures var now := AfterSet(r, sig, WithInfo(a, ptr));
            && Dispatch(now, sig) == (if ptr == 0 then NothingCalled else CallInfo(ptr))
            && now.kernel[sig].siginfo && now.kernel[sig].oneShot == a.raw.oneShot && now.kernel[sig].rest == a.raw.rest
            && Current(now, sig).handler == Info(ptr)
  {
  }

  /** What the library reports of a kernel entry: IGNORE and DEFAULT exactly for the kernel's own settings without SA_SIGINFO, a
      callback exactly for the library's entry points, and UNKNOWN exactly for all the rest. */
  lemma ReportedHandler(r: Registry, sig: int)
    requires r.Sized() && TablesFit(r) && IsSignal(sig)
    ensures var raw, told := r.kernel[sig], Current(r, sig);
            && told.raw == raw
            && (told.handler == Simple(IGNORE) <==> raw.code == SigIgn && !raw.siginfo)
            && (told.handler == Simple(DEFAULT) <==> raw.code == SigDfl && !raw.siginfo)
            && (told.handler == Simple(UNKNOWN) <==> raw.code.Foreign? || (raw.siginfo && (raw.code == SigDfl || raw.code == SigIgn)))
            && (told.handler.Simple? && !Sentinel(told.handler.ptr) <==> raw.code == SimpleStub)
            && (told.handler.Info? <==> raw.code == InfoStub)
            && (raw.code == SimpleStub ==> told.handler == Simple(r.simple[sig]))
            && (raw.code == InfoStub ==> told.handler == Info(r.info[sig]))
  {
    assert r.simple[sig] != IGNORE;
  }

  lemma SetLeavesOthers(r: Registry, sig: int, a: Action, other: int)
    requires r.Sized() && IsSignal(sig) && IsSignal(other) && other != sig
    ensures AfterSet(r, sig, a).kernel[other] == r.kernel[other]
    ensures Dispatch(AfterSet(r, sig, a), other) == Dispatch(r, other)
  {
  }

  /** A setting obtained from set_action() is restored by passing it back: whatever happens in between, the kernel's
      entry, the delivery and what get_action() tells are as before, and other signals are not affected. */
  lemma RestoreLater(r: Registry, sig: int, action: Action, ops: seq<Op>)
    requires r.Sized() && TablesFit(r) && IsSignal(sig) && Coherent(action) && AllLegal(ops)
    ensures var saved, between := Current(r, sig), Run(AfterSet(r, sig, action), ops);
            var restored := AfterSet(between, sig, saved);
            && restored.kernel[sig] == r.kernel[sig] && Dispatch(restored, sig) == Dispatch(r, sig)
            && Current(restored, sig) == saved
            && forall other | IsSignal(other) && other != sig ::
                 restored.kernel[other] == between.kernel[other] && Dispatch(restored, other) == Dispatch(between, other)
  {
    var saved, between := Current(r, sig), Run(AfterSet(r, sig, action), ops);
    CurrentIsCoherent(r, sig);
    SetTakesEffect(between, sig, saved);
    forall other | IsSignal(other) && other != sig
      ensures var restored := AfterSet(between, sig, saved);
              restored.kernel[other] == between.kernel[other] && Dispatch(restored, other) == Dispatch(between, other)
    {
      SetLeavesOthers(between, sig, saved, other);
    }
  }

  /** Immediately after the change nothing at all is left of it: kernel table and deliveries of all signals. */
  lemma RestoreAtOnce(r: Registry, sig: int, action: Action)
    requires r.Sized() && TablesFit(r) && IsSignal(sig) && Coherent(action)
    ensures var restored := AfterSet(AfterSet(r, sig, action), sig, Current(r, sig));
            && restored.kernel == r.kernel
            && forall any | IsSignal(any) :: Dispatch(restored, any) == Dispatch(r, any)
  {
    RestoreLater(r, sig, action, []);
    SetTakesEffect(r, sig, action);
    SetTakesEffect(AfterSet(r, sig, action), sig, Current(r, sig));
    forall any | IsSignal(any) && any != sig
      ensures Dispatch(AfterSet(AfterSet(r, sig, action), sig, Current(r, sig)), any) == Dispatch(r, any)
    {
      SetLeavesOthers(r, sig, action, any);
      SetLeavesOthers(AfterSet(r, sig, action), sig, Current(r, sig), any);
    }
  }

  // ---------- The window inside set_action() ----------

  /** The callbacks given to set_action() for `sig` so far. */
  function Given(ops: seq<Op>, sig: int): set<Handler> {
    if ops == [] then {}
    else
      Given(ops[..|ops| - 1], sig) +
      if ops[|ops| - 1].Set? && ops[|ops| - 1].sig == sig then {ops[|ops| - 1].action.handler} else {}
  }

  lemma {:induction false} TablesHoldGiven(r: Registry, ops: seq<Op>, sig: int)
    requires Fresh(r) && AllLegal(ops) && IsSignal(sig)
    ensures Run(r, ops).simple[sig] != 0 ==> Simple(Run(r, ops).simple[sig]) in Given(ops, sig)
    ensures Run(r, ops).info[sig] != 0 ==> Info(Run(r, ops).info[sig]) in Given(ops, sig)
  {
    if ops != [] {
      TablesHoldGiven(r, ops[..|ops| - 1], sig);
    }
  }

  /** A signal delivered between any two steps of set_action() calls no library callback at all, or one that an earlier
      or the current set_action() was given for the same signal; the markers IGNORE, DEFAULT and UNKNOWN are never
      called. Signals other than `sig` are delivered as before. */
  lemma WindowCallsGiven(r: Registry, ops: seq<Op>, sig: int, action: Action, i: nat, any: int)
    requires Fresh(r) && AllLegal(ops) && IsSignal(sig) && Coherent(action) && IsSignal(any)
    requires i < |Stages(Run(r, ops), sig, action)|
    ensures var seen := Stages(Run(r, ops), sig, action)[i];
            match Dispatch(seen, any)
            case CallSimple(ptr) =>
              !Sentinel(ptr) && (Simple(ptr) in Given(ops, any) || (any == sig && Simple(ptr) == action.handler))
            case CallInfo(ptr) =>
              ptr != 0 && (Info(ptr) in Given(ops, any) || (any == sig && Info(ptr) == action.handler))
            case _ => true
    ensures any != sig ==> Dispatch(Stages(Run(r, ops), sig, action)[i], any) == Dispatch(Run(r, ops), any)
  {
    TablesStayFit(r, ops);
    TablesHoldGiven(r, ops, any);
  }

  /** The order that makes the window: the system call comes first, with both tables as they were; the entries that are changed
      change one by one, and nothing else does. */
  lemma KernelFirst(r: Registry, sig: int, a: Action)
    requires r.Sized() && IsSignal(sig)
    ensures var stages := Stages(r, sig, a);
            && stages[0] == Registry(r.kernel[sig := a.raw], r.simple, r.info)
            && (forall i | 0 <= i < |stages| :: stages[i].kernel == r.kernel[sig := a.raw])
            && (forall i, other | 0 <= i < |stages| && 0 <= other < TABLE_SIZE && other != sig ::
                  stages[i].simple[other] == r.simple[other] && stages[i].info[other] == r.info[other])
            && (a.handler.Simple? && Sentinel(a.handler.ptr) ==>
                  && |stages| == 3 && stages[1].info == r.info
                  && AfterSet(r, sig, a).simple[sig] == 0 && AfterSet(r, sig, a).info[sig] == 0)
            && (a.handler.Simple? && !Sentinel(a.handler.ptr) ==>
                  && |stages| == 2
                  && AfterSet(r, sig, a).simple[sig] == a.handler.ptr && AfterSet(r, sig, a).info == r.info)
            && (a.handler.Info? ==>
                  && |stages| == 2
                  && AfterSet(r, sig, a).info[sig] == a.handler.ptr && AfterSet(r, sig, a).simple == r.simple)
  {
  }

  // ---------- One-shot handlers ----------

  /** A handler that is not one-shot stays. */
  lemma OthersStay(r: Registry, sig: int)
    requires r.Sized() && IsSignal(sig) && !r.kernel[sig].oneShot
    ensures Apply(r, Arrives(sig)) == r
  {
  }

  /** After a one-shot handler has run, the default action is back; get_action() says so for a simple handler only.
      For an info handler the kernel has kept SA_SIGINFO, and UNKNOWN is reported. */
  lemma OneShotReport(r: Registry, sig: int)
    requires r.Sized() && TablesFit(r) && IsSignal(sig)
    requires r.kernel[sig].oneShot && (r.kernel[sig].code == SimpleStub || r.kernel[sig].code == InfoStub)
    ensures var after := Apply(r, Arrives(sig));
            && Dispatch(after, sig) == DefaultAction
            && (Current(after, sig).handler == Simple(DEFAULT) <==> r.kernel[sig].code == SimpleStub)
            && (Current(after, sig).handler == Simple(UNKNOWN) <==> r.kernel[sig].code == InfoStub)
  {
  }
}
