/** A signal handler that runs while set_action() or get_action() is at work on the tables may call them itself, also for the
    same signal (src/proc/SigAction.cxx). */
module SigActionNested {
  import opened SigActions
  import opened SigActionProofs

  /** Like Legal(), but with all objects that the library makes. */
  predicate Fair(op: Op) {
    IsSignal(op.sig) &&
    match op
    case Set(_, action) => Usable(action)
    case Outside(_, raw) => raw.code != SimpleStub && raw.code != InfoStub
    case Arrives(_) => true
  }

  predicate AllFair(ops: seq<Op>) {
    forall i | 0 <= i < |ops| :: Fair(ops[i])
  }

  /** A step: a whole operation, or a set_action() during which handlers run - between the system call and the first store,
      and, if there are two stores, between these. */
  datatype Step = Whole(op: Op) | Interrupted(sig: int, action: Action, first: seq<Op>, second: seq<Op>)

  predicate FairStep(step: Step) {
    match step
    case Whole(op) => Fair(op)
    case Interrupted(sig, action, first, second) => IsSignal(sig) && Usable(action) && AllFair(first) && AllFair(second)
  }

  /** The action has one of the sentinels for its handler, so both tables are cleared. */
  predicate Clears(action: Action) {
    action.handler.Simple? && Sentinel(action.handler.ptr)
  }

  function StoreSimple(r: Registry, sig: int, ptr: int): Registry
    requires r.Sized() && IsSignal(sig)
  {
    r.(simple := r.simple[sig := ptr])
  }

  function StoreInfo(r: Registry, sig: int, ptr: int): Registry
    requires r.Sized() && IsSignal(sig)
  {
    r.(info := r.info[sig := ptr])
  }

  /** After the system call, and after handlers have run in the first window ... */
  function InFirst(r: Registry, sig: int, action: Action, first: seq<Op>): (now: Registry)
    requires r.Sized() && IsSignal(sig) && OnSignals(first)
    ensures now.Sized()
  {
    Run(Installed(r, sig, action.raw), first)
  }

  /** ... and in the second one, if there is one. */
  function InSecond(r: Registry, sig: int, action: Action, first: seq<Op>, second: seq<Op>): (now: Registry)
    requires r.Sized() && IsSignal(sig) && OnSignals(first) && OnSignals(second)
    ensures now.Sized()
  {
    Run(StoreSimple(InFirst(r, sig, action, first), sig, 0), second)
  }

  function ApplyStep(r: Registry, step: Step): (next: Registry)
    requires r.Sized() && FairStep(step)
    ensures next.Sized()
  {
    match step
    case Whole(op) => Apply(r, op)
    case Interrupted(sig, action, first, second) =>
      if Clears(action) then StoreInfo(InSecond(r, sig, action, first, second), sig, 0)
      else
        match action.handler
        case Simple(ptr) => StoreSimple(InFirst(r, sig, action, first), sig, ptr)
        case Info(ptr) => StoreInfo(InFirst(r, sig, action, first), sig, ptr)
  }

  /** Without any handler in between, this is set_action() as a whole. */
  lemma UninterruptedIsSet(r: Registry, sig: int, action: Action)
    requires r.Sized() && FairStep(Interrupted(sig, action, [], []))
    ensures ApplyStep(r, Interrupted(sig, action, [], [])) == Apply(r, Set(sig, action))
  {
  }

  // ---------- What an operation does to one signal, told without the tables ----------

  /** Does the operation change the kernel's entry for `sig`? */
  predicate Changes(raw: Raw, op: Op, sig: int) {
    op.sig == sig && (op.Arrives? ==> raw.oneShot && raw.code != SigDfl && raw.code != SigIgn)
  }

  function EntryNext(raw: Raw, op: Op, sig: int): Raw {
    if !Changes(raw, op, sig) then raw
    else
      match op
      case Set(_, action) => action.raw
      case Outside(_, entry) => entry
      case Arrives(_) => raw.(code := SigDfl)
  }

  /** Is a simple stub without callback there after the operation, if `empty` says whether it was before? */
  predicate EmptyNext(raw: Raw, empty: bool, op: Op, sig: int) {
    if Changes(raw, op, sig) then op.Set? && Stale(op.action) else empty
  }

  function EntryAfter(raw: Raw, ops: seq<Op>, sig: int): Raw {
    if ops == [] then raw else EntryNext(EntryAfter(raw, ops[..|ops| - 1], sig), ops[|ops| - 1], sig)
  }

  predicate EmptyAfter(raw: Raw, empty: bool, ops: seq<Op>, sig: int) {
    if ops == [] then empty
    else
      var before := ops[..|ops| - 1];
      EmptyNext(EntryAfter(raw, before, sig), EmptyAfter(raw, empty, before, sig), ops[|ops| - 1], sig)
  }

  // ---------- When the tables fit ----------

  /** TablesFit() for one signal, but for a callback that is missing. */
  predicate CleanAt(r: Registry, sig: int)
    requires r.Sized() && IsSignal(sig)
  {
    && r.simple[sig] != IGNORE && r.simple[sig] != UNKNOWN
    && (r.kernel[sig].code == SimpleStub ==> !r.kernel[sig].siginfo)
    && (r.kernel[sig].code == InfoStub ==> r.kernel[sig].siginfo)
  }

  /** The callback is missing. */
  predicate EmptyAt(r: Registry, sig: int)
    requires r.Sized() && IsSignal(sig)
  {
    r.kernel[sig].code == SimpleStub && r.simple[sig] == 0
  }

  lemma FitMeans(r: Registry)
    requires r.Sized()
    ensures TablesFit(r) <==> forall sig | IsSignal(sig) :: CleanAt(r, sig) && !EmptyAt(r, sig)
  {
    forall sig | IsSignal(sig) && TablesFit(r) ensures CleanAt(r, sig) && !EmptyAt(r, sig) {
      assert r.simple[sig] != IGNORE;
    }
  }

  lemma OpEmpty(r: Registry, op: Op, sig: int)
    requires r.Sized() && Fair(op) && IsSignal(sig) && CleanAt(r, sig)
    ensures CleanAt(Apply(r, op), sig)
    ensures Apply(r, op).kernel[sig] == EntryNext(r.kernel[sig], op, sig)
    ensures EmptyAt(Apply(r, op), sig) <==> EmptyNext(r.kernel[sig], EmptyAt(r, sig), op, sig)
  {
    if op.sig == sig {
      match op
      case Set(_, action) =>
      case Outside(_, _) =>
      case Arrives(_) =>
    }
  }

  lemma {:induction false} RunEmpty(r: Registry, ops: seq<Op>, sig: int)
    requires r.Sized() && AllFair(ops) && IsSignal(sig) && CleanAt(r, sig)
    ensures CleanAt(Run(r, ops), sig)
    ensures Run(r, ops).kernel[sig] == EntryAfter(r.kernel[sig], ops, sig)
    ensures EmptyAt(Run(r, ops), sig) <==> EmptyAfter(r.kernel[sig], EmptyAt(r, sig), ops, sig)
  {
    if ops != [] {
      var before := ops[..|ops| - 1];
      RunEmpty(r, before, sig);
      OpEmpty(Run(r, before), ops[|ops| - 1], sig);
    }
  }

  /** Is the callback of signal `any` missing after the step? `raw` and `empty` tell of its entry before. For the signal that
      is being set, the stores come last: a simple callback is there, whatever the handlers did; the tables being cleared takes
      away what they have installed in the first window. */
  predicate EmptyAfterStep(raw: Raw, empty: bool, step: Step, any: int) {
    match step
    case Whole(op) => EmptyNext(raw, empty, op, any)
    case Interrupted(sig, action, first, second) =>
      var entry := EntryAfter(if any == sig then action.raw else raw, first, any);
      if any != sig then
        var once := EmptyAfter(raw, empty, first, any);
        if Clears(action) then EmptyAfter(entry, once, second, any) else once
      else if Clears(action) then EmptyAfter(entry, entry.code == SimpleStub, second, sig)
      else action.handler.Info? && EmptyAfter(action.raw, false, first, sig)
  }

  lemma StepEmpty(r: Registry, step: Step, any: int)
    requires r.Sized() && FairStep(step) && IsSignal(any) && CleanAt(r, any)
    ensures CleanAt(ApplyStep(r, step), any)
    ensures EmptyAt(ApplyStep(r, step), any) <==> EmptyAfterStep(r.kernel[any], EmptyAt(r, any), step, any)
  {
    match step
    case Whole(op) => OpEmpty(r, op, any);
    case Interrupted(sig, action, first, second) =>
      var installed := Installed(r, sig, action.raw);
      RunEmpty(installed, first, any);
      if Clears(action) {
        RunEmpty(StoreSimple(Run(installed, first), sig, 0), second, any);
      }
  }

  /** Some signal loses its callback by the step. */
  ghost predicate Disarms(r: Registry, step: Step)
    requires r.Sized()
  {
    exists any :: IsSignal(any) && EmptyAfterStep(r.kernel[any], false, step, any)
  }

  /** A step leaves the tables fit if and only if it disarms no signal; a signal that is disarmed calls nothing. */
  lemma FitsExactly(r: Registry, step: Step)
    requires r.Sized() && TablesFit(r) && FairStep(step)
    ensures TablesFit(ApplyStep(r, step)) <==> !Disarms(r, step)
    ensures forall any | IsSignal(any) && EmptyAfterStep(r.kernel[any], false, step, any) ::
              Dispatch(ApplyStep(r, step), any) == NothingCalled
  {
    var next := ApplyStep(r, step);
    FitMeans(r);
    FitMeans(next);
    forall any | IsSignal(any)
      ensures CleanAt(next, any) && (EmptyAt(next, any) <==> EmptyAfterStep(r.kernel[any], false, step, any))
    {
      assert CleanAt(r, any) && !EmptyAt(r, any);
      StepEmpty(r, step, any);
    }
  }

  predicate AllFairSteps(steps: seq<Step>) {
    forall i | 0 <= i < |steps| :: FairStep(steps[i])
  }

  function RunSteps(r: Registry, steps: seq<Step>): (next: Registry)
    requires r.Sized() && AllFairSteps(steps)
    ensures next.Sized()
  {
    if steps == [] then r else ApplyStep(RunSteps(r, steps[..|steps| - 1]), steps[|steps| - 1])
  }

  /** Are the tables fit after every step? */
  ghost predicate AlwaysFit(r: Registry, steps: seq<Step>)
    requires r.Sized() && AllFairSteps(steps)
  {
    TablesFit(RunSteps(r, steps)) && (steps != [] ==> AlwaysFit(r, steps[..|steps| - 1]))
  }

  ghost predicate NoneDisarms(r: Registry, steps: seq<Step>)
    requires r.Sized() && AllFairSteps(steps)
  {
    steps != [] ==>
      NoneDisarms(r, steps[..|steps| - 1]) && !Disarms(RunSteps(r, steps[..|steps| - 1]), steps[|steps| - 1])
  }

  /** Over any run, nested calls and objects reported by interrupted calls included, the tables are fit throughout if and only
      if no step disarms a signal. */
  lemma {:induction false} AlwaysFitExactly(r: Registry, steps: seq<Step>)
    requires r.Sized() && TablesFit(r) && AllFairSteps(steps)
    ensures AlwaysFit(r, steps) <==> NoneDisarms(r, steps)
  {
    if steps != [] {
      var before := steps[..|steps| - 1];
      AlwaysFitExactly(r, before);
      if AlwaysFit(r, before) {
        assert TablesFit(RunSteps(r, before));
        FitsExactly(RunSteps(r, before), steps[|steps| - 1]);
      }
    }
  }

  // ---------- The ways to disarm a signal ----------

  /** Setting a stale object disarms the signal, and among whole operations nothing else does. */
  lemma WholeDisarms(r: Registry, op: Op)
    requires r.Sized() && Fair(op)
    ensures Disarms(r, Whole(op)) <==> op.Set? && Stale(op.action)
  {
    if op.Set? && Stale(op.action) {
      assert EmptyAfterStep(r.kernel[op.sig], false, Whole(op), op.sig);
    }
  }

  /** Do the operations leave the kernel's entry for `sig` alone? */
  predicate Untouched(raw: Raw, ops: seq<Op>, sig: int) {
    forall i | 0 <= i < |ops| :: !Changes(raw, ops[i], sig)
  }

  predicate NoneStale(ops: seq<Op>) {
    forall i | 0 <= i < |ops| :: ops[i].Set? ==> !Stale(ops[i].action)
  }

  lemma {:induction false} EmptyStays(raw: Raw, empty: bool, ops: seq<Op>, sig: int)
    requires NoneStale(ops)
    ensures EmptyAfter(raw, empty, ops, sig) <==> empty && Untouched(raw, ops, sig)
    ensures Untouched(raw, ops, sig) ==> EntryAfter(raw, ops, sig) == raw
  {
    if ops != [] {
      var before, last := ops[..|ops| - 1], ops[|ops| - 1];
      EmptyStays(raw, empty, before, sig);
      assert Untouched(raw, ops, sig) <==> Untouched(raw, before, sig) && !Changes(raw, last, sig);
    }
  }

  /** Without stale objects: the tables are cleared, a simple stub was installed in the first window, and the handlers in the
      second window leave it at that. */
  lemma InterruptedDisarms(r: Registry, sig: int, action: Action, first: seq<Op>, second: seq<Op>)
    requires r.Sized() && FairStep(Interrupted(sig, action, first, second))
    requires !Stale(action) && NoneStale(first) && NoneStale(second)
    ensures var entry := EntryAfter(action.raw, first, sig);
            Disarms(r, Interrupted(sig, action, first, second)) <==>
            Clears(action) && entry.code == SimpleStub && Untouched(entry, second, sig)
  {
    var step := Interrupted(sig, action, first, second);
    var entry := EntryAfter(action.raw, first, sig);
    EmptyStays(action.raw, false, first, sig);
    EmptyStays(entry, entry.code == SimpleStub, second, sig);
    forall any | IsSignal(any) && any != sig ensures !EmptyAfterStep(r.kernel[any], false, step, any) {
      EmptyStays(r.kernel[any], false, first, any);
      EmptyStays(EntryAfter(r.kernel[any], first, any), false, second, any);
    }
    assert EmptyAfterStep(r.kernel[sig], false, step, sig) <==>
           Clears(action) && entry.code == SimpleStub && Untouched(entry, second, sig);
  }

  /** It happens: a handler installs a simple handler for the signal that is being reset to the default action. */
  lemma ResetDisarms(r: Registry, sig: int, ptr: int)
    requires r.Sized() && IsSignal(sig) && !Sentinel(ptr)
    ensures var raw := Raw(false, false, 0, SimpleStub);
            var step := Interrupted(sig, Action(CLEAR, Simple(DEFAULT)), [Set(sig, Action(raw, Simple(ptr)))], []);
            FairStep(step) && Disarms(r, step)
  {
    var op := Set(sig, Action(Raw(false, false, 0, SimpleStub), Simple(ptr)));
    assert [op][..0] == [];
    assert EntryAfter(CLEAR, [op], sig) == op.action.raw;
    InterruptedDisarms(r, sig, Action(CLEAR, Simple(DEFAULT)), [op], []);
  }

  // ---------- What is reported to the caller ----------

  /** The kernel's old entry, with a handler from the tables as they are when they are read. */
  function ReportedAs(raw: Raw, now: Registry, sig: int): Action
    requires now.Sized() && IsSignal(sig)
  {
    Action(raw, HandlerOf(raw, now.info[sig], now.simple[sig]))
  }

  /** What set_action() tells about the old setting, if these handlers have run between the system call and the reading of
      the table ... */
  function Reported(r: Registry, sig: int, action: Action, before: seq<Op>): Action
    requires r.Sized() && IsSignal(sig) && OnSignals(before)
  {
    ReportedAs(r.kernel[sig], InFirst(r, sig, action, before), sig)
  }

  /** ... and what get_action() tells. */
  function ReportedByGet(r: Registry, sig: int, before: seq<Op>): Action
    requires r.Sized() && IsSignal(sig) && OnSignals(before)
  {
    ReportedAs(r.kernel[sig], Run(r, before), sig)
  }

  /** Has the table entry that belongs to the kernel's old entry stayed as it was? */
  predicate SameCallback(r: Registry, now: Registry, sig: int)
    requires r.Sized() && now.Sized() && IsSignal(sig)
  {
    && (r.kernel[sig].code == SimpleStub ==> now.simple[sig] == r.simple[sig])
    && (r.kernel[sig].code == InfoStub ==> now.info[sig] == r.info[sig])
  }

  lemma ReadExactly(r: Registry, now: Registry, sig: int)
    requires r.Sized() && now.Sized() && IsSignal(sig) && CleanAt(r, sig) && CleanAt(now, sig)
    ensures var told := ReportedAs(r.kernel[sig], now, sig);
            && Usable(told)
            && (told == Current(r, sig) <==> SameCallback(r, now, sig))
            && (Stale(told) <==> r.kernel[sig].code == SimpleStub && now.simple[sig] == 0)
            && (Coherent(told) <==> !Stale(told))
  {
  }

  /** The setting that set_action() reports is the one that was in force if and only if the handlers that ran before it read
      the table have not changed the callback that belongs to it; it can be handed back, but is stale if and only if it was a
      simple handler and the handlers have cleared the table. The same holds for get_action(). */
  lemma ReportedExactly(r: Registry, sig: int, action: Action, before: seq<Op>)
    requires r.Sized() && TablesFit(r) && IsSignal(sig) && Usable(action) && AllFair(before)
    ensures var told, now := Reported(r, sig, action, before), InFirst(r, sig, action, before);
            && Usable(told)
            && (told == Current(r, sig) <==> SameCallback(r, now, sig))
            && (Stale(told) <==> r.kernel[sig].code == SimpleStub && now.simple[sig] == 0)
            && (Coherent(told) <==> !Stale(told))
    ensures var told, now := ReportedByGet(r, sig, before), Run(r, before);
            && Usable(told)
            && (told == Current(r, sig) <==> SameCallback(r, now, sig))
            && (Stale(told) <==> r.kernel[sig].code == SimpleStub && now.simple[sig] == 0)
            && (Coherent(told) <==> !Stale(told))
  {
    FitMeans(r);
    assert CleanAt(r, sig);
    RunEmpty(r, before, sig);
    RunEmpty(Installed(r, sig, action.raw), before, sig);
    ReadExactly(r, InFirst(r, sig, action, before), sig);
    ReadExactly(r, Run(r, before), sig);
  }

  /** It happens: the signal has a simple handler, and while it is being reset a handler resets it, too. The tables stay fit,
      but the caller is told of a simple stub without callback; when this is handed back, the signal calls nothing. */
  lemma StaleIsReported(r: Registry, sig: int)
    requires r.Sized() && TablesFit(r) && IsSignal(sig) && r.kernel[sig].code == SimpleStub
    ensures var reset := Action(CLEAR, Simple(DEFAULT));
            var during := [Set(sig, reset)];
            var told, next := Reported(r, sig, reset, during), ApplyStep(r, Interrupted(sig, reset, during, []));
            && Dispatch(r, sig) == CallSimple(r.simple[sig]) && TablesFit(next)
            && told == Action(r.kernel[sig], Simple(DEFAULT)) && FairStep(Whole(Set(sig, told)))
            && Dispatch(Apply(next, Set(sig, told)), sig) == NothingCalled
  {
    FitMeans(r);
    assert CleanAt(r, sig) && !EmptyAt(r, sig);
    var reset := Action(CLEAR, Simple(DEFAULT));
    var during := [Set(sig, reset)];
    var step := Interrupted(sig, reset, during, []);
    assert during[..0] == [];
    assert InFirst(r, sig, reset, during).simple[sig] == 0;
    assert EntryAfter(CLEAR, during, sig) == CLEAR;
    InterruptedDisarms(r, sig, reset, during, []);
    FitsExactly(r, step);
    var told := Reported(r, sig, reset, during);
    var next := ApplyStep(r, step);
    ReportedExactly(r, sig, reset, during);
    assert EmptyAfterStep(next.kernel[sig], false, Whole(Set(sig, told)), sig);
    FitsExactly(next, Whole(Set(sig, told)));
  }

  // ---------- What a signal can call ----------

  /** The tables hold, for `sig`, only callbacks from `given`. */
  predicate HoldsAt(r: Registry, sig: int, given: set<Handler>)
    requires r.Sized() && IsSignal(sig)
  {
    && r.simple[sig] != IGNORE && r.simple[sig] != UNKNOWN
    && (r.simple[sig] != 0 ==> Simple(r.simple[sig]) in given)
    && (r.info[sig] != 0 ==> Info(r.info[sig]) in given)
  }

  lemma OpHolds(r: Registry, op: Op, sig: int, given: set<Handler>)
    requires r.Sized() && Fair(op) && IsSignal(sig) && HoldsAt(r, sig, given)
    ensures HoldsAt(Apply(r, op), sig, given + if op.Set? && op.sig == sig then {op.action.handler} else {})
  {
  }

  lemma {:induction false} RunHolds(r: Registry, ops: seq<Op>, sig: int, given: set<Handler>)
    requires r.Sized() && AllFair(ops) && IsSignal(sig) && HoldsAt(r, sig, given)
    ensures HoldsAt(Run(r, ops), sig, given + Given(ops, sig))
  {
    if ops != [] {
      var before, op := ops[..|ops| - 1], ops[|ops| - 1];
      RunHolds(r, before, sig, given);
      OpHolds(Run(r, before), op, sig, given + Given(before, sig));
    }
  }

  function GivenInStep(step: Step, any: int): set<Handler> {
    match step
    case Whole(op) => Given([op], any)
    case Interrupted(sig, action, first, second) =>
      (if any == sig then {action.handler} else {}) + Given(first, any) + Given(second, any)
  }

  function GivenInSteps(steps: seq<Step>, any: int): set<Handler> {
    if steps == [] then {} else GivenInSteps(steps[..|steps| - 1], any) + GivenInStep(steps[|steps| - 1], any)
  }

  lemma StepHolds(r: Registry, step: Step, any: int, given: set<Handler>)
    requires r.Sized() && FairStep(step) && IsSignal(any) && HoldsAt(r, any, given)
    ensures HoldsAt(ApplyStep(r, step), any, given + GivenInStep(step, any))
  {
    match step
    case Whole(op) =>
      assert [op][..0] == [] && Run(r, [op]) == Apply(r, op);
      RunHolds(r, [op], any, given);
    case Interrupted(sig, action, first, second) =>
      RunHolds(Installed(r, sig, action.raw), first, any, given);
      if Clears(action) {
        RunHolds(StoreSimple(InFirst(r, sig, action, first), sig, 0), second, any, given + Given(first, any));
      }
  }

  lemma {:induction false} StepsHold(r: Registry, steps: seq<Step>, any: int)
    requires Fresh(r) && AllFairSteps(steps) && IsSignal(any)
    ensures HoldsAt(RunSteps(r, steps), any, GivenInSteps(steps, any))
  {
    if steps != [] {
      StepsHold(r, steps[..|steps| - 1], any);
      StepHolds(RunSteps(r, steps[..|steps| - 1]), steps[|steps| - 1], any, GivenInSteps(steps[..|steps| - 1], any));
    }
  }

  predicate CallsOnly(r: Registry, sig: int, given: set<Handler>)
    requires r.Sized() && IsSignal(sig)
  {
    match Dispatch(r, sig)
    case CallSimple(ptr) => !Sentinel(ptr) && Simple(ptr) in given
    case CallInfo(ptr) => ptr != 0 && Info(ptr) in given
    case _ => true
  }

  lemma HoldsMeansCallsOnly(r: Registry, sig: int, given: set<Handler>)
    requires r.Sized() && IsSignal(sig) && HoldsAt(r, sig, given)
    ensures CallsOnly(r, sig, given)
  {
  }

  /** Over any run with nested calls, and also in the windows of the last one, with any handlers having run there, a signal
      calls nothing or a callback given for that same signal, never a marker. */
  lemma NestedCallsGiven(r: Registry, steps: seq<Step>, sig: int, action: Action, first: seq<Op>, second: seq<Op>, any: int)
    requires Fresh(r) && AllFairSteps(steps) && FairStep(Interrupted(sig, action, first, second)) && IsSignal(any)
    ensures var now, given := RunSteps(r, steps), GivenInSteps(steps, any);
            && CallsOnly(now, any, given)
            && CallsOnly(InFirst(now, sig, action, first), any, given + Given(first, any))
            && CallsOnly(InSecond(now, sig, action, first, second), any, given + Given(first, any) + Given(second, any))
  {
    StepsHold(r, steps, any);
    var now, given := RunSteps(r, steps), GivenInSteps(steps, any);
    RunHolds(Installed(now, sig, action.raw), first, any, given);
    RunHolds(StoreSimple(InFirst(now, sig, action, first), sig, 0), second, any, given + Given(first, any));
    HoldsMeansCallsOnly(now, any, given);
    HoldsMeansCallsOnly(InFirst(now, sig, action, first), any, given + Given(first, any));
    HoldsMeansCallsOnly(InSecond(now, sig, action, first, second), any, given + Given(first, any) + Given(second, any));
  }
}
