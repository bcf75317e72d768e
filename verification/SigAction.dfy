/** The registry of signal handlers (src/proc/SigAction.cxx, include/proc/SigAction.hxx): two tables of callback
    pointers that shadow the kernel's signal table. */
module SigActions {

  /** Pointer values; DEFAULT is the null pointer. */
  const DEFAULT := 0
  const IGNORE := 1
  const UNKNOWN := 2

  /** The size of the tables: SignalNr::MAXIMUM. */
  const TABLE_SIZE: nat := 65

  /** What sa_handler or sa_sigaction points to. The stubs are simple_handler() and info_handler(). */
  datatype Code = SigDfl | SigIgn | SimpleStub | InfoStub | Foreign(address: int)

  /** struct sigaction: SA_SIGINFO, SA_RESETHAND, mask and other flags, handler. */
  datatype Raw = Raw(siginfo: bool, oneShot: bool, rest: int, code: Code)

  /** std::variant<SimpleHandler, InfoHandler>. */
  datatype Handler = Simple(ptr: int) | Info(ptr: int)

  /** The value of a SigAction object. */
  datatype Action = Action(raw: Raw, handler: Handler)

  predicate Sentinel(ptr: int) { ptr == IGNORE || ptr == DEFAULT || ptr == UNKNOWN }

  // ---------- SigAction objects ----------

  const CLEAR := Raw(false, false, 0, SigDfl)

  function CodeFor(ptr: int): Code {
    if ptr == IGNORE then SigIgn else if ptr == DEFAULT then SigDfl else SimpleStub
  }

  function WithSimple(a: Action, ptr: int): Action {
    Action(a.raw.(siginfo := false, code := CodeFor(ptr)), Simple(ptr))
  }

  function WithInfo(a: Action, ptr: int): Action {
    Action(a.raw.(siginfo := true, code := InfoStub), Info(ptr))
  }

  /** The handler that updateFromOld() derives from a raw entry and the two table entries. */
  function HandlerOf(raw: Raw, info: int, simple: int): Handler {
    if raw.siginfo then if raw.code == InfoStub then Info(info) else Simple(UNKNOWN)
    else
      match raw.code
      case SigDfl => Simple(DEFAULT)
      case SigIgn => Simple(IGNORE)
      case SimpleStub => Simple(simple)
      case _ => Simple(UNKNOWN)
  }

  /** Where raw entry and handler of an object agree. */
  predicate Coherent(a: Action) {
    && (a.raw.code == SimpleStub ==> !a.raw.siginfo && a.handler.Simple? && !Sentinel(a.handler.ptr))
    && (a.raw.code == InfoStub ==> a.raw.siginfo && a.handler.Info?)
  }

  /** A simple stub without its callback. Such an object is reported if a signal handler has interfered. */
  predicate Stale(a: Action) {
    a.raw.code == SimpleStub && !a.raw.siginfo && a.handler == Simple(DEFAULT)
  }

  /** Every object that the public interface makes, fills in or changes. */
  predicate Usable(a: Action) {
    Coherent(a) || Stale(a)
  }

  class SigAction {
    var raw: Raw
    var handler: Handler

    function Value(): Action
      reads this
    {
      Action(raw, handler)
    }

    constructor ()
      ensures Value() == Action(CLEAR, Simple(DEFAULT)) && Coherent(Value())
    {
      raw := CLEAR;
      handler := Simple(DEFAULT);
    }

    /** Zeroes the raw entry - and nothing else. */
    method Clear()
      modifies this
      ensures Value() == Action(CLEAR, old(handler)) && Coherent(Value())
    {
      raw := CLEAR;
    }

    method Assign(other: SigAction)
      modifies this
      ensures Value() == old(other.Value())
    {
      raw := other.raw;
      handler := other.handler;
    }

    /** setFlags() keeps SA_SIGINFO, whatever the caller asks for. */
    method SetFlags(siginfo: bool, oneShot: bool, rest: int)
      modifies this
      ensures raw == old(raw).(oneShot := oneShot, rest := rest) && handler == old(handler)
      ensures old(Coherent(Value())) ==> Coherent(Value())
    {
      var hadSiginfo := raw.siginfo;
      raw := raw.(siginfo := siginfo, oneShot := oneShot, rest := rest);
      if hadSiginfo {
        raw := raw.(siginfo := true);
      } else {
        raw := raw.(siginfo := false);
      }
    }

    method SetSimpleHandler(ptr: int) returns (usageError: bool)
      modifies this
      ensures usageError == (ptr == UNKNOWN)
      ensures usageError ==> unchanged(this)
      ensures !usageError ==> Value() == WithSimple(old(Value()), ptr) && Coherent(Value())
    {
      if ptr == UNKNOWN {
        return true;
      }
      raw := raw.(siginfo := false);
      if ptr == IGNORE {
        raw := raw.(code := SigIgn);
      } else if ptr == DEFAULT {
        raw := raw.(code := SigDfl);
      } else {
        raw := raw.(code := SimpleStub);
      }
      handler := Simple(ptr);
      usageError := false;
    }

    method SetInfoHandler(ptr: int)
      modifies this
      ensures Value() == WithInfo(old(Value()), ptr) && Coherent(Value())
    {
      raw := raw.(siginfo := true);
      raw := raw.(code := InfoStub);
      handler := Info(ptr);
    }

    method UpdateFromOld(info: int, simple: int)
      modifies this
      ensures Value() == Action(old(raw), HandlerOf(old(raw), info, simple))
    {
      if raw.siginfo {
        if raw.code != InfoStub {
          handler := Simple(UNKNOWN);
        } else {
          handler := Info(info);
        }
      } else if raw.code == SigDfl {
        handler := Simple(DEFAULT);
      } else if raw.code == SigIgn {
        handler := Simple(IGNORE);
      } else if raw.code != SimpleStub {
        handler := Simple(UNKNOWN);
      } else {
        handler := Simple(simple);
      }
    }
  }

  // ---------- The registry ----------

  /** The kernel's signal table and the two callback tables, indexed by signal number. */
  datatype Registry = Registry(kernel: seq<Raw>, simple: seq<int>, info: seq<int>) {
    predicate Sized() { |kernel| == |simple| == |info| == TABLE_SIZE }
  }

  predicate IsSignal(sig: int) { 0 < sig < TABLE_SIZE }

  /** What happens when a signal arrives. */
  datatype Delivery = DefaultAction | Ignored | NothingCalled | CallSimple(ptr: int) | CallInfo(ptr: int) | CallForeign(address: int)

  function Dispatch(r: Registry, sig: int): Delivery
    requires r.Sized() && IsSignal(sig)
  {
    match r.kernel[sig].code
    case SigDfl => DefaultAction
    case SigIgn => Ignored
    case SimpleStub => if r.simple[sig] == 0 then NothingCalled else CallSimple(r.simple[sig])
    case InfoStub => if r.info[sig] == 0 then NothingCalled else CallInfo(r.info[sig])
    case Foreign(address) => CallForeign(address)
  }

  function Installed(r: Registry, sig: int, raw: Raw): Registry
    requires r.Sized() && IsSignal(sig)
  {
    r.(kernel := r.kernel[sig := raw])
  }

  /** The registries that a signal handler can observe while set_action() runs, oldest first: after the system call and
      after every store. */
  function Stages(r: Registry, sig: int, a: Action): (stages: seq<Registry>)
    requires r.Sized() && IsSignal(sig)
    ensures 2 <= |stages| <= 3 && forall i | 0 <= i < |stages| :: stages[i].Sized()
  {
    var installed := Installed(r, sig, a.raw);
    match a.handler
    case Simple(ptr) =>
      if Sentinel(ptr) then
        var cleared := installed.(simple := r.simple[sig := 0]);
        [installed, cleared, cleared.(info := r.info[sig := 0])]
      else [installed, installed.(simple := r.simple[sig := ptr])]
    case Info(ptr) => [installed, installed.(info := r.info[sig := ptr])]
  }

  /** The registry after set_action(). */
  function AfterSet(r: Registry, sig: int, a: Action): (next: Registry)
    requires r.Sized() && IsSignal(sig)
    ensures next.Sized()
  {
    var stages := Stages(r, sig, a);
    stages[|stages| - 1]
  }

  /** What get_action(), or set_action() through its last parameter, tells about the current setting. */
  function Current(r: Registry, sig: int): Action
    requires r.Sized() && IsSignal(sig)
  {
    Action(r.kernel[sig], HandlerOf(r.kernel[sig], r.info[sig], r.simple[sig]))
  }

  class SignalTables {
    const kernel: array<Raw>
    const simpleHandlers: array<int>
    const infoHandlers: array<int>
    ghost var seen: seq<Registry>  // every registry a signal handler could have observed

    ghost predicate Valid()
      reads this
    {
      kernel.Length == simpleHandlers.Length == infoHandlers.Length == TABLE_SIZE && simpleHandlers != infoHandlers
    }

    ghost function Value(): (r: Registry)
      reads this, kernel, simpleHandlers, infoHandlers
      requires Valid()
      ensures r.Sized()
    {
      Registry(kernel[..], simpleHandlers[..], infoHandlers[..])
    }

    constructor (initial: seq<Raw>)
      requires |initial| == TABLE_SIZE
      ensures Valid() && fresh(kernel) && fresh(simpleHandlers) && fresh(infoHandlers) && seen == []
      ensures Value() == Registry(initial, seq(TABLE_SIZE, _ => 0), seq(TABLE_SIZE, _ => 0))
    {
      kernel := new Raw[TABLE_SIZE](i requires 0 <= i < |initial| => initial[i]);
      simpleHandlers := new int[TABLE_SIZE](_ => 0);
      infoHandlers := new int[TABLE_SIZE](_ => 0);
      seen := [];
    }

    ghost method Observe()
      requires Valid()
      modifies `seen
      ensures seen == old(seen) + [Value()]
    {
      seen := seen + [Value()];
    }

    /** set_action(); `old` may be null, and it may be `action` itself. `accepted` is the verdict of the system call. */
    method SetAction(sig: int, action: SigAction, old_: SigAction?, accepted: bool) returns (apiError: bool)
      requires Valid() && IsSignal(sig)
      modifies kernel, simpleHandlers, infoHandlers, old_, `seen
      ensures apiError == !accepted
      ensures apiError ==> Value() == old(Value()) && seen == old(seen) && (old_ != null ==> unchanged(old_))
      ensures !apiError ==> Value() == AfterSet(old(Value()), sig, old(action.Value()))
      ensures !apiError ==> seen == old(seen) + Stages(old(Value()), sig, old(action.Value()))
      ensures !apiError && old_ != null ==> old_.Value() == Current(old(Value()), sig)
      ensures action != old_ ==> action.Value() == old(action.Value())
    {
      if !accepted {
        return true;
      }
      ghost var before, given := Value(), action.Value();
      var newRaw, oldRaw := action.raw, kernel[sig];
      kernel[sig] := newRaw;
      if old_ != null {
        old_.raw := oldRaw;
      }
      assert Value() == Installed(before, sig, given.raw);
      Observe();
      var handler := action.handler;
      var oldSimple := simpleHandlers[sig];
      var oldInfo := infoHandlers[sig];
      match handler {
        case Simple(ptr) =>
          if ptr == IGNORE || ptr == DEFAULT || ptr == UNKNOWN {
            simpleHandlers[sig] := 0;
            assert Value() == Stages(before, sig, given)[1];
            Observe();
            infoHandlers[sig] := 0;
          } else {
            simpleHandlers[sig] := ptr;
          }
        case Info(ptr) => infoHandlers[sig] := ptr;
      }
      assert Value() == AfterSet(before, sig, given);
      Observe();
      if old_ != null {
        old_.UpdateFromOld(oldInfo, oldSimple);
      }
      apiError := false;
    }

    method GetAction(sig: int, action: SigAction, accepted: bool) returns (apiError: bool)
      requires Valid() && IsSignal(sig)
      modifies action
      ensures apiError == !accepted
      ensures apiError ==> unchanged(action)
      ensures !apiError ==> action.Value() == Current(Value(), sig)
    {
      if !accepted {
        return true;
      }
      action.raw := kernel[sig];
      action.UpdateFromOld(infoHandlers[sig], simpleHandlers[sig]);
      apiError := false;
    }

    /** The two entry points: which callback do they call, if any? */
    method SimpleHandler(sig: int) returns (called: Delivery)
      requires Valid() && IsSignal(sig) && kernel[sig].code == SimpleStub
      ensures called == Dispatch(Value(), sig)
    {
      var handler := simpleHandlers[sig];
      called := if handler == 0 then NothingCalled else CallSimple(handler);
    }

    method InfoHandler(sig: int) returns (called: Delivery)
      requires Valid() && IsSignal(sig) && kernel[sig].code == InfoStub
      ensures called == Dispatch(Value(), sig)
    {
      var handler := infoHandlers[sig];
      called := if handler == 0 then NothingCalled else CallInfo(handler);
    }
  }
}
