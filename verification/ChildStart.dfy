/** How ChildCloner::run() starts a child and learns of its pre-exec errors (src/proc/ChildCloner.cxx).

    Parent and child are two processes that run concurrently; they share a close-on-exec packet pipe and, on the
    fork path, an event counter that acts as a gate. Every event below is one system call or one decision of one
    of the two processes, or an act of the environment; a run is any sequence of enabled events. */
module ChildStart {
  import opened Common
  import opened Bytes
  import opened SubProcess
  import opened Descriptors

  const PIPE_BUF: nat := 4096

  type Packet = seq<Byte>
  type Message = seq<Byte>

  /** `forward`: setForwardChildErrors(); `forkPath`: runClone2() instead of runClone3(); `noExe`: setNoExe();
      `slots`: how many packets the pipe holds before a writer blocks. */
  datatype Config = Config(forward: bool, forkPath: bool, argsOk: bool, noExe: bool, slots: nat,
                           pid: int, pidfd: int) {
    predicate Valid() { slots >= 1 && pidfd != INVALID }
  }

  datatype Problem =
    | UsageError
    | SetupError                                // Pipe, EventFile, fork, clone, pidfd_open or signal() failed
    | ReadError                                 // read() on the error pipe failed
    | WaitError                                 // wait() failed and its exception replaced the original one
    | BadCode                                   // "bad error code read from error pipe"
    | MissingMessage                            // "missing error message from error pipe"
    | RuntimeError(message: Message)
    | ApiError(code: Int32, message: Message)

  datatype Outcome = Returned | Threw(problem: Problem) | Aborted

  datatype ParentPc =
    | PStart                                    // verifyArgs(), Pipe{}, EventFile{}
    | PSpawn                                    // fork() or clone()
    | POpenPidFd | PSignal                      // runClone2(): UnsafeProcessFile{pid}, ev.signal()
    | PGateKill | PGateWait                     // runClone2(): its catch block
    | PCloseWrite | PReadCode                   // handlePreExecError()
    | PReadMessage(code: Int32)
    | PKill(problem: Problem)                   // run(): its catch block
    | PWait(problem: Problem)
    | PDone(outcome: Outcome)

  datatype ChildPc =
    | CNone
    | CGate                                     // ev.wait()
    | CStart                                    // closeReadEnd()
    | CPostFork                                 // postFork(), with the user's callback
    | CExec                                     // proc::exec()
    | CReportCode(code: Int32, message: Message)  // reportPreExecErrorAndExit(): first write
    | CReportMessage(rest: Message)               // second write, packet by packet; exit when nothing is left
    | CProgram                                  // the new program
    | CDead(event: ChildEvent)                  // terminated, status not collected
    | CReaped(event: ChildEvent)
  {
    predicate Live() { !CNone? && !CDead? && !CReaped? }

    /** Has the child got past the gate? */
    predicate Started() { CStart? || CPostFork? || CExec? || CReportCode? || CReportMessage? || CProgram? }
  }

  /** What has happened so far. `report`: the error the child has decided to report, if any. */
  datatype Log = Log(gotPidFd: bool, signalled: bool, passed: bool, gateKilled: bool, gateKillFailed: bool,
                     codeWritten: bool, killed: bool, readFailed: bool, waitInterrupted: bool, interfered: bool,
                     report: Option<(Int32, Message)>)

  const NOTHING := Log(false, false, false, false, false, false, false, false, false, false, None)

  /** `gate`: the event counter; `parentWrite`, `childWrite`, `parentRead`: the open ends of the error pipe (the
      child's read end is closed before anything can be written); `sub`: the parent's SubProc. */
  datatype State = State(parent: ParentPc, child: ChildPc, gate: nat, parentWrite: bool, childWrite: bool,
                         parentRead: bool, pipe: seq<Packet>, killPending: bool, sub: Handle, log: Log)

  const INITIAL := State(PStart, CNone, 0, false, false, false, [], false, EMPTY, NOTHING)

  datatype ParentEvent =
    | ArgsRejected | ResourcesFail | ResourcesReady | SpawnFails | Spawned
    | PidFdFails | PidFdOpened | SignalFails | Signalled | GateKill(ok: bool) | GateWaited
    | WriteEndClosed | CodeRead | CodeEof | MessageRead | MessageEof | ReadFails
    | KillSent(ok: bool) | Waited | WaitInterrupted

  /** What the child does and what befalls it. Interference is a signal from elsewhere, or a crash. */
  datatype ChildAct =
    | GatePassed | GateFails | ReadEndClosed
    | PostForkDone | PostForkExits | PostForkFails(message: Message) | ExecDone | ExecFails(code: Int32, message: Message)
    | CodeWritten | PacketWritten | ReportDone | BrokenPipe | ProgramEnds(ending: ChildEvent) | KillTakesEffect
    | Interference(ending: ChildEvent)

  datatype Event = Parent(p: ParentEvent) | Child(c: ChildAct)

  /** The parent leaves run() by an exception from the catch block: ~SubProc() aborts if the handle is in use. */
  function Leaves(s: State, problem: Problem): State {
    s.(parent := PDone(if s.sub.Running() then Aborted else Threw(problem)))
  }

  /** The parent leaves run() by an exception while the Pipe still owns both ends; ~Pipe() closes them. */
  function Unwinds(s: State, problem: Problem): State {
    s.(parent := PDone(Threw(problem)), parentWrite := false, parentRead := false)
  }

  /** A read on the error pipe is over with the exception `problem`; ~File() closes the read end. */
  function FailsRead(s: State, problem: Problem): State {
    s.(parent := PKill(problem), parentRead := false, log := s.log.(readFailed := s.log.readFailed || problem.ReadError?))
  }

  function FirstPacket(m: Message): Packet {
    m[..Min(|m|, PIPE_BUF)]
  }

  /** handlePreExecError() with both messages at hand. */
  function ReadOutcome(code: Int32, text: Packet): Problem {
    if code == 0 then RuntimeError(text) else ApiError(code, text)
  }

  /** runClone2() or runClone3() succeeded in the parent. */
  function WithHandle(cfg: Config, s: State): State {
    s.(parent := if cfg.forward then PCloseWrite else PDone(Returned), sub := Handle(cfg.pid, cfg.pidfd))
  }

  /** run() up to the existence of the child. */
  function SpawnStep(cfg: Config, s: State, e: ParentEvent): Option<State> {
    match s.parent
    case PStart =>
      if e.ArgsRejected? && !cfg.argsOk then Some(s.(parent := PDone(Threw(UsageError))))
      else if e.ResourcesFail? && cfg.argsOk then Some(s.(parent := PDone(Threw(SetupError))))
      else if e.ResourcesReady? && cfg.argsOk then
        Some(s.(parent := PSpawn, parentWrite := cfg.forward, parentRead := cfg.forward))
      else None
    case PSpawn =>
      if e.SpawnFails? then Some(Unwinds(s, SetupError))
      else if e.Spawned? then
        if cfg.forkPath then Some(s.(parent := POpenPidFd, child := CGate, childWrite := cfg.forward))
        else Some(WithHandle(cfg, s.(child := CStart, childWrite := cfg.forward)))
      else None
    case _ => None
  }

  /** runClone2() in the parent, after fork(). */
  function GateStep(cfg: Config, s: State, e: ParentEvent): Option<State> {
    match s.parent
    case POpenPidFd =>
      if e.PidFdOpened? then Some(s.(parent := PSignal, log := s.log.(gotPidFd := true)))
      else if e.PidFdFails? then Some(s.(parent := PGateKill))
      else None
    case PSignal =>
      if e.Signalled? then Some(WithHandle(cfg, s.(gate := s.gate + 1, log := s.log.(signalled := true))))
      else if e.SignalFails? then Some(s.(parent := PGateKill))
      else None
    case PGateKill =>
      if e.GateKill? then
        Some(s.(parent := PGateWait, killPending := e.ok && s.child.Live(),
                log := s.log.(gateKilled := true, gateKillFailed := !e.ok)))
      else None
    case PGateWait =>
      if e.GateWaited? && s.child.CDead? then
        Some(Unwinds(s.(child := CReaped(s.child.event)), SetupError))
      else if e.WaitInterrupted? then Some(Unwinds(s.(log := s.log.(waitInterrupted := true)), WaitError))
      else None
    case _ => None
  }

  /** handlePreExecError(). */
  function ReadStep(s: State, e: ParentEvent): Option<State> {
    match s.parent
    case PCloseWrite =>
      if e.WriteEndClosed? then Some(s.(parent := PReadCode, parentWrite := false)) else None
    case PReadCode =>
      if e.CodeRead? && s.pipe != [] then
        if |s.pipe[0]| != INT32_SIZE then Some(FailsRead(s.(pipe := s.pipe[1..]), BadCode))
        else Some(s.(parent := PReadMessage(ToInt32(s.pipe[0])), pipe := s.pipe[1..]))
      else if e.CodeEof? && s.pipe == [] && !s.childWrite && !s.parentWrite then
        Some(s.(parent := PDone(Returned), parentRead := false))
      else if e.ReadFails? then Some(FailsRead(s, ReadError))
      else None
    case PReadMessage(code) =>
      if e.MessageRead? && s.pipe != [] then
        Some(FailsRead(s.(pipe := s.pipe[1..]), ReadOutcome(code, s.pipe[0])))
      else if e.MessageEof? && s.pipe == [] && !s.childWrite && !s.parentWrite then Some(FailsRead(s, MissingMessage))
      else if e.ReadFails? then Some(FailsRead(s, ReadError))
      else None
    case _ => None
  }

  /** run()'s catch block. */
  function CleanupStep(s: State, e: ParentEvent): Option<State> {
    match s.parent
    case PKill(problem) =>
      if e.KillSent? then
        Some(s.(parent := PWait(problem), killPending := e.ok && s.child.Live(), log := s.log.(killed := true)))
      else None
    case PWait(problem) =>
      if e.Waited? && s.child.CDead? then
        var sub := AfterWait(s.sub, false, Changed(s.child.event));
        Some(Leaves(s.(child := CReaped(s.child.event), sub := sub), problem))
      else if e.WaitInterrupted? then
        var sub := AfterWait(s.sub, false, WaitFailed(OtherError));
        Some(Leaves(s.(sub := sub, log := s.log.(waitInterrupted := true)), WaitError))
      else None
    case _ => None
  }

  predicate Spawning(p: ParentPc) { p.PStart? || p.PSpawn? }
  predicate Opening(p: ParentPc) { p.POpenPidFd? || p.PSignal? || p.PGateKill? || p.PGateWait? }
  predicate Reading(p: ParentPc) { p.PCloseWrite? || p.PReadCode? || p.PReadMessage? }
  predicate Cleanup(p: ParentPc) { p.PKill? || p.PWait? }

  /** The parent's events. */
  function ParentStep(cfg: Config, s: State, e: ParentEvent): Option<State> {
    if Spawning(s.parent) then SpawnStep(cfg, s, e)
    else if Opening(s.parent) then GateStep(cfg, s, e)
    else if Reading(s.parent) then ReadStep(s, e)
    else CleanupStep(s, e)
  }

  /** The child's process ends: by a signal, or on its own. Does event `e` end it, and how? */
  function Ending(cfg: Config, s: State, e: ChildAct): Option<ChildEvent> {
    match e
    case KillTakesEffect => if s.killPending && s.child.Live() then Some(Killed) else None
    case Interference(ending) => if s.child.Live() && Terminal(ending) then Some(ending) else None
    case GateFails => if s.child.CGate? then Some(Exited) else None
    case PostForkExits => if s.child.CPostFork? then Some(Exited) else None
    case PostForkDone => if s.child.CPostFork? && cfg.noExe then Some(Exited) else None
    case PostForkFails(_) => if s.child.CPostFork? && !cfg.forward then Some(Exited) else None
    case ExecFails(_, _) => if s.child.CExec? && !cfg.forward then Some(Exited) else None
    case ProgramEnds(ending) => if s.child.CProgram? && Terminal(ending) then Some(ending) else None
    case ReportDone => if s.child == CReportMessage([]) then Some(Exited) else None
    case BrokenPipe =>
      if !s.parentRead && (s.child.CReportCode? || (s.child.CReportMessage? && s.child.rest != [])) then Some(Killed)
      else None
    case _ => None
  }

  /** From the gate to the new program. */
  function SetupStep(cfg: Config, s: State, e: ChildAct): Option<State> {
    match s.child
    case CGate =>
      if e.GatePassed? && s.gate > 0 then Some(s.(child := CStart, gate := 0, log := s.log.(passed := true))) else None
    case CStart => if e.ReadEndClosed? then Some(s.(child := CPostFork)) else None
    case CPostFork => if e.PostForkDone? && !cfg.noExe then Some(s.(child := CExec)) else None
    case CExec => if e.ExecDone? then Some(s.(child := CProgram, childWrite := false)) else None
    case _ => None
  }

  /** An exception caught in runChild(), and reportPreExecErrorAndExit(). */
  function ReportStep(cfg: Config, s: State, e: ChildAct): Option<State> {
    match s.child
    case CPostFork => if e.PostForkFails? && cfg.forward then Some(Reports(s, 0, e.message)) else None
    case CExec => if e.ExecFails? && cfg.forward then Some(Reports(s, e.code, e.message)) else None
    case CReportCode(code, message) =>
      if e.CodeWritten? && s.parentRead && |s.pipe| < cfg.slots then
        Some(s.(child := CReportMessage(message), pipe := s.pipe + [FromInt32(code)],
                log := s.log.(codeWritten := true)))
      else None
    case CReportMessage(rest) =>
      if e.PacketWritten? && rest != [] && s.parentRead && |s.pipe| < cfg.slots then
        Some(s.(child := CReportMessage(rest[|FirstPacket(rest)|..]), pipe := s.pipe + [FirstPacket(rest)]))
      else None
    case _ => None
  }

  function Dies(s: State, e: ChildAct, event: ChildEvent): State {
    s.(child := CDead(event), childWrite := false, log := s.log.(interfered := s.log.interfered || e.Interference?))
  }

  function Reports(s: State, code: Int32, message: Message): State {
    s.(child := CReportCode(code, message), log := s.log.(report := Some((code, message))))
  }

  /** The child's events, and those that befall it. */
  function ChildStep(cfg: Config, s: State, e: ChildAct): Option<State> {
    var ending := Ending(cfg, s, e);
    if ending.Some? then Some(Dies(s, e, ending.value))
    else if SetupStep(cfg, s, e).Some? then SetupStep(cfg, s, e)
    else ReportStep(cfg, s, e)
  }

  function Step(cfg: Config, s: State, e: Event): Option<State> {
    match e
    case Parent(p) => ParentStep(cfg, s, p)
    case Child(c) => ChildStep(cfg, s, c)
  }

  /** The state after a sequence of events, if each of them was enabled. */
  function Run(cfg: Config, run: seq<Event>): Option<State> {
    if run == [] then Some(INITIAL)
    else
      var before := Run(cfg, run[..|run| - 1]);
      if before.None? then None else Step(cfg, before.value, run[|run| - 1])
  }
}
