/** What every run of the child start protocol keeps. */
module ChildStartInvariant {
  import opened Common
  import opened Bytes
  import opened SubProcess
  import opened ChildStart

  /** How a packet pipe cuts one write() of the message. */
  function Chunks(m: Message): seq<Packet> {
    if m == [] then [] else [FirstPacket(m)] + Chunks(m[|FirstPacket(m)|..])
  }

  /** Everything the child writes for one report. */
  function Script(code: Int32, m: Message): seq<Packet> {
    [FromInt32(code)] + Chunks(m)
  }

  /** What run() has to throw for an error reported as (code, m). */
  function ErrorOf(code: Int32, m: Message): Problem {
    if m == [] then MissingMessage else ReadOutcome(code, FirstPacket(m))
  }

  predicate Reporting(child: ChildPc) { child.CReportCode? || child.CReportMessage? }

  // ---------- The invariant: what always holds, and what holds in each phase of the parent ----------

  /** The gate on the fork path opens only after the pidfd was opened and the counter raised. */
  predicate GateInv(cfg: Config, s: State) {
    && (s.gate > 0 || s.log.passed ==> s.log.signalled)
    && (s.log.signalled ==> s.log.gotPidFd)
    && (cfg.forkPath && s.child.Started() ==> s.log.passed)
    && (cfg.forkPath && s.log.report.Some? ==> s.log.passed)
  }

  predicate ChildInv(cfg: Config, s: State) {
    && (s.child.CGate? ==> cfg.forkPath)
    && (Reporting(s.child) ==> cfg.forward)
    && s.childWrite == (cfg.forward && s.child.Live() && !s.child.CProgram?)
    && (s.log.report.Some? ==> Reporting(s.child) || s.child.CDead? || s.child.CReaped?)
    && (s.child.CDead? || s.child.CReaped? ==> Terminal(s.child.event))
    && (s.child == CReaped(Dumped) || s.child == CDead(Dumped) ==> s.log.interfered || s.log.report.None?)
  }

  predicate SpawningInv(cfg: Config, s: State) {
    && s.child.CNone? && s.sub == EMPTY && s.gate == 0 && s.pipe == [] && !s.killPending && s.log == NOTHING
    && s.parentWrite == s.parentRead == (cfg.forward && s.parent.PSpawn?)
  }

  predicate OpeningInv(cfg: Config, s: State) {
    && cfg.forkPath && s.sub == EMPTY && s.gate == 0 && s.pipe == [] && (s.child.CGate? || s.child.CDead?)
    && s.parentWrite == s.parentRead == cfg.forward
    && !s.log.signalled && !s.log.codeWritten && !s.log.killed && !s.log.waitInterrupted && !s.log.readFailed
    && s.log.report.None?
    && (s.parent.PSignal? ==> s.log.gotPidFd)
    && (s.log.gateKilled <==> s.parent.PGateWait?)
    && (s.killPending ==> s.parent.PGateWait?)
    && (s.parent.PGateWait? && s.child.Live() && !s.killPending ==> s.log.gateKillFailed)
  }

  /** The parent holds the handle on a child that it has not collected. */
  predicate HandleInv(cfg: Config, s: State) {
    && cfg.forward && s.sub == Handle(cfg.pid, cfg.pidfd) && !s.child.CNone? && !s.child.CReaped?
    && (s.child.CGate? ==> s.gate > 0)
    && !s.log.gateKilled && !s.log.waitInterrupted
  }

  /** What the parent has seen, or will see, of the stream so far: the code it has read and the packets in the pipe. */
  function Seen(s: State): seq<Packet> {
    if s.parent.PReadMessage? then [FromInt32(s.parent.code)] + s.pipe else s.pipe
  }

  /** While the parent is reading, it sees exactly what the child writes. */
  predicate ReadingInv(cfg: Config, s: State) {
    && HandleInv(cfg, s) && s.parentRead && (s.parent.PCloseWrite? || !s.parentWrite)
    && !s.killPending && !s.log.killed && !s.log.readFailed
    && StreamInv(s)
  }

  predicate StreamInv(s: State) {
    match s.log.report
    case None => Seen(s) == [] && !Reporting(s.child) && !s.log.codeWritten
    case Some((code, m)) =>
      && (s.parent.PReadMessage? ==> s.parent.code == code)
      && (Seen(s) != [] <==> s.log.codeWritten)
      && match s.child
         case CReportCode(c, rest) => c == code && rest == m && Seen(s) == []
         case CReportMessage(rest) => Seen(s) != [] && Seen(s) + Chunks(rest) == Script(code, m)
         case CDead(_) => if s.log.interfered then Seen(s) <= Script(code, m) else Seen(s) == Script(code, m)
         case _ => false
  }

  /** Why run() throws `p`. */
  predicate Explained(log: Log, p: Problem) {
    match p
    case ReadError => log.readFailed
    case MissingMessage => log.report.Some? && (log.interfered || log.report.value.1 == [])
    case RuntimeError(_) => log.report.Some? && p == ErrorOf(log.report.value.0, log.report.value.1)
    case ApiError(_, _) => log.report.Some? && p == ErrorOf(log.report.value.0, log.report.value.1)
    case _ => false
  }

  predicate CleanupInv(cfg: Config, s: State, p: Problem) {
    && HandleInv(cfg, s) && !s.parentRead && Explained(s.log, p)
    && (s.log.killed <==> s.parent.PWait?)
    && (s.killPending ==> s.log.killed)
  }

  predicate DoneInv(cfg: Config, s: State, o: Outcome) {
    && (cfg.forward ==> !s.parentRead)
    && (s.log.waitInterrupted ==> s.log.gateKilled || s.log.killed)
    && (s.log.killed ==> cfg.forward && !s.log.gateKilled)
    && (s.log.killed || s.log.gateKilled ==> cfg.argsOk && !s.child.CNone?)
    && (s.log.gateKilled ==>
          && cfg.forkPath && !s.log.signalled && s.log.report.None? && s.sub == EMPTY
          && o == Threw(if s.log.waitInterrupted then WaitError else SetupError)
          && (!s.log.waitInterrupted ==> s.child.CReaped?))
    && (s.log.killed ==>
          && (o.Aborted? <==> s.log.waitInterrupted || s.child == CReaped(Dumped))
          && (o.Threw? ==> Explained(s.log, o.problem))
          && (s.log.readFailed || s.log.report.Some?)
          && (s.child.CReaped? <==> !s.log.waitInterrupted)
          && (s.sub == EMPTY <==> o.Threw?)
          && !o.Returned?)
    && (!s.log.gateKilled && !s.log.killed ==>
          if o.Returned? then ReturnedInv(cfg, s)
          else s.child.CNone? && s.sub == EMPTY && o == Threw(if cfg.argsOk then SetupError else UsageError))
  }

  /** run() has returned a SubProc. */
  predicate ReturnedInv(cfg: Config, s: State) {
    && s.sub == Handle(cfg.pid, cfg.pidfd) && !s.child.CReaped? && !s.child.CNone? && cfg.argsOk
    && (s.child.CGate? ==> s.gate > 0)
    && (cfg.forward ==>
          && !s.log.codeWritten && !s.childWrite && (s.child.CProgram? || s.child.CDead?)
          && (s.log.report.Some? ==> s.log.interfered))
  }

  predicate PhaseInv(cfg: Config, s: State) {
    if Spawning(s.parent) then SpawningInv(cfg, s) && (s.parent.PSpawn? ==> cfg.argsOk)
    else if Opening(s.parent) then cfg.argsOk && OpeningInv(cfg, s)
    else if Reading(s.parent) then cfg.argsOk && ReadingInv(cfg, s)
    else if Cleanup(s.parent) then cfg.argsOk && CleanupInv(cfg, s, s.parent.problem)
    else DoneInv(cfg, s, s.parent.outcome)
  }

  predicate Inv(cfg: Config, s: State) {
    GateInv(cfg, s) && ChildInv(cfg, s) && PhaseInv(cfg, s)
  }

  /** The packets of a report, one by one. */
  lemma ScriptPackets(code: Int32, m: Message)
    ensures Script(code, m)[0] == FromInt32(code) && |Script(code, m)[0]| == INT32_SIZE
    ensures ToInt32(Script(code, m)[0]) == code
    ensures |Script(code, m)| == 1 <==> m == []
    ensures |Script(code, m)| > 1 ==> Script(code, m)[1] == FirstPacket(m)
  {
    Int32RoundTrip(code);
  }

  lemma SpawnStepKeeps(cfg: Config, s: State, e: ParentEvent)
    requires cfg.Valid() && Inv(cfg, s) && Spawning(s.parent) && SpawnStep(cfg, s, e).Some?
    ensures Inv(cfg, SpawnStep(cfg, s, e).value)
  {
  }

  lemma PidFdStepKeeps(cfg: Config, s: State, e: ParentEvent)
    requires cfg.Valid() && Inv(cfg, s) && (s.parent.POpenPidFd? || s.parent.PSignal?) && GateStep(cfg, s, e).Some?
    ensures Inv(cfg, GateStep(cfg, s, e).value)
  {
    match s.parent
    case POpenPidFd =>
    case PSignal =>
  }

  lemma GateKillStepKeeps(cfg: Config, s: State, e: ParentEvent)
    requires cfg.Valid() && Inv(cfg, s) && (s.parent.PGateKill? || s.parent.PGateWait?) && GateStep(cfg, s, e).Some?
    ensures Inv(cfg, GateStep(cfg, s, e).value)
  {
    match s.parent
    case PGateKill =>
    case PGateWait =>
  }

  lemma CloseWriteKeeps(cfg: Config, s: State, e: ParentEvent)
    requires cfg.Valid() && Inv(cfg, s) && s.parent.PCloseWrite? && ReadStep(s, e).Some?
    ensures Inv(cfg, ReadStep(s, e).value)
  {
  }

  lemma CodeReadKeeps(cfg: Config, s: State)
    requires cfg.Valid() && Inv(cfg, s) && s.parent.PReadCode? && s.pipe != []
    ensures Inv(cfg, ReadStep(s, CodeRead).value)
  {
    assert s.log.report.Some?;
    var (code, m) := s.log.report.value;
    ScriptPackets(code, m);
    assert s.pipe[0] == FromInt32(code);
    assert [FromInt32(code)] + s.pipe[1..] == s.pipe;
  }

  lemma CodeEofKeeps(cfg: Config, s: State)
    requires cfg.Valid() && Inv(cfg, s) && s.parent.PReadCode? && ReadStep(s, CodeEof).Some?
    ensures Inv(cfg, ReadStep(s, CodeEof).value)
  {
    assert Seen(s) == [];
  }

  lemma ReadFailsKeeps(cfg: Config, s: State)
    requires cfg.Valid() && Inv(cfg, s) && (s.parent.PReadCode? || s.parent.PReadMessage?)
    ensures Inv(cfg, FailsRead(s, ReadError))
  {
  }

  lemma CodeStepKeeps(cfg: Config, s: State, e: ParentEvent)
    requires cfg.Valid() && Inv(cfg, s) && s.parent.PReadCode? && ReadStep(s, e).Some?
    ensures Inv(cfg, ReadStep(s, e).value)
  {
    if e.CodeRead? {
      CodeReadKeeps(cfg, s);
    } else if e.CodeEof? {
      CodeEofKeeps(cfg, s);
    } else {
      ReadFailsKeeps(cfg, s);
    }
  }

  lemma MessageReadKeeps(cfg: Config, s: State)
    requires cfg.Valid() && Inv(cfg, s) && s.parent.PReadMessage? && s.pipe != []
    ensures Inv(cfg, ReadStep(s, MessageRead).value)
  {
    var (code, m) := s.log.report.value;
    ScriptPackets(code, m);
    assert Seen(s)[1] == s.pipe[0] == FirstPacket(m);
  }

  lemma MessageEofKeeps(cfg: Config, s: State)
    requires cfg.Valid() && Inv(cfg, s) && s.parent.PReadMessage? && ReadStep(s, MessageEof).Some?
    ensures Inv(cfg, ReadStep(s, MessageEof).value)
  {
    var (code, m) := s.log.report.value;
    ScriptPackets(code, m);
    assert |Seen(s)| == 1;
  }

  lemma MessageStepKeeps(cfg: Config, s: State, e: ParentEvent)
    requires cfg.Valid() && Inv(cfg, s) && s.parent.PReadMessage? && ReadStep(s, e).Some?
    ensures Inv(cfg, ReadStep(s, e).value)
  {
    if e.MessageRead? {
      MessageReadKeeps(cfg, s);
    } else if e.MessageEof? {
      MessageEofKeeps(cfg, s);
    } else {
      ReadFailsKeeps(cfg, s);
    }
  }

  lemma KillStepKeeps(cfg: Config, s: State, e: ParentEvent)
    requires cfg.Valid() && Inv(cfg, s) && s.parent.PKill? && CleanupStep(s, e).Some?
    ensures Inv(cfg, CleanupStep(s, e).value)
  {
  }

  lemma WaitedKeeps(cfg: Config, s: State)
    requires cfg.Valid() && Inv(cfg, s) && s.parent.PWait? && CleanupStep(s, Waited).Some?
    ensures Inv(cfg, CleanupStep(s, Waited).value)
  {
  }

  lemma WaitInterruptedKeeps(cfg: Config, s: State)
    requires cfg.Valid() && Inv(cfg, s) && s.parent.PWait?
    ensures Inv(cfg, CleanupStep(s, WaitInterrupted).value)
  {
  }

  lemma WaitStepKeeps(cfg: Config, s: State, e: ParentEvent)
    requires cfg.Valid() && Inv(cfg, s) && s.parent.PWait? && CleanupStep(s, e).Some?
    ensures Inv(cfg, CleanupStep(s, e).value)
  {
    if e.Waited? {
      WaitedKeeps(cfg, s);
    } else {
      WaitInterruptedKeeps(cfg, s);
    }
  }

  lemma DeathKeeps(cfg: Config, s: State, e: ChildAct)
    requires Inv(cfg, s) && Ending(cfg, s, e).Some?
    ensures Inv(cfg, Dies(s, e, Ending(cfg, s, e).value))
  {
  }

  lemma GatePassedKeeps(cfg: Config, s: State)
    requires Inv(cfg, s) && s.child.CGate? && s.gate > 0
    ensures Inv(cfg, SetupStep(cfg, s, GatePassed).value)
  {
  }

  lemma ReadEndClosedKeeps(cfg: Config, s: State)
    requires Inv(cfg, s) && s.child.CStart?
    ensures Inv(cfg, SetupStep(cfg, s, ReadEndClosed).value)
  {
  }

  lemma PostForkDoneKeeps(cfg: Config, s: State)
    requires Inv(cfg, s) && s.child.CPostFork? && !cfg.noExe
    ensures Inv(cfg, SetupStep(cfg, s, PostForkDone).value)
  {
  }

  lemma ExecDoneKeeps(cfg: Config, s: State)
    requires Inv(cfg, s) && s.child.CExec?
    ensures Inv(cfg, SetupStep(cfg, s, ExecDone).value)
  {
  }

  lemma SetupStepKeeps(cfg: Config, s: State, e: ChildAct)
    requires Inv(cfg, s) && SetupStep(cfg, s, e).Some?
    ensures Inv(cfg, SetupStep(cfg, s, e).value)
  {
    match s.child
    case CGate => GatePassedKeeps(cfg, s);
    case CStart => ReadEndClosedKeeps(cfg, s);
    case CPostFork => PostForkDoneKeeps(cfg, s);
    case CExec => ExecDoneKeeps(cfg, s);
  }

  lemma ReportBeginKeeps(cfg: Config, s: State, e: ChildAct)
    requires Inv(cfg, s) && !Reporting(s.child) && ReportStep(cfg, s, e).Some?
    ensures Inv(cfg, ReportStep(cfg, s, e).value)
  {
  }

  lemma PacketKeeps(cfg: Config, s: State, e: ChildAct)
    requires Inv(cfg, s) && Reporting(s.child) && ReportStep(cfg, s, e).Some?
    ensures Inv(cfg, ReportStep(cfg, s, e).value)
  {
    match s.child
    case CReportCode(_, _) =>
    case CReportMessage(rest) =>
      var p := FirstPacket(rest);
      assert Chunks(rest) == [p] + Chunks(rest[|p|..]);
      assert Seen(s) + [p] + Chunks(rest[|p|..]) == Seen(s) + Chunks(rest);
  }

  lemma StepKeeps(cfg: Config, s: State, e: Event)
    requires cfg.Valid() && Inv(cfg, s) && Step(cfg, s, e).Some?
    ensures Inv(cfg, Step(cfg, s, e).value)
  {
    match e
    case Parent(p) =>
      if Spawning(s.parent) {
        SpawnStepKeeps(cfg, s, p);
      } else if Opening(s.parent) {
        if s.parent.POpenPidFd? || s.parent.PSignal? {
          PidFdStepKeeps(cfg, s, p);
        } else {
          GateKillStepKeeps(cfg, s, p);
        }
      } else if Reading(s.parent) {
        match s.parent
        case PCloseWrite => CloseWriteKeeps(cfg, s, p);
        case PReadCode => CodeStepKeeps(cfg, s, p);
        case PReadMessage(_) => MessageStepKeeps(cfg, s, p);
      } else if s.parent.PKill? {
        KillStepKeeps(cfg, s, p);
      } else {
        WaitStepKeeps(cfg, s, p);
      }
    case Child(c) =>
      if Ending(cfg, s, c).Some? {
        DeathKeeps(cfg, s, c);
      } else if SetupStep(cfg, s, c).Some? {
        SetupStepKeeps(cfg, s, c);
      } else if Reporting(s.child) {
        PacketKeeps(cfg, s, c);
      } else {
        ReportBeginKeeps(cfg, s, c);
      }
  }

  lemma {:induction false} RunKeeps(cfg: Config, run: seq<Event>)
    requires cfg.Valid() && Run(cfg, run).Some?
    ensures Inv(cfg, Run(cfg, run).value)
  {
    if run != [] {
      var before := run[..|run| - 1];
      RunKeeps(cfg, before);
      StepKeeps(cfg, Run(cfg, before).value, run[|run| - 1]);
    }
  }

  /** One more event of a concrete run. */
  lemma Follow(cfg: Config, run: seq<Event>, s: State, e: Event) returns (longer: seq<Event>, next: State)
    requires Run(cfg, run) == Some(s) && Step(cfg, s, e).Some?
    ensures longer == run + [e] && Run(cfg, longer) == Step(cfg, s, e) == Some(next)
  {
    longer := run + [e];
    assert longer[..|run|] == run;
    next := Step(cfg, s, e).value;
  }

  // ---------- The log tells what is in the run ----------

  predicate IsInterference(e: Event) { e.Child? && e.c.Interference? }

  ghost predicate Interfered(run: seq<Event>) {
    exists i | 0 <= i < |run| :: IsInterference(run[i])
  }

  /** Nothing is in the log without its cause being in the run. */
  ghost predicate Caused(log: Log, run: seq<Event>) {
    && (log.gotPidFd ==> Parent(PidFdOpened) in run)
    && (log.signalled ==> Parent(Signalled) in run)
    && (log.readFailed ==> Parent(ReadFails) in run)
    && (log.waitInterrupted ==> Parent(WaitInterrupted) in run)
    && (log.interfered ==> Interfered(run))
  }

  lemma SpawnLog(cfg: Config, s: State, e: ParentEvent)
    requires SpawnStep(cfg, s, e).Some?
    ensures SpawnStep(cfg, s, e).value.log == s.log
  {
  }

  lemma GateLog(cfg: Config, s: State, e: ParentEvent)
    requires Opening(s.parent) && GateStep(cfg, s, e).Some?
    ensures var log := GateStep(cfg, s, e).value.log;
            && (log.gotPidFd == s.log.gotPidFd || e.PidFdOpened?)
            && (if e.Signalled? then log.signalled else log.signalled == s.log.signalled)
            && (log.waitInterrupted == s.log.waitInterrupted || e.WaitInterrupted?)
            && log.readFailed == s.log.readFailed && log.interfered == s.log.interfered
  {
    match s.parent
    case POpenPidFd =>
    case PSignal =>
    case PGateKill =>
    case PGateWait =>
  }

  lemma ReadLog(s: State, e: ParentEvent)
    requires Reading(s.parent) && ReadStep(s, e).Some?
    ensures ReadStep(s, e).value.log == s.log || (e.ReadFails? && ReadStep(s, e).value.log == s.log.(readFailed := true))
  {
    match s.parent
    case PCloseWrite =>
    case PReadCode => CodeLog(s, e);
    case PReadMessage(_) => MessageLog(s, e);
  }

  lemma CodeReadLog(s: State)
    requires s.parent.PReadCode? && s.pipe != []
    ensures ReadStep(s, CodeRead).value.log == s.log
  {
  }

  lemma CodeLog(s: State, e: ParentEvent)
    requires s.parent.PReadCode? && ReadStep(s, e).Some?
    ensures ReadStep(s, e).value.log == s.log || (e.ReadFails? && ReadStep(s, e).value.log == s.log.(readFailed := true))
  {
    if e.CodeRead? {
      CodeReadLog(s);
    } else if e.CodeEof? {
      assert ReadStep(s, CodeEof).value.log == s.log;
    } else {
      assert ReadStep(s, ReadFails) == Some(FailsRead(s, ReadError));
    }
  }

  lemma MessageReadLog(s: State)
    requires s.parent.PReadMessage? && s.pipe != []
    ensures ReadStep(s, MessageRead).value.log == s.log
  {
    assert !ReadOutcome(s.parent.code, s.pipe[0]).ReadError?;
  }

  lemma MessageEofLog(s: State)
    requires s.parent.PReadMessage? && ReadStep(s, MessageEof).Some?
    ensures ReadStep(s, MessageEof).value.log == s.log
  {
  }

  lemma MessageLog(s: State, e: ParentEvent)
    requires s.parent.PReadMessage? && ReadStep(s, e).Some?
    ensures ReadStep(s, e).value.log == s.log || (e.ReadFails? && ReadStep(s, e).value.log == s.log.(readFailed := true))
  {
    if e.MessageRead? {
      MessageReadLog(s);
    } else if e.MessageEof? {
      MessageEofLog(s);
    } else {
      assert ReadStep(s, ReadFails) == Some(FailsRead(s, ReadError));
    }
  }

  lemma CleanupLog(s: State, e: ParentEvent)
    requires CleanupStep(s, e).Some?
    ensures var log := CleanupStep(s, e).value.log;
            log == s.log.(killed := true) || log == s.log || (e.WaitInterrupted? && log == s.log.(waitInterrupted := true))
  {
  }

  lemma ChildLog(cfg: Config, s: State, e: ChildAct)
    requires ChildStep(cfg, s, e).Some?
    ensures var log := ChildStep(cfg, s, e).value.log;
            && (log.interfered == s.log.interfered || e.Interference?)
            && log.gotPidFd == s.log.gotPidFd && log.signalled == s.log.signalled
            && log.readFailed == s.log.readFailed && log.waitInterrupted == s.log.waitInterrupted
  {
    match e
    case GatePassed =>
    case GateFails =>
    case ReadEndClosed =>
    case PostForkDone =>
    case PostForkExits =>
    case PostForkFails(_) =>
    case ExecDone =>
    case ExecFails(_, _) =>
    case CodeWritten =>
    case PacketWritten =>
    case ReportDone =>
    case BrokenPipe =>
    case ProgramEnds(_) =>
    case KillTakesEffect =>
    case Interference(_) =>
  }

  lemma LogStep(cfg: Config, s: State, e: Event)
    requires Step(cfg, s, e).Some?
    ensures var log := Step(cfg, s, e).value.log;
            && (log.gotPidFd ==> s.log.gotPidFd || e == Parent(PidFdOpened))
            && (log.signalled ==> s.log.signalled || e == Parent(Signalled))
            && (s.log.signalled || (e == Parent(Signalled) && Opening(s.parent)) ==> log.signalled)
            && (log.readFailed ==> s.log.readFailed || e == Parent(ReadFails))
            && (log.waitInterrupted ==> s.log.waitInterrupted || e == Parent(WaitInterrupted))
            && (log.interfered ==> s.log.interfered || IsInterference(e))
  {
    match e
    case Parent(p) =>
      if Spawning(s.parent) {
        SpawnLog(cfg, s, p);
      } else if Opening(s.parent) {
        GateLog(cfg, s, p);
      } else if Reading(s.parent) {
        ReadLog(s, p);
      } else {
        CleanupLog(s, p);
      }
    case Child(c) => ChildLog(cfg, s, c);
  }

  lemma {:induction false} LogIsCaused(cfg: Config, run: seq<Event>)
    requires Run(cfg, run).Some?
    ensures Caused(Run(cfg, run).value.log, run)
  {
    if run != [] {
      var before, last := run[..|run| - 1], run[|run| - 1];
      LogIsCaused(cfg, before);
      StillCaused(Run(cfg, before).value.log, before, last);
      LogStep(cfg, Run(cfg, before).value, last);
      assert run == before + [last];
    }
  }

  lemma StillCaused(log: Log, run: seq<Event>, e: Event)
    requires Caused(log, run)
    ensures Caused(log, run + [e])
    ensures IsInterference(e) ==> Interfered(run + [e])
  {
    if log.interfered {
      var i :| 0 <= i < |run| && IsInterference(run[i]);
      assert IsInterference((run + [e])[i]);
    }
    if IsInterference(e) {
      assert IsInterference((run + [e])[|run|]);
    }
  }
}
