/** The child start protocol comes to an end: every event brings run() closer to it, and the parent always has
    something to wait for - with one exception, which is reachable. */
module ChildStartProgress {
  import opened Common
  import opened SubProcess
  import opened ChildStart
  import opened ChildStartInvariant

  // ---------- A measure that drops on every event ----------

  function ParentRank(p: ParentPc): nat {
    match p
    case PStart => 9
    case PSpawn => 8
    case POpenPidFd => 7
    case PSignal => 6
    case PCloseWrite => 5
    case PReadCode => 4
    case PReadMessage(_) => 3
    case PGateKill => 2
    case PKill(_) => 2
    case PGateWait => 1
    case PWait(_) => 1
    case PDone(_) => 0
  }

  function ChildRank(c: ChildPc): nat {
    match c
    case CNone => 7
    case CGate => 6
    case CStart => 5
    case CPostFork => 4
    case CExec => 3
    case CReportCode(_, _) => 2
    case CReportMessage(_) => 1
    case CProgram => 1
    case CDead(_) => 0
    case CReaped(_) => 0
  }

  function Rank(s: State): nat {
    ParentRank(s.parent) + ChildRank(s.child)
  }

  /** Packets the child has still to write. */
  function PacketsLeft(c: ChildPc): nat {
    match c
    case CReportCode(_, message) => |Chunks(message)|
    case CReportMessage(rest) => |Chunks(rest)|
    case _ => 0
  }

  /** Packets of the message the child has decided to send. */
  function PacketsOf(log: Log): nat {
    if log.report.Some? then |Chunks(log.report.value.1)| else 0
  }

  /** Does `next` come closer to the end than `s`? */
  predicate Closer(s: State, next: State) {
    Rank(next) + PacketsLeft(next.child) + PacketsOf(s.log) < Rank(s) + PacketsLeft(s.child) + PacketsOf(next.log)
  }

  /** A step of the parent: closer, and the message is not touched. */
  predicate Calm(s: State, next: State) {
    && Rank(next) < Rank(s) && next.log.report == s.log.report
    && (next.child == s.child || (!Reporting(next.child) && !Reporting(s.child)))
  }

  lemma SpawnDrops(cfg: Config, s: State, e: ParentEvent)
    requires s.child.CNone? && SpawnStep(cfg, s, e).Some?
    ensures Calm(s, SpawnStep(cfg, s, e).value)
  {
  }

  lemma GateDrops(cfg: Config, s: State, e: ParentEvent)
    requires Opening(s.parent) && GateStep(cfg, s, e).Some?
    ensures Calm(s, GateStep(cfg, s, e).value)
  {
    match s.parent
    case POpenPidFd =>
    case PSignal =>
    case PGateKill =>
    case PGateWait =>
  }

  lemma ReadDrops(s: State, e: ParentEvent)
    requires Reading(s.parent) && ReadStep(s, e).Some?
    ensures Calm(s, ReadStep(s, e).value)
  {
    match s.parent
    case PCloseWrite =>
    case PReadCode =>
    case PReadMessage(_) =>
  }

  lemma CleanupDrops(s: State, e: ParentEvent)
    requires CleanupStep(s, e).Some?
    ensures Calm(s, CleanupStep(s, e).value)
  {
    match s.parent
    case PKill(_) =>
    case PWait(_) => WaitDrops(s, e);
  }

  lemma WaitDrops(s: State, e: ParentEvent)
    requires s.parent.PWait? && CleanupStep(s, e).Some?
    ensures Calm(s, CleanupStep(s, e).value)
  {
    if e.Waited? {
    } else {
    }
  }

  lemma DeathDrops(cfg: Config, s: State, e: ChildAct)
    requires Ending(cfg, s, e).Some?
    ensures Closer(s, Dies(s, e, Ending(cfg, s, e).value))
  {
  }

  lemma SetupDrops(cfg: Config, s: State, e: ChildAct)
    requires SetupStep(cfg, s, e).Some?
    ensures Calm(s, SetupStep(cfg, s, e).value)
  {
  }

  lemma ReportDrops(cfg: Config, s: State, e: ChildAct)
    requires ChildInv(cfg, s) && ReportStep(cfg, s, e).Some?
    ensures Closer(s, ReportStep(cfg, s, e).value)
  {
    match s.child
    case CPostFork =>
    case CExec =>
    case CReportCode(_, _) =>
    case CReportMessage(rest) =>
      assert Chunks(rest) == [FirstPacket(rest)] + Chunks(rest[|FirstPacket(rest)|..]);
  }

  lemma StepDrops(cfg: Config, s: State, e: Event)
    requires Inv(cfg, s) && Step(cfg, s, e).Some?
    ensures Closer(s, Step(cfg, s, e).value)
  {
    match e
    case Parent(p) =>
      if Spawning(s.parent) {
        SpawnDrops(cfg, s, p);
      } else if Opening(s.parent) {
        GateDrops(cfg, s, p);
      } else if Reading(s.parent) {
        ReadDrops(s, p);
      } else {
        CleanupDrops(s, p);
      }
    case Child(c) =>
      if Ending(cfg, s, c).Some? {
        DeathDrops(cfg, s, c);
      } else if SetupStep(cfg, s, c).Some? {
        SetupDrops(cfg, s, c);
      } else {
        ReportDrops(cfg, s, c);
      }
  }

  /** Every run is finite: at most 16 events, and one more for each packet of the child's message. */
  lemma {:induction false} RunIsBounded(cfg: Config, run: seq<Event>)
    requires cfg.Valid() && Run(cfg, run).Some?
    ensures var s := Run(cfg, run).value;
            |run| + Rank(s) + PacketsLeft(s.child) <= 16 + PacketsOf(s.log)
  {
    if run != [] {
      var before, last := run[..|run| - 1], run[|run| - 1];
      RunIsBounded(cfg, before);
      RunKeeps(cfg, before);
      StepDrops(cfg, Run(cfg, before).value, last);
    }
  }

  // ---------- Nobody waits in vain ----------

  /** Events that need no misfortune: the environment may withhold all others. */
  predicate Voluntary(e: Event) {
    match e
    case Parent(p) =>
      !(p.ResourcesFail? || p.SpawnFails? || p.PidFdFails? || p.SignalFails? || p.ReadFails? || p.WaitInterrupted? ||
        p == GateKill(false) || p == KillSent(false))
    case Child(c) => !(c.GateFails? || c.PostForkFails? || c.ExecFails? || c.Interference?)
  }

  /** The parent waits for a child that waits at a gate nobody will open, and no signal is on its way. */
  predicate Deadlocked(s: State) {
    s.parent.PGateWait? && s.child.CGate? && !s.killPending
  }

  /** An event that is enabled: the parent's next system call, or what it waits for. */
  function NextEvent(cfg: Config, s: State): Event {
    match s.parent
    case PStart => Parent(if cfg.argsOk then ResourcesReady else ArgsRejected)
    case PSpawn => Parent(Spawned)
    case POpenPidFd => Parent(PidFdOpened)
    case PSignal => Parent(Signalled)
    case PGateKill => Parent(GateKill(true))
    case PCloseWrite => Parent(WriteEndClosed)
    case PKill(_) => Parent(KillSent(true))
    case PReadCode =>
      if s.pipe != [] then Parent(CodeRead) else if !s.childWrite then Parent(CodeEof) else Child(NextAct(s))
    case PReadMessage(_) =>
      if s.pipe != [] then Parent(MessageRead) else if !s.childWrite then Parent(MessageEof) else Child(NextAct(s))
    case PGateWait => if s.child.CDead? then Parent(GateWaited) else Child(KillTakesEffect)
    case PWait(_) => if s.child.CDead? then Parent(Waited) else Child(NextAct(s))
    case PDone(_) => Child(NextAct(s))
  }

  function NextAct(s: State): ChildAct {
    match s.child
    case CGate => GatePassed
    case CStart => ReadEndClosed
    case CPostFork => PostForkDone
    case CExec => ExecDone
    case CReportCode(_, _) => if s.parentRead then CodeWritten else BrokenPipe
    case CReportMessage(rest) =>
      if rest == [] then ReportDone else if s.parentRead then PacketWritten else BrokenPipe
    case CProgram => ProgramEnds(Exited)
    case _ => KillTakesEffect
  }

  lemma NextActEnabled(cfg: Config, s: State)
    requires cfg.Valid() && s.child.Live() && (s.child.CGate? ==> s.gate > 0) && (s.parentRead ==> s.pipe == [])
    ensures ChildStep(cfg, s, NextAct(s)).Some?
  {
    match s.child
    case CGate => case CStart => case CPostFork => case CExec => case CReportCode(_, _) => case CReportMessage(_) =>
    case CProgram =>
  }

  lemma NextParentEnabled(cfg: Config, s: State)
    requires cfg.Valid() && Inv(cfg, s) && NextEvent(cfg, s).Parent?
    ensures ParentStep(cfg, s, NextEvent(cfg, s).p).Some?
  {
    match s.parent
    case PStart => case PSpawn =>
    case POpenPidFd => case PSignal => case PGateKill => case PGateWait =>
    case PCloseWrite => case PReadCode => case PReadMessage(_) =>
    case PKill(_) => case PWait(_) =>
  }

  /** Until run() is over, some voluntary event is enabled - unless the parent waits for a gated child whose KILL
      failed; in that state none is. */
  lemma StuckExactly(cfg: Config, run: seq<Event>, s: State)
    requires cfg.Valid() && Run(cfg, run) == Some(s) && !s.parent.PDone?
    ensures (forall e: Event | Voluntary(e) :: Step(cfg, s, e).None?) <==> Deadlocked(s)
    ensures Deadlocked(s) ==> s.log.gateKillFailed
  {
    RunKeeps(cfg, run);
    if Deadlocked(s) {
      forall e: Event | Voluntary(e) ensures Step(cfg, s, e).None? {
        NothingMoves(cfg, s, e);
      }
    } else {
      SomethingMoves(cfg, s);
    }
  }

  lemma SomethingMoves(cfg: Config, s: State)
    requires cfg.Valid() && Inv(cfg, s) && !s.parent.PDone? && !Deadlocked(s)
    ensures Voluntary(NextEvent(cfg, s)) && Step(cfg, s, NextEvent(cfg, s)).Some?
  {
    if NextEvent(cfg, s).Parent? {
      NextParentEnabled(cfg, s);
    } else if s.parent.PGateWait? {
      assert s.killPending && s.child.Live();
    } else {
      NextActEnabled(cfg, s);
    }
  }

  lemma NothingMoves(cfg: Config, s: State, e: Event)
    requires Deadlocked(s) && s.gate == 0 && Voluntary(e)
    ensures Step(cfg, s, e).None?
  {
  }

  /** The deadlock happens: pidfd_open() fails and so does the KILL that follows. */
  lemma DeadlockReachable(cfg: Config)
    requires cfg.Valid() && cfg.forkPath && cfg.argsOk
    ensures var run := [Parent(ResourcesReady), Parent(Spawned), Parent(PidFdFails), Parent(GateKill(false))];
            Run(cfg, run).Some? && Deadlocked(Run(cfg, run).value)
  {
    var run, t := [], INITIAL;
    run, t := Follow(cfg, run, t, Parent(ResourcesReady));
    run, t := Follow(cfg, run, t, Parent(Spawned));
    run, t := Follow(cfg, run, t, Parent(PidFdFails));
    run, t := Follow(cfg, run, t, Parent(GateKill(false)));
    assert run == [Parent(ResourcesReady), Parent(Spawned), Parent(PidFdFails), Parent(GateKill(false))];
  }
}
