/** What callers of ChildCloner::run() can rely on, over every interleaving of parent and child. */
module ChildStartTheorems {
  import opened Common
  import opened SubProcess
  import opened ChildStart
  import opened ChildStartInvariant

  /** No signal from elsewhere and no crash, no failing read() and no interrupted wait() in the parent. */
  ghost predicate Undisturbed(run: seq<Event>) {
    !Interfered(run) && Parent(ReadFails) !in run && Parent(WaitInterrupted) !in run
  }

  // ---------- Outcomes ----------

  /** What arrives of a text: as much as fits into one packet. */
  function Arriving(text: Message): Message {
    if |text| <= PIPE_BUF then text else text[..PIPE_BUF]
  }

  /** Error forwarding: if the child has decided to report an error, an undisturbed run() throws exactly that error,
      with the child dead and collected and the SubProc reset. The text arrives unchanged if and only if it is not
      empty and fits into one packet; a longer one is cut, an empty one is reported as missing. */
  lemma ErrorForwarded(cfg: Config, run: seq<Event>, s: State)
    requires cfg.Valid() && cfg.forward && Undisturbed(run) && Run(cfg, run) == Some(s)
    requires s.parent.PDone? && s.log.report.Some?
    ensures s.parent == PDone(Threw(ErrorOf(s.log.report.value.0, s.log.report.value.1)))
    ensures s.child.CReaped? && s.sub == EMPTY
    ensures var (code, message) := s.log.report.value;
            s.parent == PDone(Threw(ReadOutcome(code, message))) <==> 0 < |message| <= PIPE_BUF
    ensures var (code, message) := s.log.report.value;
            s.parent == PDone(Threw(
              if message == [] then MissingMessage
              else if code == 0 then RuntimeError(Arriving(message))
              else ApiError(code, Arriving(message))))
  {
    RunKeeps(cfg, run);
    LogIsCaused(cfg, run);
    var (code, message) := s.log.report.value;
    assert |FirstPacket(message)| <= PIPE_BUF;
    assert |message| <= PIPE_BUF ==> FirstPacket(message) == message;
  }

  /** Conversely run() throws an error in the name of the child only if the child reported it, and in any run, however
      disturbed, the two framing errors have only these causes. */
  lemma ThrownErrorsAreReported(cfg: Config, run: seq<Event>, s: State, p: Problem)
    requires cfg.Valid() && Run(cfg, run) == Some(s) && s.parent == PDone(Threw(p))
    ensures p != BadCode
    ensures p == MissingMessage ==> s.log.report.Some? && (s.log.report.value.1 == [] || Interfered(run))
    ensures p.RuntimeError? || p.ApiError? ==>
              s.log.report.Some? && p == ErrorOf(s.log.report.value.0, s.log.report.value.1)
    ensures p.RuntimeError? ==>
              var (code, message) := s.log.report.value; code == 0 && message != [] && p.message == Arriving(message)
    ensures p.ApiError? ==>
              var (code, message) := s.log.report.value;
              p.code == code != 0 && message != [] && p.message == Arriving(message)
    ensures !s.child.CNone? && p != WaitError ==> s.child.CReaped? && s.sub == EMPTY
    ensures p == WaitError ==> Parent(WaitInterrupted) in run && s.sub == EMPTY && !s.log.signalled
  {
    RunKeeps(cfg, run);
    LogIsCaused(cfg, run);
  }

  /** With forwarding, run() returns a SubProc only after the child's write end was closed with nothing written: the
      new program runs, or the child is gone without having reported anything. */
  lemma ReturnsAfterCleanEnd(cfg: Config, run: seq<Event>, s: State)
    requires cfg.Valid() && cfg.forward && Run(cfg, run) == Some(s) && s.parent == PDone(Returned)
    ensures !s.childWrite && !s.log.codeWritten
    ensures s.child.CProgram? || s.child.CDead?
    ensures s.log.report.Some? ==> Interfered(run)
    ensures s.sub == Handle(cfg.pid, cfg.pidfd)
  {
    RunKeeps(cfg, run);
    LogIsCaused(cfg, run);
  }

  /** The destructor's abort, exactly: run() entered its catch block, and there either wait() was interrupted or the
      child had dumped core, which wait() does not accept as an end. An undisturbed run that reports never aborts. */
  lemma AbortExactly(cfg: Config, run: seq<Event>, s: State)
    requires cfg.Valid() && Run(cfg, run) == Some(s) && s.parent.PDone?
    ensures s.parent == PDone(Aborted) <==> s.log.killed && (s.log.waitInterrupted || s.child == CReaped(Dumped))
    ensures s.parent == PDone(Aborted) ==> !Undisturbed(run)
  {
    RunKeeps(cfg, run);
    LogIsCaused(cfg, run);
  }

  /** run() is in its catch block and has sent the KILL. */
  const CATCHING := [Parent(ResourcesReady), Parent(Spawned), Parent(WriteEndClosed), Parent(ReadFails),
                     Parent(KillSent(true))]

  lemma ReachCatch(cfg: Config) returns (s: State)
    requires cfg.Valid() && cfg.argsOk && cfg.forward && !cfg.forkPath
    ensures Run(cfg, CATCHING) == Some(s) && s.parent == PWait(ReadError) && s.child.CStart? && s.sub.Running()
  {
    var run;
    run, s := Follow(cfg, [], INITIAL, Parent(ResourcesReady));
    run, s := Follow(cfg, run, s, Parent(Spawned));
    run, s := Follow(cfg, run, s, Parent(WriteEndClosed));
    run, s := Follow(cfg, run, s, Parent(ReadFails));
    run, s := Follow(cfg, run, s, Parent(KillSent(true)));
    assert run == CATCHING;
  }

  ghost predicate Aborts(cfg: Config, run: seq<Event>) {
    Run(cfg, run).Some? && Run(cfg, run).value.parent == PDone(Aborted)
  }

  /** One cause of the abort: wait() is interrupted. */
  lemma InterruptedWaitAborts(cfg: Config)
    requires cfg.Valid() && cfg.argsOk && cfg.forward && !cfg.forkPath
    ensures Aborts(cfg, CATCHING + [Parent(WaitInterrupted)])
  {
    var s := ReachCatch(cfg);
    var _, _ := Follow(cfg, CATCHING, s, Parent(WaitInterrupted));
  }

  /** The child dumps core before the KILL arrives. */
  const DUMPED := CATCHING + [Child(Interference(Dumped))]

  lemma ReachDump(cfg: Config) returns (s: State)
    requires cfg.Valid() && cfg.argsOk && cfg.forward && !cfg.forkPath
    ensures Run(cfg, DUMPED) == Some(s) && s.parent == PWait(ReadError) && s.child == CDead(Dumped) && s.sub.Running()
  {
    var t := ReachCatch(cfg);
    var run;
    run, s := Follow(cfg, CATCHING, t, Child(Interference(Dumped)));
  }

  /** This is the other one. */
  lemma CoreDumpAborts(cfg: Config)
    requires cfg.Valid() && cfg.argsOk && cfg.forward && !cfg.forkPath
    ensures Aborts(cfg, DUMPED + [Parent(Waited)])
  {
    var s := ReachDump(cfg);
    var _, _ := Follow(cfg, DUMPED, s, Parent(Waited));
  }

  // ---------- The gate on the fork path ----------

  /** Is this something the child does beyond the gate? */
  predicate BeyondGate(e: Event) {
    e.Child? && (e.c.ReadEndClosed? || e.c.PostForkDone? || e.c.PostForkExits? || e.c.PostForkFails? || e.c.ExecDone? ||
                 e.c.ExecFails?)
  }

  lemma {:induction false} PrefixRuns(cfg: Config, run: seq<Event>, i: nat)
    requires i <= |run| && Run(cfg, run).Some?
    ensures Run(cfg, run[..i]).Some?
    decreases |run|
  {
    if i == |run| {
      assert run[..i] == run;
    } else {
      PrefixRuns(cfg, run[..|run| - 1], i);
      assert run[..|run| - 1][..i] == run[..i];
    }
  }

  lemma StateBefore(cfg: Config, run: seq<Event>, i: nat) returns (s: State)
    requires cfg.Valid() && i < |run| && Run(cfg, run).Some?
    ensures Run(cfg, run[..i]) == Some(s) && Step(cfg, s, run[i]).Some? && Inv(cfg, s) && Caused(s.log, run[..i])
  {
    PrefixRuns(cfg, run, i + 1);
    assert run[..i + 1][..i] == run[..i];
    s := Run(cfg, run[..i]).value;
    RunKeeps(cfg, run[..i]);
    LogIsCaused(cfg, run[..i]);
  }

  lemma BeyondNeedsStart(cfg: Config, s: State, c: ChildAct)
    requires BeyondGate(Child(c)) && ChildStep(cfg, s, c).Some?
    ensures s.child.Started()
  {
  }

  lemma SignalNeedsPidFd(cfg: Config, s: State)
    requires ParentStep(cfg, s, Signalled).Some?
    ensures s.parent.PSignal?
  {
  }

  /** No child reaches postFork() or exec before the parent has opened its pidfd and then raised the gate. */
  lemma GateHolds(cfg: Config, run: seq<Event>, i: nat)
    requires cfg.Valid() && cfg.forkPath && Run(cfg, run).Some? && i < |run| && BeyondGate(run[i])
    ensures exists j, k :: 0 <= j < k < i && run[j] == Parent(PidFdOpened) && run[k] == Parent(Signalled)
  {
    var s := StateBefore(cfg, run, i);
    BeyondNeedsStart(cfg, s, run[i].c);
    var k :| 0 <= k < i && run[k] == Parent(Signalled);
    var t := StateBefore(cfg, run, k);
    SignalNeedsPidFd(cfg, t);
    var j :| 0 <= j < k && run[j] == Parent(PidFdOpened);
  }

  /** If opening the pidfd or raising the gate fails, no child gets past the gate, then or earlier; KILL is sent, and
      unless wait() is interrupted, the child is dead and collected before the exception leaves. */
  lemma FailedGateReaps(cfg: Config, run: seq<Event>, s: State)
    requires cfg.Valid() && Run(cfg, run) == Some(s) && !s.child.CNone?
    requires s.parent.PGateKill? || s.parent.PGateWait? || s.parent == PDone(Threw(SetupError)) ||
             s.parent == PDone(Threw(WaitError))
    ensures !s.child.Started() && forall i | 0 <= i < |run| :: !BeyondGate(run[i])
    ensures s.parent.PDone? ==> s.log.gateKilled
    ensures s.parent.PDone? && Parent(WaitInterrupted) !in run ==> s.child.CReaped? && s.parent == PDone(Threw(SetupError))
  {
    RunKeeps(cfg, run);
    LogIsCaused(cfg, run);
    assert cfg.forkPath && !s.log.signalled;
    forall i | 0 <= i < |run| ensures !BeyondGate(run[i]) {
      if BeyondGate(run[i]) {
        GateHolds(cfg, run, i);
        var k :| 0 <= k < i && run[k] == Parent(Signalled);
        StaysSignalled(cfg, run, k);
      }
    }
  }

  lemma {:induction false} StaysSignalled(cfg: Config, run: seq<Event>, k: nat)
    requires cfg.Valid() && Run(cfg, run).Some? && k < |run| && run[k] == Parent(Signalled)
    ensures Run(cfg, run).value.log.signalled
  {
    var before := run[..|run| - 1];
    var s := Run(cfg, before).value;
    if k < |before| {
      LogStep(cfg, s, run[|run| - 1]);
      StaysSignalled(cfg, before, k);
    } else {
      SignalIsLogged(cfg, s);
    }
  }

  lemma SignalIsLogged(cfg: Config, s: State)
    requires ParentStep(cfg, s, Signalled).Some?
    ensures ParentStep(cfg, s, Signalled).value.log.signalled
  {
    SignalNeedsPidFd(cfg, s);
  }
}
