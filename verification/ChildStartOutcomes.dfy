/** What run() and the child decide before and besides error forwarding: which events make up the child's report, and how
    run() ends without one. */
module ChildStartOutcomes {
  import opened Common
  import opened SubProcess
  import Bytes
  import opened ChildStart
  import opened ChildStartInvariant
  import ChildStartProgress

  /** The event makes the child report (code, message): exec() has failed with this errno, or the setup has with an exception
      of another kind, which goes without errno. */
  predicate Decides(e: Event, code: Bytes.Int32, message: Message) {
    e == Child(ExecFails(code, message)) || (e == Child(PostForkFails(message)) && code == 0)
  }

  predicate Decisive(e: Event) {
    e.Child? && (e.c.ExecFails? || e.c.PostForkFails?)
  }

  lemma ParentKeepsReport(cfg: Config, s: State, e: ParentEvent)
    requires Inv(cfg, s) && ParentStep(cfg, s, e).Some?
    ensures ParentStep(cfg, s, e).value.log.report == s.log.report
  {
    if Spawning(s.parent) {
      ChildStartProgress.SpawnDrops(cfg, s, e);
    } else if Opening(s.parent) {
      ChildStartProgress.GateDrops(cfg, s, e);
    } else if Reading(s.parent) {
      ChildStartProgress.ReadDrops(s, e);
    } else {
      ChildStartProgress.CleanupDrops(s, e);
    }
  }

  /** Only a decisive event sets the report, and only if there is none yet. */
  lemma ChildReports(cfg: Config, s: State, e: ChildAct)
    requires cfg.forward && Inv(cfg, s) && ChildStep(cfg, s, e).Some?
    ensures var after := ChildStep(cfg, s, e).value.log.report;
            match e
            case ExecFails(code, message) => s.log.report == None && after == Some((code, message))
            case PostForkFails(message) => s.log.report == None && after == Some((0, message))
            case _ => after == s.log.report
  {
    if Ending(cfg, s, e).Some? {
    } else if SetupStep(cfg, s, e).Some? {
      ChildStartProgress.SetupDrops(cfg, s, e);
    } else {
      match s.child
      case CPostFork =>
      case CExec =>
      case CReportCode(_, _) =>
      case CReportMessage(_) =>
    }
  }

  lemma StepReports(cfg: Config, s: State, e: Event, code: Bytes.Int32, message: Message)
    requires cfg.forward && Inv(cfg, s) && Step(cfg, s, e).Some?
    ensures var after := Step(cfg, s, e).value.log.report;
            && (after == Some((code, message)) <==> s.log.report == Some((code, message)) || Decides(e, code, message))
            && (after == None <==> s.log.report == None && !Decisive(e))
            && (Decisive(e) ==> s.log.report == None)
  {
    match e
    case Parent(p) => ParentKeepsReport(cfg, s, p);
    case Child(c) => ChildReports(cfg, s, c);
  }

  ghost predicate Decided(run: seq<Event>, code: Bytes.Int32, message: Message) {
    exists i | 0 <= i < |run| :: Decides(run[i], code, message)
  }

  predicate Undecided(run: seq<Event>) {
    forall i | 0 <= i < |run| :: !Decisive(run[i])
  }

  lemma DecidedBy(run: seq<Event>, code: Bytes.Int32, message: Message)
    requires run != []
    ensures var before, last := run[..|run| - 1], run[|run| - 1];
            && (Decided(run, code, message) <==> Decided(before, code, message) || Decides(last, code, message))
            && (Undecided(run) <==> Undecided(before) && !Decisive(last))
  {
    var before := run[..|run| - 1];
    assert forall i | 0 <= i < |before| :: before[i] == run[i];
    if i :| 0 <= i < |run| && Decides(run[i], code, message) && i < |before| {
      assert Decides(before[i], code, message);
    }
    if i :| 0 <= i < |before| && Decides(before[i], code, message) {
      assert Decides(run[i], code, message);
    }
  }

  /** With forwarding, the report is (code, message) exactly if an event of the run has made it so, and there is none exactly if
      no decisive event has happened. */
  lemma {:induction false} ReportMeans(cfg: Config, run: seq<Event>, code: Bytes.Int32, message: Message)
    requires cfg.Valid() && cfg.forward && Run(cfg, run).Some?
    ensures Run(cfg, run).value.log.report == Some((code, message)) <==> Decided(run, code, message)
    ensures Run(cfg, run).value.log.report == None <==> Undecided(run)
  {
    if run != [] {
      var before := run[..|run| - 1];
      ReportMeans(cfg, before, code, message);
      RunKeeps(cfg, before);
      DecidedBy(run, code, message);
      StepReports(cfg, Run(cfg, before).value, run[|run| - 1], code, message);
    }
  }

  /** Unusable arguments are found before anything is done, and nothing else is a usage error. */
  lemma ArgumentsFirst(cfg: Config, run: seq<Event>, s: State)
    requires cfg.Valid() && Run(cfg, run) == Some(s) && s.parent.PDone?
    ensures !cfg.argsOk <==> s.parent == PDone(Threw(UsageError))
    ensures !cfg.argsOk ==> s.child.CNone? && s.sub == EMPTY
  {
    RunKeeps(cfg, run);
  }

  /** Without a child run() throws; with one, and without error forwarding, it returns the SubProc whatever the child does - unless
      the child was killed at its gate. */
  lemma WithoutForwarding(cfg: Config, run: seq<Event>, s: State)
    requires cfg.Valid() && Run(cfg, run) == Some(s) && s.parent.PDone?
    ensures s.child.CNone? ==> s.parent == PDone(Threw(if cfg.argsOk then SetupError else UsageError))
    ensures !cfg.forward && !s.child.CNone? ==>
              if s.log.gateKilled then s.parent.outcome.Threw?
              else s.parent == PDone(Returned) && s.sub == Handle(cfg.pid, cfg.pidfd)
  {
    RunKeeps(cfg, run);
  }
}
