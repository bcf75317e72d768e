/** Every report of the child comes through, in some run: the converse of what ChildStartTheorems says about all runs. */
module ChildStartReports {
  import opened Common
  import opened SubProcess
  import Bytes
  import opened ChildStart
  import opened ChildStartInvariant
  import opened ChildStartTheorems

  /** A program is started through clone3(), with error forwarding. */
  predicate Execs(cfg: Config) {
    cfg.Valid() && cfg.argsOk && cfg.forward && !cfg.forkPath && !cfg.noExe
  }

  /** An undisturbed run, and the state it leads to. */
  ghost predicate LeadsTo(cfg: Config, run: seq<Event>, s: State) {
    Undisturbed(run) && Run(cfg, run) == Some(s)
  }

  /** One more event of such a run. */
  lemma Next(cfg: Config, run: seq<Event>, s: State, e: Event) returns (longer: seq<Event>, next: State)
    requires LeadsTo(cfg, run, s) && Step(cfg, s, e).Some?
    requires !IsInterference(e) && e != Parent(ReadFails) && e != Parent(WaitInterrupted)
    ensures LeadsTo(cfg, longer, next) && Step(cfg, s, e) == Some(next)
  {
    longer, next := Follow(cfg, run, s, e);
  }

  lemma ReachExec(cfg: Config) returns (run: seq<Event>, s: State)
    requires Execs(cfg)
    ensures LeadsTo(cfg, run, s) && s.parent == PCloseWrite && s.child == CExec && s.pipe == []
    ensures s.parentRead && !s.killPending && s.sub == Handle(cfg.pid, cfg.pidfd)
  {
    run, s := Next(cfg, [], INITIAL, Parent(ResourcesReady));
    run, s := Next(cfg, run, s, Parent(Spawned));
    run, s := Next(cfg, run, s, Child(ReadEndClosed));
    run, s := Next(cfg, run, s, Child(PostForkDone));
  }

  /** exec() has failed and the error code is in the pipe. */
  lemma ReachCode(cfg: Config, code: Bytes.Int32, message: Message) returns (run: seq<Event>, s: State)
    requires Execs(cfg)
    ensures LeadsTo(cfg, run, s)
    ensures s.parent == PCloseWrite && s.child == CReportMessage(message) && s.log.report == Some((code, message))
    ensures s.pipe == [Bytes.FromInt32(code)]
    ensures s.parentRead && !s.killPending && s.sub == Handle(cfg.pid, cfg.pidfd)
  {
    run, s := ReachExec(cfg);
    run, s := Next(cfg, run, s, Child(ExecFails(code, message)));
    run, s := Next(cfg, run, s, Child(CodeWritten));
  }

  /** The parent has read the code. */
  lemma ReachMessage(cfg: Config, code: Bytes.Int32, message: Message) returns (run: seq<Event>, s: State)
    requires Execs(cfg)
    ensures LeadsTo(cfg, run, s)
    ensures s.parent == PReadMessage(code) && s.child == CReportMessage(message) && s.log.report == Some((code, message))
    ensures s.pipe == [] && s.parentRead && !s.parentWrite && !s.killPending && s.sub == Handle(cfg.pid, cfg.pidfd)
  {
    run, s := ReachCode(cfg, code, message);
    Bytes.Int32RoundTrip(code);
    run, s := Next(cfg, run, s, Parent(WriteEndClosed));
    run, s := Next(cfg, run, s, Parent(CodeRead));
  }

  /** The parent learns that there is no message ... */
  lemma ReachEof(cfg: Config, code: Bytes.Int32) returns (run: seq<Event>, s: State)
    requires Execs(cfg)
    ensures LeadsTo(cfg, run, s) && s.log.report == Some((code, []))
    ensures s.parent.PKill? && s.sub.Running() && s.child == CDead(Exited)
  {
    run, s := ReachMessage(cfg, code, []);
    run, s := Next(cfg, run, s, Child(ReportDone));
    run, s := Next(cfg, run, s, Parent(MessageEof));
  }

  /** ... or its first packet is in the pipe, ... */
  lemma ReachPacket(cfg: Config, code: Bytes.Int32, message: Message) returns (run: seq<Event>, s: State)
    requires Execs(cfg) && message != []
    ensures LeadsTo(cfg, run, s) && s.log.report == Some((code, message))
    ensures s.parent == PReadMessage(code) && s.child.CReportMessage? && s.pipe != [] && s.sub.Running()
  {
    run, s := ReachMessage(cfg, code, message);
    run, s := Next(cfg, run, s, Child(PacketWritten));
  }

  /** ... and the parent reads it. */
  lemma ReachRead(cfg: Config, code: Bytes.Int32, message: Message) returns (run: seq<Event>, s: State)
    requires Execs(cfg) && message != []
    ensures LeadsTo(cfg, run, s) && s.log.report == Some((code, message))
    ensures s.parent.PKill? && s.sub.Running() && s.child.CReportMessage?
  {
    run, s := ReachPacket(cfg, code, message);
    run, s := Next(cfg, run, s, Parent(MessageRead));
  }

  /** The KILL has been sent, and the child is dead. */
  lemma ReachWait(cfg: Config, code: Bytes.Int32, message: Message) returns (run: seq<Event>, s: State)
    requires Execs(cfg)
    ensures LeadsTo(cfg, run, s) && s.log.report == Some((code, message))
    ensures s.parent.PWait? && s.child.CDead? && s.child.event != Dumped && s.sub.Running()
  {
    if message == [] {
      run, s := ReachEof(cfg, code);
      run, s := Next(cfg, run, s, Parent(KillSent(true)));
    } else {
      run, s := ReachRead(cfg, code, message);
      run, s := Next(cfg, run, s, Parent(KillSent(true)));
      run, s := Next(cfg, run, s, Child(KillTakesEffect));
    }
  }

  /** For every error there is an undisturbed run in which the child reports it and run() throws what comes of it. */
  lemma EveryReportOccurs(cfg: Config, code: Bytes.Int32, message: Message) returns (run: seq<Event>, s: State)
    requires Execs(cfg)
    ensures LeadsTo(cfg, run, s) && s.log.report == Some((code, message))
    ensures s.parent == PDone(Threw(ErrorOf(code, message)))
  {
    run, s := ReachWait(cfg, code, message);
    run, s := Next(cfg, run, s, Parent(Waited));
    ErrorForwarded(cfg, run, s);
  }

  /** So an empty message is reported as missing ... */
  lemma EmptyMessageIsMissing(cfg: Config, code: Bytes.Int32) returns (run: seq<Event>, s: State)
    requires Execs(cfg)
    ensures LeadsTo(cfg, run, s) && s.log.report == Some((code, []))
    ensures s.parent == PDone(Threw(MissingMessage))
  {
    run, s := EveryReportOccurs(cfg, code, []);
  }

  /** ... and one of 4097 bytes, or more, arrives cut. */
  lemma LongMessageIsCut(cfg: Config, code: Bytes.Int32, message: Message) returns (run: seq<Event>, s: State)
    requires Execs(cfg)
    requires |message| > PIPE_BUF
    ensures LeadsTo(cfg, run, s) && s.log.report == Some((code, message))
    ensures s.parent == PDone(Threw(
              if code == 0 then RuntimeError(message[..PIPE_BUF]) else ApiError(code, message[..PIPE_BUF])))
  {
    run, s := EveryReportOccurs(cfg, code, message);
  }
}
