/** The parent's handle on a child process (src/proc/SubProc.cxx): process ID and pidfd, collected by wait(). */
module SubProcess {
  import opened Descriptors

  /** What waitid() reports about a child (include/proc/types.hxx). */
  datatype ChildEvent = Exited | Killed | Dumped | Trapped | Stopped | Continued

  /** The child, as far as waitid() can see it. */
  datatype ChildProcess = Active | Zombie(event: ChildEvent) | Gone

  datatype WaitError = NoChild | OtherError
  datatype WaitAnswer = Changed(event: ChildEvent) | WaitFailed(error: WaitError)

  /** The value of a SubProc object. */
  datatype Handle = Handle(pid: int, fd: int) {
    predicate Running() { fd != INVALID }
  }

  const EMPTY := Handle(INVALID, INVALID)

  /** Does wait() give the handle up after this answer? */
  predicate Collects(leaveInfo: bool, answer: WaitAnswer) {
    match answer
    case Changed(event) => !leaveInfo && (event == Exited || event == Killed)
    case WaitFailed(error) => error == NoChild
  }

  function AfterWait(h: Handle, leaveInfo: bool, answer: WaitAnswer): Handle {
    if Collects(leaveInfo, answer) then EMPTY else h
  }

  predicate Terminal(event: ChildEvent) {
    event == Exited || event == Killed || event == Dumped
  }

  /** The kernel's half of a blocking waitid(WEXITED) on a terminated child. */
  function WaitIdAnswer(child: ChildProcess): WaitAnswer
    requires !child.Active?
  {
    if child.Zombie? then Changed(child.event) else WaitFailed(NoChild)
  }

  function AfterWaitId(child: ChildProcess, leaveInfo: bool): ChildProcess
    requires !child.Active?
  {
    if leaveInfo then child else Gone
  }

  /** Handle and child after calling wait() once for each element of `leave` (does it leave the status behind?),
      as long as the handle is still in use. */
  function AfterWaits(h: Handle, child: ChildProcess, leave: seq<bool>): (Handle, ChildProcess)
    requires !child.Active?
    decreases |leave|
  {
    if leave == [] || !h.Running() then (h, child)
    else AfterWaits(AfterWait(h, leave[0], WaitIdAnswer(child)), AfterWaitId(child, leave[0]), leave[1..])
  }

  /** A handle on a terminated child is given up by the first wait() that consumes the status - unless the child
      dumped core: then the status is consumed but the handle stays, and it takes one more wait() of any kind,
      which finds no child. */
  lemma {:induction false} HandleGivenUp(h: Handle, event: ChildEvent, leave: seq<bool>)
    requires h.Running() && Terminal(event)
    ensures !AfterWaits(h, Zombie(event), leave).0.Running() <==>
            exists i | 0 <= i < (if event == Dumped then |leave| - 1 else |leave|) :: !leave[i]
  {
    if leave != [] {
      var rest := leave[1..];
      if leave[0] {
        HandleGivenUp(h, event, rest);
        assert forall i | 0 < i < |leave| :: leave[i] == rest[i - 1];
        assert forall i | 0 <= i < |rest| :: leave[i + 1] == rest[i];
      } else if event == Dumped && rest != [] {
        assert AfterWaits(h, Gone, rest) == AfterWaits(EMPTY, AfterWaitId(Gone, rest[0]), rest[1..]);
      }
    }
  }

  /** A child that has stopped, continued or been trapped, and one whose status is left behind, is not given up; only an error
      that says that there is no such child is as good as its end. */
  lemma KeepsLiveChild(h: Handle, leaveInfo: bool, event: ChildEvent)
    requires h.Running()
    ensures AfterWait(h, leaveInfo, Changed(event)).Running() <==> leaveInfo || (event != Exited && event != Killed)
    ensures AfterWait(h, leaveInfo, Changed(event)) in {h, EMPTY}
    ensures AfterWait(h, leaveInfo, WaitFailed(NoChild)) == EMPTY && AfterWait(h, leaveInfo, WaitFailed(OtherError)) == h
  {
  }

  class SubProc {
    var pid: int
    var childFd: int

    function Value(): Handle
      reads this
    {
      Handle(pid, childFd)
    }

    constructor ()
      ensures Value() == EMPTY
    {
      pid := INVALID;
      childFd := INVALID;
    }

    constructor Wrap(pid: int, pidfd: int)
      ensures Value() == Handle(pid, pidfd)
    {
      this.pid := pid;
      this.childFd := pidfd;
    }

    /** FileDescriptor::close() invalidates the member before the system call; an error of the latter is thrown. */
    method Reset(kernel: Kernel) returns (ok: bool)
      modifies this, kernel
      ensures Value() == EMPTY
      ensures old(Value()).Running() ==>
                kernel.closes == old(kernel.closes) + [old(childFd)] && kernel.open == old(kernel.open) - {old(childFd)}
      ensures !old(Value()).Running() ==> unchanged(kernel)
      ensures kernel.failures == old(kernel.failures) + if ok then 0 else 1
    {
      pid := INVALID;
      ok := true;
      if childFd != INVALID {
        var fd := childFd;
        childFd := INVALID;
        ok := kernel.Close(fd);
      }
    }

    /** wait(): `answer` is what waitid() returned. `thrown` tells whether an exception leaves. */
    method Wait(kernel: Kernel, noHang: bool, leaveInfo: bool, answer: WaitAnswer) returns (thrown: bool)
      modifies this, kernel
      ensures noHang ==> thrown && unchanged(this) && unchanged(kernel)
      ensures !noHang ==> Value() == AfterWait(old(Value()), leaveInfo, answer)
      ensures !noHang && answer.WaitFailed? ==> thrown
      ensures !noHang && answer.Changed? ==> (thrown <==> kernel.failures > old(kernel.failures))
      ensures !noHang && Collects(leaveInfo, answer) && old(Value()).Running() ==>
                kernel.closes == old(kernel.closes) + [old(childFd)] && kernel.open == old(kernel.open) - {old(childFd)}
      ensures !(!noHang && Collects(leaveInfo, answer) && old(Value()).Running()) ==> unchanged(kernel)
    {
      if noHang {
        return true;
      }
      match answer {
        case Changed(event) =>
          thrown := false;
          if !leaveInfo && (event == Exited || event == Killed) {
            var ok := Reset(kernel);
            thrown := !ok;
          }
        case WaitFailed(error) =>
          if error == NoChild {
            var _ := Reset(kernel);
          }
          thrown := true;
      }
    }

    /** Move assignment; `fatal` tells that the process aborts because a running child would be lost. */
    method MoveFrom(other: SubProc) returns (fatal: bool)
      modifies this, other
      ensures fatal == old(Value()).Running()
      ensures fatal ==> unchanged(this) && unchanged(other)
      ensures !fatal ==> other.Value() == EMPTY
      ensures !fatal && other != this ==> Value() == old(other.Value())
    {
      if childFd != INVALID {
        return true;
      }
      pid := other.pid;
      childFd := other.childFd;
      other.pid := INVALID;
      other.childFd := INVALID;
      fatal := false;
    }

    /** The destructor aborts the process exactly when the handle is still in use. */
    method Destroy() returns (fatal: bool)
      ensures fatal == Value().Running()
    {
      fatal := childFd != INVALID;
    }
  }

  /** A handle on a terminated child from construction to destruction, with these calls to wait() while it is in use: the
      destructor aborts the process exactly if too few of them consume the status. */
  method Lifetime(kernel: Kernel, pid: int, pidfd: int, event: ChildEvent, leave: seq<bool>) returns (fatal: bool)
    requires pidfd != INVALID && Terminal(event)
    modifies kernel
    ensures fatal <==> forall i | 0 <= i < (if event == Dumped then |leave| - 1 else |leave|) :: leave[i]
  {
    var sub := new SubProc.Wrap(pid, pidfd);
    var child := Zombie(event);
    var i := 0;
    assert leave[0..] == leave;
    while i < |leave| && sub.childFd != INVALID
      invariant 0 <= i <= |leave| && !child.Active? && fresh(sub)
      invariant AfterWaits(sub.Value(), child, leave[i..]) == AfterWaits(Handle(pid, pidfd), Zombie(event), leave)
    {
      assert leave[i..][0] == leave[i] && leave[i..][1..] == leave[i + 1..];
      var _ := sub.Wait(kernel, false, leave[i], WaitIdAnswer(child));
      child := AfterWaitId(child, leave[i]);
      i := i + 1;
    }
    HandleGivenUp(Handle(pid, pidfd), event, leave);
    fatal := sub.Destroy();
  }
}
