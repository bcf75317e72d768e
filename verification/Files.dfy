/** FDFile and TempFile, method by method: each does to its members what the rules of Ownership say. */
module Files {
  import opened Ownership
  import opened Common
  import opened Descriptors

  function Descriptor(fd: int): Option<int> {
    if fd == INVALID then None else Some(fd)
  }

  /** FileDescriptor::close(): the member is invalidated before the system call. */
  method CloseDescriptor(kernel: Kernel, fd: int) returns (left: int, ok: bool)
    modifies kernel
    ensures left == INVALID
    ensures fd == INVALID ==> unchanged(kernel)
    ensures kernel.failures == old(kernel.failures) + if ok then 0 else 1
    ensures fd != INVALID ==> kernel.open == old(kernel.open) - {fd} && kernel.closes == old(kernel.closes) + [fd]
  {
    left, ok := INVALID, true;
    if fd != INVALID {
      ok := kernel.Close(fd);
    }
  }

  class FDFile {
    var fd: int
    var autoClose: bool

    function Value(): Slot<int>
      reads this
    {
      Slot(Descriptor(fd), autoClose)
    }

    constructor ()
      ensures Value() == Empty()
    {
      fd := INVALID;
      autoClose := true;
    }

    constructor Wrap(fd: int, autoClose: bool)
      ensures Value() == Slot(Descriptor(fd), autoClose)
    {
      this.fd := fd;
      this.autoClose := autoClose;
    }

    method Open(fd: int, autoClose: bool)
      modifies this
      ensures this.fd == fd && this.autoClose == autoClose && Value() == Slot(Descriptor(fd), autoClose)
    {
      this.fd := fd;
      this.autoClose := autoClose;
    }

    /** FileBase::close(), which knows nothing of borrowed descriptors. */
    method BaseClose(kernel: Kernel) returns (ok: bool)
      modifies this`fd, kernel
      ensures fd == INVALID
      ensures kernel.failures == old(kernel.failures) + if ok then 0 else 1
      ensures kernel.closes == old(kernel.closes) + GivesBack(Slot(old(Value()).res, true))
      ensures kernel.open == old(kernel.open) - set res | res in GivesBack(Slot(old(Value()).res, true))
    {
      ok := true;
      if fd != INVALID {
        fd, ok := CloseDescriptor(kernel, fd);
      }
    }

    /** close(): the object is closed afterwards even if the system call fails. */
    method Close(kernel: Kernel) returns (ok: bool)
      modifies this, kernel
      ensures fd == INVALID && autoClose && Value() == Empty()
      ensures kernel.failures == old(kernel.failures) + if ok then 0 else 1
      ensures kernel.closes == old(kernel.closes) + GivesBack(old(Value()))
      ensures kernel.open == old(kernel.open) - set res | res in GivesBack(old(Value()))
    {
      if !autoClose {
        fd := INVALID;
        autoClose := true;
        return true;
      }
      ok := BaseClose(kernel);
    }

    method MoveFrom(other: FDFile)
      modifies this, other
      ensures other.fd == INVALID && other.autoClose && other.Value() == Empty()
      ensures other != this ==> fd == old(other.fd) && autoClose == old(other.autoClose) && Value() == old(other.Value())
    {
      autoClose := other.autoClose;
      other.autoClose := true;
      fd := other.fd;
      other.fd := INVALID;
    }

    method TakeOwnership() returns (fd: int)
      modifies this
      ensures this.fd == INVALID && autoClose == old(autoClose) && Value() == Taken(old(Value()))
      ensures fd == old(this.fd)
    {
      fd := this.fd;
      this.fd := INVALID;
    }

    method ReleaseOwnership()
      modifies this
      ensures fd == old(fd) && !autoClose && Value() == Released(old(Value()))
    {
      autoClose := false;
    }

    /** The destructor of FDFile, and after it that of FileBase. */
    method Destroy(kernel: Kernel)
      modifies this, kernel
      ensures kernel.closes == old(kernel.closes) + GivesBack(old(Value()))
      ensures kernel.open == old(kernel.open) - set res | res in GivesBack(old(Value()))
    {
      if !autoClose {
        var _ := Close(kernel);
      }
      var _ := BaseClose(kernel);
    }
  }

  /** The names TempFile is concerned with; `unlinks` has every unlink() system call, in order. */
  class Disk {
    ghost var unlinks: seq<string>
    ghost var failures: nat

    constructor ()
      ensures unlinks == [] && failures == 0
    {
      unlinks, failures := [], 0;
    }

    method Unlink(path: string) returns (ok: bool)
      modifies this
      ensures unlinks == old(unlinks) + [path]
      ensures failures == old(failures) + if ok then 0 else 1
    {
      unlinks := unlinks + [path];
      ok := *;
      failures := failures + if ok then 0 else 1;
    }
  }

  class TempFile {
    var fd: int
    var path: string

    function File(): Slot<int>
      reads this
    {
      Slot(Descriptor(fd), true)
    }

    function Path(): Slot<string>
      reads this
    {
      Slot(if path == "" then None else Some(path), true)
    }

    constructor ()
      ensures File() == Empty() && Path() == Empty()
    {
      fd := INVALID;
      path := "";
    }

    method UnlinkPath(disk: Disk) returns (ok: bool)
      modifies this`path, disk
      ensures Path() == Empty()
      ensures disk.unlinks == old(disk.unlinks) + GivesBack(old(Path()))
      ensures disk.failures == old(disk.failures) + if ok then 0 else 1
    {
      ok := true;
      if path != "" {
        ok := disk.Unlink(path);
        path := "";
      }
    }

    /** close(): both are given back whatever the first system call says; `ok` is false if an exception leaves. */
    method Close(kernel: Kernel, disk: Disk) returns (ok: bool)
      modifies this, kernel, disk
      ensures File() == Empty() && Path() == Empty()
      ensures kernel.closes == old(kernel.closes) + GivesBack(old(File()))
      ensures disk.unlinks == old(disk.unlinks) + GivesBack(old(Path()))
      ensures ok <==> kernel.failures == old(kernel.failures) && disk.failures == old(disk.failures)
    {
      ok := true;
      if fd != INVALID {
        fd, ok := CloseDescriptor(kernel, fd);
      }
      var unlinked := UnlinkPath(disk);
      ok := ok && unlinked;
    }

    /** open(): `made` is what make_tempfile() returns, None if it throws. */
    method Open(kernel: Kernel, disk: Disk, made: Option<(int, string)>) returns (ok: bool)
      requires made.Some? ==> made.value.0 != INVALID && made.value.1 != ""
      modifies this, kernel, disk
      ensures kernel.closes == old(kernel.closes) + GivesBack(old(File()))
      ensures disk.unlinks == old(disk.unlinks) + GivesBack(old(Path()))
      ensures ok <==> kernel.failures == old(kernel.failures) && disk.failures == old(disk.failures) && made.Some?
      ensures ok ==> File() == Slot(Some(made.value.0), true) && Path() == Slot(Some(made.value.1), true)
      ensures !ok ==> File() == Empty() && Path() == Empty()
    {
      ok := Close(kernel, disk);
      if !ok {
        return;
      }
      match made {
        case None => ok := false;
        case Some(file) => fd, path := file.0, file.1;
      }
    }

    method MoveFrom(other: TempFile)
      modifies this, other
      ensures other.File() == Empty() && other.Path() == Empty()
      ensures other != this ==> File() == old(other.File()) && Path() == old(other.Path())
    {
      path := other.path;
      other.path := "";
      fd := other.fd;
      other.fd := INVALID;
    }

    method Destroy(kernel: Kernel, disk: Disk)
      modifies this, kernel, disk
      ensures kernel.closes == old(kernel.closes) + GivesBack(old(File()))
      ensures disk.unlinks == old(disk.unlinks) + GivesBack(old(Path()))
    {
      var _ := Close(kernel, disk);
    }
  }

  // ---------- runs of TempFile operations ----------

  datatype TempOp = New(id: nat) | OpenTemp(id: nat, path: string) | OpenFails(id: nat) | CloseTemp(id: nat)
                  | MoveTemp(to: nat, from: nat) | DestroyTemp(id: nat)

  /** What a TempFile does to its path. */
  function PathOps(op: TempOp): seq<Op<string>> {
    match op
    case New(id) => [Construct(id)]
    case OpenTemp(id, path) => [Op.Close(id), Acquire(path), Op.Open(id, Some(path), true)]
    case OpenFails(id) => [Op.Close(id)]
    case CloseTemp(id) => [Op.Close(id)]
    case MoveTemp(to, from) => [Move(to, from)]
    case DestroyTemp(id) => [Op.Destroy(id)]
  }

  function AllPathOps(ops: seq<TempOp>): seq<Op<string>> {
    if ops == [] then [] else PathOps(ops[0]) + AllPathOps(ops[1..])
  }

  predicate OpensAs(op: TempOp, path: string) {
    op.OpenTemp? && op.path == path
  }

  function Opens(ops: seq<TempOp>, path: string): nat {
    if ops == [] then 0 else (if OpensAs(ops[0], path) then 1 else 0) + Opens(ops[1..], path)
  }

  lemma {:induction false} RunAppend<R>(w: World<R>, a: seq<Op<R>>, b: seq<Op<R>>)
    requires LegalRun(w, a + b)
    ensures LegalRun(w, a) && LegalRun(Run(w, a), b) && Run(w, a + b) == Run(Run(w, a), b)
    decreases |a|
  {
    if a == [] {
      assert a + b == b;
    } else {
      assert (a + b)[0] == a[0] && (a + b)[1..] == a[1..] + b;
      RunAppend(Apply(w, a[0]), a[1..], b);
    }
  }

  lemma OneStep<R>(w: World<R>, op: Op<R>)
    requires LegalRun(w, [op])
    ensures Legal(w, op) && Run(w, [op]) == Apply(w, op)
  {
    assert Run(Apply(w, op), [op][1..]) == Apply(w, op);
  }

  lemma HandsInOnce(w: World<string>, op: TempOp, path: string)
    requires LegalRun(w, PathOps(op))
    ensures Run(w, PathOps(op)).log[HandedIn(path)] == w.log[HandedIn(path)] + if OpensAs(op, path) then 1 else 0
  {
    if op.OpenTemp? {
      var close, get, open := Op.Close(op.id), Acquire(op.path), Op.Open(op.id, Some(op.path), true);
      assert PathOps(op) == [close] + ([get] + [open]);
      RunAppend(w, [close], [get] + [open]);
      OneStep(w, close);
      var closed := Apply(w, close);
      RunAppend(closed, [get], [open]);
      OneStep(closed, get);
      OneStep(Apply(closed, get), open);
    } else {
      OneStep(w, PathOps(op)[0]);
    }
  }

  lemma {:induction false} HandsInPerOpen(w: World<string>, ops: seq<TempOp>, path: string)
    requires LegalRun(w, AllPathOps(ops))
    ensures Run(w, AllPathOps(ops)).log[HandedIn(path)] == w.log[HandedIn(path)] + Opens(ops, path)
    decreases |ops|
  {
    if ops != [] {
      RunAppend(w, PathOps(ops[0]), AllPathOps(ops[1..]));
      HandsInOnce(w, ops[0], path);
      HandsInPerOpen(Run(w, PathOps(ops[0])), ops[1..], path);
    }
  }

  /** Whatever is done to temporary files, a path is unlinked at most once for each open() that made it. */
  lemma UnlinkedOncePerOpen(ops: seq<TempOp>, path: string)
    requires LegalRun(Start(), AllPathOps(ops))
    ensures Run(Start(), AllPathOps(ops)).log[Closed(path)] <= Opens(ops, path)
  {
    HandsInPerOpen(Start(), ops, path);
    ClosedOncePerHandIn(AllPathOps(ops), path);
  }
}
