# A verified model of libcosmos' protocols and algorithms

libcosmos wraps Linux system calls for C++. Most of it is one call per function; this project models the places
where something is decided over several calls, processes or objects, and proves what they promise. The kernel appears
only as far as these places depend on it: processes and their states, a packet pipe, an event counter, a signal table, a
directory tree with links, a queue of inotify records, a byte stream, a set of open descriptors. Whatever the kernel
may answer is a parameter, a nondeterministic choice or an event, so that theorems hold for every answer.

- **Starting a child** (`SubProc`, `ChildStart`, `ChildStartInvariant`, `ChildStartProgress`, `ChildStartTheorems`,
  `ChildStartReports`, `ChildStartOutcomes`).
  Parent and child are two processes that take steps in any order. Every system call and decision of
  `ChildCloner::run()` on both sides is an event, and so are failures, signals from elsewhere and core dumps; a run is any
  sequence of enabled events. The invariant says, for each phase of the parent, how pipe, gate, child and handle fit
  together; safety and progress follow for all runs.
- **Signal handlers** (`SigAction`, `SigActionProofs`, `SigActionNested`, `SigActionUse`). The two callback tables beside the kernel's
  signal table, with every intermediate state that a handler can observe, and handlers that change the tables in between.
- **Paths and directories** (`Paths`, `PathAlgebra`, `PathMeaning`, `FileTree`, `MakeAllDirs`, `RemoveTree`). The string algorithm of
  `normalize_path()` refines a stack of components; `make_all_dirs()` and `remove_tree()` run on a tree in which names may
  be symbolic links, with the kernel's reading of links and dot entries, and with every call refusable.
- **Records and bytes** (`Bytes`, `INotify`, `IOVectors`, `StreamAnswers`, `StreamIO`, `DirEntries`, `Buffers`). The inotify reader over encoded
  records; scatter/gather vectors through short and interrupted transfers; the length of a directory entry's name; results
  of unknown length in growing buffers.
- **Strings** (`StdString`, `Strings`, `StringLaws`). `strip()` and `split()`, with `split()` characterised without its loops.
- **Who closes what** (`Ownership`, `Files`). The ownership rules of `FDFile` and `TempFile`, as classes and as runs over
  any number of objects with a ledger. `Descriptors` has the descriptor table, `Common` what all modules share.
- **Nested initialisation** (`Initables`).

Classes have the source's fields and their methods are proved against functions on values; the theorems are about those
functions, over all inputs and all runs.

## What the model found

The code is modelled as it is. Where it does less than its names or comments say, the exact condition is proved:

- `SubProc::wait()` does not count a core dump as the end of the child (src/proc/SubProc.cxx:35), so the handle stays in
  use after the status is consumed. Together with an interrupted `wait()` this is what can reach the abort of `~SubProc()`
  from the catch block of `ChildCloner::run()`: `AbortExactly`, `HandleGivenUp`.
- If the KILL for a child at the gate fails, `run()` waits for ever: `StuckExactly`, `DeadlockReachable`.
- An error message arrives unchanged exactly if it is neither empty nor longer than one packet: `ErrorForwarded`, and it happens:
  `EmptyMessageIsMissing`, `LongMessageIsCut`.
- The "bad error code" branch of `handlePreExecError()` is unreachable: `ThrownErrorsAreReported`.
- A one-shot info handler that has run is reported as UNKNOWN instead of DEFAULT: `OneShotReport`.
- A simple handler that is installed, from a handler, while the same signal is being reset is lost although the kernel still
  calls for it: `InterruptedDisarms`, `ResetDisarms`.
- If a handler changes a signal while set_action() or get_action() is at work on it, the setting reported need not be the one
  that was in force; handing it back can leave the signal without its handler: `ReportedExactly`, `StaleIsReported`,
  `WholeDisarms`. Over all runs: `AlwaysFitExactly`.
- `normalize_path()` puts two slashes in front of a relative path taken from "/", unless nothing is left of it:
  `RelativeToRoot`.
- `make_all_dirs()` returns EXISTS also if the last component is not a directory, against its documentation
  (include/fs/filesystem.hxx:346-348), exactly if lstat() found it before and stat() found no directory there:
  `DirectoryExactly`, `ExistsMayBeFile`.
- `remove_tree()` walks along the path twice. It empties the directory and then fails if the path ends with a dot entry, or
  with a link and a slash, or passes through something inside the directory: `RemoveTree`, `PlaceKept`, `EmptiesOnly`.
- `split()` does not end for an empty separator unless KEEP_EMPTY and a limit are given: `SplitEnds`.
- `split()` does not undo join for every list of parts that are free of a longer separator: `LongSeparatorShifts`, and
  exactly when it does: `SplitUndoesJoin`.
- Opening or moving into an object that owns a descriptor loses it, and so does moving an object to itself:
  `LeaksExactly`.
- The fallback of `nameLength()`, said to be unclear, is reached exactly for records without padding: `NameLength`.
- One `finish()` too many disables the next `init()`; an object registered late is finalised without having been
  initialised: `ExtraFinish`, `LateRegistration`. What is harmless is said by `KeepsOrderExactly` and `OrderlyExactly`.

## Assumptions

- Child start: the pipe keeps packets apart (src/io/Pipe.cxx:12) and packets have at most 4096 bytes; closing pipe ends
  does not fail; no end of the error pipe is one of the standard streams, which the child may redirect
  (src/proc/ChildCloner.cxx:377-379); a child writing to a pipe without reader dies of SIGPIPE, and its other writes
  succeed; SIGCHLD is not ignored; the post fork callback ends and does not fork; nobody else collects the child. Signals
  from elsewhere are allowed and appear in the theorems as `Interfered` or the absence of `Undisturbed`.
- Signals: `SigAction` objects are changed by the public interface only (`AnyObject`), and those constructed without
  initialisation are filled in first; other code that calls `sigaction()` does not know the library's entry points; one
  thread.
- Directories: a stream yields every entry that is there when it is opened once, in any order; nobody else changes the
  tree meanwhile; a path that leads through more than 40 links is refused; dot entries at the start of a path lead up from
  the working directory even after that has been removed, as on Linux; nothing is mounted on a directory.
- The working directory is reported as an absolute path without empty, "." or ".." components.
- Vectors: a region's `update(n)` takes min(n, remaining) bytes, and it is finished when nothing remains, as the comment at
  src/io/iovector.cxx:12-23 describes it; the header of the region type is not part of this model.
- Inotify: `read()` returns whole records and at least one.
- Descriptors: after `close()` a descriptor is gone even if an error is reported, as on Linux. A program hands in as
  owned, or closes, only what it has to care for.
- Temporary files: a path that `mkostemps()` makes is not the path of another open TempFile.
- No string has 2^64 - 1 or more characters.

## Model

| member | source | states |
|---|---|---|
| `ChildStartTheorems.ErrorForwarded` | src/proc/ChildCloner.cxx:94-130 | if the child decides to report an error and nothing from outside disturbs parent or child, `run()` ends, with the child reaped and the SubProc empty, by throwing a RuntimeError with the message if the errno is NO_ERROR and an ApiError with errno and message if it is not, of the message as much as fits into 4096 bytes; an empty message is reported as missing |
| `ChildStartOutcomes.ReportMeans` | src/proc/ChildCloner.cxx:248-286 | the report is errno and message of the failing exec(), or NO_ERROR and the message of any other exception in the setup, and there is none exactly if neither has happened |
| `ChildStartOutcomes.ArgumentsFirst` | src/proc/ChildCloner.cxx:80-95 | unusable arguments lead to a UsageError, without a child, and nothing else does |
| `ChildStartOutcomes.WithoutForwarding` | src/proc/ChildCloner.cxx:99-123 | without a child `run()` throws; with one and without error forwarding it returns the SubProc whatever the child does, unless the child was killed at its gate |
| `ChildStartReports.EveryReportOccurs` | src/proc/ChildCloner.cxx:274-296 | for every errno and message there is such an undisturbed run, ending in what the report says |
| `ChildStartReports.EmptyMessageIsMissing` | src/proc/ChildCloner.cxx:325-329 | so an empty message does end in the exception for a missing one |
| `ChildStartReports.LongMessageIsCut` | src/proc/ChildCloner.cxx:300-333 | and every message of more than 4096 bytes does arrive cut to 4096 |
| `ChildStartTheorems.ThrownErrorsAreReported` | src/proc/ChildCloner.cxx:299-347 | in any interleaving, also with foreign signals, a RuntimeError carries the message of a report without errno, and an ApiError errno and message of one with errno; a missing message means an empty or an interrupted report; the "bad error code" branch is unreachable; the child has been reaped before the exception leaves, unless `wait()` itself failed |
| `ChildStartTheorems.ReturnsAfterCleanEnd` | src/proc/ChildCloner.cxx:310-315 | with error forwarding `run()` returns a SubProc only after the child's write end was closed with nothing written; the child then runs the new program or is dead, and it had reported nothing unless a foreign signal cut it short |
| `ChildStartTheorems.AbortExactly` | src/proc/SubProc.cxx:12-16 | the abort of `~SubProc()` happens exactly if the catch block of `run()` was entered and there `wait()` was interrupted or the child turned out to have dumped core; never in an undisturbed run |
| `ChildStartTheorems.InterruptedWaitAborts` | src/proc/ChildCloner.cxx:112-120 | a concrete run that aborts because `wait()` was interrupted |
| `ChildStartTheorems.CoreDumpAborts` | src/proc/SubProc.cxx:33-37 | a concrete run that aborts because `wait()` does not count a core dump as an end of the child |
| `ChildStartTheorems.GateHolds` | src/proc/ChildCloner.cxx:155-164 | on the fork path, whatever the child does beyond its gate (start, post fork callback, exec) happens after the parent opened the pidfd and then raised the event counter |
| `ChildStartTheorems.FailedGateReaps` | src/proc/ChildCloner.cxx:165-173 | if opening the pidfd or raising the counter fails, no child ever gets past the gate, KILL is sent, and the exception leaves with the child reaped unless `wait()` was interrupted |
| `ChildStartInvariant.StepKeeps` | src/proc/ChildCloner.cxx:94-347 | the invariant of the protocol, phase by phase of the parent, is kept by every event of parent, child and environment |
| `ChildStartInvariant.RunKeeps` | src/proc/ChildCloner.cxx:94-347 | the invariant holds after every run: in particular, while the parent reads, what it has read, what is in the pipe and what the child has still to write are together exactly the child's report |
| `ChildStartProgress.StepDrops` | src/proc/ChildCloner.cxx:94-347 | a measure drops with every event |
| `ChildStartProgress.RunIsBounded` | src/proc/ChildCloner.cxx:94-347 | every run has at most 16 events and one more for each packet of the child's message |
| `ChildStartProgress.StuckExactly` | src/proc/ChildCloner.cxx:165-173 | until `run()` is over some event that needs no misfortune is enabled, except in one kind of state: the parent waits for a child at the gate whose KILL failed; there none is |
| `ChildStartProgress.DeadlockReachable` | src/proc/ChildCloner.cxx:165-173 | that state is reachable |
| `SubProcess.SubProc.Reset` | src/proc/SubProc.cxx:22-25 | the handle is empty afterwards even if `close()` fails, and the pidfd is closed once |
| `SubProcess.SubProc.Wait` | src/proc/SubProc.cxx:27-53 | which answers of `waitid()` make `wait()` give the handle up, which exceptions leave, and what is closed |
| `SubProcess.SubProc.MoveFrom` | src/proc/SubProc.cxx:67-76 | move assignment aborts exactly if the target is in use; otherwise the handle changes hands and the source is empty |
| `SubProcess.HandleGivenUp` | src/proc/SubProc.cxx:33-52 | after any series of waits on a dead child the handle is given up if and only if one of them consumed the status; for a child that dumped core one more wait is needed |
| `SubProcess.KeepsLiveChild` | src/proc/SubProc.cxx:33-52 | the handle stays in use if the child has only stopped, continued or been trapped, if the status is left behind, and on all errors but the one that there is no such child |
| `SubProcess.Lifetime` | src/proc/SubProc.cxx:12-53 | a SubProc on a dead child, waited for and destroyed: the destructor aborts if and only if too few of the calls to wait() consume the status |
| `SigActions.SignalTables.SetAction` | src/proc/SigAction.cxx:66-111 | new kernel table and callback tables, the states a signal handler can observe in between, and the old setting, also if both parameters are the same object |
| `SigActions.SignalTables.GetAction` | src/proc/SigAction.cxx:113-125 | reports the current setting, or changes nothing if the system call fails |
| `SigActions.SigAction.SetSimpleHandler` | src/proc/SigAction.cxx:138-156 | the object agrees with itself afterwards; UNKNOWN is refused and changes nothing |
| `SigActions.SigAction.SetInfoHandler` | src/proc/SigAction.cxx:158-164 | the object agrees with itself afterwards |
| `SigActions.SigAction.SetFlags` | include/proc/SigAction.hxx:122-131 | SA_SIGINFO cannot be changed this way, so the object keeps agreeing with itself |
| `SigActions.SigAction.UpdateFromOld` | src/proc/SigAction.cxx:166-191 | the handler that is derived from a raw entry and the two table entries |
| `SigActionProofs.TablesStayFit` | src/proc/SigAction.cxx:66-111 | over any run of set_action(), foreign sigaction() and deliveries the tables hold no sentinel and a simple stub always has its callback |
| `SigActionProofs.StubFindsLastCallback` | src/proc/SigAction.cxx:31-59 | over any such run, if the kernel's entry is a stub then the matching table holds the callback installed last for that signal, and that is what a signal calls and what get_action() reports |
| `SigActionProofs.CurrentIsCoherent` | src/proc/SigAction.cxx:166-191 | a setting reported by the library can be handed back |
| `SigActionProofs.SetTakesEffect` | src/proc/SigAction.cxx:66-106 | what a signal does after set_action() depends on the action alone |
| `SigActionProofs.SimpleHandlerTakesEffect` | src/proc/SigAction.cxx:138-156 | setHandler() and set_action() with IGNORE ignore the signal, with DEFAULT restore the default action, and with any other pointer have it called; the other flags are kept, and the pointer is what is reported |
| `SigActionProofs.InfoHandlerTakesEffect` | src/proc/SigAction.cxx:158-164 | the same for an info handler |
| `SigActionProofs.ReportedHandler` | src/proc/SigAction.cxx:166-191 | IGNORE and DEFAULT are reported exactly for the kernel's own settings without SA_SIGINFO, a callback exactly for the library's entry points, and UNKNOWN exactly for everything else |
| `SigActionProofs.KernelFirst` | src/proc/SigAction.cxx:70-106 | the system call comes first, with both tables as they were; then the entries change one by one, and nothing else does |
| `SigActionUse.InstallSimple` | src/proc/SigAction.cxx:66-156 | the two calls, one after the other: IGNORE, DEFAULT and a callback have their effect; nothing changes if the pointer is UNKNOWN or the system call fails |
| `SigActionUse.InstallInfo` | src/proc/SigAction.cxx:66-164 | the same for an info handler |
| `SigActionProofs.SetLeavesOthers` | src/proc/SigAction.cxx:88-106 | other signals are untouched |
| `SigActionProofs.RestoreAtOnce` | src/proc/SigAction.cxx:108-110 | set_action(s, a, &o) and then set_action(s, o) restores the kernel's table and the effect of every signal, for default, ignored, simple, info and foreign handlers |
| `SigActionProofs.RestoreLater` | src/proc/SigAction.cxx:108-110 | the same for signal s after any operations in between, which keep their effect on all other signals |
| `SigActionProofs.TablesHoldGiven` | src/proc/SigAction.cxx:92-106 | every callback in the tables was given to set_action() for that signal |
| `SigActionProofs.WindowCallsGiven` | src/proc/SigAction.cxx:74-106 | a signal between any two steps of set_action() calls nothing, or a callback given for that same signal by an earlier or by the current call, never a sentinel; other signals are not affected |
| `SigActionProofs.OneShotReport` | src/proc/SigAction.cxx:170-190 | after a one-shot handler has run, the default action is in force; the library reports it as DEFAULT exactly for simple handlers and as UNKNOWN exactly for info handlers |
| `SigActionNested.UninterruptedIsSet` | src/proc/SigAction.cxx:66-106 | the model of an interrupted set_action() is the plain one if nothing happens inside |
| `SigActionNested.FitsExactly` | src/proc/SigAction.cxx:70-106 | a step - any operation, or a set_action() with handlers running inside that call it themselves, with any objects that the library makes - leaves the tables fit if and only if it disarms no signal, which is told from the step and the kernel's entries before it; a disarmed signal calls nothing |
| `SigActionNested.AlwaysFitExactly` | src/proc/SigAction.cxx:31-106 | over any run of such steps, objects that were reported by interrupted calls being handed back included, the tables are fit throughout if and only if no step disarms a signal |
| `SigActionNested.WholeDisarms` | src/proc/SigAction.cxx:92-106 | a call that is not interrupted disarms its signal if and only if it is given a stale object: a simple stub without callback |
| `SigActionNested.InterruptedDisarms` | src/proc/SigAction.cxx:70-106 | without stale objects an interrupted call disarms a signal if and only if it clears the tables, the handlers in the first window leave a simple stub in the kernel's entry, and those in the second window leave the entry alone |
| `SigActionNested.ResetDisarms` | src/proc/SigAction.cxx:92-98 | it happens: a handler installs a simple handler while the signal is being reset to the default action |
| `SigActionNested.ReportedExactly` | src/proc/SigAction.cxx:88-125 | what set_action() and get_action() report is the setting that was in force if and only if no handler that ran between the system call and the reading of the table has changed the callback that belongs to it; it is stale if and only if it was a simple handler and the table has been cleared |
| `SigActionNested.StaleIsReported` | src/proc/SigAction.cxx:70-110 | it happens, with the tables staying fit: a handler resets the signal that is being reset; when the reported object is handed back, the signal calls nothing instead of its old handler |
| `SigActionNested.NestedCallsGiven` | src/proc/SigAction.cxx:31-106 | over any run with nested calls, and inside the windows of the last one, a signal calls nothing or a callback given for that same signal, never a marker |
| `SigActionUse.AnyObject` | include/proc/SigAction.hxx:80-131 | whatever constructor, clear(), assignment, setFlags(), setHandler() and being filled in by the library make of an object, raw entry and handler agree, or it is stale |
| `SigActionUse.Deliver` | src/proc/SigAction.cxx:31-59 | a signal calls what the model's delivery function says, through the two entry points, and a one-shot entry is forgotten |
| `SigActionUse.PerformAll` | src/proc/SigAction.cxx:31-111 | the methods, called one after the other, lead to the tables and to the calls that the runs of the theorems have |
| `Paths.NormalizePath` | src/fs/path.cxx:17-62 | the in-place algorithm returns the rendered component stack; with a second slash in front if a relative path is taken from "/" and something is left of it |
| `PathAlgebra.ResultIsNormal` | src/fs/path.cxx:17-62 | the result starts with a slash, has no empty, "." or ".." component and no slash at the end, except for "/" itself; it stands for the stack |
| `PathAlgebra.RelativeToRoot` | src/fs/path.cxx:29-48 | from the working directory "/" a relative path comes out normalised if and only if its stack is empty; a second call repairs it |
| `PathAlgebra.Idempotent` | src/fs/path.cxx:17-62 | normalising twice is normalising once, whatever the working directory of the second call |
| `PathAlgebra.PrefixFirst` | src/fs/path.cxx:17-62 | normalising p/q equals normalising normalize(p)/q, whatever the working directory of the second call |
| `PathAlgebra.ResolveAbsolute` | src/fs/path.cxx:35-48 | the stack can be read back from its path |
| `PathMeaning.MeaningKept` | src/fs/path.cxx:17-62 | if the way that a path names follows no link, the component stack is the place where it ends, and the normalised path leads there from anywhere; this holds for every tree, working directory and path |
| `PathMeaning.WalkIsResolve` | src/fs/path.cxx:35-48 | a walk of the kernel that follows no link ends where dropping "." and popping on ".." say |
| `PathMeaning.LinkChangesMeaning` | src/fs/path.cxx:35-40 | with a link on the way it can end elsewhere: an example |
| `MakeAllDirs.MakeDirs` | src/fs/filesystem.cxx:313-348 | for any tree, links included, and any refusals: either all prefixes of the normalised path have been dealt with and the result says whether any was created, or the call ended at the first prefix that is refused or cannot be made |
| `MakeAllDirs.SuccessMeans` | src/fs/filesystem.cxx:323-347 | on success all prefixes exist and the proper ones lead to directories; EXISTS if and only if the tree is unchanged, if and only if the last component was there before; NO_ERROR only if the last component was created by this call |
| `MakeAllDirs.DirectoryExactly` | src/fs/filesystem.cxx:335-338 | on success the path leads to a directory, unless its last component was there before (lstat) and led to none (stat); exactly then EXISTS is returned without a directory being there |
| `MakeAllDirs.ExistsMayBeFile` | src/fs/filesystem.cxx:335-338 | this happens for a regular file and for a dangling link |
| `MakeAllDirs.CreatedRun` | src/fs/filesystem.cxx:335-344 | however the call ends, what was there is still there, and what is new are directories at the places of a contiguous run of prefixes |
| `MakeAllDirs.CreatedInside` | src/fs/filesystem.cxx:323-345 | each new directory lies in the one before |
| `FileTree.WalkStable` | src/fs/filesystem.cxx:335-344 | wherever a path leads, through links and dot entries, it leads there still after directories have been added |
| `FileTree.WalkOn` | src/fs/filesystem.cxx:327-335 | the kernel's walk along a path is the walk along its first part, continued along the rest |
| `RemoveTree.RemoveTree` | src/fs/filesystem.cxx:392-396 | for every path string and working directory: only the subtree that the kernel's reading of the path names is touched, without a slash at its end a link is not followed and nothing is touched unless a directory is named; on success exactly that subtree is gone; without a refused call the directory has been emptied, and the function succeeds if and only if rmdir() is about the same directory (the path does not end with a dot entry, nor with a link and a slash) and the way to its last name does not pass through what is below the directory |
| `RemoveTree.LinkIsRefused` | src/fs/filesystem.cxx:392-393 | a path without a slash at its end that names a link: the function fails and nothing is touched |
| `RemoveTree.PlaceKept` | src/fs/filesystem.cxx:392-396 | after the directory has been emptied the path leads rmdir() to it if and only if it did so before and does not pass through what was below it; otherwise it leads to no directory |
| `RemoveTree.WalkLost` | src/fs/filesystem.cxx:392-396 | a walk that does not stay outside ends nowhere, or inside, after the directory has been emptied |
| `RemoveTree.EmptiesOnly` | src/fs/filesystem.cxx:392-396 | two calls, for a path with a dot at its end and for one through a link inside, that empty the directory and fail although no call is refused |
| `RemoveTree.RemoveContents` | src/fs/filesystem.cxx:352-388 | for every finite tree and every order of entries it terminates; nothing outside the directory is touched, link targets included; it fails exactly if a system call was refused, and otherwise the directory is empty |
| `RemoveTree.RemoveEntry` | src/fs/filesystem.cxx:363-385 | the same for one entry, of known or unknown type |
| `INotify.Reader.ReadEvent` | src/fs/INotify.cxx:43-61 | the event is the next record of the kernel's queue, whole and inside the buffer; a failing read loses and repeats nothing |
| `INotify.Reader.TryReadEvent` | src/fs/INotify.cxx:63-72 | the same, with EAGAIN reported as no event |
| `INotify.AnyRun` | src/fs/INotify.cxx:43-72 | over any run of file changes and calls, failing ones included, the records returned are a prefix of the queue, and the rest is still to come |
| `INotify.RecordRoundTrip` | src/fs/INotify.cxx:55-60 | a record encoded anywhere in a buffer is decoded again |
| `INotify.ParseBack` | src/fs/INotify.cxx:44-60 | going from record to record through a batch yields exactly its records |
| `IOVectors.IOVector.Update` | src/io/iovector.cxx:11-40 | the vector after partial processing; true if and only if nothing remains; an exception if and only if more was processed than was left |
| `IOVectors.AdvanceLeavesRest` | src/io/iovector.cxx:24-33 | what remains after n bytes is exactly the undelivered suffix of all addresses |
| `StreamIO.Stream.NextTransfer` | src/io/StreamIO.cxx:28-39 | the loop of all calls: its result and the answers left over are those that the following three rows describe |
| `StreamAnswers.RestartsUntilSettled` | src/io/StreamIO.cxx:13-23 | with automatic restart any number of interruptions makes no difference: the next count is the number of bytes transferred, EAGAIN leaves as WouldBlock and any other error as ApiError |
| `StreamAnswers.FirstAnswerSettles` | src/io/StreamIO.cxx:13-23 | without it the first answer decides, and an interruption is an ApiError |
| `StreamAnswers.SettledUses` | src/io/StreamIO.cxx:28-39 | exactly the answers up to the first one that is no interruption passed over are used |
| `StreamAnswers.WriteCompletes` | src/io/StreamIO.cxx:120-128 | writing is finished if no answer is an error and they offer enough |
| `StreamAnswers.ReadCompletes` | src/io/StreamIO.cxx:66-77 | reading is finished if no answer is an error or a zero, they offer enough, and the source has enough |
| `StreamIO.Stream.WriteVector` | src/io/StreamIO.cxx:144-155 | bytes written and bytes left in the vector are together what the vector held; the update is never inconsistent |
| `StreamIO.Stream.ReadVector` | src/io/StreamIO.cxx:130-142 | the bytes taken from the source fill the vector's first addresses, in order; the rest of the vector remains |
| `StreamIO.WriteRepeatedly` | src/io/iovector.cxx:12-39 | writing a vector until nothing remains, through any short counts and interruptions, emits the concatenation of all regions once and in order |
| `StreamIO.ReadRepeatedly` | src/io/iovector.cxx:12-39 | reading until nothing remains fills all regions with the next bytes of the source; found in the regions if they do not overlap |
| `StreamIO.WriteAll` | src/io/StreamIO.cxx:120-128 | a prefix of the buffer has been written, as much as the answers used offer, all of it exactly on success; an error is that of the last answer used, and all before it are counts or interruptions passed over |
| `StreamIO.ReadAll` | src/io/StreamIO.cxx:66-77 | a prefix of the source, as much as the answers used offer and the source has, has been stored at the buffer's start and nothing else has changed; all of it exactly on success; the end of the file is reported exactly for a transfer of no bytes, and any other error is that of the last answer used |
| `Strings.Strip` | src/string.cxx:63-76 | returns the stripped string of the model |
| `Strings.StripsMargins` | src/string.cxx:63-76 | exactly the strippable characters at both ends are removed |
| `Strings.StrippableMeans` | src/string.cxx:64-69 | strippable are the characters of the set, or white space if no set is given |
| `Strings.Split` | src/string.cxx:93-144 | terminates whenever the separator is non-empty, or KEEP_EMPTY and a limit are given, and returns what the rounds of its loops lead to |
| `StringLaws.SplitEnds` | src/string.cxx:107-119 | split() has a result if and only if the separator is non-empty, or KEEP_EMPTY and a limit are given |
| `StringLaws.YieldsOnce` | src/string.cxx:93-144 | there is at most one result |
| `StringLaws.SplitExactly` | src/string.cxx:93-144 | for a non-empty separator and KEEP_EMPTY the result is the one list that joins to the string, was cut at the leftmost separators and obeys the limit; every list with these properties is the result |
| `StringLaws.JoinUndoesSplit` | src/string.cxx:115-136 | joining the parts gives the string back, for every limit and every separator for which split() ends |
| `StringLaws.SplitUndoesJoin` | src/string.cxx:115-136 | split() undoes join() if and only if no part, followed by the separator, holds an earlier one |
| `StringLaws.SplitUndoesJoinByChar` | src/string.cxx:115-136 | for a one-character separator it is enough that the parts are free of it |
| `StringLaws.LongSeparatorShifts` | src/string.cxx:115-136 | for a longer one it is not: an example |
| `StringLaws.ModesAgree` | src/string.cxx:109-132 | all modes in terms of KEEP_EMPTY: STRIP_PARTS strips its parts; without a limit the default mode drops the empty ones, after stripping |
| `StringLaws.AllStripped` | src/string.cxx:121-126 | stripping the parts takes exactly the strippable margins off each of them |
| `StringLaws.LimitExactly` | src/string.cxx:109-132 | the one result under a limit, in any mode, told by the unlimited split: the same if that ends below the limit or with its part number max_splits; otherwise its first max_splits parts, and as the last part what is left of the string behind the separators that follow |
| `StringLaws.LimitKeepsFirst` | src/string.cxx:112-132 | below the limit the results agree; otherwise the first max_splits parts do, and there is at most one more |
| `StringLaws.DefaultTail` | src/string.cxx:107-132 | in the default mode, behind the parts below a limit that is reached, come separators, and what is left of the string behind all of them, stripped if parts are, is the last part exactly if it is not empty |
| `StringLaws.PartsAreFree` | src/string.cxx:115-128 | without a limit no part contains the separator, in any mode |
| `StringLaws.LimitHolds` | src/string.cxx:112-115 | at most max_splits + 1 parts, in any mode |
| `Ownership.RunKeeps` | include/fs/FDFile.hxx:30-94 | over any run of operations on any number of objects, each open descriptor is owned by one object, or cared for by the program, or lost, exactly one of these; and what was handed in was closed, returned or lost once for each time, or is still owned |
| `Ownership.OpKeeps` | include/fs/FDFile.hxx:30-94 | every single operation keeps this, moves to itself included |
| `Ownership.ClosedOncePerHandIn` | src/fs/FileDescriptor.cxx:17-27 | a descriptor is closed at most once for each time it was handed in as owned, even if `close()` fails |
| `Ownership.ClosesItsOwn` | include/fs/FDFile.hxx:62-71 | what close() or a destructor closes is open, nobody else owns it and the program does not care for it; a borrowing object closes nothing |
| `Ownership.BorrowedStaysOpen` | src/fs/FDFile.cxx:6-13 | a descriptor in the program's care, borrowed by any objects in any way, stays open until the program closes it or hands it in |
| `Ownership.LeaksExactly` | include/fs/FDFile.hxx:30-53 | descriptors are lost if and only if open() or a move assignment overwrites an object that owns one; otherwise, with no object left, the program cares for all that is open |
| `Files.CloseDescriptor` | src/fs/FileDescriptor.cxx:17-27 | the member is invalid whatever the system call says |
| `Files.FDFile.Open` | include/fs/FDFile.hxx:50-53 | keeps descriptor and auto-close choice; what was there before is neither closed nor returned |
| `Files.FDFile.Close` | include/fs/FDFile.hxx:62-71 | closed if owned, forgotten if borrowed; the object is empty even if `close()` fails |
| `Files.FDFile.BaseClose` | include/fs/FileBase.hxx:62-67 | FileBase's own close() |
| `Files.FDFile.MoveFrom` | include/fs/FDFile.hxx:30-37 | state and ownership change hands; a move to itself empties the object |
| `Files.FDFile.TakeOwnership` | include/fs/FDFile.hxx:79-83 | the descriptor is returned and the object invalid |
| `Files.FDFile.ReleaseOwnership` | include/fs/FDFile.hxx:92-94 | the descriptor stays usable but is no longer owned |
| `Files.FDFile.Destroy` | src/fs/FDFile.cxx:6-13 | both destructors together close an owned descriptor once and a borrowed one never |
| `Files.TempFile.Close` | include/fs/TempFile.hxx:42-51 | descriptor closed and path unlinked, each once and whatever the other call says; the object is empty afterwards |
| `Files.TempFile.UnlinkPath` | include/fs/TempFile.hxx:70-80 | the path is forgotten even if unlinking fails |
| `Files.TempFile.Open` | include/fs/TempFile.hxx:53-59 | what was open before is given back first; the object is empty if anything fails |
| `Files.TempFile.MoveFrom` | include/fs/TempFile.hxx:32-38 | descriptor and path change hands |
| `Files.TempFile.Destroy` | src/fs/TempFile.cxx:8-14 | gives both back |
| `Files.UnlinkedOncePerOpen` | include/fs/TempFile.hxx:42-80 | over any run of operations on any number of objects a path is unlinked at most once for each open() that made it |
| `DirEntries.NameLength` | include/fs/DirEntry.hxx:85-100 | equals strlen() for every name length and never looks outside the record; the fallback is reached exactly if the record has no padding and the name at least 8 bytes |
| `DirEntries.DotEntries` | include/fs/DirEntry.hxx:118-128 | isDotEntry() recognises "." and ".." and nothing else |
| `Buffers.ReadSymlink` | src/fs/filesystem.cxx:492-519 | returns exactly the target of any length, after a known number of calls, one of which may fail |
| `Buffers.GetWorkingDir` | src/fs/filesystem.cxx:211-234 | returns exactly the working directory of any length, after a known number of doublings |
| `Buffers.Doublings` | src/fs/filesystem.cxx:215-222 | that number is the least that makes room for the path and its terminator |
| `Buffers.Sprintf` | src/formatting.cxx:17-53 | returns exactly the formatted text, or nothing on an error, in one round or, for more than 128 characters, in two |
| `Buffers.ExpandTempPath` | src/fs/filesystem.cxx:86-117 | the last "{}" of the basename becomes six letters X, which are appended if there is none; refused exactly for an empty basename |
| `Buffers.ExpansionFits` | src/fs/filesystem.cxx:121-133 | mkostemps() finds its six letters right in front of the suffix, and in the last component |
| `Initables.Library.Register` | src/cosmos.cxx:60-68 | a registered priority is a conflict; otherwise the object is added, and the map stays ordered |
| `Initables.SessionCalls` | src/cosmos.cxx:70-84 | the calls of one session: libInit() once for every object, by ascending priority, and libExit() in exactly the reverse order |
| `Initables.InitCallsAre` | src/cosmos.cxx:70-75 | the i-th libInit() is that of the i-th object in the map |
| `Initables.ExitCallsAre` | src/cosmos.cxx:77-84 | the libExit() calls go backwards |
| `Initables.InsertKeeps` | src/cosmos.cxx:60-64 | an insertion keeps the map ordered if and only if the priority is new |
| `Initables.Library.Init` | src/cosmos.cxx:91-102 | the count goes up, modulo 2^64; from zero, libInit() is called for all registered objects in ascending order and they are marked, otherwise for none |
| `Initables.Library.Finish` | src/cosmos.cxx:104-113 | the count goes down, modulo 2^64; at zero, libExit() is called for all registered objects in descending order and the marks are removed, otherwise for none |
| `Initables.RunsAreOrderly` | src/cosmos.cxx:70-113 | for balanced calls, with registration while the count is zero, the calls are a repetition of all libInit() in ascending order followed by all libExit() in reverse order, the last session half done while the count is positive; the objects are marked initialised exactly then |
| `Initables.CountsCalls` | src/cosmos.cxx:91-107 | the count is the number of init() calls not yet matched by a finish() |
| `Initables.MarkedExactly` | src/cosmos.cxx:70-113 | after balanced calls an object is marked initialised if and only if it was registered and more init() than finish() were called |
| `Initables.KeepsOrderExactly` | src/cosmos.cxx:60-113 | one operation keeps this order if and only if it is a balanced call, a registration of a new priority at count zero, or an init() or finish() without any registered object |
| `Initables.OrderlyExactly` | src/cosmos.cxx:60-113 | over any sequence of calls the library is orderly throughout if and only if all of them are of this kind |
| `Initables.ExtraFinish` | src/cosmos.cxx:104-107 | one finish() too many makes the count wrap around, and the next init() initialises nothing |
| `Initables.LateRegistration` | src/cosmos.cxx:77-84 | an object registered while the count is positive, however high, gets its libExit() when the count is back at zero, without having been initialised |

## Left out

- One-call wrappers (prctl, mman, limits, ptrace, sockets, address resolution, clocks, terminals, locale, users): nothing
  to prove without the kernel.
- Wait status and signal info decoding, file mode strings, colours, bit masks, formatting of numbers: finite tables.
- `postFork()` (scheduling, redirection of standard streams, working directory): a single event of the child that
  succeeds, fails with a message or exits.
- Exit codes of a child without error forwarding: the child's end is modelled, its code is not.
- Concurrent use of the signal tables and of the init counter by several threads: the code makes no promise.
- The kernel's own changes to the signal mask and to SA_RESTORER when a setting is stored.
- StreamIO.WriteAll: the kernel's answers are a finite script; when it ends the call is still waiting. That
  a kernel which accepts zero bytes for ever keeps `writeAll()` in its loop is therefore not a separate result.
- SigActionNested.FitsExactly: handlers inside set_action() are not interrupted by further handlers themselves.
- ChildStartReports.EveryReportOccurs: the runs are those of clone3() and a failing exec(); the others are alike.
- Reading and writing at a given file position: the same loops again.
- Strings.Strip: the C locale's white space, and narrow characters only; the wide variant is the same code.
- Initables.Library.Init: exceptions from libInit() and libExit() are not modelled.
- Buffers.ReadSymlink: the target does not change between two calls, and its length fits the `int` of the callback.
- Files.FDFile.Close: the text of warnings and exceptions; only whether one leaves.
- `canonicalize_path()`, `which()`, the poller, mutexes and threads, the network.
