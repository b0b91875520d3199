# juju utils, in Dafny

A model of the parts of the juju utilities library that carry a protocol or an
algorithm, with proofs of what they promise.

- `Lines`, `Files`, `Seek`, `Tailer`: following a growing log file (`tailer/tailer.go`). `Seek` reads backwards
  in chunks into an array that is grown and shifted in place; `Tailer` has the buffered reader, `readLine` and the
  polling loop. Both are proved against functions on whole byte sequences. The file is a class whose every call lets
  further bytes arrive and may fail, so the proofs cover every interleaving of appends with calls.
- `Try`, `Run`: running functions concurrently (`parallel/try.go`, `parallel/parallel.go`).
- `LockNames`, `FsLock`, `FsLockCalls`: a mutex made of directory renames (`fslock/fslock.go`).
- `Voyeur`: a watched value with a condition variable (`voyeur/value.go`).
- `Attempt`: the retry clock (`attempt.go`).
- `StorageModel`, `FileStorage`: one storage over two that may fail (`filestorage/wrapper.go`).
- `Shell`: quoting for the POSIX shell (`trivial.go`), with the shell's word reader.
- `Runs`: runs of a transition system, and what holds after all of them.
- `Options`, `Counting`: an optional value; counts and sums over maps and sequences.

The concurrent parts are transition systems: a `State`, a `Step` for every atomic action of every participant, and
`Succ`, the state after an enabled step; `Leads(Succ, s, steps, t)` says that the steps lead from s to t. Their theorems quantify over all step sequences from
the initial state, that is over all reachable states and interleavings, and what the state records of a run is tied to
its steps: the calls made and what functions returned. The sequential stateful parts are classes
whose methods are proved to do what pure functions say, and the theorems are about those functions over all runs.

Assumptions that are parameters or steps of the models: the clock never goes back and a sleep is not cut short; lock
nonces are distinct and a handle is used by one thread at a time; `rename` is atomic and fails onto a directory that is
not empty, as in the System Interfaces volume of IEEE Std 1003.1; storage ids are fresh and a failing storage call has
no effect; a watcher has one `Next` at a time, and a writer waiting for the read-write lock keeps new readers out, as
Go's does; `Do` is not called concurrently with `Wait`; the tomb keeps the first
non-nil reason. Integers are unbounded.

## Where the code and its comments differ

The model follows the code. In each case a lemma gives the input and another the exact condition.

- `Result` is said to give `ErrStopped` when there were no errors; a closed `Try` that started nothing gives a nil
  error (`ClosedUnused`), and a nil error without a value is given exactly by a completed, not a killed, `Try` whose
  fold is nil (`ResultCorrect`).
- After `Close` no function is said to be started; one still can be (`StartedAfterClose`), exactly while the loop
  lives and not every slot is abandoned (`StartableIff`).
- The loop of `Next` is said to go around at most twice. Another watcher's `Close` can send it around any number of
  times (`TurnsUnbounded`), and a late broadcast a third time with no such `Close` (`ThreeTurns`). Other watchers'
  `Close` apart, the comment is right exactly if at the first check no broadcast of an older call is still to come, or
  there is news already, or a call in `Lock` will bring some (`TwoTurnsIff`).
- A failed `Add` is said to leave nothing behind; it can leave the raw file (`FailedAddLeavesFile`), and
  `FailedAddLeavesNothing` says when it does not.
- `Unlock` is said to release a held lock; after an `Unlock` whose `RemoveAll` did not finish, the lock can be acquired
  again but never released (`WedgedReachable`), and `ReleasableIff` says when it can.
- `CommandString` is said to quote exactly what needs it; a single quote and an empty argument go out bare
  (`QuotesMissing`), and `CommandRoundTrip` says which arguments survive.

## Model

| member | source | states |
|---|---|---|
| `Lines.SplitPartition` | tailer/tailer.go:31-32 | Cutting a byte sequence into newline-terminated lines and an unterminated rest loses, repeats and moves no byte. |
| `Lines.SplitIntoLines` | tailer/tailer.go:31-32 | Each line has one newline, at its end, and the rest has none. |
| `Lines.AcceptedChosen` | tailer/tailer.go:27-29 | The accepted lines are the subsequence, in order, of exactly those terminated lines for which the filter function returns true; all of them for a nil filter. |
| `Lines.ChosenUnique` | tailer/tailer.go:27-29 | There is only one such subsequence. |
| `Lines.SeekPositionIsNthLast` | tailer/tailer.go:127-129 | The backward search ends at a line boundary from which exactly n accepted lines follow, the first line after it being accepted, or at 0 if there are fewer than n. |
| `Lines.NthLastStartUnique` | tailer/tailer.go:127-129 | No other position has that property. |
| `Lines.SeekPositionSelects` | tailer/tailer.go:127-129 | Reading on from it gives exactly the last n accepted lines. |
| `Seek.SeekLastLines` | tailer/tailer.go:129-206 | For every content, filter, line count and buffer size, if no call fails the offset ends where the last n lines that the filter function returns true for begin, or at 0 if there are fewer (the end for 0 lines); the filter saw whole lines, from the last one backwards, each at most once, and a nil filter none. |
| `Seek.TargetSeeks` | tailer/tailer.go:129-206 | The target of the search is that position. |
| `Seek.Scan` | tailer/tailer.go:184-200 | The inner loop keeps the search target while it cuts lines off the buffer, and stops at the target or with one line left. |
| `Seek.Prepend` | tailer/tailer.go:146-171 | Growing, shifting and reading leave file prefix plus buffer the same bytes as before. |
| `Seek.MakeRoom` | tailer/tailer.go:146-164 | The bytes left over are moved up unchanged behind at least one and at most offset free bytes. |
| `Seek.DropTail` | tailer/tailer.go:172-183 | Dropping an unterminated end, file data or the initial zero bytes, does not change the target. |
| `Seek.OneLineSeek` | tailer/tailer.go:186-188 | When only one line is left at the start of the file the target is 0, so not filtering that line is right. |
| `Tailer.Reader.ReadSlice` | tailer/tailer.go:212-222 | The buffered reader as a window: it consumes exactly the next line, or newline-free bytes before an error, for every buffer capacity. |
| `Tailer.Tailer.ReadPiece` | tailer/tailer.go:219-223 | A line longer than the buffer is joined from its pieces without loss. |
| `Tailer.Tailer.ReadLine` | tailer/tailer.go:210-245 | Returns the next line for which the filter function returns true, having passed only whole lines for which it does not; at end of file it is back at the start of the unfinished line. |
| `Tailer.Tailer.Poll` | tailer/tailer.go:104-121 | After the flush the output is the concatenation of exactly the terminated lines, from the start to where end of file was met, for which the filter function returns true; an error is reported only if a call failed. |
| `Tailer.Tailer.Loop` | tailer/tailer.go:95-125 | The same after each of any number of ticks, with appends in between: nothing lost, repeated or split. |
| `Tailer.TargetSelects` | tailer/tailer.go:129-206 | Reading the file from the seek target gives exactly the last min(n, m) of its m accepted lines, none for n = 0. |
| `Tailer.TailLast` | tailer/tailer.go:95-206 | On an unchanged file, the first tick after the seek puts out exactly the last n of the lines for which the filter function returns true. |
| `Try.ValuesConserved` | parallel/try.go:60-65 | In every reachable state the times a function returned a value, at most one, equals the number of places that value is in: on its way, the result, or closed; a stored result is never closed. |
| `Try.ReceivedOnce` | parallel/try.go:134-148 | The loop receives each function's outcome at most once and unchanged. |
| `Try.SlotsConserved` | parallel/try.go:54-59 | Free, held and abandoned slots sum to maxParallel; slots are abandoned only when closed or dying; at most maxParallel functions execute; giving a slot back never blocks. |
| `Try.RunningCounted` | parallel/try.go:78-108 | nrunning is the number of started functions not received; after close the live loop has some; results are discarded only when dying. |
| `Try.RequestsTaken` | parallel/try.go:163-199 | In every run the Try is closed exactly if Close was called, and dying exactly if Kill was or its loop has ended it. |
| `Try.RefusalsExplained` | parallel/try.go:122-156 | A refused Start gives ErrStopped only while dying and ErrClosed only when closed, by the select that says so. |
| `Try.ReceivedIsSteps` | parallel/try.go:87-95 | What the loop received is what the functions returned, in the order of the deliveries. |
| `Try.ResultCorrect` | parallel/try.go:78-108 | Result is the first value delivered with a nil error, or no value and the left fold of combineErrors over the errors in the order delivered, with ErrStopped for a nil fold only when killed. |
| `Try.CanAlwaysFinish` | parallel/try.go:78-148 | From every reachable state after a Close or a Kill, the loop and the started functions alone can run the Try to its end, whatever the functions return. |
| `Try.CanAlwaysSettle` | parallel/try.go:119-148 | And on until every started function has ended, when every value returned is the result or has been closed exactly once. |
| `Try.StartableIff` | parallel/try.go:122-171 | A call of Start can still have its function started exactly if the loop has not returned and not every slot is abandoned. |
| `Try.StartedAfterClose` | parallel/try.go:149-163 | A run in which a function is started by a Start made after Close. |
| `Try.ClosedUnused` | parallel/try.go:101-105 | Closing an unused Try gives no value and a nil error. |
| `Run.AtMostMax` | parallel/parallel.go:53-67 | Executing functions never exceed running, nor running the maximum. |
| `Run.MaxReached` | parallel/parallel.go:59-66 | Any number of functions up to the maximum can execute at once. |
| `Run.ReceiverTakes` | parallel/parallel.go:54-58 | A Do that finds a runner receiving hands its function over at once and adds none. |
| `Run.RunOnce` | parallel/parallel.go:53-92 | Every function is handed to a runner at most once, exactly if its Do has returned, and is then executing or has returned once. |
| `Run.WaitComplete` | parallel/parallel.go:71-92 | When Wait returns, every function passed to Do has returned once and the errors returned are exactly the multiset of errors the functions returned; nil exactly if none did. |
| `Run.BlockedDoCanReturn` | parallel/parallel.go:53-67 | A Do blocked at its last send always has a runner that is receiving or will be when its function returns. |
| `Run.WaitCanReturn` | parallel/parallel.go:71-92 | Once called, Wait can always return when the running functions do. |
| `LockNames.ValidNameMatches` | fslock/fslock.go:30 | The valid names are those that match the regular expression. |
| `LockNames.TemporaryNotValid` | fslock/fslock.go:30 | Neither kind of temporary name is a valid lock name. |
| `LockNames.TempNamesDiffer` | fslock/fslock.go:102-103 | Handles with different nonces never share a temporary directory. |
| `LockNames.ReleaseNamesDiffer` | fslock/fslock.go:202-203 | Nor a release directory. |
| `LockNames.TempNotRelease` | fslock/fslock.go:102-203 | The two kinds of temporary name are apart. |
| `LockNames.HexInjective` | fslock/fslock.go:102 | Hexadecimal writing of nonces of one length loses nothing. |
| `FsLock.MutualExclusion` | fslock/fslock.go:88-210 | Over every interleaving, failed call and crash, at most one handle for a name is between its acquiring and its releasing rename. |
| `FsLockCalls.OneHolder` | fslock/fslock.go:88-210 | The same, with acquiring and releasing renames read off the steps of the run. |
| `FsLockCalls.HoldersAreSteps` | fslock/fslock.go:88-210 | A handle holds its lock, with the message given to Lock, exactly from its acquiring rename to its releasing one. |
| `FsLock.AtomicPublication` | fslock/fslock.go:98-127 | A lock directory exists exactly while a handle holds the lock, and then has that handle's complete nonce and message. |
| `FsLock.QueriesAgree` | fslock/fslock.go:187-231 | IsLocked, IsLockHeld and Message answer what the abstract owner is and said, in every reachable state. |
| `FsLockCalls.CallsFollow` | fslock/fslock.go:88-210 | In every reachable state a handle has made exactly the system calls, in the source's order, that lead to where it is, and each return follows from the step before it. |
| `FsLockCalls.ReturnsTrue` | fslock/fslock.go:131-210 | Nil from Lock: this call made the acquiring rename and the lock is held. Nil from Unlock: this call made the releasing rename and the lock is not held. ErrLockNotHeld: it renamed nothing. |
| `FsLockCalls.CheckAnswers` | fslock/fslock.go:187-200 | The check of Unlock passes exactly if this handle holds the lock, and else Unlock returns ErrLockNotHeld. |
| `FsLockCalls.StatAnswers` | fslock/fslock.go:89-96 | acquire goes on exactly if nobody, itself included, holds the lock. |
| `FsLockCalls.RemovalAnswers` | fslock/fslock.go:208-210 | Unlock then returns nil exactly if nothing of the released directory is left. |
| `FsLockCalls.LoserCleansUp` | fslock/fslock.go:116-123 | A handle whose rename fails can remove its temporary directory and changes nothing else. |
| `FsLock.ReleaseIsOwn` | fslock/fslock.go:197-207 | What Unlock checked still holds when it renames, and after the rename nobody holds the lock. |
| `FsLock.CanAcquire` | fslock/fslock.go:88-127 | With no failure and nobody holding, acquire succeeds, a temporary name always being left to make, and changes nothing but the lock directory. |
| `FsLock.CanRelease` | fslock/fslock.go:197-210 | With no failure and the release name vacant, Unlock releases and leaves nothing behind. |
| `FsLock.ReleasableIff` | fslock/fslock.go:197-210 | A held lock can be released by some run exactly if its release name is vacant. |
| `FsLock.WedgedReachable` | fslock/fslock.go:205-209 | A run after which a held lock can never be released. |
| `Voyeur.NoLostWakeup` | voyeur/value.go:98-131 | In every reachable state a waiting watcher with a new version or a close is signalled, or a Broadcast is still to come. |
| `Voyeur.ParkedCanReturn` | voyeur/value.go:118-131 | Such a watcher returns with no further Set or Close than the one that may be in Lock already, which goes first; true exactly if there is a new value. |
| `Voyeur.HistoryIsSteps` | voyeur/value.go:26-65 | The values are the initial one and the arguments of the calls of Set, in the order of their locked sections; value and watchers are closed exactly if a Close was performed. |
| `Voyeur.WatcherHistory` | voyeur/value.go:98-131 | A watcher's value is the one its version numbers in that list. |
| `Voyeur.TrueNextsIncrease` | voyeur/value.go:118-122 | Of two true Nexts the later gives a later version, whatever happens in between. |
| `Voyeur.SignalsAreBroadcasts` | voyeur/value.go:128-131 | A waiting watcher is signalled exactly if a Broadcast has come since its last check. |
| `Voyeur.NextReturns` | voyeur/value.go:117-131 | True gives the value last set, newer than before; false only when closed and the value last set was already given; otherwise it waits with nothing new. |
| `Voyeur.TwoTurnsIff` | voyeur/value.go:110-131 | From a first check, every run in which no other watcher is closed keeps Next to two turns exactly if it is not so that an older broadcast is due with no news and no call in Lock. |
| `Voyeur.ThreeTurns` | voyeur/value.go:110-131 | A run with three turns of one Next and no other watcher closed. |
| `Voyeur.TurnsBounded` | voyeur/value.go:98-131 | In any run a Next makes at most one turn more than there were broadcasts since its call, and never waits on an uninitialised condition variable. |
| `Voyeur.TurnsUnbounded` | voyeur/value.go:110-131 | For every n another watcher's Close makes a Next take n turns in some run. |
| `Attempt.RetryBound` | attempt.go:29-80 | For any mix of Next and HasNext, the number N of true Nexts satisfies N <= 1, N <= Min or (N-1) Delay < Total, and attempts are at least Delay apart. |
| `Attempt.AnswersExactly` | attempt.go:43-80 | Both calls answer true exactly for the first attempt, below Min, after a true HasNext since the last attempt, or if neither now nor Delay after the last attempt is past Total. |
| `Attempt.WaitsExactly` | attempt.go:52-57 | The first attempt and one due are made at once, any other after the sleep. |
| `Attempt.HasNextPromise` | attempt.go:67-80 | In every run, after a true HasNext every result up to and including that of the next Next is true, whatever time has passed. |
| `Attempt.FalseOnlyAfterMin` | attempt.go:39-49 | Next is false only after at least max(1, Min) attempts. |
| `Attempt.FalseIsPermanent` | attempt.go:43-80 | After a false from either call every later result is false and no attempt is made. |
| `Attempt.NextSleep` | attempt.go:59-65 | Sleeping for the result reaches Delay after the last attempt, and overshoots only if that time has passed. |
| `Attempt.Attempt.Start` | attempt.go:29-37 | The constructor sets the fields of a new sequence of attempts. |
| `Attempt.Attempt.Next` | attempt.go:43-57 | The method's result, fields and clock are those of the pure model for what it read from the clock. |
| `Attempt.Attempt.HasNext` | attempt.go:70-80 | The same for HasNext. |
| `Attempt.Mix` | attempt.go:29-80 | Any mix of calls on the object is one of the runs the lemmas are about. |
| `StorageModel.OrphanStep` | filestorage/wrapper.go:90-147 | Exactly which calls make and unmake a raw file without a metadata document. |
| `StorageModel.OrphansExplained` | filestorage/wrapper.go:90-147 | Over every run there is one exactly if an Add whose SetStored failed left it and no later Remove took it away. |
| `StorageModel.DanglingStep` | filestorage/wrapper.go:118-147 | Exactly which calls make and unmake a document marked stored without its raw file. |
| `StorageModel.DanglingExplained` | filestorage/wrapper.go:118-147 | Over every run there is one exactly if a Remove whose RemoveMetadata failed took the file of a stored document that had one, and no later SetFile or Remove mended that. |
| `StorageModel.AgreeWithoutFaults` | filestorage/wrapper.go:49-147 | While no backend call fails, the documents marked stored are exactly those with a raw file. |
| `StorageModel.AddThenGet` | filestorage/wrapper.go:49-110 | Under the id that Add answered, Get returns what it stored, after any calls but a Remove of that id, whichever of them fail. |
| `StorageModel.AddAnswers` | filestorage/wrapper.go:80-110 | Add answers the id of the one document it added, stored with the file if there is one, or an error exactly if a backend call failed. |
| `StorageModel.AddedIdIsNew` | filestorage/wrapper.go:90-94 | No id is answered twice. |
| `StorageModel.SetFileAnswers` | filestorage/wrapper.go:113-128 | SetFile is done exactly if the document is there, the file is not and nothing fails; not found exactly without a document, already there exactly with a file. |
| `StorageModel.GetAnswers` | filestorage/wrapper.go:45-62 | Get gives the document and file of an id that is stored with its file, and is not found for any other. |
| `StorageModel.RemoveAnswers` | filestorage/wrapper.go:130-147 | What Remove removes for each failure, done exactly if the document was there and nothing fails. |
| `StorageModel.FailedAddLeavesNothing` | filestorage/wrapper.go:87-110 | A failed Add leaves nothing behind exactly if nothing was added, or the file was not and the undo succeeded. |
| `StorageModel.FailedAddLeavesFile` | filestorage/wrapper.go:94-107 | An Add that fails and leaves its raw file. |
| `StorageModel.HalfStoredStep` | filestorage/wrapper.go:69-128 | A raw file whose SetStored failed can be neither read nor stored again; only a Remove changes it. |
| `FileStorage.Storage.StoreFile` | filestorage/wrapper.go:69-79 | The method does what the model says of addFile. |
| `FileStorage.Storage.Add` | filestorage/wrapper.go:90-110 | The method does what the model says of Add, for some choice of failing backend calls; the id it returns is that of the document and file it stored. |
| `FileStorage.Storage.SetFile` | filestorage/wrapper.go:118-128 | The same for SetFile. |
| `FileStorage.Storage.Get` | filestorage/wrapper.go:49-62 | The same for Get. |
| `FileStorage.Storage.Remove` | filestorage/wrapper.go:137-147 | The same for Remove. |
| `Shell.ShQuoteInContext` | trivial.go:53-58 | Wherever unquoted text is read, a quoted string adds exactly itself to the word being read. |
| `Shell.ShQuoteRoundTrip` | trivial.go:53-58 | ShQuote(s) reads back as the one word s exactly if s has no NUL. |
| `Shell.CommandString` | trivial.go:64-90 | The nested loops write the text that the reference function gives. |
| `Shell.CommandRoundTrip` | trivial.go:60-90 | For every list of arguments the text reads back as the arguments exactly if each is safe: not empty, when quoted without NUL and backquote, when bare of ordinary characters only. |
| `Shell.CommandRoundTripPlain` | trivial.go:60-90 | It does for non-empty arguments without NUL and without any special character but white space, double quotes, dollars and backslashes. |
| `Shell.QuotedExactly` | trivial.go:67-87 | An argument is written in double quotes exactly if it has one of the listed white space characters, a double quote, dollar or backslash, and else as it is. |
| `Shell.CommandKeepsNonEmpty` | trivial.go:64-90 | Empty arguments among safe ones are lost and nothing else. |
| `Shell.QuotesMissing` | trivial.go:60-63 | A single quote and an empty argument are written bare and do not read back. |

## Left out

- The tomb of the Tailer (Stop, Wait, Dead, Err): the loop may be stopped after any tick, which `Loop` covers by its number of ticks.
- Truncation of a followed file: the source leaves it open as well.
- Readers that return data together with an error: `Files` reads as operating system files do.
- BreakLock: a forced, non-atomic removal; mutual exclusion holds without it.
- Symbolic links, foreign files and several parent directories in fslock: one directory used by fslock alone is modelled.
- Partial writes of fslock's files: a file is created empty and then written in one step.
- Concurrent calls of the storage wrapper: calls follow one another; the source promises nothing about concurrent ones.
- Metadata, List and Close of the storage wrapper: they forward to the backends.
- Error texts, annotations and logging.
- Fairness of the Go scheduler: progress results say that the participants can finish, not that they will.
- Wrap-around of version counters and durations.
- Two Nexts at once on one watcher, and Get, Closed and Value of voyeur: the first is a data race, the others read one field.
- Go strings that are not valid UTF-8: `CommandString` would replace bytes in them.
- Shell rules beyond sections 2.2.1 to 2.2.3 of the POSIX Shell Command Language: the reader gives no answer on texts that need them.
- Archives, file copying, size parsing, sets, registries, key-value parsing, feature flags, proxies, hashes, limiter, UUIDs, timing, YAML, gzip, SHA and password helpers: library calls or members that would be easy.
