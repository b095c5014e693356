# Verified models for the IOCP server and its vendored libraries

A Dafny model of the parts of the repository where correctness is hard to see by reading: the
readers/writers lock and the manual-reset event of log4cplus, its integer printing, tokenizing and
reference counting, the structural engine of `cpplint.py`, and the server's timer scheduler, job
processors and session pool.  `dafny verify dfyconfig.toml` checks everything.

| file | what it models |
|---|---|
| `Common.dfy` | an optional value and the range of a 32-bit `unsigned` |
| `SharedMutex.dfy`, `SharedMutexSafety.dfy`, `SharedMutexProgress.dfy`, `SharedMutexOperations.dfy`, `SharedMutexObject.dfy` | the readers/writers lock: transition system and invariant, safety over runs, deadlock, what a caller gets, the object |
| `Preprocessor.dfy`, `NestingBlocks.dfy`, `NestingLaws.dfy`, `NestingState.dfy` | cpplint's nesting stack with preprocessor checkpoints: on values, its blocks, what lines do to them, and the objects with their copies |
| `BracketMatching.dfy`, `TextInside.dfy`, `CommentEraser.dfy`, `IncludeOrder.dfy` | cpplint's bracket matchers, three-bracket parser, comment eraser and include-order automaton |
| `ManualResetEvent.dfy` | the event with its generation counter |
| `Decimal.dfy`, `Tokenizer.dfy` | integer printing and tokenizing |
| `Scheduler.dfy`, `SchedulerTheorems.dfy`, `SchedulerObjects.dfy` | the timer scheduler and the processors: events and invariant, theorems over runs, the objects |
| `SharedObjectPtr.dfy` | intrusive reference counting |
| `SessionPool.dfy` | the growing pool and its re-entrant lock |

## How it is modelled

Concurrent code is a transition system with one atomic step for each statement that touches shared
state (the lock) or each critical section (event, scheduler), over any set of threads and any
schedule.  The lock's guards release in reverse order of construction (`m1`, `r`, `m3`).  Threads
unlock only what they locked.  Counters of type `unsigned` wrap at 2^32.  Objects whose fields the
code updates are classes; each of their methods is proved to be the step on values about which the
theorems over whole runs are proved.  Clock readings, wake-ups, schedules and the answers of regular
expressions are parameters that may have any value.

## Where the code falls short of what one would expect

- The lock deadlocks with more than 2^32 threads, because `reader_count` wraps to 0; with at most
  2^32 it never does, unless the permit of `r` was lost as below (`SharedMutexProgress.DeadlockFreeIff`).
- If `w.lock()` throws in `wrlock`, the handler lowers `writer_count` without giving back `r`.
  Exclusion still holds, but when the thrower is the only counted writer nobody new ever gets in
  again (`SharedMutexSafety.PermitLostIff`, `LostPermitShutsTheLock`, `ThrowLosesThePermit`,
  `SharedMutexProgress.DeadlockAfterThrow`).
- A waiter on the event misses its signals if a multiple of 2^32 of them arrive before it wakes
  (`ManualResetEvent.WakeLeavesIff`), and `timed_wait` returns false although a
  signal arrived exactly if its timeout comes before its next wake-up (`SignalMissedIff`,
  `TimedWaitResult`, `TimedWaitMissesASignal`).
- A job scheduled with a key that is already pending is dropped without notice
  (`SchedulerTheorems.RefusedIffKeyPresent`, `SecondJobIsDropped`), and due order holds exactly if
  no job is scheduled late (`IncreasingIffNoneLate`, `LateJobIsOvertaken`).
- Joining tokens with the delimiter and tokenizing again loses a last token that is empty
  (`Tokenizer.JoinedRoundTrip`).

## Model

| member | source | states |
|---|---|---|
| `SharedMutexSafety.Safety` | gordonlee_iocp/Libraries/log4cplus/thread/impl/syncprims-pmsm.h:59-119 | in every state of every run of any number of threads over the four operations, exceptions from `w.lock()` included: a writer is alone, both counters are the number of threads between their increment and decrement (as 32-bit values), `w` and `r` are released only when they are 0, and at most one reader is queued on `r` |
| `SharedMutex.StepKeepsInv` | gordonlee_iocp/Libraries/log4cplus/thread/impl/syncprims-pmsm.h:59-119 | the invariant over program counters, mutex owners, counters and semaphores is kept by every statement of every thread |
| `SharedMutex.StepKeepsReaderSide` | gordonlee_iocp/Libraries/log4cplus/thread/impl/syncprims-pmsm.h:65-81 | every statement keeps the relation between `reader_count`, `w`, the counted readers and the writer that owns `w` |
| `SharedMutex.StepKeepsWriterSide` | gordonlee_iocp/Libraries/log4cplus/thread/impl/syncprims-pmsm.h:90-118 | every statement keeps the relation between `writer_count`, `r`, the counted writers and the reader that owns `r` |
| `SharedMutexSafety.RunKeepsInv` | gordonlee_iocp/Libraries/log4cplus/thread/impl/syncprims-pmsm.h:59-119 | the invariant holds throughout every run that starts in it |
| `SharedMutexSafety.InvNeverOverReleased` | gordonlee_iocp/Libraries/log4cplus/thread/impl/syncprims-win32.h:131-138 | in every invariant state `w` and `r` have at most one permit and a thread about to release one finds it at 0, so a semaphore with maximum 1 is never over-released |
| `SharedMutexSafety.InvExclusive` | gordonlee_iocp/Libraries/log4cplus/thread/impl/syncprims-pmsm.h:85-106 | in every invariant state two threads inside, one of them a writer, are the same thread |
| `SharedMutexSafety.WriterPreference` | gordonlee_iocp/Libraries/log4cplus/thread/impl/syncprims-pmsm.h:90-95 | in every run, while the writer group holds `r`, no thread gets past the acquisition of `r` in `rdlock`, so over that whole stretch the set of readers past it only shrinks |
| `SharedMutexSafety.WriterGroupBoundaries` | gordonlee_iocp/Libraries/log4cplus/thread/impl/syncprims-pmsm.h:113-118 | the group takes `r` exactly at the first writer's `r.lock()` and gives it up only at the last writer's `r.unlock()` or, after a throw, in the handler |
| `SharedMutexSafety.WritersHoldingRShutReadersOut` | gordonlee_iocp/Libraries/log4cplus/thread/impl/syncprims-pmsm.h:63-64 | while the writers hold `r` no reader is between taking and releasing it |
| `SharedMutexSafety.ClosedRun` | gordonlee_iocp/Libraries/log4cplus/thread/impl/syncprims-pmsm.h:63-64 | while `r` is unavailable, for whatever reason, no reader gets in over the whole stretch |
| `SharedMutexSafety.PermitsOfRAfterStep` | gordonlee_iocp/Libraries/log4cplus/thread/impl/syncprims-pmsm.h:100-105 | the one permit of `r` is lost by exactly one kind of step: the handler of `wrlock` run by the only counted writer |
| `SharedMutexSafety.PermitLostIff` | gordonlee_iocp/Libraries/log4cplus/thread/impl/syncprims-pmsm.h:96-105 | in every state of every run the permit of `r` is lost if and only if, at an earlier step, the only counted writer ran the handler; otherwise there is exactly one |
| `SharedMutexSafety.LostPermitShutsTheLock` | gordonlee_iocp/Libraries/log4cplus/thread/impl/syncprims-pmsm.h:100-105 | in every run, once that permit is lost it stays lost, no writer is ever inside again and no further reader gets in |
| `SharedMutexSafety.ThrowLosesThePermit` | gordonlee_iocp/Libraries/log4cplus/thread/impl/syncprims-pmsm.h:96-105 | a concrete run: a single `wrlock` whose `w.lock()` throws ends with everybody idle and the permit lost |
| `SharedMutexProgress.SomeThreadCanMove` | gordonlee_iocp/Libraries/log4cplus/thread/impl/syncprims-pmsm.h:59-119 | following who waits for whom always ends at a thread that is inside its critical section or has an enabled step |
| `SharedMutexProgress.DeadlockFree` | gordonlee_iocp/Libraries/log4cplus/thread/impl/syncprims-pmsm.h:59-119 | no reachable state of at most 2^32 threads is deadlocked, throws included, unless the permit of `r` was lost |
| `SharedMutexProgress.DeadlockAfterThrow` | gordonlee_iocp/Libraries/log4cplus/thread/impl/syncprims-pmsm.h:96-105 | that condition is needed: a concrete run, for every set of threads, in which a throw loses the permit and the next `rdlock` is stuck |
| `SharedMutexProgress.DeadlockWithMoreThreads` | gordonlee_iocp/Libraries/log4cplus/thread/impl/syncprims-pmsm.h:66-69 | for every set of more than 2^32 threads there is a run that deadlocks: the wrapped `reader_count` makes a reader wait for `w` while it owns `m1` |
| `SharedMutexProgress.DeadlockFreeIff` | gordonlee_iocp/Libraries/log4cplus/thread/impl/syncprims-pmsm.h:59-119 | all runs that did not lose the permit of `r` are deadlock-free if and only if there are at most 2^32 threads |
| `SharedMutexOperations.WriterGetsIn` | gordonlee_iocp/Libraries/log4cplus/thread/impl/syncprims-pmsm.h:87-106 | in every run a thread that called `wrlock` and is idle again was inside as a writer in between, unless its `w.lock()` threw |
| `SharedMutexOperations.ReaderGetsIn` | gordonlee_iocp/Libraries/log4cplus/thread/impl/syncprims-pmsm.h:61-70 | in every run a thread that called `rdlock` and is idle again was inside as a reader in between |
| `SharedMutexOperations.WriterAlone` | gordonlee_iocp/Libraries/log4cplus/thread/impl/syncprims-pmsm.h:85-119 | without contention `wrlock` lets its caller in holding `w` and `r` with one counted writer, and `wrunlock` gives back exactly the initial state |
| `SharedMutexOperations.ReaderAlone` | gordonlee_iocp/Libraries/log4cplus/thread/impl/syncprims-pmsm.h:59-82 | without contention `rdlock` lets its caller in holding `w` with `r` free and one counted reader, and `rdunlock` gives back exactly the initial state |
| `SharedMutexOperations.GuardsNest` | gordonlee_iocp/Libraries/log4cplus/thread/impl/syncprims-pmsm.h:63-70 | `rdlock` releases its guards in reverse order: whoever owns `m1` there still has `r` and `m3`, and whoever still has `r` owns `m3` |
| `SharedMutexOperations.NothingOwnedInside` | gordonlee_iocp/Libraries/log4cplus/thread/impl/syncprims-pmsm.h:59-119 | a thread that is idle or inside owns no mutex |
| `SharedMutex.NewSemaphore` | gordonlee_iocp/Libraries/log4cplus/thread/impl/syncprims-pthreads.h:141-208 | the constructor's count-down leaves the smallest of `max`, `initial` and the system's limit |
| `SharedMutexObject.Lock.constructor` | gordonlee_iocp/Libraries/log4cplus/thread/impl/syncprims-pmsm.h:43-51 | the new lock has one permit in `w` and `r`, zero counters and free mutexes |
| `SharedMutexObject.Lock.ReaderStatement` | gordonlee_iocp/Libraries/log4cplus/thread/impl/syncprims-pmsm.h:59-82 | each statement of `rdlock` and `rdunlock`, done on the fields, is the step of the transition system |
| `SharedMutexObject.Lock.WriterStatement` | gordonlee_iocp/Libraries/log4cplus/thread/impl/syncprims-pmsm.h:85-119 | each statement of `wrlock`, its handler and `wrunlock`, done on the fields, is the step of the transition system |
| `SharedMutexObject.Lock.Advance` | gordonlee_iocp/Libraries/log4cplus/thread/impl/syncprims-pmsm.h:59-119 | a thread moves exactly when its next statement is enabled; a blocked thread changes nothing |
| `SharedMutexObject.Lock.Interleave` | gordonlee_iocp/Libraries/log4cplus/thread/impl/syncprims-pmsm.h:59-119 | any schedule driven on the object goes only through exclusive states in which no semaphore is over-released |
| `Preprocessor.WellNestedProjection` | gordonlee_iocp/Script/cpplint.py:1836-1890 | for any per-line stack transition and any well-nested #if/#else/#elif/#endif sequence, from any state: the final stack is the fold over the lines outside #else parts, and the checkpoints are restored |
| `Preprocessor.LiveProjection` | gordonlee_iocp/Script/cpplint.py:1836-1890 | the same at every line outside an #else part, whatever came before, with unclosed blocks and stray directives allowed |
| `Preprocessor.SavedProjection` | gordonlee_iocp/Script/cpplint.py:1861-1872 | inside an #else part that fold is what the outermost such block has saved for its #endif |
| `Preprocessor.RunMirrors` | gordonlee_iocp/Script/cpplint.py:1836-1904 | the invariant of a run behind the three projections: checkpoints mirror the open blocks |
| `Preprocessor.InsideBlock` | gordonlee_iocp/Script/cpplint.py:1857-1872 | inside a block, before the first #else the stack is that of the #if part; in every later part it is the stack from before the #if with the effect of that part alone; the checkpoint holds what the #endif will restore |
| `Preprocessor.ElsePart` | gordonlee_iocp/Script/cpplint.py:1861-1872 | an #else or #elif saves the stack the first time only and starts again from the stack before the #if |
| `NestingBlocks.BalancedBody` | gordonlee_iocp/Script/cpplint.py:2012-2046 | a token sequence with matching braces leaves the nesting stack as it was |
| `NestingBlocks.BracesStayAbove` | gordonlee_iocp/Script/cpplint.py:2012-2046 | inside a block, braces push and pop only blocks above it, one for each open brace |
| `NestingBlocks.HeadWithBody` | gordonlee_iocp/Script/cpplint.py:2019-2046 | a namespace or class head, its brace, a balanced body and the closing brace leave the stack without the head |
| `NestingBlocks.HeadDropped` | gordonlee_iocp/Script/cpplint.py:2030-2040 | a head that has not seen its brace is dropped at `;` or `)` |
| `NestingLaws.DeclarationLine` | gordonlee_iocp/Script/cpplint.py:1941-1984 | a line of declarations leaves the blocks below as they were, counts its parentheses in the innermost, and adds one block for each namespace, open exactly if its brace was on the line, and a class head: private, or public for a struct, and derived exactly if there is a bare colon |
| `NestingLaws.NamespaceLine` | gordonlee_iocp/Script/cpplint.py:1932-1947 | the same for a line of namespace heads alone |
| `NestingLaws.ClassIgnoredInParentheses` | gordonlee_iocp/Script/cpplint.py:1974-1979 | while the innermost count is not 0 a class declaration has no effect |
| `NestingLaws.RestAfterClass` | gordonlee_iocp/Script/cpplint.py:1979-2046 | what follows a class head on its line acts as on lines of its own, the access specifier before the braces |
| `NestingLaws.InnermostOnly` | gordonlee_iocp/Script/cpplint.py:1908-2010 | a line without braces changes only the innermost block: it adds the depth change to its count, sets its access if it is a class with a specifier on the line, and makes a class derived that still waits for its brace and sees a bare colon |
| `NestingLaws.ParenthesesAddUp` | gordonlee_iocp/Script/cpplint.py:1908-1911 | over lines that neither push nor pop, the innermost count grows by the sum of the depth changes |
| `NestingLaws.OpenBraceLine` | gordonlee_iocp/Script/cpplint.py:2020-2029 | an opening brace completes a head or pushes a plain open block, which is assembly exactly if the line says so |
| `NestingLaws.CloseBraceLine` | gordonlee_iocp/Script/cpplint.py:2041-2045 | a closing brace removes the innermost block and no other |
| `NestingLaws.HeadRemoved` | gordonlee_iocp/Script/cpplint.py:2030-2040 | a semicolon or closing parenthesis removes a head without its brace |
| `NestingLaws.EmptyStays` | gordonlee_iocp/Script/cpplint.py:2039-2045 | closing braces and semicolons on an empty stack do nothing |
| `NestingLaws.ClassOpens` | gordonlee_iocp/Script/cpplint.py:1717-1720 | a class from its declaration over any lines to its brace is derived exactly if one of these lines has a bare colon, and keeps its default access |
| `NestingLaws.AssemblyLine` | gordonlee_iocp/Script/cpplint.py:1914-1927 | every change of the inline-assembly state of the innermost block |
| `NestingLaws.AssemblyEnds` | gordonlee_iocp/Script/cpplint.py:1914-1927 | assembly lasts from its opening parenthesis to the line that closes it, is ending for one line, and then it is ordinary code |
| `NestingLaws.AfterLinesIsRun` | gordonlee_iocp/Script/cpplint.py:1892-2046 | the lines of these laws are the run that `UpdateAll` makes |
| `NestingState.NestingState.constructor` | gordonlee_iocp/Script/cpplint.py:1807-1817 | both stacks start empty |
| `NestingState.DeepCopy` | gordonlee_iocp/Script/cpplint.py:1857-1872 | the copied stack has the same values in new objects only |
| `NestingState.NestingState.NothingShared` | gordonlee_iocp/Script/cpplint.py:1857-1885 | no block object is on the stack and in a checkpoint, in two checkpoints, in both lists of one, or twice in any list: the copies leave no aliasing |
| `NestingState.NestingState.BeginIf` | gordonlee_iocp/Script/cpplint.py:1857-1860 | #if saves a copy of the stack and leaves the stack itself alone |
| `NestingState.NestingState.BeginElse` | gordonlee_iocp/Script/cpplint.py:1861-1872 | #else and #elif save the stack the first time only and restore a fresh copy of the one before the #if |
| `NestingState.NestingState.EndBlock` | gordonlee_iocp/Script/cpplint.py:1876-1887 | #endif takes the saved stack itself, without a copy, if an #else was passed |
| `NestingState.NestingState.UpdatePreprocessor` | gordonlee_iocp/Script/cpplint.py:1836-1890 | the objects go through exactly the step on values; blocks on the stack come from the old stack, a checkpoint, or are new, and every object in use was in use before or is new |
| `NestingState.BlockInfo.CountLine` | gordonlee_iocp/Script/cpplint.py:1906-1927 | parenthesis count and inline-assembly state of the innermost block, updated in place |
| `NestingState.NestingState.ConsumeToken` | gordonlee_iocp/Script/cpplint.py:2012-2046 | one brace, semicolon or parenthesis: the objects go through the step on values |
| `NestingState.NestingState.ConsumeDeclarations` | gordonlee_iocp/Script/cpplint.py:1929-1979 | namespace and class heads found at the start of the line are pushed |
| `NestingState.NestingState.Update` | gordonlee_iocp/Script/cpplint.py:1892-2046 | one whole line, in place, is the step on values; the objects used afterwards are those used before and new ones |
| `NestingState.NestingState.UpdateAll` | gordonlee_iocp/Script/cpplint.py:1892-2046 | all lines, in place: the state is the run on values, and for a well-nested sequence the stack is the fold over the lines outside #else parts and the checkpoints are restored |
| `TextInside.GetTextInside` | gordonlee_iocp/Script/cpplint.py:3667-3693 | returns w exactly when the text after the opener has a prefix w followed by its closer with w balanced over (), [] and {}; otherwise None |
| `TextInside.FinishIffInside` | gordonlee_iocp/Script/cpplint.py:3677-3693 | the stack machine finishes just past e if and only if e closes a balanced text: sound and complete for the grammar |
| `TextInside.InsideIsUnique` | gordonlee_iocp/Script/cpplint.py:3677-3693 | there is at most one such w |
| `TextInside.BalancedMeans` | gordonlee_iocp/Script/cpplint.py:3664-3665 | the grammar of balanced texts, character by character: `(` with `)`, `[` with `]`, `{` with `}` |
| `TextInside.InsideMeans` | gordonlee_iocp/Script/cpplint.py:3678-3693 | the same for the text after an opener |
| `TextInside.BalancedIsTransparent` | gordonlee_iocp/Script/cpplint.py:3680-3688 | the machine runs over any balanced text back to the same stack |
| `TextInside.PopsAfterBalanced` | gordonlee_iocp/Script/cpplint.py:3680-3688 | whenever the machine empties its stack, the top was popped right after a balanced text |
| `BracketMatching.CloseExpression` | gordonlee_iocp/Script/cpplint.py:1242-1285 | the line-by-line scan finds exactly the closer of the flat text's scan: the least position where openers equal closers, `(` with `)`, `[` with `]`, `{` with `}` and `<` with `>`; it fails if and only if no such position exists before the end |
| `BracketMatching.ReverseCloseExpression` | gordonlee_iocp/Script/cpplint.py:1315-1357 | the backward scan finds exactly the opener of the pair, with the same four pairs; it fails only if nothing before opens it |
| `BracketMatching.CloseThenReverse` | gordonlee_iocp/Script/cpplint.py:1242-1357 | going back from just before the returned position gives exactly the original opener, and a closer is found if and only if there is one |
| `BracketMatching.ReverseThenClose` | gordonlee_iocp/Script/cpplint.py:1242-1357 | conversely, closing from the returned opener gives just past the original closer |
| `BracketMatching.FindEndOfExpressionInLine` | gordonlee_iocp/Script/cpplint.py:1218-1239 | the first closer that brings the carried depth to 0, or the depth at the end of the line |
| `BracketMatching.FindStartOfExpressionInLine` | gordonlee_iocp/Script/cpplint.py:1288-1312 | the last opener that brings the carried depth to 0, or the depth at the start of the line; with equal characters nothing is found and every occurrence is counted |
| `BracketMatching.UniqueCloser` | gordonlee_iocp/Script/cpplint.py:1232-1239 | an opener has one closer |
| `BracketMatching.UniqueOpener` | gordonlee_iocp/Script/cpplint.py:1305-1312 | a closer has one opener |
| `BracketMatching.DepthCounts` | gordonlee_iocp/Script/cpplint.py:1232-1236 | the depth of a stretch is how many more openers than closers it has |
| `CommentEraser.RemoveMultiLineComments` | gordonlee_iocp/Script/cpplint.py:1139-1152 | terminates; the array is what a one-pass automaton over the original lines prescribes, so the line count and all lines outside terminated comments stay; the error names the start of the unterminated comment, if and only if there is one |
| `CommentEraser.NothingOpensIffNoError` | gordonlee_iocp/Script/cpplint.py:1111-1152 | the result has a line the start search would find if and only if the error was reported |
| `CommentEraser.Idempotent` | gordonlee_iocp/Script/cpplint.py:1139-1152 | erasing what was erased changes nothing and reports the same line |
| `CommentEraser.RemoveTwice` | gordonlee_iocp/Script/cpplint.py:1139-1152 | a second run on the array gives the same answer and leaves every line alone |
| `CommentEraser.RemainingComment` | gordonlee_iocp/Script/cpplint.py:1139-1152 | a line of the result is inside a comment if and only if it was and no later line ends it |
| `CommentEraser.LineMeaning` | gordonlee_iocp/Script/cpplint.py:1131-1152 | a line becomes `// dummy` exactly if it lies in a comment that it or a later line ends, and otherwise stays |
| `CommentEraser.OneLineCommentStays` | gordonlee_iocp/Script/cpplint.py:1114-1117 | a line that ends its own comment, outside of any other, is never changed |
| `CommentEraser.OpensMeans` | gordonlee_iocp/Script/cpplint.py:1114-1117 | which stripped lines open a comment, by their text |
| `CommentEraser.EndsMeans` | gordonlee_iocp/Script/cpplint.py:1125 | which stripped lines end a comment, by their text |
| `CommentEraser.StripMeans` | gordonlee_iocp/Script/cpplint.py:1114 | stripping removes all white space at both ends and nothing else |
| `CommentEraser.FindNextMultiLineCommentStart` | gordonlee_iocp/Script/cpplint.py:1111-1119 | the first line from here that opens a comment and does not end it, or the number of lines |
| `CommentEraser.FindNextMultiLineCommentEnd` | gordonlee_iocp/Script/cpplint.py:1122-1128 | the first line from here that ends with the end marker, or the number of lines |
| `CommentEraser.RemoveMultiLineCommentsFromRange` | gordonlee_iocp/Script/cpplint.py:1131-1136 | overwrites exactly the range |
| `IncludeOrder.AcceptedLanguage` | gordonlee_iocp/Script/cpplint.py:621-672 | from every section, the accepted header sequences are exactly the rest of M* C* X* (M or O)* that is still reachable |
| `IncludeOrder.IncludeState.CheckAll` | gordonlee_iocp/Script/cpplint.py:621-672 | no error over a whole file if and only if the header types are a word of M* C* X* (M or O)* |
| `IncludeOrder.IncludeState.CheckNextIncludeOrder` | gordonlee_iocp/Script/cpplint.py:621-672 | the section never decreases and stays on an error; the error names the header and the section; the last header is forgotten on an error or a new section |
| `ManualResetEvent.WakeLeavesIff` | gordonlee_iocp/Libraries/log4cplus/thread/impl/syncprims-pthreads.h:337-356 | a blocked thread that wakes leaves if and only if the number of signals since it began to wait is not a multiple of 2^32; resets and spurious wake-ups do not matter |
| `ManualResetEvent.ReturnsOnlyAfterSignal` | gordonlee_iocp/Libraries/log4cplus/thread/impl/syncprims-pthreads.h:337-356 | `wait` that blocked returns only if a `signal` happened since |
| `ManualResetEvent.ResetDoesNotSwallowSignal` | gordonlee_iocp/Libraries/log4cplus/thread/impl/syncprims-pthreads.h:320-403 | a thread blocked when `signal` runs leaves at its next wake even if `reset` intervenes, given fewer than 2^32 signals since its snapshot |
| `ManualResetEvent.WrappedSignalsAreLost` | gordonlee_iocp/Libraries/log4cplus/thread/impl/syncprims-pthreads.h:343-354 | the bound is tight: after exactly 2^32 signals the thread stays blocked |
| `ManualResetEvent.SigcountCounts` | gordonlee_iocp/Libraries/log4cplus/thread/impl/syncprims-pthreads.h:326-327 | `sigcount` is the number of signals modulo 2^32 in every run |
| `ManualResetEvent.SnapshotIsKept` | gordonlee_iocp/Libraries/log4cplus/thread/impl/syncprims-pthreads.h:343-354 | while a thread is blocked its snapshot is `sigcount` as it was when the wait began |
| `ManualResetEvent.SignaledIffLastChange` | gordonlee_iocp/Libraries/log4cplus/thread/impl/syncprims-pthreads.h:320-403 | the event is signaled if and only if the last `signal` or `reset` was a `signal`, or there was none and it was constructed so |
| `ManualResetEvent.EnterReturnsIff` | gordonlee_iocp/Libraries/log4cplus/thread/impl/syncprims-pthreads.h:341-357 | a call returns at once if and only if the last change signaled the event; otherwise its thread is blocked |
| `ManualResetEvent.NewEvent` | gordonlee_iocp/Libraries/log4cplus/thread/impl/syncprims-pthreads.h:295-303 | a new event is signaled as its constructor was told |
| `ManualResetEvent.EventObject.constructor` | gordonlee_iocp/Libraries/log4cplus/thread/impl/syncprims-pthreads.h:295-303 | the same on the fields, with no signal counted |
| `ManualResetEvent.SignalMissedIff` | gordonlee_iocp/Libraries/log4cplus/thread/impl/syncprims-pthreads.h:371-389 | in every run with fewer than 2^32 signals since its snapshot: a thread blocked when `signal` runs is still blocked at a later event, where a timeout makes `timed_wait` return false, if and only if it did not wake or time out in between |
| `ManualResetEvent.TimedWaitResult` | gordonlee_iocp/Libraries/log4cplus/thread/impl/syncprims-pthreads.h:372-392 | after a signal, the wake-up or timeout that comes first ends the call, and the call returns true if and only if it was a wake-up |
| `ManualResetEvent.TimedWaitMissesASignal` | gordonlee_iocp/Libraries/log4cplus/thread/impl/syncprims-pthreads.h:380-381 | a concrete run in which `timed_wait` returns false although the event is signaled |
| `ManualResetEvent.EventObject.DoSignal` | gordonlee_iocp/Libraries/log4cplus/thread/impl/syncprims-pthreads.h:320-332 | sets the flag and increments the 32-bit counter |
| `ManualResetEvent.EventObject.DoReset` | gordonlee_iocp/Libraries/log4cplus/thread/impl/syncprims-pthreads.h:396-403 | clears the flag only |
| `ManualResetEvent.EventObject.Wait` | gordonlee_iocp/Libraries/log4cplus/thread/impl/syncprims-pthreads.h:337-356 | for every interleaving of other threads' signals and resets, the loop ends at the first wake-up at which the signals so far are not a multiple of 2^32, and immediately if signaled at entry |
| `Decimal.ConvertIntegerToString` | gordonlee_iocp/Libraries/log4cplus/helpers/stringhelper.h:154-195 | for every signed or unsigned width and every value: the output is canonical, parses back to the value, fits the `digits10 + 2` buffer, and fills it for the minimum |
| `Decimal.Step1` | gordonlee_iocp/Libraries/log4cplus/helpers/stringhelper.h:101-124 | every negative value becomes positive within the type, at the minimum after writing its last digit |
| `Decimal.SplitMinimum` | gordonlee_iocp/Libraries/log4cplus/helpers/stringhelper.h:112-118 | at the minimum no intermediate overflows and the split-off digit is 1 to 9 |
| `Decimal.WriteDigits` | gordonlee_iocp/Libraries/log4cplus/helpers/stringhelper.h:181-186 | the backward loop writes exactly the digits and leaves room for the sign |
| `Decimal.Digits10Bounds` | gordonlee_iocp/Libraries/log4cplus/helpers/stringhelper.h:163 | the bound behind the buffer size: 10^digits10 <= 2^digits < 10^(digits10 + 1) |
| `Decimal.CanonicalUnique` | gordonlee_iocp/Libraries/log4cplus/helpers/stringhelper.h:154-195 | an integer has one canonical numeral |
| `Decimal.PrintedIffCanonical` | gordonlee_iocp/Libraries/log4cplus/helpers/stringhelper.h:154-195 | a string is what is printed if and only if it is the canonical numeral of the value |
| `Decimal.UsualDigits` | gordonlee_iocp/Libraries/log4cplus/helpers/stringhelper.h:185 | the ten digit characters have their usual values |
| `Decimal.Positional` | gordonlee_iocp/Libraries/log4cplus/helpers/stringhelper.h:181-186 | numerals are read in base ten, the last digit being the units |
| `Decimal.SomeNumerals` | gordonlee_iocp/Libraries/log4cplus/helpers/stringhelper.h:154-195 | concrete numerals and strings that are none |
| `Tokenizer.Tokenize` | gordonlee_iocp/Libraries/log4cplus/helpers/stringhelper.h:67-91 | without collapsing: no token has the delimiter and joining gives the input back, with one trailing delimiter exactly when the input ends with one; with collapsing: the same for the input with delimiter runs squeezed to one |
| `Tokenizer.TokenizationUnique` | gordonlee_iocp/Libraries/log4cplus/helpers/stringhelper.h:67-91 | that determines the tokens: a string has one tokenization |
| `Tokenizer.TokenizeBothWays` | gordonlee_iocp/Libraries/log4cplus/helpers/stringhelper.h:83-85 | collapsing gives exactly the tokens that not collapsing gives on the squeezed string |
| `Tokenizer.TerminatedRoundTrip` | gordonlee_iocp/Libraries/log4cplus/helpers/stringhelper.h:67-91 | any delimiter-free tokens are recovered from their terminated form |
| `Tokenizer.JoinedRoundTrip` | gordonlee_iocp/Libraries/log4cplus/helpers/stringhelper.h:67-91 | they are recovered from their joined form if and only if there are none or the last is not empty |
| `Tokenizer.SkipRun` | gordonlee_iocp/Libraries/log4cplus/helpers/stringhelper.h:83-85 | the inner loop stops at the last delimiter of the run and does not change the squeezed text |
| `Tokenizer.SqueezedHasNoRuns` | gordonlee_iocp/Libraries/log4cplus/helpers/stringhelper.h:83-85 | the squeezed text has no two adjacent delimiters, keeps all other characters in order and ends with a delimiter if and only if the text does |
| `Tokenizer.SqueezeNothing` | gordonlee_iocp/Libraries/log4cplus/helpers/stringhelper.h:83-85 | a string without adjacent delimiters is its own squeezed form |
| `Tokenizer.SqueezeOnce` | gordonlee_iocp/Libraries/log4cplus/helpers/stringhelper.h:83-85 | of two adjacent delimiters one is as good as both, which with the former determines the squeezed form |
| `SchedulerTheorems.Conservation` | gordonlee/src/utility/scheduler.h:43-89 | in every run, any clock readings: every `Schedule` call is exactly one of pending, handed over (once) or refused, and it is refused if and only if it found its key in the map |
| `SchedulerTheorems.HandedOverWhenDue` | gordonlee/src/utility/scheduler.h:46-56 | a scheduled job enters a queue only by a dispatch, as the least pending key, and leaves the map; the dispatch follows a clock reading of the same turn that had reached the key, so nothing is handed over early |
| `SchedulerTheorems.DueIsHandedOver` | gordonlee/src/utility/scheduler.h:50-56 | a least key that is due is handed over by the next dispatch, at the end of its processor's queue |
| `SchedulerTheorems.ReadingOfThisTurn` | gordonlee/src/utility/scheduler.h:46-52 | the time the worker compares with comes from a clock reading earlier in the run, with no other reading and no dispatch since |
| `SchedulerTheorems.QueuesKeepOrder` | gordonlee/src/utility/job_processor.h:39-71 | at every state executed, in-hand and queued jobs of a processor are its enqueued jobs in order |
| `SchedulerTheorems.CallStays` | gordonlee/src/utility/scheduler.h:72-89 | a call is recorded with the processor and key its caller named, in every later state |
| `SchedulerTheorems.OwnProcessor` | gordonlee/src/utility/scheduler.h:53-54 | a scheduled job that is handed over goes to the processor its caller named and to no other |
| `SchedulerTheorems.ExecutedOnOwnProcessor` | gordonlee/src/utility/job_processor.h:39-56 | a processor executes a scheduled job only if the job's caller named that processor |
| `SchedulerTheorems.EnqueueAppends` | gordonlee/src/utility/job_processor.h:58-64 | a direct enqueue appends to its own queue and touches nothing else |
| `SchedulerTheorems.FetchTakesFront` | gordonlee/src/utility/job_processor.h:43-50 | a fetch takes the front in hand, throws an empty pointer away, and leaves an empty queue alone |
| `SchedulerTheorems.ExecuteFinishes` | gordonlee/src/utility/job_processor.h:45 | executing finishes the job in hand |
| `SchedulerTheorems.IncreasingIffNoneLate` | gordonlee/src/utility/scheduler.h:43-89 | hand-overs are in strictly increasing due time if and only if no job was scheduled with a key at or before one already handed over |
| `SchedulerTheorems.ExecutedInOrder` | gordonlee/src/utility/job_processor.h:39-71 | then every processor executes its scheduled jobs in strictly increasing due time |
| `SchedulerTheorems.EndToEnd` | gordonlee/src/utility/scheduler.h:43-89 | jobs all scheduled before the first dispatch are executed by each processor in strictly increasing due time |
| `SchedulerTheorems.RefusedIffKeyPresent` | gordonlee/src/utility/scheduler.h:85-88 | a call is refused, in every continuation, if and only if its key was in the map when it came; then its job is never handed over |
| `SchedulerTheorems.SecondJobIsDropped` | gordonlee/src/utility/scheduler.h:85-88 | a concrete run: two jobs with the same key, the second is dropped |
| `SchedulerTheorems.LateJobIsOvertaken` | gordonlee/src/utility/scheduler.h:43-89 | a concrete run: a job scheduled after a later one was handed over is handed over out of due order |
| `Scheduler.NextKeepsInv` | gordonlee/src/utility/scheduler.h:43-89 | every event of every thread keeps conservation, the order facts and the queues |
| `SchedulerObjects.JobProcessor.Enqueue` | gordonlee/src/utility/job_processor.h:58-64 | appends to the queue |
| `SchedulerObjects.JobProcessor.Dequeue` | gordonlee/src/utility/job_processor.h:66-71 | takes the front, or an empty pointer from an empty queue |
| `SchedulerObjects.JobProcessor.WorkerIteration` | gordonlee/src/utility/job_processor.h:39-56 | one turn executes the front job, and skips an empty pointer |
| `SchedulerObjects.JobProcessor.Drain` | gordonlee/src/utility/job_processor.h:39-56 | turns until the queue is empty execute what was queued, in order |
| `SchedulerObjects.Timer.constructor` | gordonlee/src/utility/scheduler.h:92-95 | no jobs; the objects are in an initial state of the model |
| `SchedulerObjects.Timer.Schedule` | gordonlee/src/utility/scheduler.h:72-89 | the call, done on the map with the given processor and key, is the event of the model; an entry that is there stays |
| `SchedulerObjects.Timer.ReadClock` | gordonlee/src/utility/scheduler.h:47 | the reading that opens a turn is the clock event of the model |
| `SchedulerObjects.Timer.Step` | gordonlee/src/utility/scheduler.h:43-89 | one step of any thread, done on the objects, is the event of the model exactly when that event is possible |
| `SchedulerObjects.Timer.Interleave` | gordonlee/src/utility/scheduler.h:43-89 | any schedule driven on the objects is a run of the model and ends conserved and with its queues in order |
| `SchedulerObjects.Timer.Begin` | gordonlee/src/utility/scheduler.h:51 | the least key |
| `SchedulerObjects.Timer.WorkerIteration` | gordonlee/src/utility/scheduler.h:48-57 | the critical section, done on the map and the processor, is the dispatch event of the model |
| `SharedObjectPtr.CountsAreExact` | gordonlee_iocp/Libraries/log4cplus/helpers/pointer.h:98-185 | at every moment of every sequence of handle operations, also in the middle of an assignment: each live object's count is the number of handles to it, no live handle dangles, no destroyed object was touched |
| `SharedObjectPtr.DestroyedIffUnheld` | gordonlee_iocp/Libraries/log4cplus/helpers/pointer.h:103-162 | in every run an object is destroyed if and only if some handle has held it and none does |
| `SharedObjectPtr.OpKeepsInv` | gordonlee_iocp/Libraries/log4cplus/helpers/pointer.h:103-162 | constructing, copying, moving, dropping, assigning and swapping keep the invariant in every state they pass through, operands may coincide |
| `SharedObjectPtr.SelfAssignment` | gordonlee_iocp/Libraries/log4cplus/helpers/pointer.h:145-154 | copy-, raw- and move-assigning a handle to itself changes nothing, counts included |
| `SharedObjectPtr.CopyThenDrop` | gordonlee_iocp/Libraries/log4cplus/helpers/pointer.h:110-135 | dropping a copy undoes making it |
| `SharedObjectPtr.AssignMeaning` | gordonlee_iocp/Libraries/log4cplus/helpers/pointer.h:150-154 | assignment changes what the target points to and no other handle; the temporary is gone |
| `SharedObjectPtr.OperationMeaning` | gordonlee_iocp/Libraries/log4cplus/helpers/pointer.h:103-162 | what every handle points to after each operation; moving, move assignment and swapping change no count |
| `SharedObjectPtr.MoveMeaning` | gordonlee_iocp/Libraries/log4cplus/helpers/pointer.h:117-121 | the new handle has what the old one had, the old one is empty, and all others keep their own |
| `SharedObjectPtr.SharedObject.Decrement` | gordonlee_iocp/Libraries/log4cplus/helpers/pointer.h:58 | one less, and destroyed at 0 |
| `SharedObjectPtr.Handle.constructor` | gordonlee_iocp/Libraries/log4cplus/helpers/pointer.h:103-108 | construction from a raw pointer, on the fields, is the operation of the model |
| `SharedObjectPtr.Handle.Copy` | gordonlee_iocp/Libraries/log4cplus/helpers/pointer.h:110-114 | copy construction likewise |
| `SharedObjectPtr.Handle.Move` | gordonlee_iocp/Libraries/log4cplus/helpers/pointer.h:117-121 | move construction likewise: the new handle takes the pointer and the old one is empty |
| `SharedObjectPtr.Handle.Release` | gordonlee_iocp/Libraries/log4cplus/helpers/pointer.h:131-135 | the destructor likewise |
| `SharedObjectPtr.Handle.SwapPointees` | gordonlee_iocp/Libraries/log4cplus/helpers/pointer.h:159-162 | `swap` likewise |
| `SharedObjectPtr.Handle.Assign` | gordonlee_iocp/Libraries/log4cplus/helpers/pointer.h:150-154 | assignment from a raw pointer, which may be its own, is temporary, swap and destruction, and is the operation of the model |
| `SharedObjectPtr.Handle.AssignFrom` | gordonlee_iocp/Libraries/log4cplus/helpers/pointer.h:145-148 | assignment from another handle or itself needs only the invariant, keeps it, and is the operation of the model |
| `SharedObjectPtr.Handle.AssignMoved` | gordonlee_iocp/Libraries/log4cplus/helpers/pointer.h:123-127 | move assignment exchanges the two, also with itself |
| `SessionPool.Conservation` | gordonlee/src/network/tcp_session_pool.cpp:16-52 | for every batch size, given that holders push back only what they hold: blocks times batch size is queued plus handed-out clients, and an address is queued or handed out, exactly once, if and only if it lies in an allocated block |
| `SessionPool.PushConservesIffHeld` | gordonlee/src/network/tcp_session_pool.cpp:16-19 | a push keeps the pool conserved if and only if the client was held |
| `SessionPool.PoppedIsNobodys` | gordonlee/src/network/tcp_session_pool.cpp:21-31 | a popped client was held by nobody |
| `SessionPool.PopFailsIff` | gordonlee/src/network/tcp_session_pool.cpp:23-28 | the front of an empty queue is read if and only if the queue is empty and the batch size is 0 |
| `SessionPool.PopMeaning` | gordonlee/src/network/tcp_session_pool.cpp:21-31 | a pop allocates exactly one block if the queue is empty and none otherwise, and takes the front |
| `SessionPool.TcpSessionPool.constructor` | gordonlee/src/network/tcp_session_pool.cpp:6-10 | an empty queue and no blocks |
| `SessionPool.TcpSessionPool.PushWaitQueue` | gordonlee/src/network/tcp_session_pool.cpp:16-19 | appends; the lock depth is restored |
| `SessionPool.TcpSessionPool.GrowWaitPoolSize` | gordonlee/src/network/tcp_session_pool.cpp:40-52 | appends exactly the clients of one new block; the lock is restored after two levels |
| `SessionPool.TcpSessionPool.PopFromWaitQueue` | gordonlee/src/network/tcp_session_pool.cpp:21-31 | takes the front, after allocating one block if the queue is empty; is the pop of the model; the lock depth returns to its entry value after exactly one level, or three when it grows |
| `SessionPool.TcpSessionPool.CheckWaitPoolSize` | gordonlee/src/network/tcp_session_pool.cpp:33-38 | fewer clients wait than one block has |
| `SessionPool.TcpSessionPool.Lock` | gordonlee/src/utility/scoped_lock.h:39-44 | enters the lock if there is one |
| `SessionPool.TcpSessionPool.Unlock` | gordonlee/src/utility/scoped_lock.h:46-50 | leaves the lock if there is one |

## Left out

- BracketMatching.CloseExpression: takes a position on the line, as its documentation asks; elsewhere the code raises `IndexError` or, for a negative number, reads from the end of the line. The same holds for `ReverseCloseExpression`.
- TextInside.GetTextInside: the regular expression is replaced by the position where its match ends; that this follows an opening punctuation is required, because the code asserts it.
- CommentEraser.RemoveMultiLineComments: `strip` removes ASCII white space only, and the category and wording of the error are not modelled.
- NestingState.NestingState.Update: regular expressions are replaced by what they found on the line, and the style warnings it prints are not modelled.
- IncludeOrder.IncludeState.CheckNextIncludeOrder: the check of alphabetical order within a section is not modelled.
- ManualResetEvent.EventObject.Wait: error returns of the condition variable are not modelled.
- SharedMutex.NewSemaphore: the named-semaphore branch and error returns of the system are not modelled.
- SharedMutexProgress.DeadlockFree: fairness and starvation are not stated; only that some thread can move.
- Exceptions of lock primitives other than `w.lock()` in `wrlock`.
- SharedObjectPtr.SharedObject.Decrement: `addReference` and `removeReference` have no body in the repository; they are taken to add and subtract one, with destruction at 0, on an unbounded count, and the destructor of a destroyed object releases no further handles.
- SessionPool.TcpSessionPool.PopFromWaitQueue: waiting for another thread that holds the lock; the lock is seen by the thread that uses it, and the batch size, 100 in the code, is any number.
- SchedulerObjects.JobProcessor.WorkerIteration: the sleep, whose guard compares a variable with itself and is never true, and the spin counter it reads.
- Lifetimes of scheduler elements and of processors, the wake-up event of a processor, and what a job does.
- Winsock and IOCP code, packets, clients, servers and `TcpSessionManager`, whose functions do not share a lock.
- Path handling, file reading and the individual style checks of cpplint.
- log4cplus headers that only declare: hierarchy, layouts, filters, properties, socket buffers.
