# Concurency: the directory walks, the message queue and the factorial futures

This project models, in Dafny, the sequential logic inside jpola's C++
concurrency tutorials. Each modelled part is verified against a contract.

- **concurency6**: the monitor-pattern walk. `MonitorResult` holds the files
  found and the directories pending. `isDirsEmpty`, `putFile`, `putDir`
  and `getDirs` each take the mutex for their whole body, so each one is
  an atomic step; `isDirsEmpty` only reads, the other three update the
  class's two fields. `getResult` takes no lock: it is one step only
  because `listAllFiles` calls it after the last round's barrier, when
  no task is running. `listAllFiles` seeds the monitor with the root. It then takes at most
  16 directories per round and runs `listDir` on each of them.
- **concurency7**: `MessageQueue<T>`. `send` pushes at the front of a deque.
  `recieve` waits until the deque is non-empty, then pops the back. The
  wait becomes the precondition that the deque is non-empty. Histories of
  sends and receives are replayed by `Run`, and call by call on the class
  by `Replay`; the lemmas prove the queue is first-in first-out and
  delivers each message exactly once.
- **concurency5**: the bounded worklist. `dirsToDo` is a stack. Each round
  launches at most 4 `listDir` tasks, popped from its back. The futures are
  then read from the back: files go to `files` and sub-directories are
  pushed onto `dirsToDo`. A task that fails rethrows at `get()`, which ends
  the round's collecting loop.
- **concurency4**: `listDirectory`, the recursive listing. Its output is a
  header `"\n> " + dir + ":\n\t "`, then the file names, then every
  sub-directory's listing, whole and in iteration order.
- **concurency11 / concurency12**: the count-down `factorial` over a future.
  In concurency12 the future is shared and read by four tasks. In
  concurency11 the future is single-use and carries an exception.

The filesystem is a finite tree (`FileTree.Dir`). A directory holds its
entries in iteration order, or is `Unreadable` when opening its
`directory_iterator` throws. `Files(d)` is the multiset of file names
reachable from `d` through readable directories. `Size(d)` counts the
directory nodes and is the termination measure of the two worklist
walks (concurency5 and concurency6); the recursive `listDirectory`
terminates on the structure of the tree itself.

Tasks of one round run one after another, in dispatch order. That is
one of the schedules the threads may take, and every result below is
proved for that schedule only. The file multisets stated do not depend
on the order in which a round's tasks interleave; that is argued
from the fact that each task only appends, not proved.

## Model

| member | source | states |
|---|---|---|
| FileTree.SplitRoundTrip | concurency5/main.cpp:38-48 | listDir's split into file names and sub-directories loses nothing: merging them back by entry kind rebuilds the entries in iteration order |
| FileTree.SplitCounts | concurency5/main.cpp:38-48 | every entry goes to exactly one of the two lists |
| FileTree.SplitAccount | concurency5/main.cpp:38-48 | the files listed plus the files reachable from the sub-directories listed are exactly the files reachable from the entries; the pending work is exactly that of the entries |
| FileTree.ExpandAccount | concurency5/main.cpp:35-51 | listing a directory fails exactly when it cannot be opened; on success the files listed and those below the sub-directories listed are the directory's files, and the sub-directories are strictly less work than the directory |
| FileTree.ExpandReadable | concurency5/main.cpp:35-51 | listing a fully readable directory succeeds and yields fully readable sub-directories |
| MonitorWalk.MonitorResult.constructor | concurency6/main.cpp:54-58 | a new monitor holds no files and no directories |
| MonitorWalk.MonitorResult.IsDirsEmpty | concurency6/main.cpp:60-64 | returns true exactly when no directory is pending, and changes nothing |
| MonitorWalk.MonitorResult.PutFile | concurency6/main.cpp:67-83 | appends the file at the end of files; dirs unchanged |
| MonitorWalk.MonitorResult.PutDir | concurency6/main.cpp:85-90 | appends the path at the end of dirs; files unchanged |
| MonitorWalk.MonitorResult.GetDirs | concurency6/main.cpp:92-102 | returns min(n, \|dirs\|) paths, none when n <= 0 or dirs is empty; they are the back of dirs, last first; dirs keeps the prefix; files unchanged |
| MonitorWalk.MonitorResult.GetResult | concurency6/main.cpp:104-108 | returns everything accumulated and leaves both vectors empty, as Result's move constructor (lines 36-39) does |
| MonitorWalk.ListDir | concurency6/main.cpp:112-128 | directories go to putDir and file names to putFile, in iteration order; a directory that cannot be opened changes nothing, since its task's exception is never read |
| MonitorWalk.ListDirStep | concurency6/main.cpp:112-128 | one listDir task adds to the monitor exactly the files reachable from its directory, and strictly less pending work than that directory |
| MonitorWalk.ListedSnoc | concurency6/main.cpp:112-128 | listing one more directory appends its file names to files and its sub-directories to dirs, in iteration order; a directory that cannot be opened adds nothing |
| MonitorWalk.ListedAccount | concurency6/main.cpp:112-128 | the listings of a sequence of directories hold exactly the files reachable from them, and at least one unit less pending work per directory |
| MonitorWalk.Dispatch | concurency6/main.cpp:143-162 | the listDir calls launched from the back of dirsToDo append to files and to dirs exactly the listings of dirsToDo's directories taken from the back; the files gained are exactly those reachable from dirsToDo, and the pending work grows by at least one unit less per directory |
| MonitorWalk.DispatchAccount | concurency6/main.cpp:143-162 | appending the listings of a batch adds exactly the batch's reachable files to the files accounted for, and at least one unit less pending work per directory |
| MonitorWalk.RoundStep | concurency6/main.cpp:141-152 | taking a batch off the back of dirs and running its tasks keeps every file accounted for and leaves strictly less pending work |
| MonitorWalk.Round | concurency6/main.cpp:140-177 | one pass of the loop takes min(16, number pending) directories off the back of dirs, last first; dirs becomes what was left below them plus the sub-directories listed from them, files gains their file names; no file is lost or invented and the pending work shrinks |
| MonitorWalk.ListAllFiles | concurency6/main.cpp:130-180 | the loop ends, leaves no directory pending, and has every file reachable from the root exactly once |
| MessageQueues.MessageQueue.constructor | concurency7/main.cpp:54-59 | a new queue is empty |
| MessageQueues.MessageQueue.Send | concurency7/main.cpp:64-73 | the message goes in at the front, every other message stays in place, and it becomes the newest pending message |
| MessageQueues.MessageQueue.Receive | concurency7/main.cpp:75-100 | needs a non-empty queue; returns the back, which is the oldest pending message; removes it and only it |
| MessageQueues.SendThenReceive | concurency7/main.cpp:64-100 | send(x) on an empty queue, then recieve(), returns x and leaves the queue empty |
| MessageQueues.RunIsFifo | concurency7/main.cpp:64-100 | over any history of sends and receives, the messages delivered and then those still waiting are those waiting at the start and then those sent, in order: first-in first-out, none lost, none delivered twice |
| MessageQueues.Replay | concurency7/main.cpp:64-100 | calling send and recieve on a MessageQueue as a history says blocks exactly when Run says a receive finds the queue empty; otherwise the messages received and the queue left behind are exactly those Run predicts |
| MessageQueues.SendsThenReceives | concurency7/main.cpp:64-100 | N sends then N receives deliver the N messages once each, in send order, and leave the queue empty |
| BoundedWorklist.ListDir | concurency5/main.cpp:35-51 | the loop builds exactly the split of the entries into file names and sub-directories, or fails when the directory cannot be opened |
| BoundedWorklist.Batch | concurency5/main.cpp:69-81 | a round takes min(4, \|dirsToDo\|) directories from the back of dirsToDo, the last one first |
| BoundedWorklist.ExpandAll | concurency5/main.cpp:69-81 | one future per dispatched directory, each holding that directory's listing |
| BoundedWorklist.BatchIsDispatched | concurency5/main.cpp:69-81 | when the dispatch loop stops, it has popped exactly the round's batch |
| BoundedWorklist.Round | concurency5/main.cpp:64-112 | one round dispatches the batch and collects its futures from the back, stopping at the first failure |
| BoundedWorklist.CollectInReverse | concurency5/main.cpp:86-94 | without a failure, the results are appended in reverse dispatch order: their files to files, their sub-directories to the end of dirsToDo |
| BoundedWorklist.CollectStopsAtFailure | concurency5/main.cpp:83-111 | when a get() throws, the results of tasks dispatched before it in the round are abandoned; only those read before it are kept |
| BoundedWorklist.CollectLoss | concurency5/main.cpp:83-111 | what the round keeps plus what a failure abandons is exactly what the walk and the futures held; nothing is abandoned when no get() throws |
| BoundedWorklist.CollectAccount | concurency5/main.cpp:86-96 | collecting never invents a file; without a failure it keeps every file the futures hold |
| BoundedWorklist.CollectSize | concurency5/main.cpp:86-96 | collecting adds no more pending work than the futures hold |
| BoundedWorklist.CollectReadable | concurency5/main.cpp:86-96 | futures of fully readable directories never fail, and keep dirsToDo fully readable |
| BoundedWorklist.ExpandAllAccount | concurency5/main.cpp:69-81 | a round's futures hold exactly the files of its directories, and less work than them |
| BoundedWorklist.RoundAccount | concurency5/main.cpp:64-112 | a round keeps the walk's files within the root's files (equal to them when everything is readable) and strictly shrinks the pending work |
| BoundedWorklist.ListAllFiles | concurency5/main.cpp:53-112 | the loop ends; each reported file is reachable from the root and reported at most as often as it occurs; when every directory can be opened, every reachable file is reported exactly once |
| RecursiveListing.Header | concurency4/main.cpp:53-57 | the header is "\n> ", the directory, then ":\n\t " |
| RecursiveListing.ListDirectory | concurency4/main.cpp:51-87 | the recursive loop computes Listing: the header, the file names, then the sub-directory listings, or the first failure |
| RecursiveListing.JoinAppendsWhole | concurency4/main.cpp:77-84 | the for_each over the futures succeeds exactly when every future does, and then appends each listing whole, in order |
| RecursiveListing.ListingSucceeds | concurency4/main.cpp:51-87 | the listing succeeds exactly when every directory below the root can be opened |
| RecursiveListing.ListingStartsWithHeader | concurency4/main.cpp:53-75 | the first line is the header, followed by the directory's own file names in iteration order |
| RecursiveListing.ListingContents | concurency4/main.cpp:51-87 | the listing holds one header for every directory reached and every reachable file name, nothing else |
| RecursiveListing.HeadersCount | concurency4/main.cpp:65-69 | there are as many headers as directories: each sub-directory is listed exactly once |
| RecursiveListing.ListingLength | concurency4/main.cpp:51-87 | the listing's length is the number of directories plus the number of files |
| Factorial.CountDown | concurency12/main.cpp:16-23 | multiplying i = N, N-1, ..., 2 into result gives N!, and 1 when N <= 1 (invariant result * i! = N!) |
| Factorial.FactorialShared | concurency12/main.cpp:14-27 | returns N! for the value in the shared future, or the exception it carries; it only reads the future |
| Factorial.FactorialOnce | concurency11/main.cpp:12-24 | returns N! for the future's value, or rethrows its exception without computing; the future is used up |
| Factorial.SharedFactorialDemo | concurency12/main.cpp:30-54 | after set_value(4), each of the four tasks returns 24 |
| Factorial.BrokenPromiseDemo | concurency11/main.cpp:27-46 | after set_exception, fu.get() rethrows "Error from promise - I can't send you a value" |
| Factorial.FactorialFitsInt32 | concurency12/main.cpp:14-23 | N! fits the 32-bit int result for N <= 12; 13! does not |

## Left out

- Mutexes, lock_guard, unique_lock, the condition variable's wait and notify, and std::async launch policies are not modelled. Each locking monitor or queue method is one atomic step (getResult too, for the reason given above), and recieve's wait is its precondition.
- Tasks of a round are not interleaved. They run in dispatch order, which is one legal schedule. The barrier over the futures in concurency6 (lines 154-177) waits for listDir calls that have already run, and its catch handlers are never entered.
- MonitorWalk.ListAllFiles: states the files as a multiset, not in order. In the source the order depends on how the listDir calls of a round interleave.
- The filesystem is not modelled. directory_iterator, is_directory and filename are replaced by the finite tree FileTree.Dir. An iterator that fails part-way through a directory, symbolic links and cycles are not modelled.
- The listDirServer/printServer loops and listTree (concurency7/main.cpp:107-167) are left out. They never end, and their shutdown protocol exists only as a TODO (lines 177-181).
- Console output, the timing in main, and the hard-coded root paths are left out.
- Factorial.CountDown: uses mathematical integers, not the source's 32-bit int. Factorial.FactorialFitsInt32 shows where the two agree (N <= 12).
- Factorial.FactorialOnce: a get() that blocks because the promise is not yet satisfied is not modelled. The future is taken as already holding a value or an exception.
- Factorial.BrokenPromiseDemo: returns the rethrown error as a value. main in concurency11 does not catch it, so there the program ends in std::terminate.
- concurency1, 2, 3, 8, 9 and 10 are not part of this model. They cover thread creation and joining, floating point, printing and std::call_once.
