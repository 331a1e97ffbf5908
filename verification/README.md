# A verified model of the online-judge backend

This project models the concurrent and stateful core of the online-judge backend and proves what that core keeps on
every run. Check it with `dafny verify dfyconfig.toml`.

A protocol is written as a total step function in which an action that is not enabled changes nothing, so every
sequence of actions is a run and a lemma about all sequences is a lemma about all interleavings (`Runs.dfy`). One
action is one critical section, one notification, one timeout or one spurious wakeup. Code that updates objects in
place is a class here; its methods are proved against the step function or state their new state outright.

- **Thread pool** (`PoolProtocol`, `PoolTheorems`, `PoolAccounts`, `ThreadPoolObject`). Workers sleep, are signalled, take turns,
  run and exit; `enqueue` accepts a task in one step and notifies in a later one. Accepted tasks are started once and
  in order, no wakeup is lost although the notification comes after the lock, and the destructor ends under every
  schedule with everything accepted finished, unless the pool has no workers.
- **Database-operation pipeline** (`Pipeline`, `PipelineAccounts`, `PipelineOrder`, `PipelineRows`,
  `ApplicationObject`). The consumer occupies a worker of the pool it feeds. At most n-2 earlier operations are unfinished while one executes (n-1 once
  the consumer has ended), and both bounds are reached. Commits follow publish order and judged rows show their
  verdict, in every run whose consumer is alive, exactly when there are at most two workers: with three or more there
  is a run in which the UPDATE takes effect before the INSERT and the judged submission stays PENDING. Over all runs,
  those in which the consumer ends included, the same holds exactly with at most one worker; but a single worker
  serves nobody but the consumer as long as that one is alive.
- **Connection pool and its client** (`ConnectionProtocol`, `ConnectionTheorems`, `ConnectionCalls`,
  `DbPoolObject`). No operation is dropped, no worker is leaked and no wakeup is lost on any run, redundant returns included. `execute` returns its worker twice after a
  `ParameterException` and after a retried lock error. Exclusive ownership holds on every run exactly when those two
  endings are impossible or there is only one client; a concrete run shows the sharing for each of them.
- **Bounded blocking queue** (`QueueProtocol`, `QueueTheorems`, `QueueAccounts`, `QueueObject`). FIFO history,
  capacity, an account of every call, progress on both conditions with timed pops and spurious wakeups, shutdown, draining, and the return of every pending call.
- **Judging supervisor** (`Supervisor`, `Descriptors`, `Cgroup`, `Verdict`, `Judging`, `Limits`). System calls are
  nondeterministic, and the child may act before each of them. Bytes are conserved on both streams, the exit has been
  observed or waited for before the status is used, descriptors are closed once each, a cgroup tree is removed from
  the inside out, the verdict of a submission is the image of the last test reached, and the limit arithmetic stays
  within stated bounds.
- **Session tokens** (`TokenProtocol`, `TokenManagerObject`). Redis is a map with expiry times. At most one token of a
  user verifies, other users are never affected, and an invalidated token never verifies again, unless the identical string is issued a second time; exactly when
  it can verify then is stated for every invalidation.

## Where the code differs from what it suggests

- A run whose `memory.peak` cannot be found keeps the recorded memory of -1, and comparing that with the unsigned
  limit makes it a memory-limit verdict for every limit (`Judging.MemoryVerdict`).
- The per-test status COMPILATION_ERROR is only set when there is no compiler object and yet a compile message, which
  never happens. A program that does not compile is judged like any other run, and the final status CE means that
  there were no test cases (`Judging.Judger.Judge`, `Judging.JudgeTask`).
- A failing `fork` leaves all six pipe descriptors open (`Descriptors.Execute`).
- A child is never killed or waited for if its cgroup cannot be set up, or if appending to a captured string throws
  while the child is watched (`judge/src/actuators/Actuator.cpp:372` and `:388`); the handler at lines 157-165 does
  neither. In all other cases it is waited for (`Supervisor.MonitorChild`, `Descriptors.Execute`).
- `database/include/DbPool.hpp:16` announces that `returnWorker` takes a pointer; it takes a number, and so does the
  model.
- The operations of the repository catch the errors of their own statements (`app/src/dbop/DbOperation.cpp:43-50`,
  `app/src/dbop/DbQueryOp.cpp:30-32`), so that the retry of `execute` is only reached by a lock error out of the
  rollback. A `ParameterException` passes (`app/src/dbop/DbOperation.cpp:78`).
- A refreshed token equals the old one, and is therefore refused, when both belong to the same second
  (`TokenManagerObject.TokenManager.RefreshToken`).
- A ban lives for whole seconds only. A banned token that is issued again verifies once more at the end of its life
  exactly when more than a second, and not a whole number of seconds, was left at its invalidation
  (`TokenProtocol.ReissueVerifiesExactly`, and `TokenProtocol.InvalidatedReturnsExactly` for interleaved commands).
- At the very instant of its expiry a token still verifies, while `invalidateToken` already answers true without a ban
  (`TokenManagerObject.TokenManager.InvalidateToken`).
- `invalidateToken` does not check the signature: a readable token of foreign origin ends the session of the subject
  it names (`TokenManagerObject.TokenManager.InvalidateToken`).

## Model

| member | source | states |
|---|---|---|
| `PoolProtocol.StepKeepsOrder` | core/src/ThreadPool.cpp:12-19 | Every step keeps: tasks started so far followed by tasks still queued are the tasks accepted, in order. |
| `PoolProtocol.StepKeepsAccounts` | core/src/ThreadPool.cpp:10-22 | Every step keeps: each task has been started as often as it has finished or is in some worker's hands. |
| `PoolProtocol.StepKeepsWakeups` | core/include/ThreadPool.hpp:22-32 | Every step, the notification outside the lock included, keeps: before stop, while a worker sleeps, queued tasks never outnumber signalled workers plus enqueuers that have not notified yet. |
| `PoolProtocol.StepKeepsExits` | core/src/ThreadPool.cpp:15-16 | Every step keeps: a worker has exited only if the pool is stopped and its queue empty. |
| `PoolProtocol.StepKeepsClosing` | core/src/ThreadPool.cpp:28-37 | Every step keeps: after `notify_all` nobody sleeps, and every joined worker has exited; the number of workers never changes. |
| `PoolProtocol.StepKeepsInv` | core/src/ThreadPool.cpp:5-37 | The five parts together are inductive over every action of workers, enqueuers and destructor. |
| `PoolTheorems.StartedOnceInOrder` | core/src/ThreadPool.cpp:9-23 | In every interleaving accepted tasks are started exactly once and in the order of their enqueues; what has started has finished or is being executed. |
| `PoolTheorems.SleepersAreNotForgotten` | core/include/ThreadPool.hpp:22-32 | No wakeup is lost on any run although `notify_one` comes after the lock is released. |
| `PoolTheorems.QueuedWorkIsNeverStranded` | core/include/ThreadPool.hpp:22-32 | On every run of a pool with workers, queued work means some worker is awake or some enqueuer is about to wake one. |
| `PoolTheorems.NobodySleepsAfterNotifyAll` | core/src/ThreadPool.cpp:34 | After the destructor's `notify_all` no worker is asleep at any later moment. |
| `PoolTheorems.ExitMeansEmptyForever` | core/src/ThreadPool.cpp:15-16 | Once some worker has exited, the pool is stopped, its queue is empty and nothing is accepted, now and for ever. |
| `PoolTheorems.DestructorDrains` | core/src/ThreadPool.cpp:28-37 | When the destructor has joined every worker, everything accepted has finished if and only if there was a worker or nothing had been accepted. |
| `PoolTheorems.EveryStepSpendsEffort` | core/src/ThreadPool.cpp:12-37 | After stop a natural-number measure strictly decreases at every step of any thread. |
| `PoolTheorems.DestructorTerminates` | core/src/ThreadPool.cpp:28-37 | After stop, no schedule has more steps left than the measure says. |
| `PoolTheorems.ShutdownNeverSticks` | core/src/ThreadPool.cpp:28-37 | A stopped pool whose workers are not all joined always has a step it can take: no deadlock on the way out. |
| `PoolTheorems.ShutdownRunsToTheEnd` | core/src/ThreadPool.cpp:28-37 | After a stop request a run can go on, or it has ended with every worker joined and everything accepted finished. |
| `PoolAccounts.AcceptedExactly` | core/include/ThreadPool.hpp:22-31 | On every run the pool accepts exactly the tasks its callers enqueue before stop, in the order of the calls, and starts a prefix of them. |
| `PoolAccounts.WorkerMoves` | core/src/ThreadPool.cpp:10-22 | A worker starts only the front task, ends the very task it was executing, falls asleep only on an empty queue before stop, exits only on an empty queue after it, and every turn does one of these. |
| `PoolAccounts.WorkerCanSleep` | core/src/ThreadPool.cpp:14 | A run on which a worker is asleep, for every pool that has one. |
| `ThreadPoolObject.ThreadPool.constructor` | core/src/ThreadPool.cpp:5-25 | The loop that creates the workers ends in the initial state of the protocol. |
| `ThreadPoolObject.ThreadPool.Push` | core/include/ThreadPool.hpp:22-31 | The locked part of `enqueue` is the enqueue step of the protocol; it is refused exactly on a stopped pool. |
| `ThreadPoolObject.ThreadPool.NotifyOne` | core/include/ThreadPool.hpp:32 | The notification is a notify step reaching some sleeper if there is one; apart from that sleeper nothing changes. |
| `ThreadPoolObject.ThreadPool.Enqueue` | core/include/ThreadPool.hpp:15-34 | A running pool accepts the task last and notifies, as two steps of the protocol; a stopped one refuses and keeps its whole state. |
| `ThreadPoolObject.ThreadPool.TakeTurn` | core/src/ThreadPool.cpp:12-19 | A worker's turn under the lock on the object's fields is the turn of the protocol. |
| `ThreadPoolObject.ThreadPool.Complete` | core/src/ThreadPool.cpp:20 | The end of a task is the completion step of the protocol. |
| `ThreadPoolObject.ThreadPool.SomeoneSteps` | core/src/ThreadPool.cpp:12-22 | After stop any worker not exited can act: a turn, a completion, a spurious wakeup or a late notification, each of which spends effort. |
| `ThreadPoolObject.ThreadPool.Join` | core/src/ThreadPool.cpp:35-36 | Joining a worker returns under any schedule of the others, and then that worker counts as joined. |
| `ThreadPoolObject.ThreadPool.Destroy` | core/src/ThreadPool.cpp:28-37 | With the other threads acting in any way between its steps, the destructor returns with all workers joined; everything accepted has finished if and only if there was a worker or nothing had been accepted. |
| `Pipeline.NextConserves` | app/src/Application.cpp:104-168 | Every event keeps: operations enqueued in the pool followed by those in the channel are all published ones, once each and in publish order. |
| `Pipeline.NextKeepsRows` | app/src/Application.cpp:174-276 | Every event keeps: a submission's INSERT is published once, its UPDATE at most once and later, and judge tasks belong to submitted submissions. |
| `Pipeline.GoodAlways` | app/src/Application.cpp:102-293 | Pool invariant, conservation, the consumer as the pool's first task, and publish order of rows hold after every run, for every number of workers. |
| `PipelineAccounts.InsertedExactly` | app/src/Application.cpp:176-189 | On every run a submission's INSERT is published if and only if it was submitted. |
| `PipelineAccounts.UpdatedExactly` | app/src/Application.cpp:263-272 | On every run an UPDATE of a submission to a status is published if and only if its own judge task, executing on a worker, reported that status first. |
| `PipelineAccounts.JudgedExactly` | app/src/Application.cpp:190-292 | On every run a submission's judge task is accepted if and only if it was queued, on a running pool, after the submission was published. |
| `PipelineAccounts.CommittedExactly` | app/src/Application.cpp:156-166 | On every run an operation has taken effect if and only if a worker that was executing it committed it. |
| `PipelineOrder.RunningXorFinished` | app/src/Application.cpp:155-168 | A started operation is in the hands of exactly one worker or has finished exactly once, and operations start in publish order. |
| `PipelineOrder.ReorderingIsBounded` | app/src/Application.cpp:104-168 | Whenever a worker executes an operation, at most n-2 operations published before it are unfinished while the consumer is alive, at most n-1 after that. |
| `PipelineOrder.OrderIsKept` | app/src/Application.cpp:104-168 | While operations can only run one at a time (one worker, or two with the consumer alive), they finish and take effect exactly in publish order. |
| `PipelineOrder.TwoWorkersKeepOrder` | app/src/Application.cpp:104-168 | With at most two workers and the consumer alive, operations finish and take effect exactly in publish order. |
| `PipelineOrder.OneWorkerOnlyConsumes` | app/src/Application.cpp:104-125 | With at most one worker and the consumer alive, no operation and no judge task has ever started. |
| `PipelineRows.RowHistory` | app/src/Application.cpp:176-189 | With commits in publish order, a submission's row is absent before its INSERT, PENDING until its UPDATE, and judged from then on. |
| `PipelineRows.VerdictsAreShown` | app/src/Application.cpp:174-276 | With two workers and the consumer alive, or with one, a submission whose INSERT and UPDATE have taken effect shows its judged status. |
| `PipelineRows.BoundIsTight` | app/src/Application.cpp:104-168 | For every n of at least two some run has an operation executing while exactly n-2 earlier ones are unfinished. |
| `PipelineRows.BoundIsTightWithoutConsumer` | app/src/Application.cpp:104-168 | For every n of at least one some run whose consumer has ended has an operation executing while exactly n-1 earlier ones are unfinished. |
| `PipelineRows.UpdateOvertakesInsert` | app/src/Application.cpp:174-276 | For every n above two a concrete run commits the UPDATE before the INSERT and ends, with channel and queue empty, in a PENDING row for a judged submission. |
| `PipelineRows.OrderedExactlyUpToTwoWorkers` | app/src/Application.cpp:102-276 | Commits in publish order on every run, and judged rows on every run, while the consumer is alive: each if and only if there are at most two workers. |
| `PipelineRows.LateUpdateOvertakesInsert` | app/src/Application.cpp:120-123 | For every n above one a concrete run, in which the consumer ends with both operations queued, commits the UPDATE before the INSERT and leaves a PENDING row. |
| `PipelineRows.OrderedOnEveryRunExactlyWithOneWorker` | app/src/Application.cpp:102-276 | Commits in publish order on every run, and judged rows on every run, whether or not the consumer is alive: each if and only if there is at most one worker. |
| `ApplicationObject.Application.ProcessNext` | app/src/Application.cpp:155-168 | The next message of the channel becomes the last accepted task of the pool, or the pool is stopped and the message is not taken; nothing is lost or doubled. |
| `ApplicationObject.Application.RunConsumer` | app/src/Application.cpp:104-125 | Over any mixture of messages, timeouts and errors the loop moves a prefix of the channel into the pool in order: on a running pool one operation for each message before the first fatal error, which ends the loop; on a stopped one none. |
| `ApplicationObject.MessagesBeforeFatal` | app/src/Application.cpp:120-123 | What `RunConsumer` counts are all messages before the first fatal error, and nothing else. |
| `ApplicationObject.TimeoutsDoNotCount` | app/src/Application.cpp:110-112 | Wherever a timeout occurs, the loop goes on as if it had not. |
| `ConnectionProtocol.FirstFree` | database/src/DbPool.cpp:46-49 | The search finds an available slot with no available one before it. |
| `ConnectionTheorems.StepKeepsNoLeak` | database/src/DbPool.cpp:46-74 | Every step, second returns included, keeps: the client that took an unavailable slot last has not returned it since. |
| `ConnectionTheorems.StepKeepsWakeups` | database/src/DbPool.cpp:35-44 | Every step, with timeouts, barging, spurious wakeups and redundant returns, keeps the count behind `BlockedClientsAreNotForgotten`. |
| `ConnectionTheorems.ReturnKeepsGood` | database/src/DbPool.cpp:63-75 | A return keeps the invariants whoever makes it, redundant ones and unknown numbers included. |
| `ConnectionTheorems.NoWorkerIsLeaked` | app/src/DbManager.cpp:20-48 | On every run an unavailable slot is still with its last acquirer, and all slots are available when nobody is inside `execute`. |
| `ConnectionTheorems.BlockedClientsAreNotForgotten` | database/src/DbPool.cpp:33-75 | On every run, while a client is blocked, available slots never outnumber notified clients that have not resumed. |
| `ConnectionCalls.OthersOnlyNotified` | database/src/DbPool.cpp:33-75 | A step leaves every other client where it is, except that one blocked client may be notified. |
| `ConnectionCalls.AcquireAnswers` | database/src/DbPool.cpp:37-60 | A turn of `acquire` takes a slot that was available and changes no other, or waits, or, its wait expired, is about to ask again. |
| `ConnectionCalls.ExpiredClientAsksAgain` | app/src/DbManager.cpp:23-25 | After a timeout a client takes a slot that is available by then, and otherwise asks again. |
| `ConnectionCalls.ComesBackOnlyByReturning` | app/src/DbManager.cpp:47 | A client comes back from `execute` only by returning the last slot it owes. |
| `ConnectionCalls.NoOperationIsDropped` | app/src/DbManager.cpp:20-48 | On every run a client that has called `execute` and is back has since ended its operation on a worker, other than by a lock error. |
| `ConnectionCalls.ClientCanBlock` | database/src/DbPool.cpp:38-44 | A run on which a client is blocked. |
| `ConnectionTheorems.StepKeepsOwners` | app/src/DbManager.cpp:20-48 | A step that is no double-return ending keeps: every holder is the last acquirer of an unavailable slot of its own. |
| `ConnectionTheorems.StepKeepsCounts` | app/src/DbManager.cpp:20-48 | Such a step keeps: available slots plus holding clients are the size of the pool. |
| `ConnectionTheorems.SingleReturnsAreExclusive` | app/src/DbManager.cpp:20-48 | On every run whose calls return their worker once, no worker is used by two clients, and available plus held slots equal the pool size. |
| `ConnectionTheorems.OwingReached` | app/src/DbManager.cpp:32-47 | After a bad parameter (line 33) or a retried lock error (line 40) a client still owes a return (line 47) of a slot that is already available. |
| `ConnectionTheorems.DoubleReturnShares` | app/src/DbManager.cpp:32-47 | For either double-return ending, any pool and at least two clients, a concrete run ends with two clients using worker 0. |
| `ConnectionTheorems.ExclusiveExactlyWithoutDoubleReturns` | app/src/DbManager.cpp:20-48 | Given the endings that may occur, workers are exclusive on every run if and only if no double-return ending is among them or there are fewer than two clients. |
| `DbPoolObject.DbPool.constructor` | database/src/DbPool.cpp:9-31 | A pool has at least one slot, and all slots start available. |
| `DbPoolObject.DbPool.Acquire` | database/src/DbPool.cpp:33-61 | A turn of `acquire` on the slots in place is the step of the protocol: the search loop takes the first available slot and no other; without one the client waits or, when its wait has expired, comes back with nothing. |
| `DbPoolObject.DbPool.ReturnWorker` | database/src/DbPool.cpp:63-75 | A known slot becomes available, no other slot changes, and some blocked client, if any, is notified; an unknown number changes nothing. |
| `DbPoolObject.DbManager.Begin` | app/src/DbManager.cpp:20-42 | Acquire and the end of the operation are the two steps of the protocol: a bad parameter or a lock error returns the worker once, a normal end not yet. |
| `DbPoolObject.DbManager.AtTheEnd` | app/src/DbManager.cpp:47 | The return at the end is the leaving step of the protocol. |
| `DbPoolObject.DbManager.Execute` | app/src/DbManager.cpp:20-48 | Run alone with d lock errors: d+1 acquires, 2d+1 returns for a normal end and one more for a bad parameter, every slot's availability as before, and the stack of owed returns popped to where it was. |
| `QueueProtocol.StepKeepsFifo` | core/include/Queue.inl:10-33 | Every step keeps: items popped followed by the contents are the items whose push succeeded, in order, and the contents fit the capacity. |
| `QueueProtocol.PushServes` | core/include/Queue.inl:17-18 | A push with its notification keeps both wakeup counts: one more item, one place less. |
| `QueueProtocol.PopServes` | core/include/Queue.inl:29-31 | A pop with its notification keeps both wakeup counts: one item less, one more place. |
| `QueueProtocol.StepKeepsWakeups` | core/include/Queue.inl:10-33 | Before shutdown every step keeps: while somebody sleeps on a condition, what could satisfy it is covered by clients already signalled on it. |
| `QueueProtocol.StepKeepsShutdown` | core/include/Queue.inl:36-43 | Every step keeps: after the first notification no popper sleeps, after the second no pusher either. |
| `QueueProtocol.StepKeepsShutdownGoing` | core/include/Queue.inl:36-43 | Every step keeps: once the flag is set both notifications have been made or somebody is on the way to make them. |
| `QueueTheorems.FirstInFirstOut` | core/include/Queue.inl:10-33 | On every run the pops are a prefix, in order, of the successful pushes; the remainder is the contents, within capacity. |
| `QueueAccounts.PushKeepsItsItem` | core/include/Queue.inl:10-20 | A pending push goes on with its caller's item until that very item is stored last and the push succeeds, or it is refused after shutdown. |
| `QueueAccounts.PopReturnsOnlyFor` | core/include/Queue.inl:23-33 | A pending pop goes on until it is handed the front item, or the queue is empty and shut down or its time has expired; only a timeout expires it. |
| `QueueAccounts.ExpiredPopReturns` | core/include/Queue.inl:25-27 | A pop whose time has expired returns at its next turn, with an item if there is one by then. |
| `QueueAccounts.EveryCallIsAccountedFor` | core/include/Queue.inl:10-33 | On every run and for every item, stored, refused and pending pushes of it are together as many as the calls of `push` with it; pops handed an item, missed and pending are as many as the calls of `pop`. |
| `QueueAccounts.PusherSleepsExactly` | core/include/Queue.inl:12-14 | In every step a client falls asleep on "not full" if and only if its push takes a turn, the queue is full and not shut down. |
| `QueueAccounts.PopperSleepsExactly` | core/include/Queue.inl:25 | In every step a client falls asleep on "not empty" if and only if its pop takes a turn in time, the queue is empty and not shut down. |
| `QueueAccounts.PopperCanSleep` | core/include/Queue.inl:25 | A run on which a popper is asleep, for every capacity. |
| `QueueAccounts.PusherCanSleep` | core/include/Queue.inl:12-14 | A run on which a pusher is asleep, for every capacity. |
| `QueueTheorems.SleepersAreNotForgotten` | core/include/Queue.inl:10-33 | On every run before shutdown, with timeouts and spurious wakeups: a sleeping popper means no more items than signalled poppers, a sleeping pusher no more free places than signalled pushers. |
| `QueueTheorems.NobodySleepsAfterShutdown` | core/include/Queue.inl:36-43 | Once a shutdown has done both notifications nobody sleeps on the queue, then or later. |
| `QueueTheorems.ShutdownFreezesInput` | core/include/Queue.inl:15-33 | After shutdown no push succeeds, and what was in the queue leaves it in order only. |
| `QueueTheorems.TurnSpendsEffort` | core/include/Queue.inl:10-43 | After the flag is set a pending push or pop returns at its very next turn, and every turn lowers a measure. |
| `QueueTheorems.ShutdownIsBounded` | core/include/Queue.inl:10-43 | After the flag is set no schedule without new calls has more steps left than the measure says, timeouts and spurious wakeups included. |
| `QueueTheorems.ShutdownNeverSticks` | core/include/Queue.inl:36-43 | After the flag is set, as long as a call is pending on any run, some client can take a turn without waiting for a timeout or a spurious wakeup. |
| `QueueObject.BlockingQueue.PushTurn` | core/include/Queue.inl:10-20 | A turn of `push` on the object is the protocol's turn: refused after shutdown, waiting with its item when full, else that item is appended and a sleeping popper, if any, is signalled. |
| `QueueObject.BlockingQueue.Push` | core/include/Queue.inl:10-20 | A whole `push` up to its return or first wait: the item given by the caller is stored last, or waits with the caller, or is refused. |
| `QueueObject.BlockingQueue.Pop` | core/include/Queue.inl:22-33 | A whole `pop` up to its return or first wait: the front item, or a wait, or after shutdown a refusal. |
| `QueueObject.BlockingQueue.PopTurn` | core/include/Queue.inl:22-33 | A turn of `pop` on the object is the protocol's turn: the front item if there is one, and a sleeping pusher, if any, is signalled; else nothing when shut down or expired, else waiting. |
| `QueueObject.BlockingQueue.Shutdown` | core/include/Queue.inl:36-43 | After `shutdown` nobody sleeps on either condition, and the contents are untouched. |
| `QueueObject.BlockingQueue.Drain` | core/include/Queue.inl:22-33 | After shutdown repeated pops hand out exactly the contents in order and then answer false. |
| `Supervisor.ToInt32` | judge/src/actuators/Actuator.cpp:356 | Narrowing to a 32-bit `int` keeps the value modulo 2^32, and keeps every value that fits. |
| `Supervisor.PollStaysNearDeadline` | judge/src/actuators/Actuator.cpp:356-357 | For every remaining time, wrapped ones included, a poll takes 10 to 100 ms and ends less than 10 ms after the deadline; it takes 100 ms while as much is left, and between 10 and 100 ms the whole rest up to a millisecond. |
| `Supervisor.WatchIdleChild` | judge/src/actuators/Actuator.cpp:343-359 | With an idle child the timeout is noticed less than 10 ms after the deadline and within ceil(remaining ms / 10) polls. |
| `Supervisor.ReadReady` | judge/src/actuators/Actuator.cpp:368-397 | After a ready stream is handled, its captured bytes are exactly those delivered by it, and none were taken from the other one, though both use one buffer; it goes on being polled unless its end or an error other than EAGAIN was read. |
| `Supervisor.Drain` | judge/src/actuators/Actuator.cpp:434-467 | A drain loop keeps captured equal to delivered through short reads and EAGAIN, leaves the other stream alone, and ends with the whole output captured unless a read failed or an exception was thrown. |
| `Supervisor.HandleEvents` | judge/src/actuators/Actuator.cpp:368-417 | What a poll has found is read, unless the stream is done, and then the process is looked at once. |
| `Supervisor.Watch` | judge/src/actuators/Actuator.cpp:343-425 | Left without an exception: captured equals delivered on both streams; the exit was observed, or the deadline passed, or a poll failed, or both streams are done; timed out if and only if the child was killed; every poll was followed by a look at the process, and what it found was read. Left by an exception: the child is neither killed nor waited for. |
| `Supervisor.MonitorChild` | judge/src/actuators/Actuator.cpp:328-471 | Captured plus unread is what the child wrote on each stream, which is complete unless reading it failed; the report says timed out if and only if the child was killed, and the status is the process's own unless no such child was found. The exit was observed or waited for if and only if no exception left the watching loop. |
| `Descriptors.CreatePipes` | judge/src/actuators/Actuator.cpp:177-217 | For every pattern of failures: six new descriptors are open if and only if no call failed, and otherwise exactly the descriptors from before. |
| `Descriptors.Feed` | judge/src/actuators/Actuator.cpp:121-139 | The child receives an in-order prefix of the input through short writes, all of it if and only if no write fails. |
| `Descriptors.Monitor` | judge/src/actuators/Actuator.cpp:146-165 | Setting up the cgroup and watching leave the child unreaped if and only if the cgroup is refused or an exception leaves the watching loop. |
| `Descriptors.Supervise` | judge/src/actuators/Actuator.cpp:114-171 | On every parent path after a fork, exceptions before and after the wait included, each of the six descriptors is closed exactly once; the child is unreaped if and only if its cgroup was refused or watching it threw. |
| `Descriptors.CompletedWithoutFailure` | judge/src/actuators/Actuator.cpp:88-172 | There is a result if and only if no call and no append has failed. |
| `Descriptors.Execute` | judge/src/actuators/Actuator.cpp:88-172 | The way out is the one of the earliest failure, and a result is returned if and only if nothing failed. On every way out the open descriptors are those from before, except that a failing fork leaves all six; a running child is left unreaped if and only if its cgroup was refused or watching it threw, and it is killed when its input cannot be written. |
| `Cgroup.AppendLogs` | judge/src/actuators/Actuator.cpp:547-549 | Logs of removal attempts in disjoint trees can be joined: still at most three attempts per directory, inner ones first. |
| `Cgroup.AppendOwnAttempts` | judge/src/actuators/Actuator.cpp:551-566 | Up to three attempts at a directory after those inside it keep both bounds. |
| `Cgroup.NextKid` | judge/src/actuators/Actuator.cpp:547-549 | One more sub-directory, whatever became of it, keeps the order and number of attempts and what they may have changed. |
| `Cgroup.FileSystem.RemoveItself` | judge/src/actuators/Actuator.cpp:551-568 | Attempts at this directory only, repeated exactly as long as it is not empty, and given up with an exception if and only if it was not empty three times. |
| `Cgroup.FileSystem.CleanupKids` | judge/src/actuators/Actuator.cpp:540-549 | Over any list of sub-directories, also when one of them throws: only they change, at most three attempts each, and inner ones first. |
| `Cgroup.FileSystem.Cleanup` | judge/src/actuators/Actuator.cpp:535-573 | On every finite tree the recursion ends, attempts no directory before those inside it and none more than thrice, and touches nothing else. It throws if and only if the directory is missing or some directory was given up, after which nothing more is attempted; with reliable removal it clears the tree in post-order with one attempt each. |
| `Cgroup.PostOrderIsComplete` | judge/src/actuators/Actuator.cpp:540-549 | The post-order names each directory of the tree exactly once. |
| `Verdict.CastKeepsTheBit` | judge/include/utilities/ExecutionResult.hpp:7-17 | The 64-bit enumerators survive the cast to an 8-bit code without truncation. |
| `Verdict.MasksAreDisjoint` | judge/include/utilities/ExecutionResult.hpp:7-17 | The codes of two statuses share a bit if and only if they are the same status. |
| `Verdict.FoldStep` | judge/src/utilities/JudgeResult.cpp:40-43 | One step of the fold: the mask then has exactly the bits of the statuses folded so far. |
| `Verdict.OverallIsMaximum` | judge/src/utilities/JudgeResult.cpp:45-57 | The final status is the image of one of the results and no result's image is worse, in the order AC < RE < IE < TLE < MLE < WA. |
| `Verdict.OverallOfJoin` | judge/src/utilities/JudgeResult.cpp:40-57 | Joining two non-empty result lists takes the worse of their statuses, and appending never improves a status. |
| `Verdict.OverallIgnoresOrder` | judge/src/utilities/JudgeResult.cpp:40-57 | Lists with the same set of statuses have the same final status: order and repetition do not matter. |
| `Verdict.AcceptedExactlyWhenAllAre` | judge/src/utilities/JudgeResult.cpp:45-46 | AC if and only if the list is not empty and every result is accepted. |
| `Verdict.OverallByName` | judge/src/utilities/JudgeResult.cpp:35-57 | WA if and only if some result is wrong; else MLE, TLE or IE by the first of these that occurs; AC if and only if all are accepted; CE if and only if there is none; RE in the remaining cases. |
| `Verdict.CascadeIsOverall` | judge/src/utilities/JudgeResult.cpp:45-57 | The cascade of tests picks the worst image among the statuses seen. |
| `Verdict.DecideIsOverall` | judge/src/utilities/JudgeResult.cpp:45-57 | The cascade over the folded bits decides for the maximum over the list. |
| `Verdict.JudgeResult.SetStatus` | judge/src/utilities/JudgeResult.cpp:33-58 | The fold over the 8-bit mask and the cascade compute the maximum of the results: WA, MLE, TLE and AC each exactly when the named results call for it, and CE for none. |
| `Judging.MemoryVerdict` | judge/src/actuators/Actuator.cpp:477-524 | A run in time is over its memory limit if and only if its peak reaches the limit modulo 2^32 kilobytes or no peak was recorded. |
| `Judging.ClassifyByFacts` | judge/src/actuators/Actuator.cpp:516-532 | Time limit exactly when timed out; memory limit exactly when in time and the peak is unrecorded or reaches the limit; runtime error exactly when in time and within memory but not ended with exit code zero. |
| `Judging.Judger.SetUp` | judge/src/Judger.cpp:15-25 | There is a compiler object for C++ only, a compile error for a C++ program that does not compile only, and an exception for another language. |
| `Judging.Judger.Judge` | judge/src/Judger.cpp:35-55 | Each verdict exactly by the facts of the run; accepted if and only if the run was in time, within its recorded memory, ended with exit code zero, and printed the expected text followed by at most one newline. COMPILATION_ERROR, UNKNOWN and INTERNAL_ERROR are never answered. |
| `Judging.FinalStatusIsOverall` | app/src/Application.cpp:257-261 | With every result but the last accepted, the maximum over all results is the image of the last one. |
| `Judging.JudgeTests` | app/src/Application.cpp:224-259 | The results are exactly those of the tests up to and including the first one not accepted, and the i-th message carries i, from 1, in 32 bits. |
| `Judging.JudgeTask` | app/src/Application.cpp:224-276 | Either a test threw and nothing is published, or the first message is the update (AC for a non-empty accepted list, CE exactly for no tests, otherwise the image of the last result) and message i after it the i-th result under number i. If publishing throws, a proper prefix of these is out. |
| `Limits.OnePassLosesLessThanAMillisecond` | app/src/services/ProblemService.cpp:67-69 | In exact arithmetic, storing seconds as whole milliseconds and rebuilding the deadline loses less than 1 ms, and a second pass loses nothing. |
| `Limits.ThreeRoundings` | app/src/Application.cpp:214-216 | Three operations with relative error 2^-24 each change a value by a factor between 2-(1+2^-24)^3 and (1+2^-24)^3. |
| `Limits.RoundingsMultiply` | judge/src/actuators/Actuator.cpp:339-340 | The rounded product is the exact one times one factor for each of the three operations. |
| `Limits.DeadlineErrorIsBounded` | judge/src/actuators/Actuator.cpp:339-340 | With each binary32 operation rounded, the wall deadline in microseconds differs from 1000*ms by at most 1000*ms*((1+2^-24)^3-1)+1. |
| `TokenProtocol.BanCovers` | app/src/services/TokenManager.cpp:87-99 | A blacklist entry written with whole seconds, from a possibly older clock reading, lives at least until less than a second is left before the token expires, or for ever. |
| `TokenProtocol.StepKeepsRevoked` | app/src/services/TokenManager.cpp:78-113 | No single Redis command by anybody uncovers a banned token, or makes it active other than by issuing the identical string. |
| `TokenProtocol.CommandsOnOwnSubject` | app/src/services/TokenManager.cpp:28-29 | An issue makes its token the only active one of its subject as long as its key lives, a ban leaves the active token alone, and a drop leaves none; neither issue nor drop touches the blacklist. |
| `TokenProtocol.CommandsSpareOthers` | app/src/services/TokenManager.cpp:95-103 | No command on one subject changes, at any time, which tokens of other subjects are active, banned or verify. |
| `TokenProtocol.StepSparesOthers` | app/src/services/TokenManager.cpp:95-103 | An issue or drop for another subject and a ban of another token leave a token as it is, at any time. |
| `TokenProtocol.RunSparesOthers` | app/src/services/TokenManager.cpp:15-134 | Over every run of such commands a token verifies at any time exactly when it would have without them. |
| `TokenProtocol.RevokedStaysRevoked` | app/src/services/TokenManager.cpp:41-113 | A banned and dropped token verifies again only if the identical string is re-issued, and even then only in the last second before its expiry. |
| `TokenProtocol.BanThenDrop` | app/src/services/TokenManager.cpp:87-106 | An invalidation whose ban and drop have any commands of others between them ends with the token banned and inactive. |
| `TokenProtocol.InvalidatedStaysInvalid` | app/src/services/TokenManager.cpp:41-113 | Over every interleaving of commands, those inside the invalidation included, an invalidated token verifies again only if the identical string is issued afterwards, and only in its last second. |
| `TokenProtocol.BanLapsesEarly` | app/src/services/TokenManager.cpp:87-96 | A ban ends before the token does if and only if at least a second was left and more than the delay of the ban is cut off. |
| `TokenProtocol.RevokedReturnsExactly` | app/src/services/TokenManager.cpp:41-113 | If nobody bans it again, some run makes a revoked token verify if and only if its ban lapses before it expires. |
| `TokenProtocol.InvalidatedReturnsExactly` | app/src/services/TokenManager.cpp:41-113 | For every interleaved invalidation: some run without another ban makes the token verify again if and only if it outlives the invalidation and the part of a second cut off from its remaining time exceeds the delay of the ban. |
| `TokenProtocol.ReissueVerifiesExactly` | app/src/services/TokenManager.cpp:15-113 | Invalidated at one moment and issued again at once, a token verifies at some later moment if and only if more than a second, and not a whole number of seconds, was left. |
| `TokenProtocol.ReissuedTokenComesBack` | app/src/services/TokenManager.cpp:15-113 | A concrete witness of that. |
| `TokenProtocol.RevokedReturnsOnSomeRunExactly` | app/src/services/TokenManager.cpp:15-113 | Over all runs, further bans included: a revoked token can verify again if and only if more than a second is left or its ban lapses before it expires. |
| `TokenProtocol.RefreshInterleaved` | app/src/services/TokenManager.cpp:115-134 | A refresh interleaved with any commands of others: a new string that nobody bans verifies at its issue if and only if it has not expired; the old string only in its last second. |
| `TokenManagerObject.TokenManager.GenerateToken` | app/src/services/TokenManager.cpp:15-39 | With two readings of the clock and time passing, a token stamped with them becomes the user's one active token for its lifetime; without one exactly when Redis fails, and then nothing changes. Other users keep their sessions. |
| `TokenManagerObject.TokenManager.VerifyToken` | app/src/services/TokenManager.cpp:41-76 | The answer is the token's own user if and only if Redis works and the token is signed, unexpired, not banned and active; it was signed here then, and no other token of that user verifies. |
| `TokenManagerObject.TokenManager.InvalidateToken` | app/src/services/TokenManager.cpp:78-113 | `true` if and only if the token is readable and has expired, or Redis works and its subject still has an active token. Before the expiry it is banned then and no token of its subject verifies, signed or not; at or after the expiry nothing changes; after `false` the store is unchanged or only the ban was written. Other users keep their sessions. |
| `TokenManagerObject.TokenManager.RefreshToken` | app/src/services/TokenManager.cpp:115-134 | User id and name are kept, and the old token is banned; a new string verifies until it expires; the same string comes out whenever the call ends within the second of issue and never when it starts after it, and verifies only in its last second. It fails only if the token does not verify, Redis fails, or the session ends meanwhile. Other users keep their sessions. |

## Left out

- HTTP routing and handlers, logging, configuration, JSON and message serialization, password hashing, registration and
  login existence checks: plumbing, or single branches without state.
- MySQL, Redis, JWT signing, seccomp, namespaces, mounts, `exec` and the compiler process: they are success or failure
  effects, a map with expiry, an injective signature, and nondeterministic answers of system calls.
- Memory model and lock implementation: a section under a mutex is one step, and the stop and shutdown flags are read
  under it, as in the source.
- PipelineOrder.ReorderingIsBounded: assumes a reliable FIFO channel and excludes the reconnect path, which installs no
  callback; once the consumer has ended (a fatal error or the exit flag) the bound is n-1, which is what is stated then.
- Pipeline.NextConserves: a message whose enqueue a stopped pool rejects is not processed; the model keeps it at the
  front of the channel so that it stays accounted for.
- PipelineRows.VerdictsAreShown: counts an operation as taking effect at one moment within its task, and assumes its
  SQL succeeds; operations other than the submission's INSERT and UPDATE do not touch the row.
- ApplicationObject.Application.RunConsumer: the consumer alone with the pool, one poll after another; its interleaving
  with the workers is in `Pipeline`.
- ConnectionProtocol.FirstFree: the check and reconnection of the database connection after the search is not modelled;
  it does not throw.
- DbPoolObject.DbManager.Execute: the case of a client on its own that finds a slot available, so the loop around `acquire`
  ends at once; waiting, timeouts and other clients are in `ConnectionTheorems`.
- Supervisor.Drain: assumes that the child and its descendants act finitely often; a writer that keeps its pipe open for
  ever makes the drain loop of the source spin.
- Supervisor.MonitorChild: assumes that the clock advances between two readings and that the blocking wait succeeds; the
  exceptions modelled are those of growing the captured strings, not those of logging; reading cpu.stat is left out.
- Supervisor.WatchIdleChild: takes everything in the loop but `poll` as instantaneous.
- Descriptors.Feed: the write to the child's input blocks before any output is read; the child is taken to consume its
  input, otherwise the supervisor can block outside its deadline.
- Descriptors.Execute: the child's own side of the fork is not modelled, its cgroup is set up or refused as a whole, and
  descriptor numbers are never reused.
- Cgroup.FileSystem.Cleanup: a tree that changes while it is removed is not modelled, except that directories may be
  missing; the waits between attempts are not timed.
- Judging.Judger.Judge: requires non-empty output of a run that was in order, because taking the last character of an
  empty string is undefined in the source.
- Judging.JudgeTask: CPU time, exit code and signal in the result messages are left out, and the sandbox directory too.
- Limits.DeadlineErrorIsBounded: bounds the way from stored milliseconds to the deadline; the rounding of the request's own
  binary32 product before it is stored is not bounded, and overflow of the 32-bit count is not modelled.
- TokenManagerObject.TokenManager.VerifyToken: takes place at one moment. Between the commands of the other calls of the
  object time passes, but no other call acts; commands of other calls in between are in `TokenProtocol`. The library's
  check of `iat` is left out, because the clock does not go back.
- TokenProtocol.BanCovers: a time to live that truncates to zero seconds means a key without expiry; where Redis refuses
  it instead, the call has failed. A key is taken to be gone once the clock has passed its expiry, not at that instant.
- TokenProtocol.RevokedReturnsOnSomeRunExactly: an issue may happen at any moment, as a command may be delayed; that the
  clock must have shown the token's own second when its claims were stamped is not required of a run.
- Printing of results and reports.
