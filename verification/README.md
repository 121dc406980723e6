# A model of the support agent's protocols and stateful cores, with proofs

The agent registers with a server for one of a limited number of replica slots, runs the commands it is sent, keeps
their results on disk until the server has them, places shared files on its machine, and gives its slot back when it is
shut down. This project models that behaviour in Dafny and proves what it keeps over every run.

| file | models |
|---|---|
| `CommandTransport.dfy`, `CallPhases.dfy`, `ResultFate.dfy`, `AgentTransport.dfy` | running commands, the files of pending results and their fate, the fencing generations |
| `RetryStrategy.dfy` | the retry loop around every API call |
| `RegisterLoop.dfy`, `Readmission.dfy`, `Admission.dfy` | the register loop of one replica, and a fleet of them under a replica limit |
| `ReplicaAgent.dfy`, `DrainLaw.dfy`, `ProjectAgent.dfy`, `AgentDriver.dfy`, `ShutdownTiming.dfy` | one replica as a whole, and its graceful shutdown |
| `SharedFileMounts.dfy`, `MountReports.dfy`, `Reconciler.dfy`, `ApplyChain.dfy`, `DestinationGuard.dfy` | the shared-file reconciler |
| `FileWalk.dfy`, `GrepTool.dfy`, `RegexGuard.dfy` | the directory walk, the capped search, the pattern scanner |
| `LogRotator.dfy`, `RotatingFileWriter.dfy` | the rotating log writer |
| `Heartbeat.dfy`, `ConnectEscalation.dfy` | ping/pong liveness and the failure escalation |
| `PlaywrightRun.dfy`, `ReportFold.dfy` | the kill-escalation timers and the fold of the test report |

The concurrent parts come in two layers. A pure layer defines the state, one step function for every segment of code
between two `await`s, the events the environment can deliver and the runs they form; invariants and theorems are proved
there, for every interleaving. An imperative layer has the source's own objects, whose methods update their fields, and
each method is proved to be the step it implements. What each single event does is stated a second time, without the
step functions, in `CallPhases.dfy`, `Readmission.dfy`, `DrainLaw.dfy` and `MountReports.dfy`, with what follows from it
over runs.

What is assumed of the outside:

- A segment between two `await`s is atomic. `startServices` followed by the reset of the admission mode is one step.
- Pending-result files can be read back and their writes are atomic. A retried submit takes no longer than the bound
  proved for `withRetry`, with each request within its 10 s timeout.
- All workers of a host share the pending directory. The others run passes of any age at any time, and store results of
  commands of their own, never of one that this process is running.
- Command execution returns any result, or throws an error without a status: the dispatcher turns every error of a
  handler into a result (src/commands/index.ts:391-403). A handler that shuts the agent down passes its command id.
- The server follows the rules the comments state: an `initial` request may evict the oldest live replica, a `standby`
  request only enters a free slot, a 409 means that another replica owns the command.
- A hash is any function of the content, and file systems change only through the calls modelled, except where a
  history of foreign edits is part of the statement. One log writer owns its files.
- Directories do not change while they are walked; resolved link targets and search roots are real paths.
- Timers never fire early. In the models of the drain and of Playwright they fire at most `lag` late. Sending a signal
  may raise the child's error event at once, as Node.js documents for a process that cannot be killed.

Where the code does less than its comments or its names suggest, the code is followed, an input shows the difference,
and the exact condition is proved:

- The pending file is named after the command alone, so the answer to an old result of a command can remove the result
  of a newer run that was never answered (`NewerResultLost`, `SafeExactlyWhenAlone`).
- A worker that starts takes every pending file, whatever its age, so it may post a result whose submit another worker
  of the host has under way (`AnotherWorkerPostsInParallel`, `ParallelExactlyWhen`).
- A deferred restart waits forever when the subscriber of the loop it waits for was disconnected between its opening and
  its acknowledgement and stays silent (`StuckAfterTokenUpdate`, `RestartCanLandExactlyWhen`).
- A subscriber that was disconnected may still be acknowledged. The code goes on, resets the admission mode, and the
  restart after an eviction gets the right to evict (`LateAckEvictsUnpaid`, `LateAckUndoesEvictionExactlyWhen`).
- A shared file can be in place and on no record although its hash was known, because the log line between the rename
  and the record looks its size up and may throw (`UnrecordedAfterFailedStat`, `RenamedIsRecordedExactlyWhen`).
- A log file can grow beyond its limit when its size cannot be taken at the opening, at that write or at a later one
  (`OverfullAfterFailedStat`, `OverfullLater`, `FirstOverfillExactlyWhen`), and a write that stores only a part of its
  chunk is counted and returned as whole (`HalfAChunkIsLost`, `WholeChunksExactlyWhen`).
- SIGKILL can be sent after the promise has settled, when sending SIGINT itself raised the error that settled it
  (`SignalAfterSettling`, `SignalAfterSettlingExactlyWhen`).

`dafny verify dfyconfig.toml` checks the project with Dafny 4.11.

## Model

| member | source | states |
|---|---|---|
| `CommandTransport.StepExact` | src/agent-transport.ts:483-660 | Every step of every call keeps: the in-flight set is exactly the ids of live calls, no id has two calls, and generations are held only for in-flight ids |
| `CommandTransport.StepFenced` | src/api-client.ts:332-369 | The generation held for a command is the one its own live call was assigned, never one left over from an earlier run |
| `CommandTransport.StepPosts` | src/pending-result-store.ts:35-54 | No pass of this process ever holds a file whose own main-path submit is still outstanding, however other processes use the directory; every step keeps this, given the time bound of a retried submit |
| `CommandTransport.SubmitBoundBelowFlushAge` | src/pending-result-store.ts:38-41 | The longest retried submit takes 33 000 ms, which is below the 90 s minimum age of a file the periodic pass takes (the comment estimates about 35 s) |
| `CommandTransport.RunInv` | src/agent-transport.ts:472-660 | Over every interleaving of calls, passes and what other processes do to the directory the three laws above hold |
| `CommandTransport.ParallelExactlyWhen` | src/pending-result-store.ts:198-213 | Whoever loads the directory and with whatever minimum age: its pass posts a result in parallel with its own submit exactly when the file of an outstanding submit is not stale and passes the age filter |
| `CommandTransport.FlushAgeIsEnough` | src/pending-result-store.ts:38-54 | The minimum age of the periodic passes excludes that, in whatever process they run |
| `CommandTransport.AnotherWorkerPostsInParallel` | src/project-agent.ts:770-777 | A run that shows it: another worker on the host starts, takes every file whatever its age, and posts a result whose submit is outstanding |
| `CommandTransport.InFlightChangesExactly` | src/agent-transport.ts:491-660 | Each exit of a call removes exactly its own id; a transport stop removes none; a drain admits none; nothing else adds or removes an id |
| `CallPhases.ExecutedPosts` | src/agent-transport.ts:567-578 | After the execution the call posts exactly the result it was given; the file, where the write worked, holds that same result under the generation held then |
| `CallPhases.FailurePosts` | src/agent-transport.ts:616-643 | A failed fetch and an execution error store and post a failure with exactly their message |
| `CallPhases.FetchedExecutes` | src/agent-transport.ts:498-515 | A fetched command executes under the generation that came with it; nothing is stored for it |
| `CallPhases.ClaimedEnds` | src/agent-transport.ts:500-514 | A command claimed elsewhere ends its call and leaves every file |
| `CallPhases.AnswerEnds` | src/agent-transport.ts:577-610 | An answer ends exactly this call; its file stays exactly when the submit failed for another reason than 409, or the unlink did |
| `CallPhases.ConflictEnds` | src/agent-transport.ts:617-623 | An execution error with status 409 ends the call and takes the file |
| `CallPhases.BeginFetches` | src/agent-transport.ts:483-501 | A call that is admitted only fetches; one that is not changes nothing |
| `CallPhases.OthersKeepTheCall` | src/agent-transport.ts:472-661 | No event of another call, of a pass or of another process changes a call |
| `CallPhases.WritesExactly` | src/pending-result-store.ts:92-128 | Each file after a step is the old one, or the one this very event had to store, with its result and generation |
| `CallPhases.PostsWhatIsStored` | src/agent-transport.ts:567-578 | In every run of a new process: while the file a call stored is on disk, what the call posts is exactly what that file holds |
| `CallPhases.LoadsExactly` | src/pending-result-store.ts:141-196 | A pass loads exactly the files that are neither stale nor too young, each once |
| `CallPhases.AnswerTakesTheHead` | src/pending-result-store.ts:213-264 | An answer is for the first file a pass has left, and only that file is done with |
| `CallPhases.PassPostsEachOnce` | src/pending-result-store.ts:213-264 | In every run what a pass has posted and what it has left make up its load: each file once and in order |
| `ResultFate.RemovedExactlyWhen` | src/pending-result-store.ts:130-139 | A file disappears in a step exactly when the server answers for its command or the file passes the age limit, and the unlink works |
| `ResultFate.NoSilentLoss` | src/pending-result-store.ts:92-128 | Under any interleaving, once a result of a command is persisted, one stays on disk until the server answers for the command or it passes the 3-hour limit |
| `ResultFate.SaveGoneExactlyWhen` | src/pending-result-store.ts:198-265 | Per stored result: a step takes it from the disk exactly when a newer result of the command replaces it, a request that carried it is answered, it expires, or the answer to another result of the same command displaces it |
| `ResultFate.KeptExactlyWhenOnDisk` | src/pending-result-store.ts:198-265 | After any run a stored result is on disk exactly when none of these has happened to it |
| `ResultFate.PassDisplacesExactlyWhen` | src/pending-result-store.ts:213-248 | A pass removes a result it got no answer for exactly when the next file it posts is another result of the same command, and that one is accepted or refused |
| `ResultFate.SubmitDisplacesExactlyWhen` | src/agent-transport.ts:567-610 | After any run of a new process: the answer to a submit removes a stored result it did not carry exactly when the submitted result could not be stored itself |
| `ResultFate.ExecutedResultKept` | src/agent-transport.ts:567-609 | If no pass holds another result of the command when the executed one is stored, then until it is answered itself or passes the age limit it stays on disk, unchanged, under the generation this very call was assigned, whatever happens but a new run |
| `ResultFate.SafeExactlyWhenAlone` | src/pending-result-store.ts:208-248 | That condition is exact: a result just stored can never be displaced if and only if no pass holds another result of its command |
| `ResultFate.NewerResultLost` | src/pending-result-store.ts:240-245 | A run from a new process where it fails: the answer to the old result removes the new one, whose own submit then fails; nothing is left and the new result was never answered |
| `ResultFate.UnstoredResult` | src/agent-transport.ts:594-608 | A result that could not be stored is never on disk later |
| `AgentTransport.LoadPendingResults` | src/pending-result-store.ts:141-196 | Of any directory listing, exactly the files that are neither stale nor too young are returned, in order, and exactly the stale ones whose unlink works are gone |
| `AgentTransport.TransportState.constructor` | src/agent-transport.ts:24-56 | A new process starts idle with whatever files its predecessor left |
| `AgentTransport.TransportState.ProcessCommand` | src/agent-transport.ts:483-497 | Declined while draining or when the id is in flight; otherwise the id enters the set in the same segment |
| `AgentTransport.TransportState.ClearAssignment` | src/api-client.ts:362-364 | Forgets exactly this command |
| `AgentTransport.TransportState.GetAssignmentGeneration` | src/api-client.ts:367-369 | The generation held, or none |
| `AgentTransport.TransportState.OnCommandFetched` | src/agent-transport.ts:498-517 | The three outcomes of the fetch: go on under the generation that came with it, end silently on 409, or persist and submit a failure |
| `AgentTransport.TransportState.OnExecuted` | src/agent-transport.ts:567-578 | The executed result is persisted before it is posted, with the generation held then |
| `AgentTransport.TransportState.OnThrown` | src/agent-transport.ts:616-643 | An execution error with status 409 drops the file and ends the call; any other is persisted as a failure and posted |
| `AgentTransport.TransportState.OnSubmitAnswered` | src/agent-transport.ts:577-610 | Accepted or 409 removes the file, any other failure keeps it; the call ends in every case |
| `AgentTransport.TransportState.SavePendingResult` | src/pending-result-store.ts:92-128 | The new file replaces the one of the same id and carries the held generation; a failing write changes nothing and is reported |
| `AgentTransport.TransportState.RemovePendingResult` | src/pending-result-store.ts:130-139 | Removes exactly the file of this id, unless the unlink fails |
| `AgentTransport.TransportState.FinishCall` | src/agent-transport.ts:655-660 | The finally block: the id, its generation and the call go, nothing else |
| `AgentTransport.TransportState.StartPass` | src/pending-result-store.ts:198-207 | A pass holds what the listing gave it; stale files are gone |
| `AgentTransport.TransportState.OnPassAnswered` | src/pending-result-store.ts:213-264 | Accepted or a 4xx other than 401 and 403 removes the file, everything else leaves it |
| `AgentTransport.TransportState.Handle` | src/agent-transport.ts:472-661 | For any deliverable event the object takes exactly the step of the protocol |
| `RetryStrategy.CalculateBackoff` | src/retry-strategy.ts:23-33 | The delay lies between half and all of the exponential step and never above the cap |
| `RetryStrategy.JitterScales` | src/retry-strategy.ts:26-32 | With jitter the delay is the capped step times a factor between a half and one, to the nearest millisecond |
| `RetryStrategy.RetriesExactly` | src/retry-strategy.ts:43-55 | Network errors, 408, 429 and server errors are retried, all else is final |
| `RetryStrategy.ElapsedBound` | src/retry-strategy.ts:57-76 | n tries of at most T with base b take at most n·T + b·(2^(n−1) − 1), and at least half of the waiting part of that |
| `RetryStrategy.WithRetry` | src/retry-strategy.ts:57-76 | Tries go on exactly over retryable errors; the outcome is that of the last try; the time is that of the tries and the waits between them; zero tries throw an undefined error |
| `RegisterLoop.StepLoopLaw` | src/project-agent.ts:249-283 | Every step keeps: at most one register loop is active, pending restarts carry distinct generations, and a restart that can still fire finds the agent cancelled and awaits the last loop |
| `RegisterLoop.StepChargeLaw` | src/project-agent.ts:103-115 | Every step keeps: initial registrations made or owed never outnumber process starts, token updates, failed attempts and evictions undone by a late acknowledgement; no eviction owes one by itself |
| `RegisterLoop.RunLaws` | src/project-agent.ts:249-283 | Both laws hold in every run |
| `RegisterLoop.InitialCallsArePaid` | src/project-agent.ts:738-738 | In every run of a new agent there is at most one loop, and initial calls and their requests are bounded by what they are charged to |
| `RegisterLoop.CausesPay` | src/project-agent.ts:103-115 | In every run in which no late acknowledgement undoes an eviction, process starts, token updates and failed attempts alone pay for all initial calls |
| `RegisterLoop.LateAckUndoesEvictionExactlyWhen` | src/project-agent.ts:818-825 | A late acknowledgement hands out a right to evict exactly when it undoes an eviction: the mode is standby and the restart is pending |
| `RegisterLoop.LateAckEvictsUnpaid` | src/appsync-subscriber.ts:136-152 | A run that shows it: the acknowledgement of a disconnected subscriber lets startServices finish, the mode is initial again, and the restart after the eviction may evict |
| `RegisterLoop.RestartLands` | src/project-agent.ts:498-517 | A restart that fires under the current generation always starts exactly one loop: it is never dropped by the running-loop check of start |
| `RegisterLoop.RestartCanLandExactlyWhen` | src/project-agent.ts:488-517 | A current restart can be made to land, through answers to the loop it waits for and without an error or a late acknowledgement, if and only if no loop waits for a subscriber that was disconnected |
| `RegisterLoop.StuckNeverFires` | src/base-websocket.ts:218-245 | While that subscriber is silent the restart never fires, whatever else happens: the closed connection neither settles nor reconnects |
| `RegisterLoop.StuckAfterTokenUpdate` | src/project-agent.ts:552-557 | A run into it: a token update while the first session waits for its acknowledgement |
| `RegisterLoop.OneCurrentRestart` | src/project-agent.ts:498-517 | At most one pending restart can still start a loop |
| `RegisterLoop.ShutStays` | src/project-agent.ts:404-406 | Once cancelled with no current restart, no step of the loop or of an older restart starts a loop again |
| `Readmission.EvictedExactly` | src/project-agent.ts:985-996 | An eviction of a replica that is not cancelled sets standby, cancels, disconnects, begins a new generation and leaves exactly one more restart pending, which is current; on a cancelled one it does nothing |
| `Readmission.TokenUpdatedExactly` | src/project-agent.ts:543-557 | A token update does the same and keeps the admission mode |
| `Readmission.StoppedExactly` | src/project-agent.ts:263-266 | A stop from outside cancels and disconnects and leaves no restart behind |
| `Readmission.FiredExactly` | src/project-agent.ts:507-517 | A due restart starts a new loop exactly when no stop came after it was deferred |
| `Readmission.LoopMovesExactly` | src/project-agent.ts:1209-1286 | Each answer moves its loop as one table says: where a cancelled loop ends, where it goes on, and that nothing else changes |
| `Readmission.ModeExactly` | src/project-agent.ts:818-825 | The mode becomes standby exactly by an eviction that is acted upon, and initial exactly when services are up |
| `Readmission.EvictedComesBackAsStandby` | src/project-agent.ts:958-997 | After an eviction, whatever stops, updates, failures and evictions follow, the first request that is made again has mode standby, unless a late acknowledgement comes before it |
| `Readmission.StandbyUntilAcknowledged` | src/project-agent.ts:820-825 | No event but an acknowledgement gives the right to evict back |
| `Readmission.EvictedRestarts` | src/project-agent.ts:988-996 | Where the eviction did not catch the loop waiting for its subscriber, answers alone bring its restart to fire, and exactly one loop runs again |
| `Admission.EvictsExactlyWhen` | src/project-agent.ts:858-861 | The server evicts exactly on an initial request to a full plan from a replica without a slot; a standby request never evicts |
| `Admission.AdmitsExactly` | src/project-agent.ts:855-862 | Who holds a slot after a request: all who did but the oldest where room had to be made, and the one that asked exactly when it did, had room or may evict |
| `Admission.OthersKeepTheSlots` | src/project-agent.ts:855-862 | Nothing else of a replica gives or takes a slot |
| `Admission.FleetStepLaw` | src/project-agent.ts:963-967 | With any number of replicas every step keeps: live slots are distinct and within the limit, and evictions are at most the initial requests sent |
| `Admission.EvictionsAreBounded` | src/project-agent.ts:103-115 | In every run of any fleet the limit holds and all evictions together are at most three per process start, token update, failed attempt or eviction undone |
| `Admission.CausesBoundEvictions` | src/project-agent.ts:103-115 | Where no late acknowledgement undoes an eviction, the first three alone bound the evictions |
| `Admission.NoEndlessSwap` | src/project-agent.ts:108-112 | While nothing new can be charged, evictions stay below what the past has paid for: replicas cannot swap forever |
| `ReplicaAgent.AgentStepInv` | src/project-agent.ts:381-440 | Every step of the whole replica (register loop, commands, passes, shutdown) keeps all laws together |
| `ReplicaAgent.ReleaseStep` | src/project-agent.ts:411-437 | A release happens only on the way from a drained shutdown with the slot held and nothing but excluded commands in flight |
| `ReplicaAgent.ReleaseIsSafe` | src/project-agent.ts:411-437 | In every run of a new agent the slot is released at most once, and only then |
| `ReplicaAgent.ShutdownIsForever` | src/project-agent.ts:389-406 | After shutdown has begun: draining stays, no command enters, no exclusion is lost, and no register loop is started by any event |
| `DrainLaw.DrainEndsExactly` | src/project-agent.ts:458-482 | Over every run: a drain ends at the first poll that finds nothing to wait for or its deadline passed, and nowhere else; it times out only if it still waits then, and after that the slot is never released |
| `DrainLaw.ShutdownRun` | src/project-agent.ts:381-439 | Over every run: a shutdown called at some time with some timeout stands as its polls say, with the deadline at exactly that time plus that timeout, whoever joins later and with whatever timeout |
| `DrainLaw.PollExactly` | src/project-agent.ts:469-481 | One poll: drained exactly without a command to wait for, timed out exactly with one and the deadline passed, unchanged exactly with one before it |
| `DrainLaw.PollIsALook` | src/project-agent.ts:469-481 | A poll of the replica goes on and ends exactly where the loop of waitForDrain does |
| `DrainLaw.SettlesExactly` | src/project-agent.ts:415-439 | The release is sent exactly when the drain is complete and the slot is held; else the transport stops at once |
| `DrainLaw.ReleaseAnswerStops` | src/project-agent.ts:424-439 | Any answer to the release stops the transport |
| `DrainLaw.ShutdownBegins` | src/project-agent.ts:386-406 | The first call sets the deadline, admits no more commands and cancels the register loop under a new generation |
| `DrainLaw.ShutdownJoined` | src/project-agent.ts:382-385 | A call excludes its caller, and one that joins changes nothing else |
| `DrainLaw.SlotExactly` | src/project-agent.ts:752-768 | The slot is held exactly from an answer that is acted upon until an eviction |
| `DrainLaw.FlagsExactly` | src/project-agent.ts:778-825 | The recovery and the services are on exactly after their events |
| `DrainLaw.AdmissionLoads` | src/project-agent.ts:773-777 | A registration takes every file that is not stale, and after the first recovery only those at least 90 s old |
| `DrainLaw.RegisterExactly` | src/project-agent.ts:530-558 | A shutdown ignores token updates and evictions; no register event changes the transport |
| `ReplicaAgent.NothingRunsAfterRelease` | src/project-agent.ts:391-440 | After a release no command outside the excluded set is ever in flight again, and there is no second release |
| `ReplicaAgent.BlockerCanEnd` | src/project-agent.ts:172-189 | No call the drain waits for waits for the shutdown: the end of its execution and answers from outside end it, and take exactly its id out |
| `ReplicaAgent.DrainCanFinish` | src/project-agent.ts:458-482 | From every reachable state the drain can finish through executions that end with a result and answers from outside: there is no cycle of waiting, also with callers that joined a shutdown already begun |
| `ReplicaAgent.EveryRun` | src/project-agent.ts:770-786 | In every run of a new agent the command laws hold, no pass of its own posts in parallel with a submit, every waiter is excluded, and nothing is in flight before the first recovery |
| `ReplicaAgent.AgentRunsAreTransportRuns` | src/project-agent.ts:770-786 | Every run of the replica is, for its transport, a run in which a pass without minimum age meets no live call |
| `ReplicaAgent.AgentLosesNothing` | src/pending-result-store.ts:92-128 | For the whole replica: a command keeps a result on disk until it is answered or expires, and every single stored result is on disk exactly unless the run accounts for it |
| `ProjectAgent.ProjectAgent.constructor` | src/project-agent.ts:191-247 | A new agent |
| `ProjectAgent.ProjectAgent.Start` | src/project-agent.ts:249-261 | Does nothing while a loop is registering, else starts one and clears the cancellation |
| `ProjectAgent.ProjectAgent.ProcessStart` | src/project-agent.ts:249-261 | The start of the process |
| `ProjectAgent.ProjectAgent.CancelRegisterLoop` | src/project-agent.ts:278-283 | Cancels and begins a new stop generation |
| `ProjectAgent.ProjectAgent.StopTransport` | src/agent-transport.ts:675-681 | Disconnects the subscriber a loop may be waiting for; commands stay in flight |
| `ProjectAgent.ProjectAgent.Stop` | src/project-agent.ts:263-266 | Both of these |
| `ProjectAgent.ProjectAgent.StopAndRestart` | src/project-agent.ts:547-557 | A stop and the deferred restart that belongs to its generation |
| `ProjectAgent.ProjectAgent.RestartRegisterLoop` | src/project-agent.ts:498-507 | Remembers the generation and the loop to wait for |
| `ProjectAgent.ProjectAgent.OnRestartDue` | src/project-agent.ts:507-517 | Starts only if no stop came in between |
| `ProjectAgent.ProjectAgent.UpdateToken` | src/project-agent.ts:530-558 | Ignored during shutdown, else stop and deferred restart |
| `ProjectAgent.ProjectAgent.Reregister` | src/project-agent.ts:543-557 | The stop and the deferred restart of a token update |
| `ProjectAgent.ProjectAgent.ReenterAsStandby` | src/project-agent.ts:985-996 | Nothing after a stop; else the standby mode is set before the stop and the deferred restart |
| `ProjectAgent.ProjectAgent.HandleEviction` | src/project-agent.ts:969-997 | The slot is forgotten in every case; during shutdown or after a stop nothing else happens; else standby, stop and deferred restart |
| `ProjectAgent.ProjectAgent.PerformRegistration` | src/project-agent.ts:734-738 | The request carries the sticky admission mode |
| `ProjectAgent.ProjectAgent.SendRegisterRequest` | src/project-agent.ts:734-738 | One HTTP request of the outstanding call, under the mode it was made with |
| `ProjectAgent.ProjectAgent.OnAdmitted` | src/project-agent.ts:746-777 | Only a cancelled standby wait drops the answer; otherwise the slot is recorded before anything else, and the pass has no minimum age exactly before the first recovery |
| `ProjectAgent.ProjectAgent.OnRecovered` | src/project-agent.ts:778-778 | The first recovery is over |
| `ProjectAgent.ProjectAgent.OnServicesStarted` | src/project-agent.ts:818-825 | Only now may the next registration evict again |
| `ProjectAgent.ProjectAgent.FinishServices` | src/project-agent.ts:818-825 | The mode is reset and the loop ends |
| `ProjectAgent.ProjectAgent.OnLateAcknowledgement` | src/project-agent.ts:818-825 | The same after the subscriber was disconnected: nothing looks at the cancellation |
| `ProjectAgent.ProjectAgent.OnRegistrationFailed` | src/project-agent.ts:1231-1284 | A cancelled loop ends, any other backs off and keeps the admission mode |
| `ProjectAgent.ProjectAgent.GoOn` | src/project-agent.ts:878-900 | After every wait a cancelled loop ends |
| `ProjectAgent.ProjectAgent.ExcludeCaller` | src/project-agent.ts:382-384 | Recorded before the memoized promise is looked at |
| `ProjectAgent.ProjectAgent.Shutdown` | src/project-agent.ts:381-408 | The first call drains and cancels; a later one only adds its exclusion; in both cases the caller is excluded |
| `ProjectAgent.ProjectAgent.DoShutdown` | src/project-agent.ts:391-409 | Draining begins and the register loop is cancelled before the first wait |
| `ProjectAgent.ProjectAgent.RemainingCommands` | src/project-agent.ts:461-467 | Exactly the in-flight commands that are not excluded |
| `ProjectAgent.ProjectAgent.PollDrain` | src/project-agent.ts:468-481 | One look of the drain loop |
| `ProjectAgent.ProjectAgent.AfterDrain` | src/project-agent.ts:413-439 | Release only when drained with the slot held, else straight to the stop |
| `ProjectAgent.ProjectAgent.OnReleaseAnswered` | src/project-agent.ts:424-439 | Whatever the answer, the transport stops |
| `AgentDriver.DeliverRegister` | src/project-agent.ts:249-558 | Any event of the register loop takes the object exactly through the step of the protocol |
| `AgentDriver.DeliverCommand` | src/agent-transport.ts:472-661 | Any event of the command transport does |
| `AgentDriver.Deliver` | src/project-agent.ts:249-558 | Any event of the replica does |
| `AgentDriver.Live` | src/project-agent.ts:191-1284 | After any schedule the object is where the protocol is: in-flight ids exact, no parallel posts by its own passes, waiting callers excluded from the drain, at most one release |
| `ShutdownTiming.WaitForDrain` | src/project-agent.ts:458-482 | Ends at the first look that finds nothing left or the deadline passed, at most one poll interval and the lag of its timer after the timeout, and reports what was left |
| `ShutdownTiming.GracefulExitFits` | src/constants.ts:487-576 | For every drain timeout, drain, last poll, release and Sentry flush stay below the time after which the parent kills the child if the last poll is less than 4 750 ms late; for a timeout of whole seconds exactly then |
| `SharedFileMounts.EveryEntryAccountedFor` | src/shared-file-mounts.ts:435-452 | After a run with a readable manifest and a successful save, each old entry is still on record or its file is gone |
| `SharedFileMounts.PartsAreDisjoint` | src/shared-file-mounts.ts:438-452 | Placed, carried over and remaining entries never name the same path |
| `SharedFileMounts.RecordsStayDistinct` | src/shared-file-mounts.ts:438-452 | Whatever its I/O does, a run over distinct destinations never records a path twice |
| `SharedFileMounts.RenamedIsRecordedExactlyWhen` | src/shared-file-mounts.ts:380-395 | A file renamed into place is recorded with its hash exactly when reading its size back did not throw and a hash could be taken |
| `SharedFileMounts.UnrecordedAfterFailedStat` | src/shared-file-mounts.ts:383-387 | An input where the file is in place and on no record, although its hash was known: the size lookup inside the log line throws |
| `SharedFileMounts.ManifestNamesOnlyOwn` | src/shared-file-mounts.ts:358-364 | Over any history of runs, foreign edits and damaged manifests, the manifest names only paths this agent renamed a file into |
| `SharedFileMounts.EventRecordsOwn` | src/shared-file-mounts.ts:358-364 | One event keeps that |
| `SharedFileMounts.RemovedExactlyWhen` | src/shared-file-mounts.ts:226-268 | The removal loop deletes a file exactly when some record of it holds its current hash, is not wanted, and passes every check |
| `SharedFileMounts.DeletesExactlyWhen` | src/shared-file-mounts.ts:304-314 | A run deletes a file exactly when the configuration is explicit and does not name it, the manifest is readable and the record matches; then it is one of the own files. No configuration or a corrupted manifest deletes nothing |
| `SharedFileMounts.PlacingFrame` | src/shared-file-mounts.ts:318-404 | Placing touches only configured destinations, deletes nothing, and records only what was renamed now or recorded before |
| `SharedFileMounts.RemovalFrame` | src/shared-file-mounts.ts:218-272 | Removing changes no content, and every recorded entry is wanted, gone or still on record |
| `SharedFileMounts.IdealRun` | src/shared-file-mounts.ts:300-464 | What a run with succeeding I/O leaves: files and manifest, spelt out; the modes in numbers are in `MountReports.IdealModes` |
| `SharedFileMounts.SecondRunChangesNothing` | src/shared-file-mounts.ts:353-378 | With succeeding I/O, distinct destinations and no outside writes, applying the same configuration again changes no file, mode or record and skips every mount |
| `SharedFileMounts.EmptyRunCleansUp` | src/shared-file-mounts.ts:406-423 | Then the empty configuration removes every file on record and forgets it, except exactly the ones somebody altered |
| `MountReports.ModeReadsBack` | src/shared-file-mounts.ts:115-118 | A mode written as a zero and three octal digits is read as that number |
| `MountReports.OtherTextIsDefault` | src/shared-file-mounts.ts:115-116 | Every other text stands for 0600 |
| `MountReports.IdealModes` | src/shared-file-mounts.ts:353-380 | After a run with succeeding I/O every configured file is there, with the hash of its source and the number its mode spells |
| `MountReports.PlaceReports` | src/shared-file-mounts.ts:319-403 | Each mount is reported exactly once, with a status told from the calls that succeeded and the file that was there |
| `MountReports.OutcomesTellTheTruth` | src/shared-file-mounts.ts:358-395 | Skipped: the file was right. Applied: it is right now. Failed: it is untouched, or it was renamed and its size could not be read |
| `MountReports.RemoveReports` | src/shared-file-mounts.ts:226-268 | A record is passed over, reported as removed with its file gone, or reported as failed and kept |
| `MountReports.RemovedExactlyThese` | src/shared-file-mounts.ts:226-268 | Over the whole removal: reported as removed are exactly the files that are gone |
| `MountReports.FailedExactlyThese` | src/shared-file-mounts.ts:226-268 | Reported as failed are exactly the records that are kept for later |
| `MountReports.NewRecordsHold` | src/shared-file-mounts.ts:361-395 | Whatever its I/O does, what a saved run puts on record for the first time is the hash of the file it leaves there |
| `MountReports.RunReports` | src/shared-file-mounts.ts:406-463 | A run reports its mounts in order, then the removals, and last a manifest that was unreadable or could not be saved |
| `Reconciler.Machine.PlaceOne` | src/shared-file-mounts.ts:319-403 | One turn of the placing loop with all its early exits |
| `Reconciler.Machine.PlaceMounts` | src/shared-file-mounts.ts:318-404 | The placing loop |
| `Reconciler.Machine.RemoveStaleMounts` | src/shared-file-mounts.ts:218-272 | The removal loop |
| `Reconciler.Machine.ApplyInternal` | src/shared-file-mounts.ts:300-464 | The whole run: which parts are executed, what is saved and what is reported |
| `ApplyChain.OverlappingCallsAreSerial` | src/shared-file-mounts.ts:288-298 | Every call waits for the promise the variable held, and leaves its own there; however calls overlap and whichever of them fail, at most one run is in progress and the result is that of running them in call order |
| `ApplyChain.NextCanStart` | src/shared-file-mounts.ts:296-297 | A failed call never blocks the next one |
| `DestinationGuard.FindUnsafeSymlink` | src/shared-file-mounts.ts:535-574 | Climbing to the deepest ancestor that exists computes where the destination leads; it is refused exactly when it is a link itself or that place differs and is not allowed |
| `DestinationGuard.MakesWhereItLeads` | src/shared-file-mounts.ts:554-573 | Where making the directory succeeds, following links as the system resolves names, it is made at the place the climb computes |
| `DestinationGuard.FaithfulTree` | src/shared-file-mounts.ts:558-573 | The answers the two results about disks assume of existsSync and realpathSync exist for every disk, also where links lead to their own ancestors |
| `DestinationGuard.AcceptedWritesInside` | src/shared-file-mounts.ts:318-380 | Whatever links are on disk, cycles included: if a destination passes both checks, then the directory that is made for it and the name renamed there are inside an allowed root, outside .ssh and outside the configuration directory |
| `DestinationGuard.PlainPathsPass` | src/shared-file-mounts.ts:558-574 | Where no link is on the way nothing is refused but a destination that is a link itself |
| `FileWalk.RootsExpandOnce` | src/commands/api-tool-executor.ts:155-194 | Across all roots of one call every real directory is expanded at most once |
| `FileWalk.VisitsExactlyTheReachable` | src/commands/api-tool-executor.ts:155-194 | On any finite disk, whatever cycles its links form, a walk that is not stopped visits exactly the directories reachable from a root through entries that are not skipped: directories, and links that resolve to a contained directory |
| `FileWalk.RootsFiles` | src/commands/api-tool-executor.ts:173-193 | Exactly the entries of the expanded directories that are files or contained links to files, and are not skipped, are handed over, each once |
| `GrepTool.ToolCall.WalkDirectory` | src/commands/api-tool-executor.ts:155-194 | The recursive method terminates and hands over exactly a prefix of the full walk, cut where the visitor says stop |
| `GrepTool.ToolCall.TakeEntry` | src/commands/api-tool-executor.ts:173-192 | The branches for one entry |
| `GrepTool.ToolCall.WalkListing` | src/commands/api-tool-executor.ts:173-193 | The loop over one listing |
| `GrepTool.ToolCall.Visit` | src/commands/api-tool-executor.ts:405-435 | The visitor itself: collects the matches of the file and stops the walk exactly when the cap is reached |
| `GrepTool.ToolCall.SearchRoots` | src/commands/api-tool-executor.ts:440-445 | The loop over the roots, which share the visited directories: the matches are the first ones of the full walk |
| `GrepTool.SearchFile` | src/commands/api-tool-executor.ts:405-435 | The matches grow by those of this file up to the cap, and the walk is told to stop exactly when the cap is reached |
| `GrepTool.SearchLines` | src/commands/api-tool-executor.ts:419-435 | The line loop pushes exactly the next matches up to the cap |
| `GrepTool.Grep` | src/commands/api-tool-executor.ts:437-445 | For one file or for directories, the matches are exactly the first 200 of all there are, in walking order |
| `GrepTool.CutKeepsFirst` | src/commands/api-tool-executor.ts:405-445 | Stopping at the cap loses none of the first matches |
| `GrepTool.LineMatchesExactly` | src/commands/api-tool-executor.ts:419-435 | The matches of a file are exactly the lines the expression matches, numbered from one, in order |
| `GrepTool.AllMatchesExactly` | src/commands/api-tool-executor.ts:405-435 | All matches are those of exactly the files that can be searched |
| `RegexGuard.IsDangerousRegexPattern` | src/commands/api-tool-executor.ts:269-341 | For every pattern, well-bracketed or not, with every character read by what stands before it (escaped, in a class, or the start of a quantifier): the scan answers true exactly when some group is quantified and holds, at any depth, a live quantifier or alternation |
| `RegexGuard.ExtraMarkingIsIdle` | src/commands/api-tool-executor.ts:317-327 | The extra marking at a quantified closing bracket never changes the answer |
| `RegexGuard.ClosesInnermost` | src/commands/api-tool-executor.ts:274-316 | The stack pairs brackets as balanced text does: a closing bracket ends the innermost one still open |
| `RegexGuard.ScanFindsDanger` | src/commands/api-tool-executor.ts:288-341 | The stack discipline decides danger over any meanings |
| `RegexGuard.ScanPattern` | src/commands/api-tool-executor.ts:288-341 | The character loop with its escape and class flags computes the scan over the meanings of the characters |
| `RegexGuard.TakeCharacter` | src/commands/api-tool-executor.ts:288-341 | What one character does to the flags and the stack, in every branch |
| `RegexGuard.FoundExactly` | src/commands/api-tool-executor.ts:281-286 | The search at a position finds an end exactly when a quantifier starts there: a plus, a star, or braces around digits with at most one comma |
| `RegexGuard.EndIsQuantifier` | src/commands/api-tool-executor.ts:281-286 | What it returns is the end of that quantifier |
| `RegexGuard.QuantifierMeansOnce` | src/commands/api-tool-executor.ts:333-341 | The characters inside a quantifier mean nothing themselves, and end neither an escape nor a class |
| `LogRotator.StoredIsASuffixOfTheStream` | src/log-rotator.ts:71-147 | After any writes with any failures, files N to 1 and then the active one hold a suffix of everything stored: in order, nothing twice and nothing missing in between |
| `LogRotator.WholeChunksExactlyWhen` | src/log-rotator.ts:83-85 | What is stored is what the calls claim to have written, in whole chunks, exactly when no call that returned stored only a part |
| `LogRotator.HalfAChunkIsLost` | src/log-rotator.ts:83-85 | An input where it is not: half of a chunk is stored and the call returns its whole length |
| `LogRotator.RotationDropsOnlyTheOldest` | src/log-rotator.ts:125-147 | A rotation, also one that stops half-way, drops nothing or exactly the oldest generation, and touches nothing beyond it |
| `LogRotator.ReadyDropsOnlyTheOldest` | src/log-rotator.ts:71-84 | A write drops something only when the chunk does not fit, and then only the oldest generation |
| `LogRotator.ShiftKeepsPieces` | src/log-rotator.ts:136-146 | The shift of the generations, wherever it stops, keeps every piece in its place |
| `LogRotator.WrittenFilesFit` | src/log-rotator.ts:71-86 | Unless a call misjudges the active file, every file started or appended to is at most maxBytes or one single chunk |
| `LogRotator.OverfullExactlyWhen` | src/log-rotator.ts:101-112 | For every writer, descriptor held or not: a write leaves the file too long exactly when the size the writer believes makes no rotation due and what is stored does not fit behind what is really there |
| `LogRotator.OverfullAfterFailedStat` | src/log-rotator.ts:105-111 | An input that shows it: one byte stored, a limit of one byte, and a failing size lookup |
| `LogRotator.OverfullLater` | src/log-rotator.ts:71-86 | An input where the failed lookup does its harm only at a later write, without any failure of its own |
| `LogRotator.FirstOverfillExactlyWhen` | src/log-rotator.ts:71-112 | In a run from a closed writer the first call that overfills a file is the first that misjudges it: its descriptor was opened with a failed lookup over some bytes, what was counted since makes no rotation due, and the true size leaves too little room |
| `LogRotator.RunOverfillsExactlyWhen` | src/log-rotator.ts:71-112 | Such a run overfills a file exactly when some call of it misjudges one |
| `LogRotator.LookupsSuffice` | src/log-rotator.ts:101-112 | While every lookup at an opening works, none does |
| `LogRotator.RunKeepsPacked` | src/log-rotator.ts:75-82 | Rotation is never early: while the append that a rotation was for does not fail, no stored file could have taken the first chunk of the next one, also with failing renames, unlinks and stats |
| `LogRotator.ThrowsExactlyWhen` | src/log-rotator.ts:71-86 | A write throws exactly when a call it needs fails: the opening, in a rotation that is due the unlink, a rename or the second opening, or the append; else it returns the length of its buffer |
| `LogRotator.ShiftCompletesExactlyWhen` | src/log-rotator.ts:136-146 | The shift stops exactly at a failing rename |
| `RotatingFileWriter.Create` | src/log-rotator.ts:57-64 | A limit that is not positive is an error |
| `RotatingFileWriter.RotatingFileWriter.Write` | src/log-rotator.ts:71-86 | Open, rotate when due, open again, append: with every failure where it can occur |
| `RotatingFileWriter.RotatingFileWriter.CloseFile` | src/log-rotator.ts:89-94 | The descriptor is released; files are untouched |
| `RotatingFileWriter.RotatingFileWriter.EnsureOpen` | src/log-rotator.ts:101-112 | The active file exists and its size is known, or taken for zero when it cannot be read |
| `RotatingFileWriter.RotatingFileWriter.RenameSync` | src/log-rotator.ts:140-145 | Every rename is into a free place: no live generation is ever overwritten |
| `RotatingFileWriter.RotatingFileWriter.Rotate` | src/log-rotator.ts:125-147 | Unlink, descending renames and promotion, stopped by the first failure |
| `Heartbeat.TerminatedExactlyAfterSilentWindow` | src/base-websocket.ts:268-305 | For every sequence of pongs and ticks the socket is terminated exactly when, from some tick on, the allowed number of intervals (at least one) passed without a pong; pongs before the first tick do not help |
| `Heartbeat.AnsweringPeerStaysConnected` | src/base-websocket.ts:254-266 | A peer that answers in every interval is never cut off, whatever the limit |
| `Heartbeat.Connection.StartHeartbeat` | src/base-websocket.ts:268-277 | Liveness starts anew; a non-positive interval disables the check |
| `Heartbeat.Connection.StopHeartbeat` | src/base-websocket.ts:308-315 | The timer and the counters are reset |
| `Heartbeat.Connection.OnPong` | src/base-websocket.ts:195-199 | A pong is remembered until the next tick |
| `Heartbeat.Connection.OnTick` | src/base-websocket.ts:278-304 | One tick |
| `ConnectEscalation.FiresOncePerStreak` | src/appsync-subscriber.ts:211-238 | The callback has fired exactly once for each maximal acknowledgement-free streak whose failed attempts reach the threshold |
| `ConnectEscalation.FiresAtTheThreshold` | src/appsync-subscriber.ts:218-232 | It fires at the very close that completes the threshold; the close of an acknowledged connection is not counted |
| `ConnectEscalation.AppSyncSubscriber.OnConnectionAck` | src/appsync-subscriber.ts:138-145 | An acknowledgement ends the streak |
| `ConnectEscalation.AppSyncSubscriber.OnWebSocketClose` | src/appsync-subscriber.ts:211-238 | One close |
| `PlaywrightRun.SettledByTheDeadline` | src/browser/playwright-subprocess-executor.ts:932-1021 | However close, error and timer events interleave, the promise has settled once the timeout, both windows and three times the timer lag are over |
| `PlaywrightRun.EscalationProceeds` | src/browser/playwright-subprocess-executor.ts:961-999 | Until then time can pass or the timer that holds it up is due |
| `PlaywrightRun.SettlesOnce` | src/browser/playwright-subprocess-executor.ts:942-959 | The first outcome stays whatever comes later |
| `PlaywrightRun.KillsInOrder` | src/browser/playwright-subprocess-executor.ts:975-984 | At most SIGINT and then SIGKILL, not before the timeout and the grace window |
| `PlaywrightRun.SignalAfterSettlingExactlyWhen` | src/browser/playwright-subprocess-executor.ts:975-984 | A signal is sent after settling exactly when, among the events, a SIGINT whose sending raises the error event is followed by the firing of the grace timer |
| `PlaywrightRun.SignalAfterSettling` | src/browser/playwright-subprocess-executor.ts:975-984 | A run that shows it |
| `PlaywrightRun.ExitTellsTheTruth` | src/browser/playwright-subprocess-executor.ts:1001-1016 | An exit is reported as timed out only after SIGINT, and as not timed out only when no signal was ever sent |
| `PlaywrightRun.SettlesExactly` | src/browser/playwright-subprocess-executor.ts:942-1020 | How a child that has not settled settles, event by event: an exit as an exit, timed out exactly when SIGINT was sent before; everything else as itself or not at all |
| `PlaywrightRun.TimeoutActs` | src/browser/playwright-subprocess-executor.ts:961-978 | The timeout sends SIGINT and arms the grace timer for 5 s later, whether or not the child can be signalled |
| `PlaywrightRun.GraceActs` | src/browser/playwright-subprocess-executor.ts:979-997 | The grace timer sends SIGKILL and arms the last one |
| `PlaywrightRun.Spawn.constructor` | src/browser/playwright-subprocess-executor.ts:932-961 | Only the timeout timer is armed |
| `PlaywrightRun.Spawn.SettleWith` | src/browser/playwright-subprocess-executor.ts:948-959 | The first call wins and clears every timer there is |
| `PlaywrightRun.Spawn.OnTimeout` | src/browser/playwright-subprocess-executor.ts:961-978 | SIGINT, then the grace timer |
| `PlaywrightRun.Spawn.OnGraceOver` | src/browser/playwright-subprocess-executor.ts:979-984 | SIGKILL, then the last timer |
| `PlaywrightRun.Spawn.OnForceResolve` | src/browser/playwright-subprocess-executor.ts:988-997 | The promise settles without the child |
| `PlaywrightRun.Spawn.OnClose` | src/browser/playwright-subprocess-executor.ts:1001-1016 | The two outcomes of an exit |
| `PlaywrightRun.Spawn.OnError` | src/browser/playwright-subprocess-executor.ts:1018-1020 | The promise is rejected |
| `ReportFold.Parse` | src/browser/playwright-subprocess-executor.ts:203-435 | For every tree of suites all tests are reported in order; the totals are those of the reported steps; success means something was reported and nothing failed |
| `ReportFold.EachStepGetsItsOwnImage` | src/browser/playwright-subprocess-executor.ts:237-318 | In a test with harness-indexed images a step gets an image exactly when no index is out of range, and then the last one that carries its own position |
| `ReportFold.NameReadsBack` | src/browser/playwright-subprocess-executor.ts:243-247 | The index in the name the harness gives an image is read back as written |
| `ReportFold.IndexedMeans` | src/browser/playwright-subprocess-executor.ts:242-250 | The index map holds exactly the last image of each index |
| `ReportFold.CountsAddUp` | src/browser/playwright-subprocess-executor.ts:427-427 | Passed, failed and skipped steps are all steps |
| `ReportFold.StepsReport` | src/browser/playwright-subprocess-executor.ts:302-345 | Each step is failed exactly when it has an error, and starts at the start of the test plus the sum of the durations before it |
| `ReportFold.StepsGetImages` | src/browser/playwright-subprocess-executor.ts:231-317 | Each step gets the image of its own position among the images of its own test |
| `ReportFold.PositionsWithoutIndices` | src/browser/playwright-subprocess-executor.ts:291-317 | Without indices images go by position, and only if there are as many of them as of steps |
| `ReportFold.WholeTestReports` | src/browser/playwright-subprocess-executor.ts:346-407 | A test without steps is one step: passed and skipped as it says, everything else failed, a reason only when skipped |
| `ReportFold.FirstScreenshotMeans` | src/browser/playwright-subprocess-executor.ts:359-369 | The path is that of the first attachment named so that is a PNG, unless empty |
| `ReportFold.FirstSkipMeans` | src/browser/playwright-subprocess-executor.ts:379-391 | The reason is that of the first skip annotation, unless empty |
| `ReportFold.FlattensTheTree` | src/browser/playwright-subprocess-executor.ts:207-425 | The tests reported are exactly those that a suite at any depth holds |
| `ReportFold.Collector.Push` | src/browser/playwright-subprocess-executor.ts:330-344 | The counters follow the status of the step pushed |
| `ReportFold.Collector.CollectSteps` | src/browser/playwright-subprocess-executor.ts:301-345 | Each step starts at the sum of the durations before it and gets the image of its own position |
| `ReportFold.Collector.CollectTest` | src/browser/playwright-subprocess-executor.ts:212-405 | Nothing without a result; else the steps of the last result, or the test itself as one step |
| `ReportFold.Collector.CollectSpecs` | src/browser/playwright-subprocess-executor.ts:207-419 | The recursion over the tree reports the tests of the flattened tree |

## Left out

- ReleaseIsSafe: only the safe direction; a registration that the server accepts while shutdown is under way is not released by the code, so that every slot is released is not claimed.
- EvictionsAreBounded: bounds evictions by causes; that a standby is admitted in the end depends on the server.
- StepPosts: that a retried submit ends within the bound proved for its tries is a property of the clock here; a post of another result of the same command is not a parallel one; passes of other processes are in the rows after it.
- NoSilentLoss: speaks of the command; what an answer to another result of it does to a single result is in the rows after it.
- ExecutedResultKept: within one run only; a later run of the same command may overwrite the file.
- RunKeepsPacked: for chunks that are stored whole; after a failed or partial append a smaller chunk may follow that the older file could have taken.
- Grep: regular-expression matching, glob filters, the size limit and reading errors are a function from a path to the lines to search.
- EachStepGetsItsOwnImage: indices beyond the exact range of JavaScript numbers are not modelled.
- FindUnsafeSymlink: works on lists of segments in normal form; the string checks that reject other spellings are not modelled.
- AcceptedWritesInside: link targets are absolute, the limit of the system on the number of links is not modelled, and nobody changes links between check and rename.
- VisitsExactlyTheReachable: for directories that are listed as they are on disk; races with other writers are outside the model.
- FiresOncePerStreak: for a callback that does not throw.
- IsDangerousRegexPattern: states what the scan finds, not that other patterns match in polynomial time.
- ApplyInternal: the temporary file, its cleanup and a failure of that cleanup are not modelled; unreadable manifest entries count as absent.
- LoadPendingResults: corrupted and unreadable files, which the source discards, are assumed away.
- Decoding of HTTP, WebSocket and AppSync messages, reconnect scheduling, and the payloads of commands: events with the outcomes the code branches on.
- The server's own implementation is not part of this repository.
- The config-sync debounce timer, alert polling, terminal and editor tunnels: they do not touch the state modelled here.
- The glob tool and the read tool: the same walk and simple cuts.
- The parent's process manager: its exit handler restarts children also after a stop, so nothing is claimed about it.
- Logging, translations, command-line handling, Docker and service files, credential files, prompts and browser actions.
- Secret masking, block lists and deny lists: tables of patterns.
