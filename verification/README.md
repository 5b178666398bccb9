# Miners, monitors and voters: a verified model

This project models the concurrent programs of the repository and proves what they guarantee:

- the final project (`Proyecto/`): any number of miner processes around one shared `System`, with its
  rounds of mining, voting and rotation, and the comprobador/monitor pair behind it;
- the P3 pipeline: miner, message queue, comprobador, ring buffer, monitors;
- the P1 chain: a threaded miner and a monitor in lockstep over two pipes;
- the P2 voting processes;
- `pow_hash`, on which all of them rest.

`dafny verify dfyconfig.toml` checks everything; each proof stays far below Dafny's default time limit.

## How it is organised

| module | what it holds |
|---|---|
| `CTypes`, `Modular`, `Counting` | C's fixed-width integers; facts on remainders; counting the entries of a map |
| `Pow` | the hash as an affine map with an invertible slope, for any modulus, and then its constants |
| `ParallelSearch` | n threads over disjoint ranges with a stop flag and a result cell, under every interleaving |
| `PipeChain` | P1: the two processes, the two pipes, whole runs |
| `RingSlots`, `Ring`, `RingJump` | the bounded buffer at the grain of single semaphore operations, its refinement to a queue, and the limit of that refinement |
| `Buffers` | the two shared memories as laid out in C, and their protected regions as code |
| `Pipeline` | P3 end to end |
| `MinerTable`, `MinerSystem` | the table of miners with its in-place deletion; each region that a miner executes under the mutex, as code and as a function |
| `Network` | the network of miners as a transition system |
| `NetworkRegistry`, `NetworkRounds`, `NetworkChain`, `NetworkWallets`, `NetworkVotes` | what holds in every reachable state: the table, the counts, the blocks and their winners, the recorded coins, the votes of a clean round |
| `NetworkLife` | until when a process can come in, and until when the mutex exists |
| `NetworkSleep`, `NetworkDrive`, `NetworkWait`, `NetworkWinners`, `NetworkBallots`, `NetworkProgress` | exact conditions over runs: who is woken, whether a round can still begin, how long a winner waits, who wins, which votes agree, how a round ends |
| `NetworkRaces`, `NetworkAlone` | runs in which a promise is not kept |
| `Voting`, `VotingTally`, `Display` | P2, and whether its tally can still come; how the final project reports a block |

Code that works in place is a class or a method on an array, proved against a function of the old state
(`SharedSystem`, `Threads`, `IntRing`, `ByteRing`, `DeleteMiner`, ...). The interleavings are schedules: sequences of
steps, each enabled where it is taken. A main result about runs quantifies over all of them, and the functions in the
transition systems are the ones that the code is proved against.

## Assumptions

- `sem_wait` returns only when it has acquired, as `_sem_wait_safe` would (Proyecto/launch/miner_launch.c:26-31, which is
  never called).
- A signal is handled when it is sent. SIGUSR1 wakes a process inside `sigsuspend` and is lost on any other; SIGUSR2 sets
  a flag. SIGINT and SIGALRM may arrive at any time.
- Pids are not reused, and creating the shared memory is one step. One `System` object is followed from its creation on.
- An unlocked read or write of shared memory is one step; the C memory model is not considered.
- A winner whose `nanosleep` is interrupted leaves without deleting itself, and the `sem_destroy` it calls has no effect
  on the others (Proyecto/launch/miner_launch.c:299-308).
- `mq_send` and `mq_receive` keep the order of messages of one priority (POSIX.1-2017, System Interfaces).
- P3 ends at the end marker. P2's file calls succeed, and its vote file starts empty.

## Where the code does not keep a promise

Each of these is a lemma that exhibits a run, or an input; beside it stands the exact condition under which the promise is
kept, proved for all runs.

- Proyecto/launch/miner_launch.c:249 reads the target before the mutex is taken at 251. A process can join a block with
  the target of the block before, and then votes against a correct solution (`NetworkRaces.StaleTargetSplitsVote`). A vote
  is favourable if and only if the target that the voter last found is the one that the publisher had last found
  (`NetworkBallots.VoteFavourableIffSameTarget`), a block is unanimous, and accepted, if and only if that holds of each of
  its votes (`NetworkBallots.UnanimousIff`, `NetworkBallots.AcceptedIff`), and it does in a round in which every voter
  read its target in that round (`NetworkVotes.VoteAgreement`).
- A late process votes or publishes on the current block, whichever that is, and line 298 only compares numbers. They agree
  if and only if as many votes are late as missing (`NetworkWait.AllVotesAreInIff`). So a late winner can be paid at once for
  a wrong solution, on a block whose only voter has not voted (`NetworkRaces.LateWinnerIsPaid`). A block proves its work if
  and only if its last publisher had last found the block's own target (`NetworkBallots.ProvesWorkIff`).
- The test of line 280 is outside the mutex, so one round can have two winners (`NetworkRaces.TwoWinners`). A process takes
  the winner branch if and only if no other process has published the block that it joined, after it joined it
  (`NetworkWinners.WinsIffNotToldOfItsRound`), so a round has two winners if and only if two processes decide in it without
  such a publication (`NetworkWinners.TwoWinnersIff`). The counts of `NetworkRounds` and the chain of `NetworkChain` survive
  it.
- The comment at lines 221-224 says that a miner which misses the first SIGUSR1 is woken by the next one. There need not
  be a next one (`NetworkRaces.SleeperIsNeverWoken`). A sleeper, before its first round or after a vote, is woken by a
  rotation, by the start of the first round and by its own alarm or interrupt, and by nothing else
  (`NetworkSleep.WokenExactlyBy`, and `NetworkSleep.SleepsOnIff` over whole runs). It can still be woken without a signal of
  its own if and only if some process drives the network: mines untold, is on its way to mining or in the winner branch, or
  is the first miner before its start (`NetworkDrive.SleeperCanBeWokenIff`).
- The check of line 151 and the registration of lines 186-190 are separate, so the table can be overrun
  (`NetworkRaces.TableCanOverrun`). Without further admissions it can be overrun if and only if the mutex still exists and
  the registered and the admitted processes together exceed 100 (`NetworkRegistry.OverrunIff`), which no step but an
  admission brings about (`NetworkRegistry.RoomIsKeptIff`).
- `find_miner_index` returns 255, not -1, for an absent pid, so `delete_miner` then drops the last entry. It removes
  exactly the entries of the pid if and only if the pid is present (`MinerTable.DeletedIsRemovalIffPresent`), and the
  network only calls it with a present one (`NetworkRegistry.DeletionIsExact`).
- The coins are a `short`, and wrap. Every block records for each of its voters its number of prizes when the round began,
  as a `short` (`NetworkWallets.RecordIsCount`). The records of a process never decrease along the chain if and only if each
  of them was made with at most 32767 prizes (`NetworkWallets.MonotoneIff`); in some run they do decrease
  (`NetworkAlone.RecordsCanDecrease`).
- The 8-bit counters of the final project's ring jump from slot 5 to slot 0 at the wrap. Seven unread blocks are enough
  for a wrong read (`RingJump.ByteRingBreaksAtSeven`); with at most six, the ring is a queue for ever
  (`Ring.FifoAtLowOccupancy`). A run whose blocks all differ is faithful throughout if and only if the unread window fits
  throughout (`Ring.FifoIff`).
- The monitor of the final project compares a block with the vote count of the last unanimous block, so it can report a
  split block as validated (`Display.SplitBlockValidated`, exact condition in `Display.MonitorAgreesIff`).
- P2's tally can count one process twice and another not at all (`Voting.OneProcessCanBeCountedTwice`). It holds one vote
  of every process if and only if none of the counted records was written by a process that had been back in its loop
  (`Voting.TallyIsOneVoteEachIff`).
- P2's candidate announces a tally only if it finds exactly n records, and a vote that arrives before it looks can make them
  too many for ever (`VotingTally.TallyCanBeMissed`). A tally can still come if and only if nobody has died with a
  semaphore, someone lives, and the records that have to be written before the next look do not exceed n
  (`VotingTally.TallyCanComeIff`).

## Model

| member | source | states |
|---|---|---|
| `CTypes.ShortIs` | Proyecto/srclib/miner.c:3-11 | a `short` holds 16 bits: the conversion lands between -32768 and 32767 and differs by a multiple of 65536 |
| `CTypes.CRemIs` | Proyecto/srclib/pow.c:7-10 | C's remainder leaves a multiple of the divisor, is smaller than it, and has the sign of the dividend |
| `Pow.PreimageIsPreimage` | Proyecto/srclib/pow.c:7-10 | for any modulus and any slope with an inverse, every target in range has a preimage in range |
| `Pow.PreimageInverts` | Proyecto/srclib/pow.c:7-10 | and every argument in range is that preimage of its own hash |
| `Pow.HashesToIff` | P1/Ejercicio13/pow.c:14-17 | an argument in range hashes to a value exactly when the value is in range and the argument is its preimage |
| `Pow.PowHashIsABijection` | Proyecto/srclib/pow.c:3-10 | with the program's constants: no overflow of a 64-bit `long`, results in range, onto and one-to-one |
| `ParallelSearch.Partition` | P1/Ejercicio13/miner.c:73-75 | for every number of threads the ranges ascend from 0, contiguous and disjoint, and exactly 1 + (P-1) mod n values at the top are in none |
| `ParallelSearch.SearchOutcome` | P1/Ejercicio13/miner.c:31-47 | for every interleaving, once all threads have returned the flag is set iff the preimage was in some range, and the cell holds it or is untouched |
| `ParallelSearch.OneWriter` | Proyecto/launch/miner_launch.c:59-74 | over all interleavings only one thread can ever come to write the result: the one whose range holds the preimage |
| `ParallelSearch.FlagStopsWorkers` | P1/Ejercicio13/miner.c:34-36 | once the flag is up, every thread has returned after at most four more steps of its own, however much of its range is left and whatever the others do |
| `ParallelSearch.StepProgress` | P1/Ejercicio13/miner.c:34-47 | every step of a thread that has not returned uses up part of a finite amount of work |
| `ParallelSearch.CanFinish` | P1/Ejercicio13/miner.c:86-96 | every partial interleaving extends to one in which all threads are joined |
| `ParallelSearch.Threads.constructor` | Proyecto/launch/miner_launch.c:258-269 | the threads start at the beginnings of their ranges, with the flag down |
| `ParallelSearch.Threads.Step` | P1/Ejercicio13/miner.c:34-46 | the code of one thread, from one access of shared memory to the next, does one step of the transition system |
| `ParallelSearch.Threads.JoinAll` | Proyecto/launch/miner_launch.c:258-278 | whichever thread runs next, all return, and the cell holds the preimage iff it was covered and is otherwise untouched |
| `PipeChain.Lockstep` | P1/Ejercicio13/miner.c:98-117 | in every run at most one message is under way, in one direction, and only while the miner waits for its verdict |
| `PipeChain.FirstPair` | P1/Ejercicio13/miner.c:22-24 | the first pair is accepted iff the first target is covered: the untouched pair (0, 0) is rejected |
| `PipeChain.PairsHash` | P1/Ejercicio13/miner.c:119-120 | if the first target is covered, every later pair is accepted, also those sent after an unsuccessful search |
| `PipeChain.PairsAreAncestors` | P1/Ejercicio13/miner.c:72-120 | while the targets are covered, round k sends the k-th iterated preimage of the first target and its own preimage |
| `PipeChain.PairsRepeat` | P1/Ejercicio13/miner.c:72-120 | once a target falls in the uncovered tail, the last pair is sent again in all later rounds |
| `PipeChain.OutcomeOfRun` | P1/Ejercicio13/miner.c:72-126 | exact outcome of every run for every target, number of threads and number of rounds: all accepted and all rounds run, or one rejection and failure |
| `PipeChain.NeverStuck` | P1/Ejercicio13/miner.c:98-126 | until both processes have exited, one of them can take a step |
| `PipeChain.StepsOfRun` | P1/Ejercicio13/miner.c:72-126 | a round takes exactly five steps, so a run of N rounds has at most 5 N + 1 and always reaches its end |
| `PipeChain.PairsOfRun` | P1/Ejercicio13/miner.c:72-122 | closed form of the pair of every round: a chain up to the first uncovered target, a constant after it |
| `PipeChain.Monitor` | P1/Ejercicio13/monitor.c:17-35 | the monitor's loop answers each pair with whether its solution hashes to its target |
| `PipeChain.Miner` | P1/Ejercicio13/miner.c:49-127 | the miner's loop, with arbitrary thread interleavings: success iff the first target is covered, and exactly the expected pairs are sent |
| `RingSlots.DistinctIffFits` | Proyecto/launch/monitor_launch.c:30-38 | for any counter modulus and ring length: the slots of a window are pairwise distinct iff it is no longer than the ring and, if the counter jumps inside it, no longer than modulus mod length |
| `RingSlots.Collision` | Proyecto/launch/monitor_launch.c:182-184 | two entries of a window that does not fit share a slot |
| `RingSlots.ByteRingWindows` | Proyecto/launch/monitor_launch.c:182-236 | for the 8-bit counters and 10 slots: distinct iff the window does not straddle the wrap or has at most 6 blocks |
| `RingSlots.IntRingWindows` | P3/Codificacion/monitor.c:184-187 | for P3's ring: distinct iff the window has at most 6 blocks |
| `Ring.SemaphoreAccounting` | P3/Codificacion/monitor.c:87-106 | in every reachable state the semaphores and the processes between their operations add up to the length of the ring, the mutex likewise to 1, and the occupancy is between 0 and the length |
| `Ring.NoDeadlock` | P3/Codificacion/monitor.c:180-263 | with a monitor present, someone other than the message source can move unless all written blocks are read and everyone waits for new work |
| `Ring.NotBothBlocked` | P3/Codificacion/monitor.c:180-233 | the comprobador is never blocked on `gym_empty` while all monitors are blocked on `gym_fill` |
| `Ring.MutexHolderMoves` | P3/Codificacion/monitor.c:181-263 | whoever holds the mutex has an enabled step |
| `Ring.AttachesIffFree` | P3/Codificacion/monitor.c:222-228 | a new monitor can come in iff no process is inside a protected region |
| `Ring.StepOnQueue` | P3/Codificacion/monitor.c:184-241 | seen as a queue: the write appends, the read removes and returns the head, every other step changes nothing, provided the window fits |
| `Ring.Fifo` | P3/Codificacion/monitor.c:180-263 | refinement: the blocks read, in the order of the protected regions and each by one monitor, are the first blocks written, and the memory holds the rest in order |
| `Ring.HeldIsReadLast` | P3/Codificacion/monitor.c:234-263 | in every run what a monitor holds after its protected region, and goes on to print, is the last item that this monitor took out |
| `Ring.FifoIff` | P3/Codificacion/monitor.c:180-263 | if the blocks of a run all differ, the buffer is a queue at every moment iff the unread window fits at every moment |
| `Ring.FifoWithoutJump` | P3/Codificacion/monitor.c:180-263 | hence a ring without a jump, like P3's, is a queue in every run, whatever the interleaving and the number of monitors |
| `Ring.CountersCountBlocks` | P3/Codificacion/monitor.c:156-237 | counters that do not wrap are exactly the numbers of blocks written and read, so `int` counters serve for 2147483647 blocks |
| `Ring.FifoAtLowOccupancy` | Proyecto/launch/monitor_launch.c:178-238 | with wrapping counters it is a queue for unboundedly many blocks while the occupancy stays within modulus mod length |
| `Ring.FifoBeforeWrap` | Proyecto/launch/monitor_launch.c:178-238 | and at any occupancy for the first `modulus` writes |
| `RingJump.JumpBreaksFifo` | Proyecto/launch/monitor_launch.c:182-236 | the bound is tight for every ring with a jump: one block more, and some schedule reads a wrong block |
| `RingJump.ByteRingBreaksAtSeven` | Proyecto/launch/monitor_launch.c:182-236 | in the final project seven unread blocks suffice |
| `RingJump.IntRingHoldsSix` | P3/Codificacion/monitor.c:94-188 | with nothing read P3's ring comes to hold six unread blocks, and in no run does it hold more |
| `RingJump.ByteRingHoldsTen` | Proyecto/launch/monitor_launch.c:94-184 | likewise ten for the final project's ring |
| `Buffers.IntRing.constructor` | P3/Codificacion/monitor.c:75-84 | the memory starts with zeroed slots and counters |
| `Buffers.IntRing.WriteBlock` | P3/Codificacion/monitor.c:184-188 | the three array writes put one item, with the flag of the hash test, into the queue's memory |
| `Buffers.IntRing.WriteEnd` | P3/Codificacion/monitor.c:155-158 | the two array writes put the end marker |
| `Buffers.IntRing.Read` | P3/Codificacion/monitor.c:236-241 | the monitor's region takes out the item at the reading counter, as a block or as the end marker |
| `Buffers.FlagIffPreimage` | P3/Codificacion/monitor.c:188 | the flag of a block is 1 iff its solution is in the range of the hash and its target is the preimage of the solution; all other blocks are rejected |
| `Buffers.EndIffMarker` | P3/Codificacion/monitor.c:238-241 | only the pair of two -1 reads as the end; every other pair reads as the block that was written |
| `Buffers.ByteRing.constructor` | Proyecto/launch/monitor_launch.c:80-85 | the memory starts with zeroed counters |
| `Buffers.ByteRing.Put` | Proyecto/launch/monitor_launch.c:182-184 | the same for a whole block and 8-bit counters |
| `Buffers.ByteRing.Get` | Proyecto/launch/monitor_launch.c:234-236 | the same for the read |
| `Pipeline.MinedItem` | P3/Codificacion/miner.c:29-40 | the block mined in a round arrives at the ring as the expected item: flag 1, never the end marker unless it is the last |
| `Pipeline.LinesAreExpected` | P3/Codificacion/monitor.c:241-270 | at any moment of any run the lines printed are a prefix of the expected lines, all accepted |
| `Pipeline.CompletedRun` | P3/Codificacion/miner.c:87-103 | when the monitor has left, N blocks were sent, exactly N-1 lines printed, line k shows the k-th iterated preimage of 0 and the next one |
| `Pipeline.LinesChain` | P3/Codificacion/miner.c:29-37 | the first solution is 0, every other one is the target of the line before, every line is a true proof of work |
| `Pipeline.QueueHoldsSeven` | P3/Codificacion/common.h:25 | the message queue comes to hold seven messages, and in no run more |
| `Pipeline.NeverStuck` | P3/Codificacion/monitor.c:132-270 | until the monitor has left, some process can move |
| `Pipeline.ActionsOfRun` | P3/Codificacion/monitor.c:132-270 | a run of N items has at most 12 N + 2 actions, and the monitor has left exactly when it has that many: every run completes |
| `Pipeline.TargetsAreHashes` | P3/Codificacion/miner.c:29-39 | the search can succeed exactly for the numbers in the range of the hash |
| `Pipeline.Miner.Work` | P3/Codificacion/miner.c:19-41 | the full-range search finds the preimage iff the target is in range, fills in the block and moves the target on |
| `Pipeline.Miner.Rounds` | P3/Codificacion/miner.c:87-103 | the messages of N rounds, in order: successive preimages of 0, only the last one marked as the end |
| `MinerTable.FindMinerIndex` | Proyecto/srclib/miner.c:13-21 | the first index of the pid, or 255 |
| `MinerTable.DeleteMiner` | Proyecto/srclib/miner.c:23-31 | the in-place shift leaves the table without its first entry for the pid, or without its last entry if there is none; nothing behind is changed, and an empty table counts 255 afterwards |
| `MinerTable.DeletedIsRemovalIffPresent` | Proyecto/srclib/miner.c:23-31 | in a table of distinct pids that is the order-preserving removal of the pid iff the pid is in the table |
| `MinerTable.InitBlock` | Proyecto/srclib/miner.c:3-11 | a fresh block with the next `short` id, the given target, no votes and no voters, whatever was in the memory |
| `MinerSystem.OthersAre` | Proyecto/launch/miner_launch.c:209-212 | a kill loop signals a pid iff it is listed and not the sender's |
| `MinerSystem.SharedSystem.constructor` | Proyecto/srclib/miner.c:83-115 | a new system has no miners and zeroed blocks |
| `MinerSystem.SharedSystem.Register` | Proyecto/launch/miner_launch.c:186-190 | appends the miner to the table, and changes nothing else |
| `MinerSystem.SharedSystem.SetFirstBlock` | Proyecto/launch/miner_launch.c:202-213 | the current block becomes block 0 with target 0; all other registered miners are signalled |
| `MinerSystem.SharedSystem.Join` | Proyecto/launch/miner_launch.c:251-255 | appends the miner, with its coins, to the voters of the current block |
| `MinerSystem.SharedSystem.Publish` | Proyecto/launch/miner_launch.c:281-293 | sets the solution and casts the winner's vote; all other voters are signalled |
| `MinerSystem.SharedSystem.Vote` | Proyecto/launch/miner_launch.c:344-349 | casts one vote, favourable iff the published solution is the voter's own |
| `MinerSystem.SharedSystem.Award` | Proyecto/launch/miner_launch.c:314 | writes the winner into the current block |
| `MinerSystem.SharedSystem.Rotate` | Proyecto/launch/miner_launch.c:330-341 | archives the current block and starts its successor; all other registered miners are signalled |
| `MinerSystem.SharedSystem.Leave` | Proyecto/launch/miner_launch.c:364-375 | deletes the caller's entry, and tells whether it was the last miner |
| `MinerSystem.SharedSystem.OtherPids` | Proyecto/launch/miner_launch.c:337-340 | the kill loop lists the other pids in table order |
| `NetworkRegistry.Membership` | Proyecto/launch/miner_launch.c:186-190 | in every reachable state the table lists the registered and not yet deleted processes, each once, in registration order |
| `NetworkRegistry.DeletionIsExact` | Proyecto/launch/miner_launch.c:364-375 | a process about to delete itself is in the table, and exactly its entry is removed |
| `NetworkRegistry.TableNeverOverruns` | Proyecto/launch/miner_launch.c:186-190 | while registered and admitted processes together number at most 100, every registration finds room |
| `NetworkRegistry.RoomIsKeptIff` | Proyecto/launch/miner_launch.c:151-190 | that condition is broken exactly by an admission that lets a process in when the two together are already 100 |
| `NetworkRegistry.OverrunIff` | Proyecto/launch/miner_launch.c:151-190 | without further admissions some continuation of a run writes past the table iff the mutex exists and the condition is broken |
| `NetworkRegistry.SeparateAdmissionsLeaveRoom` | Proyecto/launch/miner_launch.c:151-190 | if no two admissions overlap, the condition holds and the table has never been overrun |
| `NetworkLife.CanComeIff` | Proyecto/launch/miner_launch.c:134-156 | after any run a process can come in iff its pid is new, it asks for one to nine threads, and no process has yet left, been aborted in its wait or been turned away: each of these removes the name of the shared memory |
| `NetworkLife.ThreadsAsAsked` | Proyecto/launch/miner_launch.c:118-269 | in every run a process searches with the number of threads it came with |
| `NetworkLife.OverIff` | Proyecto/launch/miner_launch.c:299-377 | a process takes no further step, not even for a signal, iff it has deleted itself, was aborted in its wait, or would have written past the table |
| `NetworkLife.MutexEndsIff` | Proyecto/launch/miner_launch.c:364-375 | the mutex exists until a process leaves as the only registered one; afterwards no region under it is entered |
| `NetworkRounds.VotersOnce` | Proyecto/launch/miner_launch.c:251-255 | no process is listed twice as a voter of the current block, all voters were registered at the last rotation, and neither voters nor votes outnumber those registered then |
| `NetworkRounds.BlockNeverOverruns` | Proyecto/launch/miner_launch.c:253-254 | so the voter list is never overrun and the 8-bit vote counters never wrap |
| `NetworkRounds.VoteConservation` | Proyecto/launch/miner_launch.c:291-348 | voters minus votes, summed over all archived blocks and the current one, is the number of processes that have joined and not yet voted |
| `NetworkWait.WaitEndsIff` | Proyecto/launch/miner_launch.c:298-311 | in every run a winner that looks at the votes goes on to its acceptance test iff as many votes as joins are on the block, both counted over the run, or it has looked and slept exactly five times since it published; otherwise it goes on waiting |
| `NetworkWait.AllVotesAreInIff` | Proyecto/launch/miner_launch.c:298 | the block has as many votes as voters iff as many late votes of processes that did not join it are on it as votes of its voters are missing; so that means that every voter has voted iff there is no late vote |
| `NetworkSleep.WokenExactlyBy` | Proyecto/launch/miner_launch.c:225-351 | a step wakes a suspended process iff it is a rotation, the start of the first round, or the process's own alarm or interrupt |
| `NetworkSleep.SleepsOnIff` | Proyecto/launch/miner_launch.c:225-351 | over any stretch of a run a suspended process sleeps on iff the stretch contains no such step |
| `NetworkSleep.RotationWakesEveryone` | Proyecto/launch/miner_launch.c:336-351 | after a rotation no process is suspended, whatever it was waiting for |
| `NetworkDrive.RoundCanBeginIff` | Proyecto/launch/miner_launch.c:202-341 | some continuation of a run contains a rotation or the start of the first round iff some process drives the network or none has come yet |
| `NetworkDrive.SleeperCanBeWokenIff` | Proyecto/launch/miner_launch.c:215-351 | some continuation wakes a suspended process without a signal of its own iff some process drives the network |
| `NetworkWinners.WinsIffNotTold` | Proyecto/launch/miner_launch.c:246-289 | in every run a process takes the winner branch iff no other process has published, since the process was last at its loop top, a block that it had then joined |
| `NetworkWinners.WinsIffNotToldOfItsRound` | Proyecto/launch/miner_launch.c:246-289 | and iff no other process has published the block that it joined after it joined it: publications of other rounds make no difference |
| `NetworkWinners.TwoWinnersIff` | Proyecto/launch/miner_launch.c:280-293 | a round has two winners iff two processes decide in it without a publication of its block by another process between their joining and their decision |
| `NetworkWinners.PublicationReachesVoters` | Proyecto/launch/miner_launch.c:280-289 | after a publication every other process that had joined the block can only take the loser branch, if it has not decided yet |
| `NetworkProgress.PublishedRoundIsAttended` | Proyecto/launch/miner_launch.c:280-341 | whenever the current block has been published, a process that published it is still in its winner branch or was aborted there |
| `NetworkProgress.WinnerCanRotate` | Proyecto/launch/miner_launch.c:298-341 | a process in its winner branch can rotate the block by at most nine steps of its own, whatever votes are missing |
| `NetworkProgress.PublishedRoundCanEnd` | Proyecto/launch/miner_launch.c:280-341 | so a published round can always still end in a rotation, unless one of its publishers was aborted |
| `NetworkChain.ChainSafety` | Proyecto/launch/miner_launch.c:330-335 | archived ids count up from 0, the first target is 0, every other target is the solution before it, and the current block continues the chain, with any number of winners |
| `NetworkWallets.RecordIsCount` | Proyecto/launch/miner_launch.c:253 | every record of every block equals the number of prizes that the voter had when the round began, and so when it joined, as a `short` |
| `NetworkWallets.MonotoneIff` | Proyecto/launch/miner_launch.c:182-316 | the records of a process never decrease along the chain iff each was made with at most 32767 prizes |
| `NetworkWallets.WalletsOnlyGrow` | Proyecto/launch/miner_launch.c:313-316 | prizes equal the acceptance tests passed and paid; coins are the prizes as a `short`; while they fit, no block records more and the records never decrease |
| `NetworkAlone.RecordsCanDecrease` | Proyecto/launch/miner_launch.c:315 | a run with 32768 prizes in which the records decrease |
| `NetworkChain.WinnerIsLastAwarded` | Proyecto/launch/miner_launch.c:314 | the winner named by a block, archived or current, is the last process that awarded itself that block while it was current, or 0 |
| `NetworkVotes.VoteAgreement` | Proyecto/launch/miner_launch.c:280-349 | in a clean round every vote is favourable, all winners publish the preimage of the target, all losers hold the published solution, and the acceptance test succeeds |
| `NetworkVotes.ArchivedWork` | Proyecto/launch/miner_launch.c:313-332 | a block archived after a clean round is unanimous and its solution hashes to its target |
| `NetworkVotes.CoveredVoteFavourableIff` | Proyecto/launch/miner_launch.c:344-349 | the case in which both searches covered their targets: a vote is favourable iff voter and publisher had read the same target |
| `NetworkBallots.VoteFavourableIffSameTarget` | Proyecto/launch/miner_launch.c:344-349 | every vote of every run is favourable iff the target the voter last found is the one the last publisher had last found, with the hash of 0 for nothing found or published |
| `NetworkBallots.UnanimousIff` | Proyecto/launch/miner_launch.c:281-349 | a block is unanimous iff that holds of each of its votes |
| `NetworkBallots.AcceptedIff` | Proyecto/launch/miner_launch.c:313-316 | the winner's acceptance test succeeds exactly then |
| `NetworkBallots.ProvesWorkIff` | Proyecto/launch/miner_launch.c:281-283 | in every run the solution of the current block hashes to the target that its last publisher had last found, so to the block's own target iff that is the one |
| `NetworkRaces.StaleTargetSplitsVote` | Proyecto/launch/miner_launch.c:249-255 | a run in which all have joined and voted in the round with sufficient ranges, and one vote is against |
| `NetworkRaces.TwoWinners` | Proyecto/launch/miner_launch.c:280-284 | a run in which both processes of one round take the winner branch |
| `NetworkRaces.LateWinnerIsPaid` | Proyecto/launch/miner_launch.c:280-341 | a run in which the second of two winners publishes its old solution on a block that it never joined, is paid for it at once while the only voter has not voted, and archives it with a wrong solution |
| `NetworkRaces.SleeperIsNeverWoken` | Proyecto/launch/miner_launch.c:215-226 | a run that leaves a miner suspended before its first round, with no step left but its own alarm |
| `NetworkRaces.TableCanOverrun` | Proyecto/launch/miner_launch.c:151-190 | a run with overlapping admissions in which a registration would write past the table |
| `NetworkRaces.TableHoldsAHundred` | Proyecto/includes/miner.h:29 | a run in which a hundred miners are registered; in no run are there more |
| `Voting.Candidature` | P2/voting.c:133-219 | the candidature semaphore, the active candidates and those killed as candidates add up to 1 in every reachable state |
| `Voting.FileExclusion` | P2/voting.c:108-124 | the file semaphore and its holders add up to 1 once it is open |
| `Voting.CanLeaveIff` | P2/voting.c:88-219 | in every run a process can be ended by SIGINT iff its next act is to wait for the file, to stand, to append, or to give back a file to which it has not appended and at which it has not looked |
| `Voting.DeathsAreClean` | P2/voting.c:88-219 | a process that dies with the file has not appended since it locked it, with both semaphores not since it became the candidate, and a dead candidate has not looked at the file |
| `Voting.DiesHolding` | P2/voting.c:88-95 | runs in which a process dies with neither semaphore, with the file, with the candidature, and with both |
| `Voting.CountYesIs` | P2/voting.c:204-208 | the counting loop finds the number of the places at which the vote is yes |
| `Voting.OneTally` | P2/voting.c:180-212 | at most one tally in a run, of exactly the first n records ever appended, its candidate's among them, accepted iff the set of the places with a yes has more than n/2 elements |
| `Voting.LogGrows` | P2/voting.c:110-123 | the vote file and the tallies only grow |
| `Voting.RepeatIff` | P2/voting.c:130-219 | two of the first m records are by the same process iff one of them was written by a process that had been back in its loop |
| `Voting.FirstVotesDiffer` | P2/voting.c:130-219 | while no process has gone back to its loop all records are by different processes |
| `Voting.TallyIsOneVoteEachIff` | P2/voting.c:180-219 | with as many processes as votes expected, the tally is one vote of each iff no counted record was written by a process that had been back in its loop |
| `Voting.OneProcessCanBeCountedTwice` | P2/voting.c:130-219 | a run in which the tally holds two votes of one process and none of the other |
| `VotingTally.TallyCanComeIff` | P2/voting.c:130-219 | a run without a tally can be continued to one iff nobody has died with a semaphore, someone lives, and the records due before the next look do not exceed n |
| `VotingTally.NoTallyOnceTooMany` | P2/voting.c:182-211 | once the file holds more than n records no tally is announced |
| `VotingTally.TallyCanBeMissed` | P2/voting.c:130-219 | a run in which the file has come to hold more than n records without a tally |
| `Voting.VoteFile.constructor` | P2/voting.c:20-23 | an absent vote file shows the empty log of the start |
| `Voting.VoteFile.Append` | P2/voting.c:150-165 | writing one `Vote` of the coin's choice does to the file what the append step does to the log |
| `Voting.VoteFile.Check` | P2/voting.c:181-211 | the size test and the counting loop print exactly what the check step adds to the tallies: a result iff the file holds exactly n votes, accepted iff the set of the places with a yes has more than n/2 elements |
| `Voting.FloatQuotientDecides` | P2/voting.c:204-210 | for fewer than 2 to the 24th processes the rounded single-precision quotient decides as the exact comparison does |
| `Display.Monitor` | Proyecto/launch/monitor_launch.c:229-251 | the monitor validates a block iff its favourable votes equal the votes of the last unanimous block |
| `Display.Register` | Proyecto/srclib/miner.c:44-61 | the register validates a block iff it is unanimous |
| `Display.NoneUnanimous` | Proyecto/launch/monitor_launch.c:206-246 | if no block up to this one was unanimous, the monitor validates it iff it has no favourable vote |
| `Display.ValidatedAfterUnanimous` | Proyecto/launch/monitor_launch.c:206-246 | otherwise it validates it iff its favourable votes equal the votes of the last unanimous block up to it |
| `Display.MonitorAgreesIff` | Proyecto/launch/monitor_launch.c:242-246 | the two agree on a block iff it is unanimous or its favourable votes differ from the votes of the last unanimous block before |
| `Display.SplitBlockValidated` | Proyecto/launch/monitor_launch.c:242-246 | a run of the network whose second archived block is split and would be reported as validated |

## Left out

- NetworkVotes.VoteAgreement: speaks of clean rounds only, in which every process that joins has read its target in that
  round with a search that covers it, and every process that votes or publishes in it joined it. Line 249 lets the code
  leave that case; the exact condition for all rounds is the one of `NetworkBallots.UnanimousIff`.
- NetworkVotes.CoveredVoteFavourableIff: leaves the votes on an unpublished block and the searches that find nothing to
  `NetworkBallots.VoteFavourableIffSameTarget`.
- NetworkProgress.PublishedRoundCanEnd: one way only, for a published block; the exact condition for all states is the one of
  `NetworkDrive.RoundCanBeginIff`.
- NetworkRegistry.OverrunIff: a process that would write past the table stops there, since what the C program does next is
  undefined.
- Ring.FifoWithoutJump: says nothing about P3 beyond 2147483647 blocks, where the overflow of its `int` counters is
  undefined.
- Voting.VoteFile.Check: compares twice the count with n exactly; by `Voting.FloatQuotientDecides` the program's `float`s
  decide the same for fewer than 2 to the 24th processes.
- The end of P3: `using`, the second increments of the counters, and the destruction of semaphores still in use.
- Copies of the current block taken without the mutex between the acceptance test and the rotation, for the register's pipe
  and the message queue, and `monitor_up` (Proyecto/launch/miner_launch.c:317-328).
- The text that is printed, including the wallets after a block; the argument checks other than the bounds they set.
- Opening, mapping, unlinking and closing of shared memory, queues, pipes and files; all I/O errors and failed
  allocations; `fork` and `wait`.
- Real signal delivery and `EINTR`, alarms and sleeping times; interruption of a `read`, `write` or `sem_wait`.
- How the P2 processes choose their votes and how long they wait for a signal: both are arbitrary here.
- The stop flag and the result cell under the C memory model: the threads' accesses are taken one after the other.
- The teaching examples of P1, P2 and P3: short demonstrations of single system calls.
