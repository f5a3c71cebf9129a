# Verification model

A Dafny model of the parts of the repository whose correctness does not follow
from reading one function, and proofs of what those parts promise.  The
command is `dafny verify dfyconfig.toml`.

* **The reviewed-Bash supervisor**
  (`native/cbds-development-candidate-supervisor.c`, with the code it shares with
  `native/cbds-development-supervisor.c`).  `Sha256` refines the streaming hash
  against sections 5.1.1 and 6.2 of FIPS 180-4, and `Sha256Words` says what its
  word operations and constants are; `Capture` is the cap-plus-one drain of a
  pipe; `ProcStat` the procfs tick parser; `Seccomp` an interpreter for the
  compiled filters; `ProcessTree` the reaping of a process tree; `Supervisor` the
  run loop as a transition system; `SupervisorMain` the result frame and
  `SupervisorRun` the code that computes it.  What the frame says is stated in
  terms of what the environment did: `SupervisorReport` field by field,
  `SupervisorOutcome` when it is an error and otherwise which outcome, and
  `SupervisorTree` of the process tree that was reaped.  `Workspace`, `Archive`
  and `SnapshotWriter` are the bounded workspace archive; `Routes` are paths
  through a tree, `Projection` is what an archive determines, and
  `ArchiveReading` a decoder that finds the tree in it again.
* **No-replace publication** (`scripts/build_executable_eighth_tranche_catalog.py`).
  `Directory` has names, inodes and link counts, each system call one atomic
  effect.  `PublishProtocol` interleaves any number of publishers call by call
  with a fault possible at every call; `PublishDurability` says when a published
  file is there to stay; `Publication` is the function itself, run alone with an
  exception injected at any one operation.
* **The benchmark generator and its validator** (`src/cbds/benchmark.py`).
  `Sampler` is the counter-based sampler, `Benchmark` the specifications and what
  makes a set of them valid, `BenchmarkMeaning` the same read off the records,
  `BenchmarkGenerator` and `BenchmarkValidator` the two programs, and
  `BenchmarkBlocks` what the generator makes of its draws.
* **The campaign registry's joint validation** (`src/cbds/campaign_registry.py`):
  `Lineage`, `Registry`, `RegistryRuns`, in `RegistryTheorem` the one predicate the
  passes amount to, and in `RegistryMeaning` that predicate on the records' own
  fields.
* **The artifact inventory** (`src/cbds/benchmark_artifacts.py`): `Inventory`, and
  in `InventoryMeaning` what it says about the tree.

What the environment does (the clock, `wait4`, pipe reads, procfs, the process
tree, scheduling of publishers, exceptions, sizes of reads and writes, the
sampler's digests) is a parameter or a nondeterministic choice, so every
statement holds for all of it.  A digest that serves as an identity is the value
it was taken of, which makes it equal exactly where a collision-free digest is;
only `Sha256` models the real algorithm.

## What the proofs turned up

* The supervisor does not always report.  Its loop ends when the clock advances
  past the cleanup deadline and the round that reads so also finds the pipes at
  their end, should no child be left by then; and it ends, whatever the clock says,
  once no child is left and a round finds the pipes at their end (`EveryRunReports`).
  From its start it stays in its loop for ever when every read of stdout fails
  after the last child was reaped (`ReadErrorsNeverReport`: the cleanup deadline is
  consulted only while something is left to reap, lines 1932-1937), and when the
  clock cannot be read while a child never ends (`UnreadableClockNeverReports`: the
  reading is replaced by the deadline, lines 1915-1919, which is before the cleanup
  deadline set from it).
* A failed publication leaves the directory as it was except after exactly four
  faults, which `Publication.AtomicPublishNoreplace` names together with what
  they leave behind: an exception between the creation of the staging file and
  the capture of its inode (lines 541-564), an error from closing the staging
  descriptor after it was closed (line 584 and the second close at line 662), an
  exception between the link taking effect and `published = True`
  (lines 587-604); and an error of the last `fsync` (line 671) surfaces although
  the publication stands.
* A published file can be withdrawn after another publisher has accepted it and
  returned successfully (`AcceptanceIsNotDurable`, a run of two publishers;
  `PairLosesItsFile`, one directory).  It stands for good iff the publisher that
  linked it is not between its successful link and the end of its read-back
  (lines 604-652) and not undoing its publication (`StandsForGoodIff`).  So it
  stands once that publisher is past its read-back, or has failed to record the
  link, or has given up undoing it.

## Model

| member | source | states |
|---|---|---|
| `Words.SaturatingAdd` | native/cbds-development-candidate-supervisor.c:670-672 | the guard, written so that nothing wraps, gives the sum clipped at 2^64-1 |
| `Words.LittleEndianRoundTrip` | native/cbds-development-candidate-supervisor.c:315-330 | a little-endian field reads back as the value it was written from |
| `Words.BigEndianIsReversed` | native/cbds-development-candidate-supervisor.c:418-438 | the big-endian octets of a length field are its little-endian octets in reverse |
| `Sha256.PaddingZerosUnique` | native/cbds-development-candidate-supervisor.c:418-436 | the zeros that bring a message to 56 octets of a block are the padding of FIPS 180-4 section 5.1.1, and no other number is |
| `Sha256.BitCountStep` | native/cbds-development-candidate-supervisor.c:401-416 | the wrapping bit counter stays the message length in bits modulo 2^64 |
| `Sha256.ExpandWords` | native/cbds-development-candidate-supervisor.c:348-365 | the filled array is the message schedule of section 6.2.2 |
| `Sha256.RunRounds` | native/cbds-development-candidate-supervisor.c:366-388 | the loop is 64 rounds of the compression function |
| `Sha256.Context.Transform` | native/cbds-development-candidate-supervisor.c:348-389 | the state becomes the compression of the old state with the block |
| `Sha256.Context.Update` | native/cbds-development-candidate-supervisor.c:401-416 | what has been absorbed grows by exactly the data, fewer than 64 octets stay waiting, and no write leaves the block |
| `Sha256.Context.Pad` | native/cbds-development-candidate-supervisor.c:418-438 | finishing absorbs exactly the padding of the message and nothing stays waiting |
| `Sha256.Context.Final` | native/cbds-development-candidate-supervisor.c:418-442 | the digest is the one-shot hash of everything absorbed |
| `Sha256.Sha256Bytes` | native/cbds-development-candidate-supervisor.c:444-450 | one update and a finish give SHA-256 of the data |
| `Sha256.DigestOfPieces` | native/cbds-development-candidate-supervisor.c:391-450 | however a message is cut into updates, the digest is SHA-256 of the whole |
| `Sha256Words.RotationTurns` | native/cbds-development-candidate-supervisor.c:281-283 | a rotation to the right brings the low bits out on top and moves the others down, for every amount from 1 to 31 |
| `Sha256Words.ChooseChooses` | native/cbds-development-candidate-supervisor.c:375-375 | the choice is the second word where the first has ones and the third elsewhere |
| `Sha256Words.MajorityDecides` | native/cbds-development-candidate-supervisor.c:380-380 | the majority is what two of the words agree on, and the third decides where they differ |
| `Sha256Words.SigmasOfTopBit` | native/cbds-development-candidate-supervisor.c:357-379 | the amounts of the four functions of section 4.1.2, by where each sends the top bit |
| `Sha256Words.LoadIsBigEndian` | native/cbds-development-candidate-supervisor.c:285-290 | the first of four octets is the most significant of the word |
| `Sha256Words.LoadOfStored` | native/cbds-development-candidate-supervisor.c:285-313 | a word stored as four octets loads as itself |
| `Sha256Words.ConstantsAreCubeRoots` | native/cbds-development-candidate-supervisor.c:329-346 | each of the 64 constants is the first 32 bits of the fraction of the cube root of its prime (section 4.2.2) |
| `Sha256Words.InitialIsSquareRoots` | native/cbds-development-candidate-supervisor.c:391-399 | the initial words are the first 32 bits of the fractions of the square roots of the first eight primes (section 5.3.3) |
| `Capture.DrainedMeaning` | native/cbds-development-candidate-supervisor.c:1182-1223 | for every read schedule a drain keeps `observed` at most min(total, cap+1), overflows exactly at cap+1, and a capture that ends has observed exactly min(total, cap+1) octets |
| `Capture.CaptureState.Drain` | native/cbds-development-candidate-supervisor.c:1182-1223 | the drain with its test for equality with the ceiling does what the specification says, on any schedule |
| `Capture.CaptureState.DrainFixedScenario` | native/cbds-development-supervisor.c:683-728 | the drain that tests for more than the cap does the same, so the two supervisors agree |
| `Capture.CaptureStream` | native/cbds-development-candidate-supervisor.c:1182-1223 | drained to completion: observed is min(length, cap+1), overflow iff the length exceeds the cap, and the digest is SHA-256 of exactly the first observed octets; it is closed as soon as there were more ready reads than min(length, cap) |
| `ProcStat.ParseCount` | native/cbds-development-candidate-supervisor.c:1046-1092 | a decimal field is accepted iff it is digits only and at most 2^64-1, and then it is its value |
| `ProcStat.FindLastClose` | native/cbds-development-candidate-supervisor.c:1046-1092 | finds the last closing parenthesis, if there is one |
| `ProcStat.NextToken` | native/cbds-development-candidate-supervisor.c:1046-1092 | skips spaces and takes the text up to the next one |
| `ProcStat.ParseProcStatTicks` | native/cbds-development-candidate-supervisor.c:1046-1092 | the tokenizing loop gives the specified result on every text |
| `ProcStat.ParsedStatLine` | native/cbds-development-candidate-supervisor.c:1046-1092 | on a printed stat line whose command holds any spaces and parentheses, the parse succeeds iff fields 14 to 17 are counts up to 2^64-1, and gives their saturating sum |
| `ProcStat.AccountedTicksAreTheSum` | native/cbds-development-candidate-supervisor.c:1046-1092 | the accumulated ticks are the sum of the four fields clipped at 2^64-1 |
| `ProcStat.PrintedTicks` | native/cbds-development-candidate-supervisor.c:1046-1092 | four tick counts printed in decimal into fields 14 to 17 come out as their sum clipped at 2^64-1, whatever the command name and the other fields hold |
| `Seccomp.ChainVerdict` | native/cbds-development-candidate-supervisor.c:716-903 | interpreting a chain of two-instruction cases from any point of a program gives the first matching entry's action, or the default |
| `Seccomp.ArchGuardRuns` | native/cbds-development-candidate-supervisor.c:731-737 | the relative jumps of the guard kill on a foreign architecture and fall through otherwise |
| `Seccomp.CloneGuardRuns` | native/cbds-development-candidate-supervisor.c:739-747 | the jumps around the clone test refuse with EPERM exactly a clone with a forbidden flag, and go on with the call number loaded |
| `Seccomp.ReviewedBashVerdict` | native/cbds-development-candidate-supervisor.c:716-903 | on every architecture, call number and first argument: kill, EPERM for a forbidden clone, the first matching entry, or allow |
| `Seccomp.FixedScenarioVerdict` | native/cbds-development-supervisor.c:381-417 | the allowlist form: kill on a foreign architecture, the first matching entry, or kill |
| `Seccomp.MaskMeetsSomeFlag` | native/cbds-development-candidate-supervisor.c:727-743 | testing the union of some clone flags is testing for at least one of them |
| `Seccomp.ReviewedPolicy` | native/cbds-development-candidate-supervisor.c:716-903 | by name: every denied call gets EPERM, clone3 gets ENOSYS, a clone without a forbidden flag and every other call is allowed |
| `Seccomp.AllButClonesAreDenied` | native/cbds-development-candidate-supervisor.c:754-900 | the denied list misses none of the named calls but clone and clone3 |
| `Seccomp.ReviewedPolicyAsWritten` | native/cbds-development-candidate-supervisor.c:716-903 | for all calls the source names: a clone gets EPERM iff it carries one of the nine flags, clone3 gets ENOSYS, every other named call gets EPERM, and a call it does not name is allowed |
| `Seccomp.ScenarioPolicy` | native/cbds-development-supervisor.c:385-417 | a scenario child may make exactly the fourteen calls of the allowlist and dies at any other |
| `ProcessTree.SupervisorState.ReapAvailable` | native/cbds-development-candidate-supervisor.c:1001-1038 | one call folds the results of `wait4` into the state, stops where it must, and fails only on an error |
| `ProcessTree.WellFoundedAfter` | native/cbds-development-candidate-supervisor.c:1011-1038 | through fork, exit, adoption and reaping every process keeps a living parent older than itself |
| `ProcessTree.SomeChildOfInit` | native/cbds-development-candidate-supervisor.c:1011-1038 | whenever any process but PID 1 exists, PID 1 has a child |
| `ProcessTree.NoChildrenMeansAlone` | native/cbds-development-candidate-supervisor.c:1011-1038 | ECHILD is only possible when no other process exists |
| `ProcessTree.EveryRunKeeps` | native/cbds-development-candidate-supervisor.c:1011-1038 | at every point of every run the tree is well founded, the primary is awaited or reaped, and all-reaped implies being alone |
| `ProcessTree.AllReapedIsFinal` | native/cbds-development-candidate-supervisor.c:1011-1038 | once all-reaped is set the primary has been reaped and no process but PID 1 exists in any later state |
| `ProcessTree.RecordedIsReturned` | native/cbds-development-candidate-supervisor.c:1011-1038 | all-reaped and primary-reaped are set iff `wait4` said so, and the recorded status is that of the last child collected under the primary's pid |
| `ProcessTree.TotalsAreClippedSums` | native/cbds-development-candidate-supervisor.c:1001-1010 | the totals are the sums of the samples clipped at 2^64-1, one sample per collected process |
| `ProcessTree.CountedExactlyOnce` | native/cbds-development-candidate-supervisor.c:1001-1038 | there is one sample per process collected, and no process is collected twice even when pids are used again |
| `Supervisor.ReadyExactlyOnce` | native/cbds-development-candidate-supervisor.c:1225-1249 | the child counts as attested iff exactly one octet 'R' and nothing else was received |
| `Supervisor.DrainReady` | native/cbds-development-candidate-supervisor.c:1225-1249 | the read loop treats every run of reads as specified |
| `Supervisor.LatchedByDeadline` | native/cbds-development-candidate-supervisor.c:1913-1931 | termination latches no later than the first reading at or after the deadline, an unreadable clock counting as the deadline, and fixes the cleanup deadline once, a million microseconds later or at the top of the range |
| `Supervisor.ExitsWhenDrained` | native/cbds-development-candidate-supervisor.c:1938-1988 | with everything reaped, a round that reads every pipe to its end is the last, whatever the clock says |
| `Supervisor.ExitsAtCleanupDeadline` | native/cbds-development-candidate-supervisor.c:1923-1937 | with something left to reap, a round is the last iff its reading has reached the cleanup deadline of a latched termination, whatever the pipes hold |
| `Supervisor.LoopEndsBy` | native/cbds-development-candidate-supervisor.c:1891-1991 | every run of the loop ends by the round whose reading has reached the cleanup deadline, provided that round reads every pipe to its end if no child is left by then; interrupted, failed and blocked reads, lingering writers and unreadable clocks in other rounds do no harm |
| `Supervisor.LoopEndsOnceDrained` | native/cbds-development-candidate-supervisor.c:1891-1991 | once `wait4` has found no child left, the loop ends by the first round that reads every pipe to its end, whatever the clock says |
| `Supervisor.ReadErrorsNeverEnd` | native/cbds-development-candidate-supervisor.c:1924-1989 | from any state with stdout open: the first round collects the primary and finds no other child, every read of stdout fails, and no number of rounds ends the loop |
| `Supervisor.UnreadableClockNeverEnds` | native/cbds-development-candidate-supervisor.c:1913-1937 | with a clock that cannot be read and a process that is never reaped, no number of rounds ends the loop |
| `SupervisorMain.EveryRunReports` | native/cbds-development-candidate-supervisor.c:1891-2008 | the supervisor reports when its clock advances or its pipes end once no child is left, and its second sweep reads its own deadline |
| `SupervisorMain.ReadErrorsNeverReport` | native/cbds-development-candidate-supervisor.c:1924-1989 | launched with a primary that leaves no child behind and a stdout whose reads all fail, it has not reported after any number of rounds |
| `SupervisorMain.UnreadableClockNeverReports` | native/cbds-development-candidate-supervisor.c:1913-1937 | launched with a child that never ends and a clock that cannot be read, it has not reported after any number of rounds |
| `SupervisorMain.NoErrorMeansFullyAttested` | native/cbds-development-candidate-supervisor.c:2037-2117 | a written result without supervisor error carries every attestation flag, an exited or signaled status, and exactly one of snapshot WRITTEN and OVERFLOW |
| `SupervisorMain.UnusedFlagsStayClear` | native/cbds-development-candidate-supervisor.c:200-220 | the four declared runtime and policy flags are never set |
| `SupervisorMain.LoopKeepsLimits` | native/cbds-development-candidate-supervisor.c:1899-1922 | over any rounds cumulative CPU never falls, and each limit flag implies its limit was reached or an error recorded |
| `SupervisorMain.CpuFlagIsExact` | native/cbds-development-candidate-supervisor.c:1899-1922 | the CPU flag is set iff the reported CPU is at least the limit, and the report covers what `wait4` accounted |
| `SupervisorMain.WallFlagIsExact` | native/cbds-development-candidate-supervisor.c:1913-1922 | for a result without error, a monotone clock and an unsaturated deadline, the wall flag is set iff the reported wall time is at least the timeout |
| `SupervisorMain.OutcomeIsFirstRaised` | native/cbds-development-candidate-supervisor.c:1695-1720 | the first resource flag in the order of precedence decides; without one, how the process ended |
| `SupervisorMain.NormalOutcome` | native/cbds-development-candidate-supervisor.c:1695-2117 | a normal outcome carries exactly the attestation flags and WRITTEN, and nothing was signalled |
| `SupervisorReport.ExitWordDecodes` | native/cbds-development-candidate-supervisor.c:2060-2071 | the status word of an exit decodes as an exit with its code, for all codes 0 to 255 |
| `SupervisorReport.SignalWordDecodes` | native/cbds-development-candidate-supervisor.c:2060-2071 | the status word of a death by signal decodes as one with its number, core dump or not, for all signals 1 to 126 |
| `SupervisorReport.OutputIsExact` | native/cbds-development-candidate-supervisor.c:1182-2047 | of a launched run: an overflow flag is set only if the child wrote more than that stream's cap and the counts never exceed min(written, cap+1); without supervisor error flag and count are exact |
| `SupervisorReport.EndIsThePrimarys` | native/cbds-development-candidate-supervisor.c:2060-2071 | status, exit code and signal are those of the last child collected under the primary's pid, and the neutral ones iff there was none |
| `SupervisorReport.FactsAreTold` | native/cbds-development-candidate-supervisor.c:2037-2094 | each remaining flag is set iff the fact it reports holds of the environment, the wall time is the difference of the two readings, and the snapshot is claimed only of a quiet namespace, as written or as overflow and never both |
| `SupervisorReport.CpuIsTold` | native/cbds-development-candidate-supervisor.c:1899-2032 | the CPU total is the largest of the samples of all rounds the loop went through and the final accounting: at least each of them, and equal to one |
| `SupervisorOutcome.TakeExactly` | native/cbds-development-candidate-supervisor.c:1225-1249 | any run of messages attests iff it is exactly one 'R' |
| `SupervisorOutcome.ErrorIff` | native/cbds-development-candidate-supervisor.c:1891-2117 | a launched run reports an error unless every round was clean, the rounds' messages are exactly one 'R', no child is left, the primary ended by exit or signal, the clock did not go back, the namespace was quiet, the snapshot was delivered and no signal came; and if all that holds and no read failed it reports none |
| `SupervisorOutcome.OutcomeIsTold` | native/cbds-development-candidate-supervisor.c:1695-1720 | without error the outcome is what was too much in order of precedence (snapshot, stdout, stderr, CPU, time, each compared with its limit), or else how the primary ended; the wall flag is set iff some reading was missing or reached the deadline |
| `SupervisorOutcome.NotLaunched` | native/cbds-development-candidate-supervisor.c:1787-1884 | a run whose child was never launched reports an error and nothing of a child |
| `SupervisorOutcome.LatchedIff` | native/cbds-development-candidate-supervisor.c:1923-1931 | termination latches in exactly the rounds with one of the seven reasons for it |
| `SupervisorRun.Supervision.Reap` | native/cbds-development-candidate-supervisor.c:1899-1901 | the loop's reaping step is the tally of what it consumed |
| `SupervisorRun.Supervision.Iterate` | native/cbds-development-candidate-supervisor.c:1891-1991 | one pass of the loop body, mutating the state step by step, is one transition |
| `SupervisorRun.Supervision.RunLoop` | native/cbds-development-candidate-supervisor.c:1891-1991 | the loop over the state is the run of the transition system |
| `SupervisorRun.Supervision.Sweep` | native/cbds-development-candidate-supervisor.c:1993-2008 | the second sweep reaps until everything is reaped or its own deadline |
| `SupervisorRun.Settle` | native/cbds-development-candidate-supervisor.c:1885-2036 | loop, sweep and last drains leave the specified state |
| `SupervisorRun.RaiseFlags` | native/cbds-development-candidate-supervisor.c:2037-2058 | exactly the flags that hold are set, the overflow flags each from its own capture |
| `SupervisorRun.DeliverSnapshot` | native/cbds-development-candidate-supervisor.c:2073-2094 | the snapshot flag, its octet count and the error are those of the specification |
| `SupervisorRun.Judge` | native/cbds-development-candidate-supervisor.c:2009-2117 | from the settled loop to the frame: flags, status, error and outcome are those of the specification |
| `SupervisorRun.Supervise` | native/cbds-development-candidate-supervisor.c:1787-2117 | the whole program after a validated request, in every environment: the report is the specification's; without supervisor error everything was set up and launched and every attestation flag, a final status and exactly one snapshot flag is there; and of a launched run each flag, count, status, total and the outcome is what the child, the clock, `wait4` and the snapshot did |
| `SupervisorTree.ReportedTally` | native/cbds-development-candidate-supervisor.c:1001-2008 | the reported totals are those of all the results `wait4` returned in the loop and the second sweep together |
| `SupervisorTree.SweepStops` | native/cbds-development-candidate-supervisor.c:1993-2008 | the second sweep takes turns until everything is reaped, or until the first in which `wait4` fails or the deadline is read, which is its last and an error |
| `SupervisorTree.ReapedMeansAlone` | native/cbds-development-candidate-supervisor.c:1885-2117 | over any run of the process tree: all-descendants-reaped is reported iff `wait4` found no child left, and then the primary has been collected and PID 1 is alone from the last call of `wait4` on; every report without supervisor error says so |
| `SupervisorTree.ReportCountsProcesses` | native/cbds-development-candidate-supervisor.c:1001-2117 | over any run of the process tree: the reported count is the number of processes collected, each once, and the reported times are the clipped sums over them |
| `Workspace.BeforeIsTotal` | native/cbds-development-candidate-supervisor.c:1334-1338 | the comparison of names is irreflexive, asymmetric and total |
| `Workspace.BeforeIsTransitive` | native/cbds-development-candidate-supervisor.c:1334-1338 | and transitive, so that sorting by it is well defined |
| `Workspace.BeforeMeans` | native/cbds-development-candidate-supervisor.c:1334-1338 | a name comes first iff it is smaller at the first octet where the two differ, or is a proper prefix |
| `Workspace.SortedIsAscending` | native/cbds-development-candidate-supervisor.c:1340-1412 | distinct names come out in strictly ascending order, and no child is lost, added or repeated |
| `Archive.AppendPieces` | native/cbds-development-candidate-supervisor.c:1281-1299 | appending in pieces and stopping at the first that does not fit is appending the whole |
| `Archive.WalkConcat` | native/cbds-development-candidate-supervisor.c:1600-1652 | a walk over two runs of entries is the first and then, if it completed, the second |
| `Archive.RecordMeaning` | native/cbds-development-candidate-supervisor.c:1414-1575 | an entry is recorded whole iff every limit leaves room for it; otherwise the buffer is full and marked, or a special file fails |
| `Archive.WalkMeaning` | native/cbds-development-candidate-supervisor.c:1577-1653 | a walk completes iff all entries fit, and then appends exactly their encoding and counts them |
| `Archive.SnapshotIsExact` | native/cbds-development-candidate-supervisor.c:1655-1693 | WRITTEN with exactly the full pre-order archive iff every limit holds and it is at most cap octets; otherwise, without special files, OVERFLOW with exactly cap+1 octets |
| `Archive.SnapshotFails` | native/cbds-development-candidate-supervisor.c:1600-1693 | neither flag exactly when the walk reaches a device, socket or pipe after recording everything before it |
| `SnapshotWriter.SnapshotBuffer.Append` | native/cbds-development-candidate-supervisor.c:1281-1299 | the bounded copy into the array is the specified append |
| `SnapshotWriter.SnapshotBuffer.ForceOverflow` | native/cbds-development-candidate-supervisor.c:1301-1309 | the rest of the buffer is zeroed and the buffer is full |
| `SnapshotWriter.SnapshotBuffer.RecordHeader` | native/cbds-development-candidate-supervisor.c:1414-1433 | five appends, each skipped after a failure, record one whole header or overflow |
| `SnapshotWriter.SnapshotBuffer.SnapshotRegular` | native/cbds-development-candidate-supervisor.c:1460-1534 | a file read in blocks of any size is recorded as one entry |
| `SnapshotWriter.SnapshotBuffer.SnapshotSymlink` | native/cbds-development-candidate-supervisor.c:1536-1575 | a link and its target are recorded as one entry |
| `SnapshotWriter.SnapshotBuffer.SnapshotDirectory` | native/cbds-development-candidate-supervisor.c:1577-1653 | the recursive traversal is the walk over the pre-order listing, depth limit and skipped input included |
| `SnapshotWriter.BuildWorkspaceSnapshot` | native/cbds-development-candidate-supervisor.c:1655-1693 | the buffer and status the program ends with are those of the specification, and the octets of a complete snapshot within the cap decode to the tree |
| `Projection.PathInjective` | native/cbds-development-candidate-supervisor.c:1435-1453 | a joined path determines its components |
| `Projection.LookupIsListed` | native/cbds-development-candidate-supervisor.c:1600-1652 | everything outside input is listed under its joined path |
| `Projection.ListedIsLookup` | native/cbds-development-candidate-supervisor.c:1600-1652 | everything listed is in the tree, outside input |
| `Projection.HeaderFields` | native/cbds-development-candidate-supervisor.c:1414-1433 | where an entry's type, mode, lengths, path and payload are found in its encoding |
| `Projection.ArchiveInjective` | native/cbds-development-candidate-supervisor.c:1414-1433 | equal archives have the same paths, types, modes and payloads in the same order |
| `Projection.SameViewSameListing` | native/cbds-development-candidate-supervisor.c:1340-1412 | trees that agree outside input have the same listing |
| `Projection.ArchiveIsProjection` | native/cbds-development-candidate-supervisor.c:1340-1433 | two written archives are equal iff the trees agree on path set, type, mode and payload everywhere outside input |
| `Projection.EnumerationOrderIsInvisible` | native/cbds-development-candidate-supervisor.c:1334-1338 | the order in which directories enumerate changes nothing, not even what an overflow leaves |
| `ArchiveReading.DecodedArchive` | native/cbds-development-candidate-supervisor.c:1414-1433 | decoding the archive of a listing gives one record per entry back: type, mode, path and payload |
| `ArchiveReading.VisitsAllRoutes` | native/cbds-development-candidate-supervisor.c:1577-1653 | the walk visits every node outside the top-level input exactly once, a directory before its entries and siblings by name |
| `ArchiveReading.WrittenArchiveHoldsTheTree` | native/cbds-development-candidate-supervisor.c:1460-1693 | a written archive decodes to one record for every node outside input, in that order, with type 1, 2 or 3, the mode modulo 4096, the joined path, and a regular file's content or a link's target |
| `ArchiveReading.WrittenIffWithinLimits` | native/cbds-development-candidate-supervisor.c:1414-1693 | WRITTEN iff no node is a device, socket or pipe, none is deeper than 64 or has a path over 4096, content over 1 MiB or a target over 4096 octets, there are at most 4096 of them with at most 16 MiB together, and 16 octets and 20 a node, the paths and the contents fit the cap |
| `ArchiveReading.EqualArchivesIffAlike` | native/cbds-development-candidate-supervisor.c:1414-1693 | two written archives are the same octets iff at every route outside input both trees have nothing, or nodes of one type with equal mode bits and equal content or target |
| `PublishProtocol.PlansAreEntitled` | scripts/build_executable_eighth_tranche_catalog.py:434-518 | whatever a publisher does next, it touches only its own inode and names of it |
| `PublishProtocol.StepKeepsInv` | scripts/build_executable_eighth_tranche_catalog.py:520-673 | one call of one publisher, faulty or not, keeps the invariant of all of them |
| `PublishProtocol.EveryRunKeepsInv` | scripts/build_executable_eighth_tranche_catalog.py:520-673 | the invariant holds at every point of every interleaving |
| `PublishProtocol.FinalIsNeverPartial` | scripts/build_executable_eighth_tranche_catalog.py:520-673 | the final name is at all times its untouched earlier self, absent, or one publisher's complete payload at mode 0644 |
| `PublishProtocol.OnlyOwnInodes` | scripts/build_executable_eighth_tranche_catalog.py:434-518 | a step removes only names of the inode its publisher created and changes no other inode |
| `PublishProtocol.SuccessIsDurable` | scripts/build_executable_eighth_tranche_catalog.py:604-673 | a publication reported as success stays, whole and with link count 1, however the run continues |
| `PublishDurability.StepKeepsFinal` | scripts/build_executable_eighth_tranche_catalog.py:586-673 | a call of any publisher leaves the final file in place while the one that linked it cannot withdraw it, and does not let it begin to |
| `PublishDurability.Withdrawal` | scripts/build_executable_eighth_tranche_catalog.py:434-467 | a publisher that can withdraw its file makes the final name absent within three calls of its own |
| `PublishDurability.StandsForGoodIff` | scripts/build_executable_eighth_tranche_catalog.py:586-673 | at any point of any run the final file stays in every continuation iff the publisher that linked it is neither between its successful link and the end of its read-back nor undoing its publication |
| `PublishDurability.AcceptanceIsNotDurable` | scripts/build_executable_eighth_tranche_catalog.py:594-659 | for any two publishers of one payload and an absent name: a run in which one links the file, the other accepts it and returns successfully, and a fault in the first one's read-back makes the name absent |
| `PublishDurability.PairLosesItsFile` | scripts/build_executable_eighth_tranche_catalog.py:594-659 | that run in an empty directory |
| `Publication.Publication.ReadExisting` | scripts/build_executable_eighth_tranche_catalog.py:203-282 | without a fault, reads exactly one ordinary mode-0644 link-count-one file of bounded size, or finds none |
| `Publication.Publication.AuthenticateFinal` | scripts/build_executable_eighth_tranche_catalog.py:373-406 | passes only on the exact payload, and never rejects a file with the expected metadata |
| `Publication.Publication.Stage` | scripts/build_executable_eighth_tranche_catalog.py:570-584 | without a fault the staged inode is whole and its checks do not reject |
| `Publication.Publication.AuthenticateStaged` | scripts/build_executable_eighth_tranche_catalog.py:296-326 | in any directory, passes iff no fault occurs and the staging name leads to the created inode, an ordinary 0644 file of the payload's length with no other name |
| `Publication.Publication.LinkOrAccept` | scripts/build_executable_eighth_tranche_catalog.py:586-604 | links when the name is absent, and otherwise accepts exactly the identical existing file |
| `Publication.Publication.AuthenticateLinked` | scripts/build_executable_eighth_tranche_catalog.py:327-370 | in any directory, passes iff no fault occurs and both names lead to the inode authenticated before, with link count 2 and unchanged content metadata; so it rejects nothing of the protocol's own making |
| `Publication.Publication.Settle` | scripts/build_executable_eighth_tranche_catalog.py:605-659 | the inner block ends with the staging name gone, or raises only for a fault |
| `Publication.Publication.UndoPublication` | scripts/build_executable_eighth_tranche_catalog.py:434-467 | withdraws the final name this publisher made, and nothing else |
| `Publication.Publication.Finish` | scripts/build_executable_eighth_tranche_catalog.py:660-673 | removes the staging name, unless the descriptor was closed twice |
| `Publication.Publication.AtomicPublishNoreplace` | scripts/build_executable_eighth_tranche_catalog.py:520-673 | success adds only the exact payload at mode 0644 with link count 1, or nothing; failure leaves the directory as it was except after exactly the named faults; with no fault an absent name is always published |
| `Sampler.EveryResidueEqually` | src/cbds/benchmark.py:122-130 | each residue has exactly limit/bound accepted 256-bit candidates |
| `Sampler.LimitIsMultiple` | src/cbds/benchmark.py:122-130 | the limit is the largest multiple of the bound and more than half of the space |
| `Sampler.StableSampler.RandBelow` | src/cbds/benchmark.py:122-130 | the result is the first accepted candidate reduced, for every bound up to 2^256; other bounds raise |
| `Sampler.StableSampler.Choice` | src/cbds/benchmark.py:132-135 | an element chosen by one draw, or an error on an empty sequence |
| `Sampler.StableSampler.Shuffle` | src/cbds/benchmark.py:137-140 | the array ends as the swaps of its draws say, one draw per position |
| `Sampler.StableSampler.Sample` | src/cbds/benchmark.py:142-149 | the selection is the front of the pool after the swaps of its draws; a count outside the population raises |
| `Sampler.ShuffleInjective` | src/cbds/benchmark.py:137-140 | on distinct values different draws give different results |
| `Sampler.ShuffleBijective` | src/cbds/benchmark.py:137-140 | each permutation comes from exactly one sequence of draws |
| `Sampler.ShuffleArranges` | src/cbds/benchmark.py:137-140 | every sequence of draws gives a permutation |
| `Sampler.SampleInjective` | src/cbds/benchmark.py:142-149 | on distinct values different draws give different selections |
| `Sampler.SampleBijective` | src/cbds/benchmark.py:142-149 | each ordered selection comes from exactly one sequence of draws |
| `Sampler.ProducedOnce` | src/cbds/benchmark.py:86-149 | a stream gives one history of draws only: two histories of the same bounds are equal |
| `Benchmark.FiveWindowsCoverAllTags` | src/cbds/benchmark.py:511-536 | five or more fixture windows cover all ten edge tags from any offset |
| `Benchmark.DependenciesOf` | src/cbds/benchmark.py:610-614 | the dependencies are the chain and, beyond three nodes, the edge from first to last, all in canonical order |
| `BenchmarkBlocks.PartitionConserves` | src/cbds/benchmark.py:539-544 | the parts sum to the count, all but the last are full, and there are as few as possible |
| `BenchmarkBlocks.ShuffleConserves` | src/cbds/benchmark.py:564-566 | shuffling family sizes never changes how many specifications a split gets |
| `BenchmarkBlocks.ShuffledSizesAreTheParts` | src/cbds/benchmark.py:564-566 | the sizes of a split's families are the parts of its partition in another order, each between 1 and the family size |
| `BenchmarkBlocks.FamilyCountOfBlocks` | src/cbds/benchmark.py:567-592 | each family of a suite has exactly the members its size says |
| `BenchmarkGenerator.ShuffledSizes` | src/cbds/benchmark.py:564-566 | the sizes are the partition after the swaps of the draws, and exactly those draws are taken from the sampler |
| `BenchmarkMeaning.SpecOfReads` | src/cbds/benchmark.py:567-668 | a generated specification's labels agree with its graph and family, and its fixtures slide a window of two tags on by two |
| `BenchmarkMeaning.GraphOfReads` | src/cbds/benchmark.py:596-616 | two to five different operators in a chain, with the closing edge beyond three and a threshold that is the graph's own |
| `BenchmarkMeaning.ValidMeans` | src/cbds/benchmark.py:709-805 | the validity the findings amount to is the one read off the records: identity, graph, family, signature, split, tags, fixtures, actions and counts |
| `BenchmarkGenerator.FixtureSpecs` | src/cbds/benchmark.py:511-536 | the loop builds the specified fixtures |
| `BenchmarkGenerator.GenerateFamily` | src/cbds/benchmark.py:567-671 | a family adds its members with one plan of its own and graph indices of their own |
| `BenchmarkGenerator.GenerateSuite` | src/cbds/benchmark.py:547-671 | a suite has exactly the configured count in every split, in families whose sizes are the split's partition shuffled by the recorded draws, each with one plan drawn operator by operator, and the stream gives exactly those draws in that order |
| `BenchmarkGenerator.GeneratedIsUnique` | src/cbds/benchmark.py:594-625 | graph hashes and ids are unique across both suites |
| `BenchmarkGenerator.GeneratedFamiliesHold` | src/cbds/benchmark.py:561-592 | every family has one signature and lies in one split, and no signature crosses splits |
| `BenchmarkGenerator.GenerateBenchmark` | src/cbds/benchmark.py:674-694 | for every accepted configuration and all draws: the records form a valid benchmark of the configured sizes, every specification has the graph, labels and fixtures of its plan, no family has more members than the family size, both suites happened as their streams say, and the validator has no issue |
| `BenchmarkValidator.CheckSpec` | src/cbds/benchmark.py:738-769 | reports exactly the findings about one specification |
| `BenchmarkValidator.ValidateSpecs` | src/cbds/benchmark.py:709-805 | reports exactly the findings, whatever it is given |
| `BenchmarkValidator.SilentIffValid` | src/cbds/benchmark.py:709-805 | there is no finding iff the benchmark is valid, as read off its records |
| `Lineage.WalkLineage` | src/cbds/campaign_registry.py:500-509 | a chain of sources is reported as a cycle iff it never leaves the declared arms |
| `Lineage.ArmLineageErrors` | src/cbds/campaign_registry.py:487-509 | silent iff a strictly decreasing rank of the arms exists |
| `Lineage.SilentIffRankable` | src/cbds/campaign_registry.py:487-509 | known sources without cycles are the same as a decreasing rank |
| `Registry.IdentifierErrors` | src/cbds/campaign_registry.py:423-484 | of identifiers, order and membership: silent iff identifiers ascend strictly, members are declared, sorted and unrepeated within a profile, and every arm takes part |
| `RegistryRuns.RunErrors` | src/cbds/campaign_registry.py:673-756 | of order, cohort, cell, profile and replicate: silent iff the runs are ordered, each in its cohort with its own id and cell and agreeing with its document |
| `RegistryRuns.CohortErrors` | src/cbds/campaign_registry.py:758-904 | of replicates and seeds: silent iff every arm has exactly the required replicates, seeds are paired, and complete replicates share no training-affecting seed field |
| `RegistryRuns.FreshnessErrors` | src/cbds/campaign_registry.py:927-959 | silent iff runs of different profiles share no training-affecting seed |
| `RegistryTheorem.ArmsReplicateMeans` | src/cbds/campaign_registry.py:763-773 | exact replicate indices for every arm are the same as a full grid |
| `RegistryTheorem.GridIsFull` | src/cbds/campaign_registry.py:876-904 | on a full grid every replicate has one run per arm, so that its seeds are compared |
| `RegistryTheorem.CohortRunsMean` | src/cbds/campaign_registry.py:758-904 | the checks of replicates and seeds pass in a cohort iff its runs are the grid, seeds are shared in a replicate, and every field differs between replicates |
| `RegistryMeaning.ValidateRegistry` | src/cbds/campaign_registry.py:1280-1379 | the modelled passes, composed, are silent iff the registry is acceptable, as read off its records |
| `RegistryTheorem.AcceptedIsExact` | src/cbds/campaign_registry.py:673-959 | the modelled checks all pass iff the runs are exactly the cohort, arm and replicate grid, seeds pair across arms and are fresh otherwise, and the links admit a decreasing rank |
| `RegistryMeaning.AcceptedIffAcceptable` | src/cbds/campaign_registry.py:423-959 | the passes accept iff arms and cohorts ascend with every arm in one cohort of a profile at most and in some cohort, sources rank below their arms, there is one run and one document for each arm and replicate of each cohort in order, runs of a replicate share all five seeds, and runs of other replicates or profiles differ in model initialization, data order, training and operator selection |
| `RegistryMeaning.EvaluationSeedIsNotEnough` | src/cbds/campaign_registry.py:60-68 | seeds that differ only in the evaluation seed are not fresh |
| `Inventory.PushReversed` | src/cbds/benchmark_artifacts.py:707 | pushing child directories in reverse leaves their contributions in name order, before the rest of the stack |
| `Inventory.LookAtEntries` | src/cbds/benchmark_artifacts.py:673-705 | records each entry in name order and opens exactly the child directories |
| `Inventory.Visit` | src/cbds/benchmark_artifacts.py:656-707 | one turn moves a directory's contribution from the stack to the result, closes it, and shrinks the work left |
| `Inventory.InventoryDirectory` | src/cbds/benchmark_artifacts.py:645-708 | the traversal ends with the recursive inventory, or with an excess iff the tree has more entries than the ceiling, and every descriptor it opened closed |
| `InventoryMeaning.InventoryIsTheTree` | src/cbds/benchmark_artifacts.py:645-708 | the recorded paths are exactly the regular files and the directories that a route in the tree ends at; every symbolic link and every other node has one issue, and there is no issue besides |
| `InventoryMeaning.EntriesAreCounted` | src/cbds/benchmark_artifacts.py:660-666 | every entry is counted once |

## Left out

- The kernel: whether a filter, signal or resource limit has its effect, and system call numbers, which come from headers and are parameters here.
- Request parsing, descriptor validation, the octets of the result frame and its digests (native/cbds-development-candidate-supervisor.c:461-656 and 1722-1785): field by field copying and comparison.
- Forced close of a capture still open after the last drain leaves its digest over what was read; that the writer is gone by then is the kernel's promise.
- A pid used again by a later child of PID 1 can overwrite the recorded wait status of the primary; processes are identified by birth where they are counted, and by pid where the source does so.
- `sole_namespace_pid1`, the procfs scan of `live_namespace_cpu_usec`, poll results and whether `write_all` delivered the snapshot are parameters of a run.
- The run loop of native/cbds-development-supervisor.c: a simpler form of the one modelled; its drain and its filter are modelled.
- Files that change while the snapshot or the inventory reads them: the tree is fixed during a traversal, so the checks that detect a change never fire.
- PublishProtocol.EveryRunKeepsInv: what an authentication or a read-back finds is left to the environment, which may also refuse at any time; the claims hold whatever it answers, and `Publication` models the checks themselves.
- The ownership comparison of inodes by device, owner and group: one file system and one user.
- Publication.Publication.AtomicPublishNoreplace: parent directories are pinned and reachable unless a fault is injected; directory and access times are not modelled.
- BenchmarkGenerator.GenerateBenchmark: needs split counts up to 2^256 and digests that do not stay in the upper half of their range for good, without which rejection sampling does not end; the sampler's 16-octet counter does not wrap.
- Utility names, prompts and record encodings of a specification: text that no check reads.
- BenchmarkValidator.ValidateSpecs: the order of findings is not modelled; equal findings about repeated ids may be reported once or more.
- Registry.IdentifierErrors: the per-arm list of run protocols (src/cbds/campaign_registry.py:465-481) is not modelled, a comparison of two recorded lists.
- RegistryRuns.RunErrors: the digests of run specification and record, the operator and the dense-model bounds (src/cbds/campaign_registry.py:718-752) are not modelled, comparisons of one recorded value with another.
- RegistryRuns.CohortErrors: run protocols, contrast roles, backbone, pairing and teacher digests (src/cbds/campaign_registry.py:774-875 and 905-922) are not modelled, for the same reason.
- RegistryTheorem.CohortRunsMean: says nothing of the checks that CohortErrors leaves out, so a cohort that passes here may still be rejected by them.
- RegistryMeaning.ValidateRegistry: leaves out the passes over contrast roles, promotion links and evaluations and the comparison with the policy document, so its silence is necessary for acceptance by the source and not sufficient.
- RegistryTheorem.AcceptedIsExact: is about the passes that ValidateRegistry composes.
- RegistryMeaning.AcceptedIffAcceptable: is about the same passes.
- An undeclared arm in a cohort makes the source raise a KeyError while it checks run protocols, after it has recorded the same fault; the model reports the fault.
- JSON schemas, canonical JSON text and the modules those live in.
- `src/cbds/claim_acceptance.py`, `src/cbds/confirmatory_analysis.py`, `src/cbds/capability_audit.py` and the command line: field checks and plumbing that would only add easy members.
