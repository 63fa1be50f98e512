# AuroraMVEE: the lockstep monitor, modelled and proved in Dafny

AuroraMVEE runs two copies of a program, master and replica, under ptrace and keeps
them in lockstep at system calls. This project models the monitor and proves what its
lockstep is for. `dafny verify dfyconfig.toml` checks everything.

## How the model is built

* **The traced side.** `Tracees.World` holds what the monitor does not control: for each
  variant a deterministic program (the next request as a function of everything its
  calls have told it) and a kernel (an answer to each call as a function of the calls
  that variant has completed, the call and its memory). A `Tracee` is one process: its
  phase (user code, entry stop, in the kernel, exit stop, gone), registers, memory and
  history. ptrace and waitpid are the transitions `Resumed` and `Stopped`.
* **The monitor's side.** `Tracees.Variant` is the monitor's `variant` record, a class
  whose methods update its fields; `MonitorLoop.Monitor` has the executors,
  `processSyscallSync`, `processVariantEvent` and the event loop as methods that work in
  place on the two variants, the transfer buffers and the mapping list. Every such
  method is proved equal to a specification function (`Executors`, `Lockstep.Step`).
* **The theorems** are about that specification, over every schedule, world and input.

| file | content |
|---|---|
| Words, Syscalls | integer widths, call numbers, the dispatch of `processSyscallSync` |
| Memory, Strings | word-granular PEEK/POKE on byte memories; the string scans |
| RemoteMemory | the transfer, compare and scan loops of variant.c and newfstatat.c |
| Mappings | the sentinel-headed doubly linked list, refining a sequence |
| Tracees, Executors, Effects | variants, what each executor does, summed up |
| Checks | a reference, by call number, for what the executors check and have run; they meet it exactly |
| Lockstep, Ledger, Runs | the event state machine, its invariant, whole-run theorems |
| Confluence, Reordering | the event loop refines a sequential machine; schedules do not matter |
| Native, Transparency | what the monitored programs can observe |
| Dispatch | the synchronised call by its number: when it goes ahead, what it leaves, over whole runs |
| Offsets | file positions |
| AddressSpace, Policy | master's address space byte by byte; shared-writable mappings over runs |
| Monitor | the imperative monitor, proved against the above |
| Scripts, Witnesses, FileWitnesses | concrete worlds: runs from the start that break a claim, or meet a hypothesis |

## Main results

1. **Lockstep.** One inductive invariant gives the phase/number/state table, no deadlock,
   and unreachability of both "Invalid State" branches. Each event lowers a rank by
   exactly one; a pair is synchronised exactly when the rank was one, so any four events
   contain a synchronised call or end the run.
2. **Pairing and agreement.** The k-th call of `processSyscallSync` compares the k-th
   requests, even though getrandom does not advance `syscallNum`, and the kernels are
   entered only for calls that passed, with the mapping policy's consent. For any two
   requests with the same number a call goes ahead exactly when the registers listed for
   that number agree, the bytes they point at agree, the table agrees, and the call runs
   to its end; what each kernel then runs, what each program is told, which number
   advances and what lands in the replica's memory is stated call by call. When the
   variants are killed for diverging, nothing of the diverging call has run, except for
   fadvise64 and rseq.
3. **Schedules do not matter.** The event loop and one sequential machine simulate each
   other. Equally many events give the same log of synchronised calls; all schedules that
   run to the end, of whatever lengths, end in the same status. Two schedules that keep
   the run alive end in the same state exactly when they have equally many events of each
   variant; equal lengths are not enough, which a run from the start shows.
4. **Transparency.** Master is at every moment in exactly the state of its unmonitored
   run, as far as its own kernel's answers go: where a file was opened before the
   variants started, one position lies behind both, and a read that goes ahead leaves it
   where an unmonitored one would exactly when it read nothing. Two copies of one program
   are told the same results and the same data, for getpid, close, fchmod, fchown, bind,
   listen, read, pread64, getrandom, poll, newfstatat, and the calls the monitor lets both
   run with equal answers (the four id calls, brk, set_robust_list, arch_prctl,
   exit_group, rt_sigaction, prlimit64, lseek, socket, fadvise64, rseq). They are killed
   under some schedule if and only if master's unmonitored run comes to a call that the
   monitor does not let through: a call that does not return, a result that is taken for a
   size and is negative (other than -1 of read and getrandom) or over 10,000,000, or
   arguments that do not fit. So a failed read kills two identical copies; a run from the
   start shows it. The kernels may keep state: what is asked of them concerns only the
   histories that such a run can have behind it. Programs that read a file and seek in
   it, on kernels that keep file positions, are shown to qualify.
5. **Memory.** Writes never touch a byte outside the range. On mapped ranges they are
   faithful for every buffer exactly when the size is 0, or is below 8 or a multiple of 8
   and all the words poked are mapped: the last partial word is fetched with a byte count
   as an index of longs, which contradicts the comment above it, and a short write close
   to the end of mapped memory is lost. Comparisons decide equality exactly when the words
   they read are mapped; close to the end of memory different bytes and paths pass.
6. **File positions** of a regular file that each variant opened for itself agree
   whenever neither variant is in the kernel, for any programs, if read never returns -1;
   after a single read they agree exactly when its result is not -1 or the position was 0.
7. **Mapping policy.** No table entry is ever writable without the MAP_PRIVATE bit. If
   mappings are new and unmapped whole, the table lists exactly the live mappings; and
   then no live byte of master's is ever writable in a mapping that the kernel shares if
   and only if no mmap of type MAP_SHARED_VALIDATE is writable, and no mprotect grants
   write access to shared memory from elsewhere than a MAP_SHARED mapping's base. Both
   parts are needed, which runs from the start show: the policy's one bit takes
   MAP_SHARED_VALIDATE for private, and recorded lengths are 0, so inside a mapping the
   check asks nothing. The replica's addresses are not looked at: its memory stays safe
   exactly when it never asks for write access to shared memory at all.

Where the code departs from its evident intent, the model follows the code:
`writeVariantMem`'s tail word; `variantStrCmp` returning its error value for every
string that ends inside the window; newfstatat accepting a replica path that merely
extends master's; mmap recording length 0, because the length is read after the entry
info was replaced; getrandom resuming from the exit stop without counting; read taking
every negative result other than -1 for a size.

## Model

| member | source | states |
|---|---|---|
| Words.ToInt | Monitor/src/variant.c:170 | the cast `(int)` keeps the value modulo 2^32, lands in `int` range, and is the identity on that range |
| Words.RegisterRoundTrip | Monitor/src/sys/read.c:52 | a signed result put into an unsigned register comes back unchanged, and is a small size exactly when it is not negative |
| Words.IntKeeps | Monitor/src/variant.c:170 | the cast keeps exactly -2,147,483,648 to 2,147,483,647 |
| Syscalls.PollBytesWraps | Monitor/src/sys/poll.c:20 | the byte size of a poll array is eight per entry modulo 2^64, always a multiple of 8, and exact precisely below 2^61 entries |
| Memory.Footprint | Monitor/src/variant.c:230-240 | a read fills whole words: at least the size, less than 8 more, and never past the 10,000,000-byte buffer |
| Memory.ImageMapped | Monitor/src/variant.c:232-240 | where its words are mapped, a read delivers memory as it is |
| Memory.ImageBytes | Monitor/src/variant.c:232-240 | every byte a read delivers: memory's, or 0xFF in words that are not mapped |
| Memory.LoadedBytes | Monitor/src/variant.c:222-241 | a read leaves its whole words at the start of the local buffer and the rest as it was |
| Memory.WriteFrame | Monitor/src/variant.c:256-289 | no byte outside the destination range changes, for every size, mapped or not |
| Memory.WriteContents | Monitor/src/variant.c:256-289 | the exact bytes written: the buffer's at whole-word sizes, otherwise all but the last eight, and then the eight from eight times as far into the buffer, or past its end |
| Memory.MisfetchedTail | Monitor/src/variant.c:282-283 | where that word lies in the buffer, exactly its bytes are written |
| Memory.PokeWordsBytes | Monitor/src/variant.c:270-279 | every byte of a run of pokes, whatever is mapped |
| Memory.WriteFaithfulIff | Monitor/src/variant.c:256-289 | a write to a mapped range is faithful for every buffer exactly when it is empty, or its size is below 8 or a multiple of 8 and its words are mapped |
| Memory.SameImageMapped | Monitor/src/variant.c:390-393 | where the words read are mapped the memory comparison is bytewise equality |
| Memory.SameImageExactIff | Monitor/src/variant.c:383-394 | the comparison decides equality of all mapped ranges of a size exactly when the size is 0 or all the words read are mapped |
| Memory.DifferentBytesCompareEqual | Monitor/src/variant.c:383-394 | four different bytes at the end of memory that compare equal |
| Memory.TransferExact | Monitor/src/variant.c:310-332 | a whole-word transfer replaces exactly the destination range by the source range |
| Memory.TransferContents | Monitor/src/variant.c:310-332 | a transfer at any other size: all but the last eight bytes arrive; the last eight are the source's from eight times as far on if they were read, or what the buffer held |
| Memory.TransferThenCompare | Monitor/src/variant.c:310-394 | comparing the ranges after a whole-word transfer finds them equal |
| RemoteMemory.ReadVariantMem | Monitor/src/variant.c:222-241 | refuses sizes over the buffer; otherwise fills exactly the whole-word footprint with the words peeked and returns the size |
| RemoteMemory.WriteVariantMem | Monitor/src/variant.c:256-289 | returns the size and leaves exactly the specified memory, nothing else of the variant changed |
| RemoteMemory.TransferVariantMem | Monitor/src/variant.c:310-332 | fails exactly above the buffer size; otherwise the destination gets what the two loops make of the source |
| RemoteMemory.VariantMemCmp | Monitor/src/variant.c:383-394 | -1 above the buffer size, else 0 exactly when the two reads deliver the same bytes |
| RemoteMemory.ScanPath | Monitor/src/sys/newfstatat.c:28-47 | the growing window ends with the first NUL of the path or 9,999,951, the buffer holding the path so far; the exceeds-buffer branch is dead |
| RemoteMemory.PathTest | Monitor/src/sys/newfstatat.c:28-51 | passes exactly when that many leading bytes agree |
| RemoteMemory.VariantStrCmp | Monitor/src/variant.c:343-378 | returns the error value, 0 or 1 as specified for the code as written |
| Strings.WindowFinds | Monitor/src/sys/newfstatat.c:33-46 | a NUL found in any window is the first NUL of the whole scan |
| Strings.StrncmpNoNul | Monitor/src/sys/newfstatat.c:51 | where the first string has no NUL, strncmp is zero exactly when the bytes agree |
| Strings.PathAgreesIsPrefix | Monitor/src/sys/newfstatat.c:49-51 | a passing replica path is at least as long as master's, and equally long exactly when it has its NUL there |
| Strings.PathLenExactly | Monitor/src/sys/newfstatat.c:28-47 | the scanned length is the string's, or 9,999,951 |
| Strings.PathAgreesOnUnequalPaths | Monitor/src/sys/newfstatat.c:49-51 | "a" in master and "ab" in the replica pass |
| Strings.PathAgreesMapped | Monitor/src/sys/newfstatat.c:28-51 | where the words are mapped, the test passes exactly when the replica's bytes start with master's path |
| Strings.PathAgreesAtMemoryEnd | Monitor/src/sys/newfstatat.c:28-51 | "a" and "b" in the last bytes of mapped memory pass |
| Strings.StrCmpErrsIff | Monitor/src/variant.c:351-367 | the string compare returns its error value exactly when the first string ends within 9,999,900 bytes |
| Strings.StrCmpExactly | Monitor/src/variant.c:369-378 | otherwise it returns 0 exactly when the 9,999,900 bytes read agree, else 1 |
| Mappings.FindIndex | Monitor/src/mappings.c:52-70 | the first entry covering the address, with the pointer sum wrapping, or none |
| Mappings.CoversExactly | Monitor/src/mappings.c:58-61 | an entry of length 0 covers its base, others what lies in them, a wrapping one nothing |
| Mappings.BaseIndex | Monitor/src/mappings.c:32-47 | the first entry with this base, or none |
| Mappings.RemovedExactly | Monitor/src/mappings.c:32-50 | what remains is every entry but the first with the base, in order |
| Mappings.RemovesWhatItFound | Monitor/src/sys/munmap.c:24-33 | with no wrapping length, munmap removes the very entry it found and nothing else, whatever overlaps or repeats |
| Mappings.RemovesWhatItFoundIff | Monitor/src/mappings.c:58-61 | an entry is harmless in front of every table exactly when its length does not wrap |
| Mappings.MappingList.constructor | Monitor/src/mappings.c:13-14 | the sentinel alone represents the empty sequence |
| Mappings.MappingList.Add | Monitor/src/mappings.c:17-30 | appends to the sequence and keeps the links consistent and acyclic |
| Mappings.MappingList.Remove | Monitor/src/mappings.c:32-50 | deletes exactly the first entry with the base and returns 0 exactly when there is one |
| Mappings.MappingList.Unlink | Monitor/src/mappings.c:38-41 | the pointer surgery drops exactly one node and keeps the links consistent |
| Mappings.MappingList.Find | Monitor/src/mappings.c:52-70 | the node of the first covering entry, or null exactly when none covers |
| Tracees.Variant.constructor | Monitor/src/variant.c:96-104 | a new variant has number 0 and no history |
| Tracees.Variant.RequestSyscallInfo | Monitor/src/variant.c:300-305 | the record is replaced by what the stop says, nothing else changes |
| Tracees.Variant.Wait | Monitor/src/variant.c:110-136 | the process reaches its next stop; -1 exactly when it is gone |
| Tracees.Variant.ResumeFromWait | Monitor/src/variant.c:142-148 | the process moves on and the state is running; the number stays |
| Tracees.Variant.ResumeFromExit | Monitor/src/variant.c:153-159 | the process moves on and the number advances; the state stays |
| Tracees.Variant.SetNopSyscall | Monitor/src/variant.c:204-211 | only the number of the pending call becomes getpid |
| Tracees.Variant.SetSyscallReturnValue | Monitor/src/variant.c:214-217 | only the result register changes |
| Effects.ReturningEffect | Monitor/src/variant.c:165-201 | master's kernel runs its own call, the replica's getpid or its own, and the replica is told master's result cut to an int |
| Effects.ReadEffect | Monitor/src/sys/read.c:29-67 | the replica's kernel runs lseek by master's result on the same file; data lands in its buffer before that |
| Effects.PreadEffect | Monitor/src/sys/pread64.c:27-45 | the replica's kernel runs getpid, its program is told master's result, with the data copied |
| Effects.GetRandomEffect | Monitor/src/sys/getrandom.c:22-50 | as pread64, but neither number advances, and a result of -1 copies nothing |
| Effects.PollEffect | Monitor/src/sys/poll.c:31-52 | the array is copied after the replica's getpid; the replica is told master's result |
| Effects.FstatEffect | Monitor/src/sys/newfstatat.c:58-78 | the struct is copied before the replica's getpid; the result is cut to an int |
| Effects.MmapEffect | Monitor/src/sys/mmap.c:40-53 | master completes while the replica is let into the kernel, and the table gets an entry of length 0 |
| Effects.ExecuteEffect | Monitor/src/monitor.c:80-214 | an executor that returns 0 passed its checks and had its shape's effect on both variants |
| Effects.ExecuteAnswers | Monitor/src/monitor.c:80-214 | however the replica's call is rewritten, what it completes is what its kernel answered, knowing the calls before |
| Effects.ExecuteFailedCheck | Monitor/src/sys/fadvise64.c:23-26 | a failed check leaves both at the entry stop, except where the executor resumes first |
| Effects.ExecuteFails | Monitor/src/monitor.c:80-214 | however an executor fails, it let master into the kernel at most once, with its own call, and the replica at most once, and not at all before master's call returned |
| Checks.Numbers | Monitor/src/monitor.c:78-214 | the call numbers and sizes, in figures |
| Checks.WidenedIs | Monitor/src/sys/mmap.c:22-28 | a register read as an int and compared with a register is its low half, sign-extended |
| Checks.PermsAre | Monitor/src/security_manager.c:7-15 | the policy refuses exactly bit 1 of the protection without bit 1 of the flags |
| Checks.PlanTable | Monitor/src/monitor.c:78-214 | the switch read the other way round: which numbers have which executor |
| Checks.RegistersNeeded | Monitor/src/sys/pread64.c:10-20 | for any two calls, an executor's comparison succeeds only if the registers listed for the number agree |
| Checks.ArgumentsIff | Monitor/src/sys/bind.c:10-32 | where the words read are mapped, the comparison succeeds exactly when the registers agree and so do the bytes: bind's address, poll's array, newfstatat's path |
| Checks.PolicyIff | Monitor/src/sys/munmap.c:24-33 | on a table of zero lengths the policy allows a munmap exactly if its address is a listed base, a mprotect exactly if the first entry there, if any, lets it, an mmap exactly if its own flags let it |
| Checks.OthersRefused | Monitor/src/monitor.c:205-214 | a number without an executor passes no check |
| Checks.StandInIs | Monitor/src/variant.c:186-211 | what the replica's kernel runs: its own close, an lseek for read, getpid for the others |
| Checks.ToldIs | Monitor/src/variant.c:170-175 | what the replica is told: the whole result for read, pread64, getrandom and poll, the low half otherwise |
| Checks.CountedIs | Monitor/src/sys/getrandom.c:47-48 | every completed call counts but getrandom |
| Lockstep.InvPhases | Monitor/src/monitor.c:224-261 | numbers differ by at most one; which phases equal and one-ahead numbers allow; WAIT means stopped at entry with its entry info |
| Lockstep.SomeEnabled | Monitor/src/monitor.c:302-306 | some variant is running, so waitpid will report one |
| Lockstep.InvalidIff | Monitor/src/monitor.c:224-266 | for any two records, a stop is invalid exactly when it is neither entry nor exit, or the entry of a call the partner has passed |
| Lockstep.SynchronisesIff | Monitor/src/monitor.c:224-235 | for any two records, the pair is synchronised exactly at an entry with the number at which the partner waits |
| Lockstep.DifferentStopsKill | Monitor/src/monitor.c:58-61 | two stops of different kinds kill both as they are |
| Lockstep.ExitEvent | Monitor/src/monitor.c:259-261 | an exit stop tells the program its result and advances the number |
| Lockstep.EntryEvent | Monitor/src/monitor.c:244-253 | an entry whose partner has not arrived only makes the variant wait |
| Lockstep.ArrivalEvent | Monitor/src/monitor.c:226-235 | an entry whose partner waits hands exactly the two pending requests to processSyscallSync |
| Lockstep.StepKeepsInv | Monitor/src/monitor.c:218-268 | every event keeps the invariant, is never invalid, and lowers the rank by one unless it completes the pair, which is exactly when the rank was one |
| Ledger.StepKeepsBooks | Monitor/src/monitor.c:218-268 | every event keeps the ledger of paired requests, kernel calls and results |
| Ledger.StepKeepsAnswers | Monitor/src/monitor.c:218-268 | every event keeps each result in the replica's ledger its kernel's own answer |
| Runs.NoInvalidStateNoDeadlock | Monitor/src/monitor.c:244-266 | no run from the start reaches "Invalid State", and every live state can go on |
| Runs.AgreementBeforeExecution | Monitor/src/monitor.c:56-215 | synchronisation k compared the k-th requests, they agreed and the mapping policy allowed them; master's kernel was entered with its own call, the replica's with its own or, by number, the stand-in; the histories differ by at most one call |
| Runs.ExactlyOnce | Monitor/src/variant.c:165-201 | call number by call number: master's kernel ran exactly master's call; the replica's ran its own for the calls both run and for close, an lseek on master's file by what master read for read, getpid for the others; the replica was told its own result, or master's whole, or its low half |
| Runs.RefusalIsInTime | Monitor/src/monitor.c:235-240 | variants killed for diverging have not entered the kernel with the diverging call, except in fadvise64 and rseq |
| Runs.KilledInTime | Monitor/src/monitor.c:235-240 | in a killed run every compared call but the last agreed, was allowed, and is what the kernels were entered with; the last was entered at most once, and not at all if it was refused, except in fadvise64 and rseq |
| Runs.RankCounts | Monitor/src/monitor.c:302-331 | fewer events than the rank synchronise nothing, as many synchronise exactly once or end the run |
| Runs.FourEventsSync | Monitor/src/monitor.c:302-331 | any four handled events contain a synchronised call or end the run |
| Confluence.SyncForgets | Monitor/src/monitor.c:231-235 | processSyscallSync does the same whichever variant was waiting |
| Confluence.StepInRound | Monitor/src/monitor.c:218-268 | an event either leaves the round's outcome unchanged or is the round's outcome |
| Confluence.RunInRounds | Monitor/src/monitor.c:302-331 | after any schedule the loop stands inside the sequential machine's next round, with the same log |
| Confluence.RankLongRunsAgree | Monitor/src/monitor.c:302-331 | all schedules as long as the rank end in the state of one sequential round |
| Confluence.RoundsAreReached | Monitor/src/monitor.c:302-331 | every state of the sequential machine is reached by the event loop under some schedule |
| Confluence.SameLogForEqualLengths | Monitor/src/monitor.c:302-331 | schedules with equally many events have synchronised the same calls, and if one kills the variants all do, having run the same calls |
| Confluence.FinishedRunsAgree | Monitor/src/monitor.c:302-331 | any two schedules that run to the end, of whatever lengths, end in the same status |
| Reordering.Diamond | Monitor/src/monitor.c:309-324 | when both variants can step, the two orders reach the same state |
| Reordering.SameCountsSameState | Monitor/src/monitor.c:302-331 | schedules with equally many events of each variant reach the same state |
| Reordering.SameStateIff | Monitor/src/monitor.c:302-331 | schedules that keep the run alive reach the same state exactly when they have equally many events of each variant |
| Witnesses.EqualLengthsMayDiffer | Monitor/src/monitor.c:302-331 | equal lengths alone do not do: two runs from the start, of two programs that call brk, end with different variants waiting |
| Native.ExecuteMaster | Monitor/src/variant.c:167-177 | a successful executor only resumes master, once or through the whole call |
| Native.MasterRunsNatively | Monitor/src/monitor.c:302-331 | in every reachable live state master is in exactly the state of its unmonitored run against the same kernel answers, whose history is its program's conversation with its kernel |
| Native.TracedLives | Monitor/src/variant.c:142-159 | a process that is merely resumed at its stops asks what its program asks and is told what its kernel answers |
| Transparency.CopiesAgreeIff | Monitor/src/sys/bind.c:10-27 | the checks accept two copies of one call, at addresses that may differ, exactly when its arguments fit |
| Transparency.CountFits | Monitor/src/sys/read.c:37-45 | a byte count can be handed over exactly when it is from 0 to 10,000,000, or -1 in read and getrandom |
| Transparency.TwinsGoAheadIff | Monitor/src/monitor.c:80-214 | the executor succeeds on two copies of one call exactly when the arguments fit and, unless both run it alone, master's call returns, its data fits and the replica's part returns; nothing is asked of the kernels |
| Transparency.DeliveredOut | Monitor/src/sys/read.c:37-46 | a deliverable out-buffer reads the same in both variants |
| Transparency.OutBuffersAgree | Monitor/src/sys/poll.c:41-44 | after poll and newfstatat the replica's buffer holds master's bytes and the rest of its memory is untouched |
| Transparency.NarrowFits | Monitor/src/variant.c:170-175 | the replica is told master's very result exactly when no int cast is involved or the result fits one |
| Dispatch.ComparedCallsAgree | Monitor/src/monitor.c:56-215 | over runs: every call that went ahead had agreeing registers and bytes, and the table of its time allowed it |
| Dispatch.KilledCallsAgree | Monitor/src/monitor.c:235-240 | in a killed run so did every call but the last; if the last did not, nothing of it ran, except in fadvise64 and rseq |
| Dispatch.GoesAheadIff | Monitor/src/monitor.c:80-214 | for any two calls with the same number the executor succeeds exactly when registers, bytes and table agree and the call runs to its end |
| Dispatch.ArrivalGoesAheadIff | Monitor/src/monitor.c:226-240 | the event that completes a pair goes ahead exactly then, and otherwise kills both |
| Dispatch.MunmapGoesAheadIff | Monitor/src/sys/munmap.c:16-44 | a munmap goes ahead exactly when the lengths agree and its address is a base still listed, whose first entry is then gone |
| Dispatch.OtherwiseKilled | Monitor/src/monitor.c:62-70 | calls that differ, or have no executor, kill both with nothing of them run, except in fadvise64 and rseq |
| Dispatch.GoesAheadAs | Monitor/src/variant.c:165-201 | by number: who is let into the kernel with what, who completes, which numbers advance, who is told what |
| Dispatch.DataHandedOver | Monitor/src/sys/pread64.c:27-45 | by number: the replica's out-buffer gets master's bytes, and nothing else of its memory changes |
| Dispatch.NumbersCountCalls | Monitor/src/variant.c:153-159 | in every reachable live state syscallNum is the number of completed calls other than getrandom |
| Transparency.TwinsAreBehind | Monitor/src/monitor.c:226-235 | at every synchronisation the copies have the same history, and behind them master's own conversation with its kernel and the replica's stand-ins with theirs |
| Transparency.CopiesRunTransparently | Monitor/src/variant.c:165-201 | under any schedule the histories of two copies are prefixes of each other within one call, and equal with the calls in flight when one exits; master runs natively; a kill happens only at a call of master's unmonitored run that is not let through |
| Transparency.CopiesKilledIff | Monitor/src/monitor.c:235-240 | two copies are killed under some schedule exactly when master's unmonitored run comes to a call that is not let through |
| FileWitnesses.FailedReadKills | Monitor/src/sys/read.c:37-45 | a run from the start in which two copies are killed, for every result of read below -1 or over 10,000,000 |
| FileWitnesses.ReadersAndSeekersExist | Monitor/src/sys/read.c:9-70 | a world meeting the hypotheses of transparency and of equal positions together: both copies read and seek for ever, on kernels that keep file positions |
| Offsets.ReadKeepsPositionsIff | Monitor/src/sys/read.c:37-57 | after one read the positions agree exactly when the result is not -1 or the position was 0 |
| Offsets.ReadMovesAlike | Monitor/src/sys/read.c:29-67 | a read that goes ahead moves both positions alike |
| Offsets.SeekMovesAlike | Monitor/src/sys/lseek.c:9-22 | an lseek both run sets both positions alike |
| Offsets.PositionsAgree | Monitor/src/sys/read.c:29-67 | whenever neither variant is in the kernel, positions agree in a regular file each variant opened for itself, under every schedule, whatever else is open |
| Offsets.InheritedReadIff | Monitor/src/sys/read.c:48-58 | on a file inherited by both, a read of n bytes that goes ahead leaves the one position n too far, so it is right exactly when n is 0 |
| Offsets.InheritedSeekIff | Monitor/src/sys/lseek.c:18-20 | on such a file an lseek both run is right exactly when the second one fails, is not relative, or goes nowhere |
| Policy.SyncTable | Monitor/src/sys/mmap.c:36-49 | how a synchronised call changes the table, and what the policy had allowed |
| Policy.TableStaysSafe | Monitor/src/security_manager.c:7-15 | no reachable table has an entry that is writable without MAP_PRIVATE |
| Policy.UnmapRemovesFound | Monitor/src/sys/munmap.c:24-33 | in every such table munmap removes the entry it found |
| Policy.TablesFollowTheCalls | Monitor/src/mappings.c:13-70 | in every reachable live state the table is what the synchronised calls and master's results made of the empty one, and each call was allowed by the table its predecessors left |
| AddressSpace.AsksOnlyAtBases | Monitor/src/sys/mprotect.c:25-31 | with lengths 0 the lookup finds something at exactly the recorded bases, and everywhere else any protection passes |
| AddressSpace.SharedAsAsked | Monitor/src/security_manager.c:7-15 | for mappings the kernel shares, the policy's question is the right one except for type MAP_SHARED_VALIDATE |
| AddressSpace.ProtectSafeIff | Monitor/src/sys/mprotect.c:25-31 | an mprotect that passes the check keeps a safe address space safe exactly when it grants no write access or touches shared memory only from a MAP_SHARED mapping's base |
| AddressSpace.MappedSafeIff | Monitor/src/security_manager.c:7-15 | the same for every call the policy let through: also no writable mmap of type MAP_SHARED_VALIDATE |
| AddressSpace.PolicySoundIff | Monitor/src/sys/mprotect.c:25-31 | for any table, the check is right about whole mappings exactly when the table reports every live mapping the kernel shares by flags the policy takes for shared |
| AddressSpace.MapKeepsStep | Monitor/src/sys/mmap.c:36-49 | an mmap at free addresses, or a failed one, keeps the table in step with the address space |
| AddressSpace.UnmapKeepsStep | Monitor/src/sys/munmap.c:24-33 | a munmap of a whole mapping, or a failed one elsewhere, keeps the table in step |
| Policy.NothingSharedIsWritableIff | Monitor/src/sys/mprotect.c:25-31 | over all runs the table is safe; with new and whole mappings it lists exactly the live ones, and the address space has always been safe exactly when write access to shared memory was only asked for where the policy sees it |
| Policy.ReplicaSafeIff | Monitor/src/sys/mprotect.c:12-20 | the replica's memory has always been safe exactly when it never asked for write access to shared memory |
| Witnesses.SharedValidateBreaks | Monitor/src/security_manager.c:7-15 | a run from the start in which one mmap of type MAP_SHARED_VALIDATE makes a shared page writable |
| Witnesses.ReplicaAloneBreaks | Monitor/src/sys/mprotect.c:12-20 | a run from the start in which the replica's shared page becomes writable while master's memory stays safe |
| Witnesses.InteriorMprotectBreaks | Monitor/src/sys/mprotect.c:25-31 | a run from the start with new and whole mappings in which an mprotect inside a shared mapping makes it writable |
| Witnesses.StaleEntryMisleads | Monitor/src/sys/mprotect.c:25-31 | a run from the start in which a stale private entry lets the shared mapping in its place become writable, from its very base |
| Witnesses.UnmappingGoesOn | Monitor/src/sys/munmap.c:24-44 | a run from the start that maps a shared page and unmaps it, and goes on with the table empty |
| MonitorLoop.Monitor.constructor | Monitor/src/monitor.c:292-300 | both variants resumed at number 0, the table empty |
| MonitorLoop.Monitor.RunMasterReplicateRet | Monitor/src/variant.c:165-181 | leaves exactly the specified pair; 0 exactly when both calls returned |
| MonitorLoop.Monitor.RunBothCopyMasterRet | Monitor/src/variant.c:186-201 | the same for the form in which the replica makes its own call |
| MonitorLoop.Monitor.ExecResume | Monitor/src/sys/lseek.c:4-28 | check the listed arguments, then resume both, or -1 with nothing changed |
| MonitorLoop.Monitor.ExecResumeUnchecked | Monitor/src/sys/rseq.c:4-27 | both are resumed whatever the verdict |
| MonitorLoop.Monitor.ExecReplicate | Monitor/src/sys/fchmod.c:3-21 | the listed arguments agree and the call runs in master alone, or -1 with nothing run |
| MonitorLoop.Monitor.ExecCopyRet | Monitor/src/sys/close.c:3-20 | the same with the call run in both |
| MonitorLoop.Monitor.ExecBind | Monitor/src/sys/bind.c:5-34 | compares descriptor, length and address bytes, then runs in master alone |
| MonitorLoop.Monitor.ExecRead | Monitor/src/sys/read.c:9-70 | leaves exactly the specified pair, buffer and verdict |
| MonitorLoop.Monitor.ExecPread64 | Monitor/src/sys/pread64.c:5-50 | leaves exactly the specified pair, buffer and verdict |
| MonitorLoop.Monitor.ExecGetrandom | Monitor/src/sys/getrandom.c:4-56 | leaves exactly the specified pair, buffer and verdict |
| MonitorLoop.Monitor.ExecPoll | Monitor/src/sys/poll.c:4-53 | leaves exactly the specified pair, buffer and verdict |
| MonitorLoop.Monitor.ExecNewfstatat | Monitor/src/sys/newfstatat.c:13-83 | leaves exactly the specified pair, buffer and verdict |
| MonitorLoop.Monitor.ExecMmap | Monitor/src/sys/mmap.c:8-54 | leaves exactly the specified pair, table and verdict |
| MonitorLoop.Monitor.ExecMunmap | Monitor/src/sys/munmap.c:6-44 | leaves exactly the specified pair, table and verdict |
| MonitorLoop.Monitor.ExecMprotect | Monitor/src/sys/mprotect.c:5-42 | leaves exactly the specified pair and verdict; the table is only consulted |
| MonitorLoop.Monitor.ProcessSyscallSync | Monitor/src/monitor.c:56-215 | carries out the synchronisation step of the state machine |
| MonitorLoop.Monitor.ProcessVariantEvent | Monitor/src/monitor.c:218-268 | carries out the event step of the state machine |
| MonitorLoop.Monitor.EventLoop | Monitor/src/monitor.c:302-331 | whatever variants are reported, ends as the state machine's run does |

## Left out

- CopiesRunTransparently: asks that copied data sizes be below 8 or multiples of 8 and lie in mapped words, that results of the int-cast calls fit an int, and that calls both kernels run get equal answers, because elsewhere the code does not deliver what master got (WriteFaithfulIff, NarrowFits); brk under address randomisation is such a call.
- Transparency of mmap, munmap and mprotect: their addresses differ between the variants, and histories are compared for equality, not up to a renaming of addresses.
- PositionsAgree: asks that read never return -1 and that file sizes do not change; with -1 the claim is false (ReadKeepsPositionsIff). Each variant must have opened the file for itself, and openat is not part of this model; for files inherited by both see InheritedReadIff.
- NothingSharedIsWritableIff: the address space is master's; where mmap replaces mappings, munmap takes parts of them, or a refused mprotect or mmap has already changed something, only the safety of the table is claimed (StaleEntryMisleads shows why).
- MasterRunsNatively: the replica is not covered by it, because its calls are replaced on purpose; and each variant's kernel is its own, so what the replica's calls do to files both variants inherited is not seen by it (InheritedReadIff says what a read does).
- The executors of write, openat, access, unlink, utimensat, chdir, getcwd, setsockopt, rt_sigprocmask, set_tid_address, accept4, getsockname, shutdown and pselect6: a run that meets one ends in the status OutOfModel, about which nothing is claimed. Those that compare paths inherit what VariantStrCmp is proved to do; set_tid_address, accept4 and getsockname read whole words into four-byte locals; write rewrites the wrong variant's call; shutdown leaves a stale WAIT and pselect6 waits for a variant it never resumed.
- Kernel effects across variants: each variant's kernel answers from that variant's own calls, so results that depend on how the two interleave are not modelled.
- Registers other than the result: read rewrites rdi, rsi and rdx in the replica and does not restore them, so its program goes on with other values there than master's; the model's programs see only results and out-buffers.
- Signals, signal-delivery stops, fork and exec, CPU affinity, capabilities and debug output.
- Direct transfer and the process_vm_readv/writev tails, which the shown options do not compile.
- Unmapped memory is modelled word by word (a failed peek reads as -1, a failed poke does nothing); a poke that fails half way across a page is not.
- What lies past the transfer buffer when the misfetched tail word is out of its bounds: arbitrary bytes (`World.beyond`).
- The wrap-around of `syscallNum` after 2^64 calls.
- The ptrace return codes the monitor ignores, and the exit codes and messages of the monitor process.
