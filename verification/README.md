# Verified models of process, credential and limit code

Dafny models of the state-changing parts of this kernel tree: the process tree and the subreaper
flag, process groups and sessions, fork and its relatives, credentials, resource limits, the
memory-limit registry, and a few loops that do 64-bit arithmetic or fill buffers. `dafny verify
dfyconfig.toml` checks everything.

| file | models |
|---|---|
| `Common.dfy`, `Errno.dfy`, `RefCounts.dfy` | sequences without repetitions; error numbers; counters that count their holders |
| `ProcessTree.dfy` | `walk_process_tree` against the recursive preorder walk |
| `Subreaper.dfy` | `PR_SET_CHILD_SUBREAPER` against forks and other walks, step by step |
| `ProcessGroups.dfy` | `setpgid`, `setsid`, fork and exit |
| `CopyProcess.dfy` | `copy_process` with its clean-up ladder |
| `DupMmap.dfy` | `dup_mmap` with its error labels and failure marker |
| `StackCache.dfy` | kernel stacks between tasks, the per-CPU cache and delayed free |
| `Unshare.dfy` | `ksys_unshare` among tasks that clone, exit and unshare |
| `Credentials.dfy` | the set*uid and set*gid families |
| `Rlimits.dfy` | `do_prlimit` and inheritance of limits |
| `MemoryLimits.dfy` | the registry of `syscall3.c` and its linked list |
| `Sysinfo.dfy` | `do_sysinfo` and its 32-bit counterpart |
| `CopyRange.dfy` | the checks of `vfs_copy_file_range` |
| `VectoredIo.dfy` | `do_loop_readv_writev` |
| `TextWords.dfy`, `CommandLine.dfy` | words of a text; the boot command line |
| `InitArgs.dfy`, `InitRuns.dfy` | what is handed to init, option by option and over whole command lines |

How the models are made:

- Code that updates fields or buffers is a class or an array with methods; each method's
  postcondition ties the new state to a function of the old one, and the lemmas are about that function.
- Code that runs concurrently is a state machine whose steps are the stretches of code that are atomic
  in C (under a lock, or one atomic operation). A run is any sequence of enabled steps.
- Allocators, security hooks, capability checks and other code outside these files are parameters (the
  `Env` datatypes), so every statement holds for all their answers.
- Goto ladders keep their labels as labelled blocks.

What the proofs found:

- `propagate_has_child_subreaper` runs under a read lock, so several walks may be in the tree at the same
  time. Pruning is still right: at any moment, a child without the flag below a flagged process is on the
  agenda of some walk or below a walk that has not begun (`Subreaper.RunKeeps`).
- "All members of a group share a session" is not kept by single steps (`BarePropertyIsNotInductive`); it
  needs that a group is in the session of the process it is named after.
- Without the capability, the ids a process can reach are exactly the arrangements of its real,
  effective and saved ids with a filesystem id among them, plus standing still (`ReachIsExact`).
- Registry and `RLIMIT_AS` agree after a call exactly if all registered tasks of the same thread group
  are recorded with the new limit (`AgreementIsExact`); two threads of one process show the other case
  (`ThreadsDisagree`). A limit stays set when the node cannot be allocated. Removal leaves 110 MiB, although
  the code's variable is named "unlimited". An entry whose task has exited stays for good
  (`StaleEntriesStay`).
- The `if` at `Kernel/kernel/fase3/syscall3.c:99` lacks its closing brace; the model has it where
  `Documentacion_fase3/README.md:224-226` has it.
- `do_sysinfo` keeps counter times unit exactly for powers of two; for another unit only of zero counters
  (`ScalingIsExact`).
- A finite `RLIMIT_FSIZE` of 2^63 or more is read as a negative number, and every copy is refused although
  the limit allows it (`VfsCopyFileRange`, `HugeLimitRefuses`).
- `do_loop_readv_writev` hands whole segments to the file operation. Taken alone, it keeps to the iterator's
  count for every operation exactly if count ends where a segment ends (`KeepsToCountExactly`). Its callers
  pass iterators straight from `import_iovec`, whose count is the whole vector, and then nothing can exceed
  it (`WholeVectorIsKeptTo`).
- The splice of bootconfig init arguments says what is intended exactly if the boot command line does not
  end in the bare `--` and no bootconfig text leaves a double quote open, which a value with an odd number of
  them does (`SpliceIsAsIntended`, `EndsInDashes`, `OpenQuoteTakesIn`).
- `static_command_line` is sized by the boot command line; the copy into it stays inside exactly if the
  parsed command line is no longer (`SetupCommandLine`).
- `init=` clears the argument slots below the last one only. Once that slot has been reached, the arguments
  behind a later `init=` arrive alone exactly if they are at most two less than there are slots
  (`InitForgets`, `OldArgumentReturns`).
- `unknown_bootoption` sets `panic_later` when the scan passes the last counted slot, also when the
  variable to be replaced is found in that very slot (`ReplacingPanics`).

## Model

| member | source | states |
|---|---|---|
| `ProcessTree.WalkProcessTree` | Kernel/kernel/fork.c:3211-3241 | for every task graph and visitor, the stackless goto walk makes the calls of the recursive preorder walk, in its order and with its result and early stop; no process is visited twice; it terminates |
| `ProcessTree.PreorderVisit` | Kernel/kernel/fork.c:3211-3241 | the recursive walk is one visit followed by the walk over the agenda that visit leaves: children first if the visitor is positive |
| `ProcessTree.TodoDown` | Kernel/kernel/fork.c:3217-3220 | entering a process puts all its children before what was outstanding |
| `ProcessTree.TodoNextThread` | Kernel/kernel/fork.c:3219-3231 | going on to the next thread of the group leaves the outstanding processes as they are |
| `ProcessTree.TodoUp` | Kernel/kernel/fork.c:3233-3238 | climbing through real_parent into the middle of the inner loop leaves the outstanding processes as they are |
| `ProcessTree.CallsBound` | Kernel/kernel/fork.c:3211-3241 | with calls and agenda together free of repetitions there are no more calls than tasks |
| `Subreaper.SubreaperFlags.SetChildSubreaper` | Kernel/kernel/sys.c:2639-2645 | the flag and the walk, run alone: flags only grow, only below the caller, never on a namespace reaper, and a closed tree stays closed |
| `Subreaper.PropagateGrows` | Kernel/kernel/sys.c:2334-2350 | the pruning walk is never cut short, takes no flag away, flags no reaper, and flags only what hangs off its agenda |
| `Subreaper.PropagateCloses` | Kernel/kernel/sys.c:2334-2350 | a walk whose agenda covers all open edges leaves none |
| `Subreaper.InterleavedWalk` | Kernel/kernel/sys.c:2334-2350 | whatever other walks and flag writers do in between, the visits of a walk are exactly the calls of the recursive walk, hence of walk_process_tree, with a visitor that finds the flags as the others left them |
| `Subreaper.EndForkKeeps` | Kernel/kernel/fork.c:2675-2693 | a fork that reads its parent's flags, with the flag written meanwhile, keeps the invariant that nobody who should be flagged is missed; `FlaggedForAReason` is the other direction |
| `Subreaper.RunKeeps` | Kernel/kernel/sys.c:2639-2645 | every run of flag writes, interleaved walks, two-step forks and new threads keeps the invariant: open edges are on some walk's agenda or below a pending walk |
| `Subreaper.ClosedWhenQuiet` | Kernel/kernel/sys.c:2639-2645 | in every run, when no walk is pending or under way, each child of a process with either flag is flagged or a namespace reaper |
| `Subreaper.DescendantsFlagged` | Kernel/kernel/sys.c:2336-2346 | in a closed tree all descendants of a flagged process, up to namespace reapers, are flagged, so pruning misses nobody |
| `Subreaper.FlaggedForAReason` | Kernel/kernel/fork.c:2691-2692 | in every run each flagged process has a proper ancestor that made itself a subreaper in the run, whatever walks and forks did |
| `Subreaper.NobodyFlagged` | Kernel/kernel/fork.c:2686-2692 | in a run in which no process becomes a subreaper nobody is ever flagged |
| `Subreaper.SubreapersAsLastSaid` | Kernel/kernel/sys.c:2639-2645 | in every run a process is a subreaper exactly if its last prctl said so |
| `ProcessGroups.ProcessTable.SetPgid` | Kernel/kernel/sys.c:1118-1187 | succeeds exactly if the standard's conditions hold, with EINVAL, ESRCH and EACCES each characterised; then the target is in the group asked for, with its session and leadership as before, and no other process changes; fails without effect; keeps the invariant |
| `ProcessGroups.ProcessTable.SetSid` | Kernel/kernel/sys.c:1270-1301 | succeeds exactly if the caller leads neither a session nor a group of its number; then session and group are the caller's pid, it leads, it is alone in both, and no other process changes |
| `ProcessGroups.SetpgidKeepsSound` | Kernel/kernel/sys.c:1118-1187 | setpgid keeps the strengthened invariant |
| `ProcessGroups.SetsidKeepsSound` | Kernel/kernel/sys.c:1259-1301 | setsid keeps it |
| `ProcessGroups.ForkKeepsSound` | Kernel/kernel/fork.c:2675-2698 | fork keeps it |
| `ProcessGroups.ForkJoins` | Kernel/kernel/fork.c:2675-2698 | a child joins group and session of the process that forks, leads neither, hangs under its parent, and nobody else changes |
| `ProcessGroups.ExecPinsGroup` | Kernel/kernel/sys.c:1145-1154 | after an exec a parent may not move the process any more |
| `ProcessGroups.ThreadBelongs` | Kernel/kernel/sys.c:1138-1145 | a new thread belongs to its process, and setpgid never takes its number for a process |
| `ProcessGroups.GroupsStayInsideSessions` | Kernel/kernel/sys.c:1118-1187 | in every run of fork, setpgid, setsid, exec and exit all members of a process group share one session |
| `ProcessGroups.SessionHistory` | Kernel/kernel/sys.c:1259-1301 | over any run a living process changes session only by founding its own, and a leader keeps session, group and leadership |
| `ProcessGroups.BarePropertyIsNotInductive` | Kernel/kernel/sys.c:1162-1177 | a concrete table shows that the bare property is not preserved by setpgid alone |
| `CopyProcess.DupTaskStruct` | Kernel/kernel/fork.c:1100-1205 | a task with stack, accounting and shadow stack, or nothing |
| `CopyProcess.CopyFiles` | Kernel/kernel/fork.c:1769-1800 | the table is shared with one more user, copied, absent, or nothing changed |
| `CopyProcess.CopyFs` | Kernel/kernel/fork.c:1748-1767 | the same of the fs structure: without the flag a copy, with it the caller's own with one more user, refused while that is in exec |
| `CopyProcess.CopySighand` | Kernel/kernel/fork.c:1802-1825 | the same of the signal handlers |
| `CopyProcess.CopyMm` | Kernel/kernel/fork.c:1710-1746 | the same of the address space |
| `CopyProcess.ShareStructures` | Kernel/kernel/fork.c:2488-2766 | the five structures are taken together, or on any failure none, each given back once |
| `CopyProcess.AttachSubsystems` | Kernel/kernel/fork.c:2470-2774 | perf, audit, security and semaphore state on top of that, with their labels |
| `CopyProcess.LinkChild` | Kernel/kernel/fork.c:2503-2752 | namespaces, io, thread state, pid, pidfd and the two locks, with their labels |
| `CopyProcess.CopyProcess` | Kernel/kernel/fork.c:2243-2795 | for all flags and every failure point: the error is that of the first failing step, and on failure every holding, counter, lock and list node is as before; on success exactly the child's holdings are added |
| `CopyProcess.ChildInStep` | Kernel/kernel/fork.c:2243-2795 | with the child added, every counter again equals what it counts: users of fs, files, handlers and mm, the three thread counters of each signal_struct, nr_threads and process_counts |
| `CopyProcess.ChildSharesOrOwns` | Kernel/kernel/fork.c:1710-1825 | what the flags mean: a child has its parent's fs, files, handlers and mm where the flag asks for sharing, and elsewhere one that no other task points at |
| `CopyProcess.SucceedsExactly` | Kernel/kernel/fork.c:2243-2795 | a fork succeeds if and only if the flags go together, nothing is pending and each step that these flags need works |
| `CopyProcess.ForkTask` | Kernel/kernel/fork.c:2243-2795 | a fork on values: verdict, child, counters in step, flags as meant; on failure everything as before |
| `CopyProcess.Kernel.Fork` | Kernel/kernel/fork.c:2243-2795 | over a table of tasks: fork keeps all those counters in step, its child shares what the flags say and owns the rest alone, other tasks keep what they have, and a failed fork changes nothing at all |
| `DupMmap.ChildMm.DupArea` | Kernel/kernel/fork.c:682-791 | one area is installed with its charges, or all three labels give back what was taken |
| `DupMmap.ChildMm.NextArea` | Kernel/kernel/fork.c:669-756 | one area: skipped ones are cleared and taken off the statistics, others copied; one that is installed stays so even if copying its pages fails |
| `DupMmap.ChildMm.DupAreas` | Kernel/kernel/fork.c:669-791 | the loop: the error is that of the first area that fails, and what was dealt with, charged and counted is that of the areas before it |
| `DupMmap.ChildMm.DupMmap` | Kernel/kernel/fork.c:629-792 | on every exit nothing of the parent's is left before the marker, map_count counts the installed areas, charged pages are those of installed VM_ACCOUNT areas; on success total_vm and its parts are the plain sums of pages of the copied areas, if the parent's were those of all areas |
| `DupMmap.SizesCountPages` | Kernel/kernel/fork.c:669-681 | the running statistics are the sums of pages, in all and of each kind |
| `DupMmap.AreaSucceeds` | Kernel/kernel/fork.c:674-756 | one area goes through if and only if it is skipped and can be cleared, or nothing it needs is missing |
| `DupMmap.MarkerSeparates` | Kernel/kernel/fork.c:760-774 | everything before the marker, or everywhere without one, is the child's or cleared |
| `DupMmap.TeardownSettles` | Kernel/kernel/fork.c:760-774 | tearing the child's tree down as far as the marker undoes the charges of a failed copy |
| `StackCache.CompareExchangeKeeps` | Kernel/kernel/fork.c:204-214 | trying a cache slot keeps the invariant, whether it is free or not |
| `StackCache.CallRcuKeeps` | Kernel/kernel/fork.c:226-232 | queueing a stack for delayed free, which overwrites its memory, keeps it |
| `StackCache.VfreeKeeps` | Kernel/kernel/fork.c:216-224 | freeing in the callback keeps it |
| `StackCache.ChargePageKeeps` | Kernel/kernel/fork.c:252-266 | charging one page, or turning to the roll-back, keeps it |
| `StackCache.UnchargePageKeeps` | Kernel/kernel/fork.c:266-271 | uncharging one page of a failed charge keeps it |
| `StackCache.MemsetKeeps` | Kernel/kernel/fork.c:284-300 | clearing a stack from the cache keeps it |
| `StackCache.TakeStepKeeps` | Kernel/kernel/fork.c:273-300 | taking a stack out of a slot keeps it |
| `StackCache.HotplugStepKeeps` | Kernel/kernel/fork.c:234-250 | emptying the slots of a CPU that goes offline keeps it |
| `StackCache.PutsToFreeSlot` | Kernel/kernel/fork.c:204-214 | a stack put to a free slot is there; a taken slot is left alone and the next one tried |
| `StackCache.TakesCached` | Kernel/kernel/fork.c:284-300 | a cached stack leaves its slot for the caller, and a new one is made only behind the last slot |
| `StackCache.FlushEmpties` | Kernel/kernel/fork.c:234-250 | a slot of a CPU that goes offline is empty afterwards and its stack is freed |
| `StackCache.RunKeeps` | Kernel/kernel/fork.c:196-341 | every interleaving keeps it |
| `StackCache.ExactlyOnePlace` | Kernel/kernel/fork.c:196-341 | in every interleaving each allocated stack is pointed at from exactly one slot, task, callback or local variable, and nothing points at a freed one |
| `StackCache.ChargedOnlyForTasks` | Kernel/kernel/fork.c:553-573 | pages are charged only for a task that has not exited or an allocation under way, and fully for such a task |
| `StackCache.HandOver` | Kernel/kernel/fork.c:273-332 | a stack given to a task is all zero and fully charged; one given up after a failed charge carries no charge |
| `StackCache.MemcgChargeKernelStack` | Kernel/kernel/fork.c:252-271 | charges every page once, or fails with one of the answers and every page as before |
| `Unshare.CloseFlags` | Kernel/kernel/fork.c:3391-3411 | the four tests in one pass give the least superset closed under all implications |
| `Unshare.CheckUnshareFlags` | Kernel/kernel/fork.c:3304-3332 | on closed flags: accepted exactly if known, and each of thread, handlers and memory flag meets its own condition |
| `Unshare.SwapLast` | Kernel/kernel/fork.c:3461-3471 | if everybody else dropped the fs structure before the swap, the old one is left to the caller alone, without users |
| `Unshare.SwapShared` | Kernel/kernel/fork.c:3461-3471 | otherwise the caller leaves it to the others |
| `Unshare.UnshareFsKeeps` | Kernel/kernel/fork.c:3337-3353 | the copy, its failure, or no copy for a sole user keeps counters and holders in step |
| `Unshare.UnshareFdKeeps` | Kernel/kernel/fork.c:3358-3372 | the same of the descriptor table |
| `Unshare.CopiesOnlyShared` | Kernel/kernel/fork.c:3337-3372 | a structure is copied only if it is to be unshared and another pointer to it exists |
| `Unshare.CloneKeeps` | Kernel/kernel/fork.c:1748-1800 | copy_files or copy_fs for a new task, sharing or copying, keeps them in step |
| `Unshare.RunKeeps` | Kernel/kernel/fork.c:3382-3499 | every interleaving of unshare calls on all their exit paths with clones and exits keeps them in step |
| `Unshare.CountsAreTasks` | Kernel/kernel/fork.c:3382-3499 | after any run, with no call under way, each counter is the number of tasks using the structure, and unused structures are gone |
| `Unshare.FreedOnceAtZero` | Kernel/kernel/fork.c:3489-3495 | in every reachable state no pointer dangles, and a structure is freed by exactly the step that takes its last pointer away |
| `Unshare.SuccessMeansOwn` | Kernel/kernel/fork.c:3382-3499 | whatever others did meanwhile, a successful unshare leaves the caller the sole holder of what it asked for |
| `Unshare.Tasks.KsysUnshare` | Kernel/kernel/fork.c:3382-3499 | the call with its labels and any steps of other tasks between its own: EINVAL exactly on flags that are not permitted, success if they are and nothing fails, else the error of what failed; counters and holders stay in step, success means sole holder, failure leaves the caller's structures alone |
| `Unshare.Tasks.CopyFs` | Kernel/kernel/fork.c:3337-3353 | unshare_fs by one task keeps the invariant and the task's structures, and fails only for lack of memory |
| `Unshare.Tasks.CopyFd` | Kernel/kernel/fork.c:3358-3372 | the same of unshare_fd |
| `Unshare.FailureChangesNothing` | Kernel/kernel/fork.c:3485-3499 | a call that fails at any point leaves the caller with the structures it had |
| `Unshare.SwapKeeps` | Kernel/kernel/fork.c:3455-3476 | the swap of both structures keeps the invariant |
| `Unshare.FailedForkLeavesNothing` | Kernel/kernel/fork.c:2763-2766 | a fork that fails behind copy_files and copy_fs, with any steps of other tasks between the two and before its exit_fs and exit_files, keeps counters and holders in step and leaves no pointer of the child |
| `Unshare.FailedCopyFsLeavesNothing` | Kernel/kernel/fork.c:2488-2493 | the same of a fork whose copy_fs fails behind copy_files |
| `Credentials.TaskIds.SetReId` | Kernel/kernel/sys.c:574-653 | result and new ids, the saved one included, for all arguments, mappings and answers; a failure changes nothing |
| `Credentials.TaskIds.SetId` | Kernel/kernel/sys.c:655-705 | the same of setuid and setgid |
| `Credentials.TaskIds.SetResId` | Kernel/kernel/sys.c:712-785 | the same of setresuid and setresgid, early return included |
| `Credentials.TaskIds.SetFsId` | Kernel/kernel/sys.c:908-986 | returns the old filesystem id; changes it exactly if permitted |
| `Credentials.SetReSets` | Kernel/kernel/sys.c:574-653 | setreuid sets real and effective id as asked, and the saved id to the new effective one unless the real id is not set and the effective one not moved away from it |
| `Credentials.SetSets` | Kernel/kernel/sys.c:655-705 | setuid sets all ids with the capability and only effective and filesystem id without |
| `Credentials.SetResSets` | Kernel/kernel/sys.c:712-785 | setresuid sets exactly what it is asked to, early return or not |
| `Credentials.DropsForGood` | Kernel/kernel/sys.c:574-705 | after setreuid(u, u), setresuid(u, u, u) or a capable setuid(u) no run without the capability leaves u |
| `Credentials.DropsForAWhile` | Kernel/kernel/sys.c:655-705 | an effective id given up by setuid can be taken back from the saved one |
| `Credentials.ExchangesIds` | Kernel/kernel/sys.c:574-653 | real and effective id can be exchanged, and exchanged back |
| `Credentials.NoIdIsRegained` | Kernel/kernel/sys.c:417-517 | in every run without the capability the ids never gain a member |
| `Credentials.ReachIsExact` | Kernel/kernel/sys.c:712-785 | the ids reachable without the capability are exactly the arrangements of the roles, in both directions |
| `Credentials.DroppingIsFinal` | Kernel/kernel/sys.c:814-986 | with all four ids equal nothing can change any more |
| `Credentials.SetResSubsumes` | Kernel/kernel/sys.c:574-785 | every allowed setuid or setreuid transition, with or without the capability, is one of an allowed setresuid |
| `Credentials.SetResIsStronger` | Kernel/kernel/sys.c:712-785 | the converse fails: a transition of setresuid that no other call makes |
| `Rlimits.Processes.DoPrlimit` | Kernel/kernel/sys.c:1500-1561 | the answer for every input, the previous limit, the new one exactly if allowed and then in that resource of that process only, and no effect on failure |
| `Rlimits.PrlimitSucceeds` | Kernel/kernel/sys.c:1500-1540 | a limit is taken if and only if soft is at most hard, open files stay within nr_open, hard is not raised without the capability and the security hook agrees |
| `Rlimits.Processes.CopySignal` | Kernel/kernel/fork.c:1885-1887 | the child starts with its parent's limits |
| `Rlimits.RunKeepsWellFormed` | Kernel/kernel/sys.c:1500-1561 | soft limits stay at or below hard limits in every run |
| `Rlimits.HardLimitsNeverRise` | Kernel/kernel/sys.c:1500-1561 | without CAP_SYS_RESOURCE every process stays within the hard limits its ancestor had when the run began |
| `Rlimits.ChildWithinParent` | Kernel/kernel/fork.c:1885-1887 | from a fork on, a child stays within the hard limits its parent had at the fork |
| `MemoryLimits.Registry.FindNodeByPid` | Kernel/kernel/fase3/syscall3.c:35-45 | the first node of that pid, or null exactly if there is none |
| `MemoryLimits.Registry.AddMemoryLimitationNode` | Kernel/kernel/fase3/syscall3.c:61-84 | a new first entry, or the error; the doubly linked ring stays well formed |
| `MemoryLimits.Registry.AddMemoryLimit` | Kernel/kernel/fase3/syscall3.c:87-127 | list, limits and result are those of the value-level call, allocation failure included |
| `MemoryLimits.Registry.UpdateMemoryLimit` | Kernel/kernel/fase3/syscall3.c:178-219 | the same of update |
| `MemoryLimits.Registry.RemoveMemoryLimit` | Kernel/kernel/fase3/syscall3.c:224-264 | the same of remove |
| `MemoryLimits.Registry.GetMemoryLimits` | Kernel/kernel/fase3/syscall3.c:131-174 | the first min(max_entries, n) entries, newest first |
| `MemoryLimits.AddRefines` | Kernel/kernel/fase3/syscall3.c:87-127 | add is a map insertion or leaves the map alone |
| `MemoryLimits.UpdateRefines` | Kernel/kernel/fase3/syscall3.c:178-219 | update overwrites a present key or leaves the map alone |
| `MemoryLimits.RemoveRefines` | Kernel/kernel/fase3/syscall3.c:224-264 | remove deletes the key or leaves the map alone |
| `MemoryLimits.AddSucceeds` | Kernel/kernel/fase3/syscall3.c:87-127 | add succeeds if and only if every condition on caller, pid, limit, usage, prlimit and memory holds; only RLIMIT_AS of that process changes; a limit below the usage is refused with -100 and no effect |
| `MemoryLimits.UpdateSucceeds` | Kernel/kernel/fase3/syscall3.c:178-219 | the same of update |
| `MemoryLimits.RemoveSucceeds` | Kernel/kernel/fase3/syscall3.c:224-264 | the same of remove, which sets RLIMIT_AS to 110 MiB |
| `MemoryLimits.StaleEntriesStay` | Kernel/kernel/fase3/syscall3.c:224-246 | once a registered task has exited, its entry stays with its limit through every later run in which no task gets that pid |
| `MemoryLimits.AgreementIsExact` | Kernel/kernel/fase3/syscall3.c:87-264 | for every event: recorded limits equal both RLIMIT_AS values afterwards if and only if a condition on the state before holds |
| `MemoryLimits.RegistryTellsTheTruth` | Kernel/kernel/fase3/syscall3.c:87-264 | in every run without pid reuse, other writers or two registered tasks of one group, the list is pid-distinct and every recorded limit is the task's soft and hard RLIMIT_AS |
| `MemoryLimits.ThreadsDisagree` | Kernel/kernel/fase3/syscall3.c:87-127 | two threads of one process registered after boot with different limits: both calls succeed and the first entry is wrong |
| `MemoryLimits.RegistryRunsAreLimitRuns` | Kernel/kernel/fase3/syscall3.c:25-32 | every run of registry calls, forks, exits and prlimit by others is a run of the limits, so soft limits stay at or below hard ones |
| `MemoryLimits.RegistryNeverRaises` | Kernel/kernel/sys.c:1500-1561 | if nobody in such a run has CAP_SYS_RESOURCE, no hard limit of any resource rises, for old processes and for new ones against their ancestor |
| `MemoryLimits.RegistryChildWithinParent` | Kernel/kernel/fork.c:1885-1887 | and from its fork on a child stays within the hard limits its parent had then |
| `Sysinfo.CountShifts` | Kernel/kernel/sys.c:2860-2868 | the loop bails out exactly when the scaled total does not fit in 64 bits, and otherwise counts the halvings of the unit |
| `Sysinfo.DoSysinfo` | Kernel/kernel/sys.c:2829-2890 | scales every counter if the total fits, so that for powers of two each of the eight stands for the same bytes as before, and leaves everything alone otherwise |
| `Sysinfo.GivesUpOnlyOnOverflow` | Kernel/kernel/sys.c:2857-2868 | for powers of two, giving up means exactly that all memory in bytes does not fit in 64 bits |
| `Sysinfo.ScalingIsExact` | Kernel/kernel/sys.c:2878-2886 | counter times unit is preserved if and only if the unit is a power of two or the counter is zero |
| `Sysinfo.ScaledSameBytes` | Kernel/kernel/sys.c:2878-2886 | each of the eight counters times the unit is as before |
| `Sysinfo.CompatSysinfo` | Kernel/kernel/sys.c:3117-3163 | scales down exactly if a total needs more than 32 bits, to the page size |
| `Sysinfo.UpAndDown` | Kernel/kernel/sys.c:3117-3163 | a page count scaled up and down again is itself |
| `Sysinfo.SysinfoForCompat` | Kernel/kernel/sys.c:3117-3163 | from page counts to the 32-bit fields: exact bytes if the totals fit, else exactly the page counts (as far as they fit) |
| `CopyRange.GenericWriteCheckLimits` | Kernel/fs/read_write.c:1654-1677 | for non-negative positions and limits below 2^63 or infinite: refused exactly if there is no room below size rlimit and maximum, else shortened to the room and no further; for other limits always EFBIG; for negative positions: let through exactly if the limit is below 2^63 or infinite or lies above the position read as unsigned, and shortened to the distances in 64 bits |
| `CopyRange.GenericCopyFileChecks` | Kernel/fs/read_write.c:1420-1483 | for non-negative positions: passes exactly if nothing wraps, the limit is below 2^63 or infinite, there is room, and ranges in one inode are disjoint; the length is the window that source end and room leave |
| `CopyRange.RwVerifyArea` | Kernel/fs/read_write.c:361-389 | with signed offsets: passed on exactly if the area is inside 0..2^63-1, else EINVAL; with unsigned ones: EINVAL for huge counts, EOVERFLOW exactly if the end passes 2^64 |
| `CopyRange.VfsCopyFileRange` | Kernel/fs/read_write.c:1491-1516 | for all 64-bit inputs and a limit below 2^63 or infinite: the copy goes ahead if and only if the window is non-empty and safe: no wrap, inside the source, within both limits, disjoint in one inode; under any other limit never |
| `CopyRange.FilesAcceptable` | Kernel/fs/read_write.c:1420-1462 | which pairs of files may be copied at all, as an if and only if |
| `CopyRange.HugeLimitRefuses` | Kernel/fs/read_write.c:1654-1663 | a one-byte copy that is safe under the limit 2^63 is refused with EFBIG, while the limit 2^63 - 1 lets it through |
| `VectoredIo.AdvancedIs` | Kernel/fs/read_write.c:757-788 | advancing by n, or by count if that is less, leaves what remained without its first bytes, in a valid position past finished and empty segments |
| `VectoredIo.IovIter.Advance` | Kernel/fs/read_write.c:784-785 | the loop over the segments computes that position |
| `VectoredIo.MovesPrefix` | Kernel/fs/read_write.c:764-787 | the bytes moved are a prefix of the concatenated vector, in order |
| `VectoredIo.StopsOnlyWhenShort` | Kernel/fs/read_write.c:776-785 | less than count is moved only after a short or failed last call, every call before it was full, and an error is that of the last call |
| `VectoredIo.KeepsToCountExactly` | Kernel/fs/read_write.c:764-787 | no more than count is moved, whatever the operation does, if and only if count ends where a segment ends |
| `VectoredIo.TruncatedOvershoots` | Kernel/fs/read_write.c:764-787 | of the function taken alone: four bytes wanted of a segment of ten, and ten are moved |
| `VectoredIo.WholeVectorIsKeptTo` | Kernel/fs/read_write.c:926-942 | with a count that is all of the vector, as the callers pass it, no more than count is moved |
| `VectoredIo.IovIter.DoLoopReadvWritev` | Kernel/fs/read_write.c:757-788 | terminates, also with empty segments, moves what the loop function says, and returns the number of bytes moved, or an error only if nothing moved |
| `CommandLine.Snprintf` | Kernel/Init/main.c:320-355 | writes as much as fits with a NUL, returns the full length |
| `CommandLine.XbcSnprintCmdline` | Kernel/Init/main.c:320-355 | whatever the buffer size, the result is the full length and the buffer holds the rendering cut to size |
| `CommandLine.XbcMakeCmdline` | Kernel/Init/main.c:358-387 | counting and writing pass agree: the result is the complete rendering and fills its allocation to the byte |
| `CommandLine.ValueReadBack` | Kernel/Init/main.c:344-346 | a value printed in quotes is read as one word, blanks in it or not |
| `CommandLine.RenderReadBack` | Kernel/Init/main.c:320-355 | round trip: without quotes in keys and values, the printed command line is read back as exactly these keys with their values, in order |
| `CommandLine.SetupCommandLine` | Kernel/Init/main.c:617-671 | all copies stay inside their allocations if and only if the parsed command line is no longer than the boot command line, and then leave the intended concatenation, its length included |
| `CommandLine.SpliceIsAsIntended` | Kernel/Init/main.c:648-669 | with a separator `--` and the blanks behind it before initargs_offs: the words of the saved line, blanks in quotes not splitting, are the kernel part, the separator, the bootconfig arguments and the own arguments if and only if the boot command line does not end in the bare separator and neither bootconfig text leaves a quote open |
| `CommandLine.SpliceIsSpaced` | Kernel/Init/main.c:656-662 | the bootconfig arguments and the own ones are set apart by a space if and only if a space is the last blank behind the separator |
| `CommandLine.AppendIsAsIntended` | Kernel/Init/main.c:662-667 | without a separator the line gets one, and its words are the kernel part, `--` and the bootconfig arguments, if and only if no quote is open in the kernel part |
| `CommandLine.EndsInDashes` | Kernel/Init/main.c:425-427 | the boot command line `quiet --` becomes `quiet --x="1" -`, which does not say what is intended |
| `CommandLine.ValueLeavesOpen` | Kernel/Init/main.c:344-346 | a printed bootconfig value leaves a quote open if and only if its own quotes do not match |
| `CommandLine.OpenQuoteTakesIn` | Kernel/Init/main.c:648-669 | such a value in front of an own argument: what the saved line says is not what is intended |
| `InitArgs.BootArgs.SetInitArg` | Kernel/Init/main.c:503-522 | the argument goes to the first empty slot, or panic_later is set exactly if none is left |
| `InitArgs.BootArgs.UnknownEnvOption` | Kernel/Init/main.c:528-562 | stays in bounds; the variable has its new value, every other variable the value it had; when exactly panic_later is set |
| `InitArgs.BootArgs.UnknownArgument` | Kernel/Init/main.c:563-573 | stays in bounds; first empty slot; panic_later exactly if that is the last one |
| `InitArgs.BootArgs.InitSetup` | Kernel/Init/main.c:576-602 | no argument is visible any more, the last slots are untouched |
| `InitArgs.BootArgs.ParseOptions` | Kernel/Init/main.c:503-602 | for every sequence of options: arrays and panic_later are those of the value-level steps, both arrays end in NULL while panic_later is unset, and each variable has the last value given |
| `InitRuns.LooksAfter` | Kernel/Init/main.c:503-602 | after any options without a panic, the slots in use are those of the arguments since the last init=, and slot MAX is in use if and only if it was reached at any time |
| `InitRuns.InitForgets` | Kernel/Init/main.c:576-602 | for all options before and arguments behind init=: init gets exactly the arguments behind it if and only if there was no panic before and they are at most MAX, or MAX - 2 if slot MAX was ever reached |
| `InitRuns.OldArgumentReturns` | Kernel/Init/main.c:576-602 | MAX arguments, init= and MAX - 1 arguments: the old argument in slot MAX is back |
| `InitRuns.ReplacingPanics` | Kernel/Init/main.c:549-562 | as many variables as fit, and the last one again: a panic, although the last slot stays empty |
| `InitArgs.BootArgs.PrintUnknownBootoptions` | Kernel/Init/main.c:830-871 | scans in bounds; prints exactly if there is something to print; the text fills the computed length to the byte |
| `InitArgs.SpacedInOrder` | Kernel/Init/main.c:862-865 | every option is in the text once, in order, behind one space |

## Left out

- The other set of programs and modules: /proc modules, `open.c`, call counters, statistics and snapshot
  system calls, `luis_tamalloc`, start-up order in `start_kernel`, test programs. They print or copy values.
- `vfs_setpos` and `generic_file_llseek_size`: single comparisons.
- `check_prlimit_permission` and the 32-bit rlimit calls: branches over credentials, without state.
- Reparenting when a process exits, in the subreaper model: `exit.c` is not part of this model. In
  `ProcessGroups.dfy` exit hands children to an arbitrary heir.
- Pid namespaces other than the caller's, and security policy: verdicts are parameters.
- Ownership of credentials and namespaces in `ksys_unshare`: their success or failure is a parameter.
- `alloc_thread_stack_node` and `free_thread_stack` as procedures with local variables: their steps are
  functions on values, so that other threads' steps can come between any two of them.
- Concurrent registry calls: the C code takes no lock, and the model runs one call at a time.
- Files with unsigned offsets in `vfs_copy_file_range`: modelled, but the main statement is about signed ones.
- Overflow of `int` in bootconfig lengths: lengths are unbounded in the model.
- Page sizes other than 4096 bytes in `Sysinfo.dfy`.
- Signal state that `copy_signal` sets up beyond limits and thread counts: plain copies.
- Statistics, tracing and scheduler set-up inside `copy_process`: no effect on what is held.
- `parse_args`, which finds `initargs_offs`: `params.c` is not part of this model, which takes its result
  as the comment at `Kernel/Init/main.c:425` gives it.
- CopyProcess.CopyProcess: the answers of called functions are fixed beforehand, so the counters are not
  changed by other tasks during the call; for fs and files structures `Unshare.FailedForkLeavesNothing` has
  other tasks' steps in between.
- VectoredIo.IovIter.Advance: models the helper `iov_iter_advance`, whose source is not part of this model.
