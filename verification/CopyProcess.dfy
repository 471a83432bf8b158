/** copy_process and dup_task_struct in Kernel/kernel/fork.c as a transaction: whatever step fails,
    the ladder of cleanup labels gives back exactly what was taken. */
module CopyProcess {
  import opened Common
  import opened Errno
  import opened RefCounts

  /** The clone flags and arguments that copy_process looks at.
      - initPid:      the caller passed init_struct_pid
      - unkillable:   SIGNAL_UNKILLABLE is set for the caller
      - foreignPidNs: children of the caller go to another pid namespace */
  datatype Args = Args(
    newNs: bool, newUser: bool, newPid: bool, thread: bool, sighand: bool, vm: bool, fs: bool,
    files: bool, parent: bool, pidfd: bool, detached: bool,
    kthread: bool, noFiles: bool, initPid: bool, unkillable: bool, foreignPidNs: bool)

  /** The answers of the code that copy_process calls: flags say whether an allocation succeeded or
      an event is present, numbers are zero or a negative error.  The new structures get ids that
      are not in use. */
  datatype Env = Env(
    signalPending: bool,
    taskAlloc: bool, archDup: bool, stackAlloc: bool, scs: bool,
    creds: int, overNproc: bool, tooManyThreads: bool, kthreadStruct: bool, mempolicy: int,
    schedFork: int, perf: int, audit: int, security: int, semUndo: int,
    dupFd: int, fsAlloc: bool, sighandAlloc: bool, signalAlloc: bool, mmDup: bool,
    namespaces: int, io: int, hasIo: bool, copyThread: int, allocPid: int,
    pidfdPrepare: int, putUser: int, cgroup: int, dyingPidNs: bool, fatalSignal: bool,
    newFs: Id, newFiles: Id, newSighand: Id, newSignal: Id, newMm: Id)

  ghost predicate Plausible(e: Env) {
    && e.creds <= 0 && e.mempolicy <= 0 && e.schedFork <= 0 && e.perf <= 0 && e.audit <= 0
    && e.security <= 0 && e.semUndo <= 0 && e.dupFd <= 0 && e.namespaces <= 0 && e.io <= 0
    && e.copyThread <= 0 && e.allocPid <= 0 && e.putUser <= 0 && e.cgroup <= 0
  }

  /** The structures of a task that may be shared. */
  datatype Pointers = Pointers(fs: Id, files: Option<Id>, sighand: Id, signal: Id, mm: Option<Id>)

  /** How many of each thing are handed out, over the whole system: a task with its stack, ... */
  datatype TaskHeld = TaskHeld(taskStruct: int, stack: int, stackCharge: int, stackAccount: int, shadowStack: int)

  /** ... its credentials, NPROC count, delay accounting, kthread struct and memory policy, ... */
  datatype SetupHeld = SetupHeld(creds: int, nproc: int, delayAcct: int, kthread: int, mempolicy: int)

  /** ... its state in four subsystems, ... */
  datatype SubsystemHeld = SubsystemHeld(perf: int, audit: int, security: int, semUndo: int)

  /** ... and what the last part of copy_process takes: the node on the multiprocess list, the two
      locks, pid and pidfd, and the rest. */
  datatype LinkHeld = LinkHeld(
    delayedNode: int, tasklistLock: int, siglock: int,
    namespaces: int, ioContext: int, threadState: int, pid: int,
    pidFile: int, unusedFd: int, installedFd: int, cgroup: int, schedCore: int)

  datatype Held = Held(task: TaskHeld, setup: SetupHeld, sub: SubsystemHeld, link: LinkHeld)

  ghost predicate Unlocked(h: Held) {
    h.link.tasklistLock == h.link.siglock == 0
  }

  /** nr_threads, live and sigcnt of a signal_struct all count its threads. */
  datatype Signal = Signal(nrThreads: nat, live: nat, sigcnt: nat)

  // ----- the verdict, from the flags and the answers alone

  predicate BadFlags(a: Args) {
    || (a.newNs && a.fs)
    || (a.newUser && a.fs)
    || (a.thread && !a.sighand)
    || (a.sighand && !a.vm)
    || (a.parent && a.unkillable)
    || (a.thread && (a.newUser || a.newPid || a.foreignPidNs))
    || (a.pidfd && (a.detached || a.thread))
  }

  // The error of the first step that fails, zero if none does, part by part.

  function Verdict(a: Args, e: Env, cur: Pointers, inExec: bool): int {
    if BadFlags(a) then -EINVAL
    else if e.signalPending then -ERESTARTNOINTR
    else if !(e.taskAlloc && e.archDup && e.stackAlloc && e.scs) then -ENOMEM
    else if TaskVerdict(a, e) < 0 then TaskVerdict(a, e)
    else AttachVerdict(a, e, cur, inExec)
  }

  function TaskVerdict(a: Args, e: Env): int {
    if e.creds < 0 then e.creds
    else if e.overNproc || e.tooManyThreads || (a.kthread && !e.kthreadStruct) then -EAGAIN
    else if e.mempolicy < 0 then e.mempolicy
    else 0
  }

  function AttachVerdict(a: Args, e: Env, cur: Pointers, inExec: bool): int {
    if e.schedFork < 0 then e.schedFork
    else if e.perf < 0 then e.perf
    else if e.audit < 0 then e.audit
    else if e.security < 0 then e.security
    else if e.semUndo < 0 then e.semUndo
    else ShareVerdict(a, e, cur, inExec)
  }

  function ShareVerdict(a: Args, e: Env, cur: Pointers, inExec: bool): int {
    if cur.files.Some? && !a.noFiles && !a.files && e.dupFd < 0 then e.dupFd
    else if a.fs && inExec then -EAGAIN
    else if !a.fs && !e.fsAlloc then -ENOMEM
    else if SignalVerdict(a, e, cur) < 0 then SignalVerdict(a, e, cur)
    else LinkVerdict(a, e)
  }

  function SignalVerdict(a: Args, e: Env, cur: Pointers): int {
    if !a.sighand && !e.sighandAlloc then -ENOMEM
    else if !a.thread && !e.signalAlloc then -ENOMEM
    else if cur.mm.Some? && !a.vm && !e.mmDup then -ENOMEM
    else 0
  }

  function LinkVerdict(a: Args, e: Env): int {
    if e.namespaces < 0 then e.namespaces
    else if e.io < 0 then e.io
    else if e.copyThread < 0 then e.copyThread
    else if !a.initPid && e.allocPid < 0 then e.allocPid
    else if a.pidfd && e.pidfdPrepare < 0 then e.pidfdPrepare
    else if a.pidfd && e.putUser < 0 then e.putUser
    else if e.cgroup < 0 then e.cgroup
    else if e.dyingPidNs then -ENOMEM
    else if e.fatalSignal then -EINTR
    else 0
  }

  /** Whom the child points at, if it comes to life. */
  function ChildPointers(a: Args, e: Env, cur: Pointers): Pointers {
    Pointers(
      if a.fs then cur.fs else e.newFs,
      if cur.files.None? || a.noFiles then None else if a.files then cur.files else Some(e.newFiles),
      if a.sighand then cur.sighand else e.newSighand,
      if a.thread then cur.signal else e.newSignal,
      if cur.mm.None? then None else if a.vm then cur.mm else Some(e.newMm))
  }

  /** What is handed out once the child lives: one more of everything it keeps. */
  function WithChild(a: Args, e: Env, h: Held): Held {
    Held(WithTask(h.task), WithSetup(a, h.setup), WithSubsystems(h.sub), WithLinked(a, e, h.link))
  }

  function WithTask(h: TaskHeld): TaskHeld {
    TaskHeld(h.taskStruct + 1, h.stack + 1, h.stackCharge + 1, h.stackAccount + 1, h.shadowStack + 1)
  }

  function WithSetup(a: Args, h: SetupHeld): SetupHeld {
    SetupHeld(h.creds + 1, h.nproc + 1, h.delayAcct + 1, if a.kthread then h.kthread + 1 else h.kthread, h.mempolicy + 1)
  }

  function WithSubsystems(h: SubsystemHeld): SubsystemHeld {
    SubsystemHeld(h.perf + 1, h.audit + 1, h.security + 1, h.semUndo + 1)
  }

  function WithLinked(a: Args, e: Env, h: LinkHeld): LinkHeld {
    h.(namespaces := h.namespaces + 1,
       ioContext := if e.hasIo then h.ioContext + 1 else h.ioContext,
       threadState := h.threadState + 1,
       pid := if a.initPid then h.pid else h.pid + 1,
       installedFd := if a.pidfd then h.installedFd + 1 else h.installedFd,
       schedCore := h.schedCore + 1)
  }

  /** The node on the multiprocess list is gone; threads never had one. */
  function WithoutNode(a: Args, h: LinkHeld): LinkHeld {
    if a.thread then h else h.(delayedNode := h.delayedNode - 1)
  }

  /** The counted structures, the fs structures an exec is under way in, and the three counters. */
  datatype Tables = Tables(
    fs: Counts, execing: set<Id>, files: Counts, sighand: Counts, signal: map<Id, Signal>, mm: Counts,
    nrThreads: int, processCounts: int, totalForks: int)

  /** The caller's structures are live and the ids for new ones are free. */
  ghost predicate Ready(t: Tables, cur: Pointers, e: Env) {
    && Live(t.fs) && Live(t.files) && Live(t.sighand) && Live(t.mm)
    && cur.fs in t.fs && cur.sighand in t.sighand && cur.signal in t.signal
    && (cur.files.Some? ==> cur.files.value in t.files)
    && (cur.mm.Some? ==> cur.mm.value in t.mm)
    && FreshIds(t, e)
  }

  ghost predicate FreshIds(t: Tables, e: Env) {
    && e.newFs !in t.fs && e.newFiles !in t.files && e.newSighand !in t.sighand
    && e.newSignal !in t.signal && e.newMm !in t.mm
  }

  function GetOptional(m: Counts, ptr: Option<Id>): Counts {
    if ptr.Some? then Get(m, ptr.value) else m
  }

  /** The caller or the child uses each structure once more. */
  function Shared(a: Args, child: Pointers, t: Tables): Tables {
    SharedSignals(a, child, t.(fs := Get(t.fs, child.fs), files := GetOptional(t.files, child.files)))
  }

  function SharedSignals(a: Args, child: Pointers, t: Tables): Tables {
    t.(sighand := Get(t.sighand, child.sighand),
       signal := if a.thread then t.signal else t.signal[child.signal := Signal(1, 1, 1)],
       mm := GetOptional(t.mm, child.mm))
  }

  /** A child that lives is counted; a thread also in the signal_struct it joins. */
  function Linked(a: Args, child: Pointers, t: Tables): Tables
    requires child.signal in t.signal
  {
    var s := t.signal[child.signal];
    t.(signal := if a.initPid || !a.thread then t.signal
                 else t.signal[child.signal := Signal(s.nrThreads + 1, s.live + 1, s.sigcnt + 1)],
       nrThreads := t.nrThreads + (if a.initPid then 0 else 1),
       processCounts := t.processCounts + (if a.initPid || a.thread then 0 else 1),
       totalForks := t.totalForks + 1)
  }

  // ----- the steps

  /** dup_task_struct with its own two-label ladder. */
  method DupTaskStruct(e: Env, before: TaskHeld) returns (ok: bool, h: TaskHeld)
    ensures ok <==> e.taskAlloc && e.archDup && e.stackAlloc && e.scs
    ensures h == if ok then WithTask(before) else before
  {
    h := before;
    if !e.taskAlloc {
      return false, h;
    }
    h := h.(taskStruct := h.taskStruct + 1);
    label free_tsk: {
      label free_stack: {
        if !e.archDup {
          break free_tsk;
        }
        if !e.stackAlloc {
          break free_tsk;
        }
        h := h.(stack := h.stack + 1, stackCharge := h.stackCharge + 1);
        h := h.(stackAccount := h.stackAccount + 1);
        if !e.scs {
          break free_stack;
        }
        h := h.(shadowStack := h.shadowStack + 1);
        return true, h;
      }
      h := h.(stackAccount := h.stackAccount - 1, stackCharge := h.stackCharge - 1);
      h := h.(stack := h.stack - 1);
    }
    h := h.(taskStruct := h.taskStruct - 1);
    return false, h;
  }

  /** exit_task_stack_account, put_task_stack and free_task; put_task_stack leaks the stack of a
      task that is not marked dead. */
  method FreeTask(dead: bool, hasKthread: bool, before: Held) returns (h: Held)
    ensures h == before.(
      task := TaskHeld(
        before.task.taskStruct - 1, if dead then before.task.stack - 1 else before.task.stack,
        before.task.stackCharge - 1, before.task.stackAccount - 1, before.task.shadowStack - 1),
      setup := before.setup.(kthread := if hasKthread then before.setup.kthread - 1 else before.setup.kthread))
  {
    var task := before.task;
    h := before;
    task := task.(stackAccount := task.stackAccount - 1, stackCharge := task.stackCharge - 1);
    if dead {
      task := task.(stack := task.stack - 1);
    }
    task := task.(shadowStack := task.shadowStack - 1);
    if hasKthread {
      h := h.(setup := h.setup.(kthread := h.setup.kthread - 1));
    }
    task := task.(taskStruct := task.taskStruct - 1);
    h := h.(task := task);
  }

  method CopyFiles(a: Args, e: Env, cur: Pointers, before: Counts) returns (err: int, ptr: Option<Id>, m: Counts)
    requires Plausible(e)
    ensures err == if cur.files.Some? && !a.noFiles && !a.files then e.dupFd else 0
    ensures err == 0 ==> ptr == ChildPointers(a, e, cur).files
    ensures m == if err == 0 then GetOptional(before, ptr) else before
  {
    err, ptr, m := 0, cur.files, before;
    if cur.files.None? {
      return;
    }
    if a.noFiles {
      ptr := None;
      return;
    }
    if a.files {
      m := Get(m, cur.files.value);
      return;
    }
    if e.dupFd < 0 {
      err := e.dupFd;
      return;
    }
    ptr := Some(e.newFiles);
    m := Get(m, e.newFiles);
  }

  method CopyFs(a: Args, e: Env, cur: Pointers, execing: set<Id>, before: Counts) returns (err: int, ptr: Id, m: Counts)
    ensures err == if a.fs then (if cur.fs in execing then -EAGAIN else 0) else if e.fsAlloc then 0 else -ENOMEM
    ensures err == 0 ==> ptr == ChildPointers(a, e, cur).fs
    ensures m == if err == 0 then Get(before, ptr) else before
  {
    err, ptr, m := 0, cur.fs, before;
    if a.fs {
      if cur.fs in execing {
        err := -EAGAIN;
        return;
      }
      m := Get(m, cur.fs);
      return;
    }
    if !e.fsAlloc {
      err := -ENOMEM;
      return;
    }
    ptr := e.newFs;
    m := Get(m, e.newFs);
  }

  method CopySighand(a: Args, e: Env, cur: Pointers, before: Counts) returns (err: int, ptr: Id, m: Counts)
    ensures err == if a.sighand || e.sighandAlloc then 0 else -ENOMEM
    ensures err == 0 ==> ptr == ChildPointers(a, e, cur).sighand
    ensures m == if err == 0 then Get(before, ptr) else before
  {
    err, ptr, m := 0, cur.sighand, before;
    if a.sighand {
      m := Get(m, cur.sighand);
      return;
    }
    if !e.sighandAlloc {
      err := -ENOMEM;
      return;
    }
    ptr := e.newSighand;
    m := Get(m, e.newSighand);
  }

  method CopyMm(a: Args, e: Env, cur: Pointers, before: Counts) returns (err: int, ptr: Option<Id>, m: Counts)
    ensures err == if cur.mm.None? || a.vm || e.mmDup then 0 else -ENOMEM
    ensures err == 0 ==> ptr == ChildPointers(a, e, cur).mm
    ensures m == if err == 0 then GetOptional(before, ptr) else before
  {
    err, ptr, m := 0, None, before;
    if cur.mm.None? {
      return;
    }
    if a.vm {
      m := Get(m, cur.mm.value);
      ptr := cur.mm;
    } else {
      if !e.mmDup {
        err := -ENOMEM;
        return;
      }
      m := Get(m, e.newMm);
      ptr := Some(e.newMm);
    }
  }

  /** exit_fs, exit_files, __cleanup_sighand and mmput: one user less, the last one frees. */
  method Drop(ptr: Option<Id>, m: Counts, ghost before: Counts) returns (r: Counts)
    requires Live(before) && m == GetOptional(before, ptr)
    ensures r == before
  {
    r := m;
    if ptr.Some? {
      PutUndoesGet(before, ptr.value);
      r := Put(r, ptr.value);
    }
  }

  // In the next methods each labelled block belongs to one cleanup label of copy_process:
  // leaving the block is the jump to that label, and the statements behind it are the code there.

  /** From the moment tasklist_lock is taken, with label bad_fork_cancel_cgroup. */
  method Publish(a: Args, e: Env, child: Pointers, tables: Tables, before: LinkHeld)
    returns (err: int, t: Tables, h: LinkHeld)
    requires child.signal in tables.signal
    requires before.tasklistLock == before.siglock == 0
    ensures err == if e.dyingPidNs then -ENOMEM else if e.fatalSignal then -EINTR else 0
    ensures err < 0 ==> h == before.(cgroup := before.cgroup - 1) && t == tables
    ensures err == 0 ==>
              && h == before.(
                   cgroup := before.cgroup - 1, schedCore := before.schedCore + 1,
                   delayedNode := if a.thread then before.delayedNode else before.delayedNode - 1,
                   pidFile := if a.pidfd then before.pidFile - 1 else before.pidFile,
                   unusedFd := if a.pidfd then before.unusedFd - 1 else before.unusedFd,
                   installedFd := if a.pidfd then before.installedFd + 1 else before.installedFd)
              && t == Linked(a, child, tables)
  {
    err, t := 0, tables;
    h := before.(tasklistLock := 1);
    h := h.(schedCore := h.schedCore + 1);
    h := h.(siglock := 1);
    label bad_fork_cancel_cgroup: {
      if e.dyingPidNs {
        err := -ENOMEM;
        break bad_fork_cancel_cgroup;
      }
      if e.fatalSignal {
        err := -EINTR;
        break bad_fork_cancel_cgroup;
      }
      if !a.initPid {
        if !a.thread {
          t := t.(processCounts := t.processCounts + 1);
        } else {
          var s := t.signal[child.signal];
          t := t.(signal := t.signal[child.signal := Signal(s.nrThreads + 1, s.live + 1, s.sigcnt + 1)]);
        }
        t := t.(nrThreads := t.nrThreads + 1);
      }
      t := t.(totalForks := t.totalForks + 1);
      if !a.thread {
        h := h.(delayedNode := h.delayedNode - 1);
      }
      h := h.(siglock := 0);
      h := h.(tasklistLock := 0);
      if a.pidfd {
        h := h.(pidFile := h.pidFile - 1, unusedFd := h.unusedFd - 1, installedFd := h.installedFd + 1);
      }
      h := h.(cgroup := h.cgroup - 1);
      return;
    }
    h := h.(schedCore := h.schedCore - 1);
    h := h.(siglock := 0);
    h := h.(tasklistLock := 0);
    h := h.(cgroup := h.cgroup - 1);
  }

  /** From copy_namespaces on: labels bad_fork_put_pidfd to bad_fork_cleanup_namespaces. */
  method LinkChild(a: Args, e: Env, child: Pointers, tables: Tables, before: LinkHeld)
    returns (err: int, t: Tables, h: LinkHeld)
    requires Plausible(e) && child.signal in tables.signal
    requires before.tasklistLock == before.siglock == 0
    ensures err == LinkVerdict(a, e)
    ensures err < 0 ==> h == before && t == tables
    ensures err == 0 ==> h == WithoutNode(a, WithLinked(a, e, before)) && t == Linked(a, child, tables)
  {
    h, t := before, tables;
    err := e.namespaces;
    if err != 0 {
      return;
    }
    h := h.(namespaces := h.namespaces + 1);
    label bad_fork_cleanup_namespaces: {
      err := e.io;
      if err != 0 {
        break bad_fork_cleanup_namespaces;
      }
      if e.hasIo {
        h := h.(ioContext := h.ioContext + 1);
      }
      label bad_fork_cleanup_io: {
        err := e.copyThread;
        if err != 0 {
          break bad_fork_cleanup_io;
        }
        h := h.(threadState := h.threadState + 1);
        label bad_fork_cleanup_thread: {
          if !a.initPid {
            if e.allocPid < 0 {
              err := e.allocPid;
              break bad_fork_cleanup_thread;
            }
            h := h.(pid := h.pid + 1);
          }
          label bad_fork_free_pid: {
            if a.pidfd {
              err := e.pidfdPrepare;
              if err < 0 {
                break bad_fork_free_pid;
              }
              h := h.(pidFile := h.pidFile + 1, unusedFd := h.unusedFd + 1);
            }
            label bad_fork_put_pidfd: {
              if a.pidfd {
                err := e.putUser;
                if err != 0 {
                  break bad_fork_put_pidfd;
                }
              }
              err := e.cgroup;
              if err != 0 {
                break bad_fork_put_pidfd;
              }
              h := h.(cgroup := h.cgroup + 1);
              err, t, h := Publish(a, e, child, t, h);
              if err == 0 {
                return;
              }
            }
            if a.pidfd {
              h := h.(pidFile := h.pidFile - 1, unusedFd := h.unusedFd - 1);
            }
          }
          if !a.initPid {
            h := h.(pid := h.pid - 1);
          }
        }
        h := h.(threadState := h.threadState - 1);
      }
      if e.hasIo {
        h := h.(ioContext := h.ioContext - 1);
      }
    }
    h := h.(namespaces := h.namespaces - 1);
  }

  /** From copy_mm on, with label bad_fork_cleanup_mm; proto still points at the caller's mm. */
  method ShareMm(a: Args, e: Env, proto: Pointers, tables: Tables, before: Held)
    returns (err: int, child: Pointers, t: Tables, h: Held)
    requires Plausible(e) && Unlocked(before) && Live(tables.mm) && proto.signal in tables.signal
    ensures err == if proto.mm.Some? && !a.vm && !e.mmDup then -ENOMEM else LinkVerdict(a, e)
    ensures err < 0 ==> h == before && t == tables
    ensures err == 0 ==>
              && child == proto.(mm := ChildPointers(a, e, proto).mm)
              && h == before.(link := WithoutNode(a, WithLinked(a, e, before.link)))
              && t == Linked(a, child, tables.(mm := GetOptional(tables.mm, child.mm)))
  {
    child, h, t := proto, before, tables;
    var pmm, mm;
    err, pmm, mm := CopyMm(a, e, proto, t.mm);
    if err != 0 {
      return;
    }
    t := t.(mm := mm);
    child := proto.(mm := pmm);
    label bad_fork_cleanup_mm: {
      var link;
      err, t, link := LinkChild(a, e, child, t, h.link);
      h := h.(link := link);
      if err == 0 {
        return;
      }
    }
    mm := Drop(pmm, t.mm, tables.mm);
    t := t.(mm := mm);
  }

  /** From copy_sighand on: labels bad_fork_cleanup_signal and bad_fork_cleanup_sighand. */
  method ShareSignals(a: Args, e: Env, cur: Pointers, pfs: Id, pfiles: Option<Id>, tables: Tables, before: Held)
    returns (err: int, child: Pointers, t: Tables, h: Held)
    requires Plausible(e) && Unlocked(before)
    requires Live(tables.sighand) && Live(tables.mm)
    requires cur.signal in tables.signal && e.newSignal !in tables.signal
    ensures err == var v := SignalVerdict(a, e, cur); if v < 0 then v else LinkVerdict(a, e)
    ensures err < 0 ==> h == before && t == tables
    ensures err == 0 ==>
              && child == ChildPointers(a, e, cur).(fs := pfs, files := pfiles)
              && h == before.(link := WithoutNode(a, WithLinked(a, e, before.link)))
              && t == Linked(a, child, SharedSignals(a, child, tables))
  {
    child, h, t := cur, before, tables;
    ghost var v := if SignalVerdict(a, e, cur) < 0 then SignalVerdict(a, e, cur) else LinkVerdict(a, e);
    var psighand, sighand;
    err, psighand, sighand := CopySighand(a, e, cur, t.sighand);
    if err != 0 {
      return;
    }
    t := t.(sighand := sighand);
    label bad_fork_cleanup_sighand: {
      var psignal := cur.signal;
      if !a.thread {
        if !e.signalAlloc {
          err := -ENOMEM;
          break bad_fork_cleanup_sighand;
        }
        psignal := e.newSignal;
        t := t.(signal := t.signal[psignal := Signal(1, 1, 1)]);
      }
      ghost var gotSignal := t;
      label bad_fork_cleanup_signal: {
        child := Pointers(pfs, pfiles, psighand, psignal, cur.mm);
        err, child, t, h := ShareMm(a, e, child, t, h);
        if err == 0 {
          return;
        }
      }
      assert err == v && h == before && t == gotSignal;
      if !a.thread {
        t := t.(signal := t.signal - {psignal});
      }
    }
    assert err == v && h == before && t == tables.(sighand := sighand);
    sighand := Drop(Some(psighand), t.sighand, tables.sighand);
    t := t.(sighand := sighand);
  }

  /** From copy_files on: labels bad_fork_cleanup_fs and bad_fork_cleanup_files. */
  method ShareStructures(a: Args, e: Env, cur: Pointers, tables: Tables, before: Held)
    returns (err: int, child: Pointers, t: Tables, h: Held)
    requires Plausible(e)
    requires Live(tables.fs) && Live(tables.files) && Live(tables.sighand) && Live(tables.mm)
    requires cur.signal in tables.signal && e.newSignal !in tables.signal && Unlocked(before)
    ensures err == ShareVerdict(a, e, cur, cur.fs in tables.execing)
    ensures err < 0 ==> h == before && t == tables
    ensures err == 0 ==>
              && child == ChildPointers(a, e, cur)
              && h == before.(link := WithoutNode(a, WithLinked(a, e, before.link)))
              && t == Linked(a, child, Shared(a, child, tables))
  {
    child, h, t := cur, before, tables;
    ghost var v := ShareVerdict(a, e, cur, cur.fs in tables.execing);
    var pfiles, files;
    err, pfiles, files := CopyFiles(a, e, cur, t.files);
    if err != 0 {
      return;
    }
    t := t.(files := files);
    label bad_fork_cleanup_files: {
      var pfs, fs;
      err, pfs, fs := CopyFs(a, e, cur, t.execing, t.fs);
      if err != 0 {
        break bad_fork_cleanup_files;
      }
      t := t.(fs := fs);
      label bad_fork_cleanup_fs: {
        err, child, t, h := ShareSignals(a, e, cur, pfs, pfiles, t, h);
        if err == 0 {
          return;
        }
      }
      assert err == v && h == before && t == tables.(files := files, fs := fs);
      fs := Drop(Some(pfs), t.fs, tables.fs);
      t := t.(fs := fs);
    }
    assert err == v && h == before && t == tables.(files := files);
    files := Drop(pfiles, t.files, tables.files);
    t := t.(files := files);
  }

  /** From sched_fork on: labels bad_fork_cleanup_semundo to bad_fork_cleanup_perf. */
  method AttachSubsystems(a: Args, e: Env, cur: Pointers, tables: Tables, before: Held)
    returns (err: int, child: Pointers, t: Tables, h: Held)
    requires Ready(tables, cur, e) && Plausible(e) && Unlocked(before)
    ensures err == AttachVerdict(a, e, cur, cur.fs in tables.execing)
    ensures err < 0 ==> h == before && t == tables
    ensures err == 0 ==>
              && child == ChildPointers(a, e, cur)
              && h == before.(sub := WithSubsystems(before.sub), link := WithoutNode(a, WithLinked(a, e, before.link)))
              && t == Linked(a, child, Shared(a, child, tables))
  {
    child, t, h := cur, tables, before;
    err := e.schedFork;
    if err != 0 {
      return;
    }
    err := e.perf;
    if err != 0 {
      return;
    }
    h := h.(sub := h.sub.(perf := h.sub.perf + 1));
    label bad_fork_cleanup_perf: {
      err := e.audit;
      if err != 0 {
        break bad_fork_cleanup_perf;
      }
      h := h.(sub := h.sub.(audit := h.sub.audit + 1));
      label bad_fork_cleanup_audit: {
        err := e.security;
        if err != 0 {
          break bad_fork_cleanup_audit;
        }
        h := h.(sub := h.sub.(security := h.sub.security + 1));
        label bad_fork_cleanup_security: {
          err := e.semUndo;
          if err != 0 {
            break bad_fork_cleanup_security;
          }
          h := h.(sub := h.sub.(semUndo := h.sub.semUndo + 1));
          label bad_fork_cleanup_semundo: {
            err, child, t, h := ShareStructures(a, e, cur, t, h);
            if err == 0 {
              return;
            }
          }
          h := h.(sub := h.sub.(semUndo := h.sub.semUndo - 1));
        }
        h := h.(sub := h.sub.(security := h.sub.security - 1));
      }
      h := h.(sub := h.sub.(audit := h.sub.audit - 1));
    }
    h := h.(sub := h.sub.(perf := h.sub.perf - 1));
  }

  /** From copy_creds on: labels bad_fork_cleanup_policy to bad_fork_cleanup_count.  The thread
      struct of a kernel thread goes only with the task itself. */
  method SetupTask(a: Args, e: Env, cur: Pointers, tables: Tables, before: Held)
    returns (err: int, child: Pointers, hasKthread: bool, t: Tables, h: Held)
    requires Ready(tables, cur, e) && Plausible(e) && Unlocked(before)
    ensures err == var v := TaskVerdict(a, e); if v < 0 then v else AttachVerdict(a, e, cur, cur.fs in tables.execing)
    ensures err < 0 ==>
              && t == tables
              && h == before.(setup := before.setup.(kthread := before.setup.kthread + if hasKthread then 1 else 0))
    ensures err == 0 ==>
              && child == ChildPointers(a, e, cur)
              && h == WithChild(a, e, before).(task := before.task, link := WithoutNode(a, WithLinked(a, e, before.link)))
              && t == Linked(a, child, Shared(a, child, tables))
  {
    child, t, h, hasKthread := cur, tables, before, false;
    err := e.creds;
    if err < 0 {
      return;
    }
    h := h.(setup := h.setup.(creds := h.setup.creds + 1, nproc := h.setup.nproc + 1));
    label bad_fork_cleanup_count: {
      err := -EAGAIN;
      if e.overNproc {
        break bad_fork_cleanup_count;
      }
      err := -EAGAIN;
      if e.tooManyThreads {
        break bad_fork_cleanup_count;
      }
      h := h.(setup := h.setup.(delayAcct := h.setup.delayAcct + 1));
      label bad_fork_cleanup_delayacct: {
        if a.kthread {
          if !e.kthreadStruct {
            break bad_fork_cleanup_delayacct;
          }
          hasKthread := true;
          h := h.(setup := h.setup.(kthread := h.setup.kthread + 1));
        }
        if e.mempolicy < 0 {
          err := e.mempolicy;
          break bad_fork_cleanup_delayacct;
        }
        h := h.(setup := h.setup.(mempolicy := h.setup.mempolicy + 1));
        label bad_fork_cleanup_policy: {
          err, child, t, h := AttachSubsystems(a, e, cur, t, h);
          if err == 0 {
            return;
          }
        }
        h := h.(setup := h.setup.(mempolicy := h.setup.mempolicy - 1));
      }
      h := h.(setup := h.setup.(delayAcct := h.setup.delayAcct - 1));
    }
    h := h.(setup := h.setup.(nproc := h.setup.nproc - 1));
    h := h.(setup := h.setup.(creds := h.setup.creds - 1));
  }

  /** copy_process. */
  method CopyProcess(a: Args, e: Env, cur: Pointers, tables: Tables, before: Held)
    returns (err: int, child: Pointers, t: Tables, h: Held)
    requires Ready(tables, cur, e) && Plausible(e) && Unlocked(before)
    ensures err == Verdict(a, e, cur, cur.fs in tables.execing) && err <= 0
    ensures err < 0 ==> h == before && t == tables
    ensures err == 0 ==>
              && child == ChildPointers(a, e, cur)
              && h == WithChild(a, e, before)
              && t == Linked(a, child, Shared(a, child, tables))
  {
    err, child, t, h := 0, cur, tables, before;
    if BadFlags(a) {
      err := -EINVAL;
      return;
    }
    h := h.(link := h.link.(siglock := 1));
    if !a.thread {
      h := h.(link := h.link.(delayedNode := h.link.delayedNode + 1));
    }
    h := h.(link := h.link.(siglock := 0));
    label fork_out: {
      err := -ERESTARTNOINTR;
      if e.signalPending {
        break fork_out;
      }
      err := -ENOMEM;
      var ok;
      var task;
      ok, task := DupTaskStruct(e, h.task);
      h := h.(task := task);
      if !ok {
        break fork_out;
      }
      var hasKthread;
      label bad_fork_free: {
        err, child, hasKthread, t, h := SetupTask(a, e, cur, t, h);
        if err == 0 {
          return;
        }
      }
      var dead := true;
      h := FreeTask(dead, hasKthread, h);
    }
    h := h.(link := h.link.(siglock := 1));
    if !a.thread {
      h := h.(link := h.link.(delayedNode := h.link.delayedNode - 1));
    }
    h := h.(link := h.link.(siglock := 0));
  }

  // ----- every fork, successful or not, keeps counters and holders in step

  type Field = Pointers -> Option<Id>

  const FS: Field := (p: Pointers) => Some(p.fs)
  const FILES: Field := (p: Pointers) => p.files
  const SIGHAND: Field := (p: Pointers) => Some(p.sighand)
  const MM: Field := (p: Pointers) => p.mm

  /** What a task was made as.  Idle tasks have no pid and are not counted as threads. */
  datatype Role = Process | Thread | Idle(thread: bool)

  function RoleOf(a: Args): Role {
    if a.initPid then Idle(a.thread) else if a.thread then Thread else Process
  }

  /** The tasks that hold a structure through one of their pointers. */
  ghost function Holders(tasks: map<nat, Pointers>, field: Field): map<nat, Id> {
    map t | t in tasks && field(tasks[t]).Some? :: field(tasks[t]).value
  }

  /** Every counter of a shared structure is the number of tasks that point at it. */
  ghost predicate StructuresInStep(t: Tables, tasks: map<nat, Pointers>) {
    && Counted(t.fs, Holders(tasks, FS))
    && Counted(t.files, Holders(tasks, FILES))
    && Counted(t.sighand, Holders(tasks, SIGHAND))
    && Counted(t.mm, Holders(tasks, MM))
  }

  /** The tasks that count in their signal_struct, all but idle ones that share it. */
  ghost function Threads(tasks: map<nat, Pointers>, roles: map<nat, Role>): map<nat, Id> {
    map t | t in tasks && t in roles && roles[t] != Idle(true) :: tasks[t].signal
  }

  ghost function ThreadCounts(signal: map<Id, Signal>): Counts {
    map id | id in signal :: signal[id].nrThreads
  }

  ghost function InRole(roles: map<nat, Role>, wanted: set<Role>): set<nat> {
    set t | t in roles && roles[t] in wanted
  }

  /** The three counters of every signal_struct are the number of its threads. */
  ghost predicate SignalsInStep(signal: map<Id, Signal>, tasks: map<nat, Pointers>, roles: map<nat, Role>) {
    EqualCounters(signal) && SignalsKnown(signal, tasks) && Counted(ThreadCounts(signal), Threads(tasks, roles))
  }

  /** Every counter of the system is the number of what it counts; nr_threads are the tasks that are
      not idle, process_counts the processes. */
  ghost predicate InStep(t: Tables, tasks: map<nat, Pointers>, roles: map<nat, Role>) {
    && roles.Keys == tasks.Keys
    && StructuresInStep(t, tasks)
    && SignalsInStep(t.signal, tasks, roles)
    && t.nrThreads == |InRole(roles, {Process, Thread})|
    && t.processCounts == |InRole(roles, {Process})|
  }

  lemma NewHolderCounts(m: Counts, tasks: map<nat, Pointers>, field: Field, id: nat, child: Pointers)
    requires Counted(m, Holders(tasks, field)) && id !in tasks
    ensures Counted(GetOptional(m, field(child)), Holders(tasks[id := child], field))
  {
    var before, after := Holders(tasks, field), Holders(tasks[id := child], field);
    match field(child)
    case None => assert after == before;
    case Some(s) =>
      GetCounts(m, before, id, s);
      assert after == before[id := s];
  }

  lemma ChildStructures(a: Args, t: Tables, tasks: map<nat, Pointers>, id: nat, child: Pointers)
    requires StructuresInStep(t, tasks) && id !in tasks
    requires child.signal in Shared(a, child, t).signal
    ensures StructuresInStep(Linked(a, child, Shared(a, child, t)), tasks[id := child])
  {
    NewHolderCounts(t.fs, tasks, FS, id, child);
    NewHolderCounts(t.files, tasks, FILES, id, child);
    NewHolderCounts(t.sighand, tasks, SIGHAND, id, child);
    NewHolderCounts(t.mm, tasks, MM, id, child);
  }

  /** The signal structures with the child in one of them. */
  function Joined(a: Args, signal: map<Id, Signal>, id: Id): map<Id, Signal>
    requires a.thread ==> id in signal
  {
    if !a.thread then signal[id := Signal(1, 1, 1)]
    else if a.initPid then signal
    else signal[id := Signal(signal[id].nrThreads + 1, signal[id].live + 1, signal[id].sigcnt + 1)]
  }

  lemma ThreadsPush(tasks: map<nat, Pointers>, roles: map<nat, Role>, id: nat, child: Pointers, role: Role)
    requires id !in tasks
    ensures Threads(tasks[id := child], roles[id := role]) ==
            if role == Idle(true) then Threads(tasks, roles) else Threads(tasks, roles)[id := child.signal]
  {
  }

  lemma JoinedCounts(a: Args, signal: map<Id, Signal>, id: Id)
    requires a.thread <==> id in signal
    ensures ThreadCounts(Joined(a, signal, id)) ==
            if RoleOf(a) == Idle(true) then ThreadCounts(signal) else Get(ThreadCounts(signal), id)
  {
  }

  ghost predicate EqualCounters(signal: map<Id, Signal>) {
    forall id :: id in signal ==> signal[id].nrThreads == signal[id].live == signal[id].sigcnt
  }

  ghost predicate SignalsKnown(signal: map<Id, Signal>, tasks: map<nat, Pointers>) {
    forall id :: id in tasks ==> tasks[id].signal in signal
  }

  lemma ChildSignals(a: Args, signal: map<Id, Signal>, tasks: map<nat, Pointers>, roles: map<nat, Role>,
                     id: nat, child: Pointers)
    requires Counted(ThreadCounts(signal), Threads(tasks, roles)) && id !in tasks
    requires a.thread <==> child.signal in signal
    ensures Counted(ThreadCounts(Joined(a, signal, child.signal)), Threads(tasks[id := child], roles[id := RoleOf(a)]))
  {
    var counts, threads := ThreadCounts(signal), Threads(tasks, roles);
    ThreadsPush(tasks, roles, id, child, RoleOf(a));
    JoinedCounts(a, signal, child.signal);
    if RoleOf(a) != Idle(true) {
      GetCounts(counts, threads, id, child.signal);
    }
  }

  lemma NewRole(roles: map<nat, Role>, id: nat, role: Role, wanted: set<Role>)
    requires id !in roles
    ensures |InRole(roles[id := role], wanted)| == |InRole(roles, wanted)| + if role in wanted then 1 else 0
  {
    var before, after := InRole(roles, wanted), InRole(roles[id := role], wanted);
    assert id !in before;
    assert after == if role in wanted then before + {id} else before;
  }

  lemma ChildSignalsInStep(a: Args, t: Tables, tasks: map<nat, Pointers>, roles: map<nat, Role>,
                           id: nat, child: Pointers)
    requires SignalsInStep(t.signal, tasks, roles) && id !in tasks
    requires a.thread <==> child.signal in t.signal
    ensures SignalsInStep(Linked(a, child, Shared(a, child, t)).signal, tasks[id := child], roles[id := RoleOf(a)])
  {
    ChildSignals(a, t.signal, tasks, roles, id, child);
    LinkedSignals(a, t, child);
    JoinedIsKnown(a, t.signal, tasks, id, child);
  }

  lemma JoinedIsKnown(a: Args, signal: map<Id, Signal>, tasks: map<nat, Pointers>, id: nat, child: Pointers)
    requires EqualCounters(signal) && SignalsKnown(signal, tasks) && (a.thread ==> child.signal in signal)
    ensures EqualCounters(Joined(a, signal, child.signal))
    ensures SignalsKnown(Joined(a, signal, child.signal), tasks[id := child])
  {
  }

  /** Sharing for a child, counting it and adding it to the task list are one transaction. */
  lemma ChildInStep(a: Args, t: Tables, tasks: map<nat, Pointers>, roles: map<nat, Role>, id: nat, child: Pointers)
    requires InStep(t, tasks, roles) && id !in tasks
    requires a.thread <==> child.signal in t.signal
    ensures InStep(Linked(a, child, Shared(a, child, t)), tasks[id := child], roles[id := RoleOf(a)])
  {
    var t' := Linked(a, child, Shared(a, child, t));
    ChildStructures(a, t, tasks, id, child);
    ChildSignalsInStep(a, t, tasks, roles, id, child);
    ChildNumbers(a, t, roles, id, child);
  }

  lemma ChildNumbers(a: Args, t: Tables, roles: map<nat, Role>, id: nat, child: Pointers)
    requires id !in roles && child.signal in Shared(a, child, t).signal
    requires t.nrThreads == |InRole(roles, {Process, Thread})| && t.processCounts == |InRole(roles, {Process})|
    ensures
      var t', roles' := Linked(a, child, Shared(a, child, t)), roles[id := RoleOf(a)];
      t'.nrThreads == |InRole(roles', {Process, Thread})| && t'.processCounts == |InRole(roles', {Process})|
  {
    NewRole(roles, id, RoleOf(a), {Process, Thread});
    NewRole(roles, id, RoleOf(a), {Process});
  }

  lemma LinkedSignals(a: Args, t: Tables, child: Pointers)
    requires a.thread <==> child.signal in t.signal
    ensures Linked(a, child, Shared(a, child, t)).signal == Joined(a, t.signal, child.signal)
  {
  }

  lemma HeldIsLive(m: Counts, tasks: map<nat, Pointers>, field: Field, id: nat)
    requires Counted(m, Holders(tasks, field)) && id in tasks
    ensures Live(m) && (field(tasks[id]).Some? ==> field(tasks[id]).value in m)
  {
    forall s | s in m ensures m[s] >= 1 {
      assert CountIs(m, Holders(tasks, field), s);
    }
    if field(tasks[id]).Some? {
      HolderCounts(m, Holders(tasks, field), id);
    }
  }

  /** A task of a system in step may fork. */
  lemma CallerReady(t: Tables, tasks: map<nat, Pointers>, current: nat, e: Env)
    requires StructuresInStep(t, tasks) && current in tasks && tasks[current].signal in t.signal && FreshIds(t, e)
    ensures Ready(t, tasks[current], e)
  {
    HeldIsLive(t.fs, tasks, FS, current);
    HeldIsLive(t.files, tasks, FILES, current);
    HeldIsLive(t.sighand, tasks, SIGHAND, current);
    HeldIsLive(t.mm, tasks, MM, current);
  }

  /** A structure that was not there before is the child's alone. */
  lemma FreshIsOwn(m: Counts, tasks: map<nat, Pointers>, field: Field, id: nat, child: Pointers)
    requires Counted(m, Holders(tasks, field)) && id !in tasks
    requires field(child).Some? && field(child).value !in m
    ensures HoldersOf(Holders(tasks[id := child], field), field(child).value) == {id}
  {
    var before, after := Holders(tasks, field), Holders(tasks[id := child], field);
    forall h | h in HoldersOf(after, field(child).value) ensures h == id {
      if h != id {
        HolderCounts(m, before, h);
      }
    }
    assert id in after;
  }

  /** The task shares the structure of another one, or is the only one to have its own, or has none. */
  ghost predicate SharesOrOwns(tasks: map<nat, Pointers>, field: Field, other: nat, id: nat, has: bool, shares: bool)
    requires id in tasks && other in tasks
  {
    && (!has ==> field(tasks[id]) == None)
    && (has && shares ==> field(tasks[id]).Some? && field(tasks[id]) == field(tasks[other]))
    && (has && !shares ==> field(tasks[id]).Some? && HoldersOf(Holders(tasks, field), field(tasks[id]).value) == {id})
  }

  /** What the clone flags mean: with the flag the child has the caller's structure, without it one of
      its own. */
  ghost predicate FlagsMean(a: Args, tasks: map<nat, Pointers>, current: nat, id: nat)
    requires current in tasks && id in tasks
  {
    && SharesOrOwns(tasks, FS, current, id, true, a.fs)
    && SharesOrOwns(tasks, FILES, current, id, tasks[current].files.Some? && !a.noFiles, a.files)
    && SharesOrOwns(tasks, SIGHAND, current, id, true, a.sighand)
    && SharesOrOwns(tasks, MM, current, id, tasks[current].mm.Some?, a.vm)
    && (a.thread ==> tasks[id].signal == tasks[current].signal)
    && (!a.thread ==> forall t :: t in tasks && t != id ==> tasks[t].signal != tasks[id].signal)
  }

  lemma NewStructureIsOwn(m: Counts, tasks: map<nat, Pointers>, field: Field, current: nat, id: nat, child: Pointers,
                          shares: bool)
    requires Counted(m, Holders(tasks, field)) && current in tasks && id !in tasks
    requires field(child).Some? ==> if shares then field(child) == field(tasks[current]) else field(child).value !in m
    ensures SharesOrOwns(tasks[id := child], field, current, id, field(child).Some?, shares)
  {
    if field(child).Some? && !shares {
      FreshIsOwn(m, tasks, field, id, child);
    }
  }

  lemma ChildSharesOrOwns(a: Args, e: Env, t: Tables, tasks: map<nat, Pointers>, current: nat, id: nat)
    requires StructuresInStep(t, tasks) && SignalsKnown(t.signal, tasks) && FreshIds(t, e)
    requires current in tasks && id !in tasks
    ensures FlagsMean(a, tasks[id := ChildPointers(a, e, tasks[current])], current, id)
  {
    var child := ChildPointers(a, e, tasks[current]);
    NewStructureIsOwn(t.fs, tasks, FS, current, id, child, a.fs);
    NewStructureIsOwn(t.files, tasks, FILES, current, id, child, a.files);
    NewStructureIsOwn(t.sighand, tasks, SIGHAND, current, id, child, a.sighand);
    NewStructureIsOwn(t.mm, tasks, MM, current, id, child, a.vm);
  }

  /** What is handed out with a child: a task with its stack, credentials, a place in the process count of
      its user, a pid unless it is idle, and a descriptor if one was asked for; no lock and no node on
      the multiprocess list is left. */
  lemma ChildTakes(a: Args, e: Env, h: Held)
    ensures
      var h' := WithChild(a, e, h);
      && h'.task.taskStruct == h.task.taskStruct + 1 && h'.task.stack == h.task.stack + 1
      && h'.task.stackCharge == h.task.stackCharge + 1 && h'.setup.nproc == h.setup.nproc + 1
      && h'.setup.creds == h.setup.creds + 1 && h'.link.pid == h.link.pid + (if a.initPid then 0 else 1)
      && h'.link.installedFd == h.link.installedFd + (if a.pidfd then 1 else 0)
      && h'.link.pidFile == h.link.pidFile && h'.link.unusedFd == h.link.unusedFd
      && h'.link.tasklistLock == h.link.tasklistLock && h'.link.siglock == h.link.siglock
      && h'.link.delayedNode == h.link.delayedNode && h'.link.cgroup == h.link.cgroup
  {
  }

  /** When a fork succeeds: no contradictory flags, nothing pending, and every step it needs works. */
  lemma SucceedsExactly(a: Args, e: Env, cur: Pointers, inExec: bool)
    requires Plausible(e)
    ensures Verdict(a, e, cur, inExec) == 0 <==>
            && !BadFlags(a) && !e.signalPending && !e.fatalSignal && !e.dyingPidNs
            && e.taskAlloc && e.archDup && e.stackAlloc && e.scs
            && e.creds == 0 && !e.overNproc && !e.tooManyThreads && (a.kthread ==> e.kthreadStruct) && e.mempolicy == 0
            && e.schedFork == e.perf == e.audit == e.security == e.semUndo == 0
            && (cur.files.Some? && !a.noFiles && !a.files ==> e.dupFd == 0)
            && (if a.fs then !inExec else e.fsAlloc)
            && (!a.sighand ==> e.sighandAlloc) && (!a.thread ==> e.signalAlloc) && (cur.mm.Some? && !a.vm ==> e.mmDup)
            && e.namespaces == e.io == e.copyThread == e.cgroup == 0 && (!a.initPid ==> e.allocPid == 0)
            && (a.pidfd ==> e.pidfdPrepare >= 0 && e.putUser == 0)
  {
  }

  /** A fork on values. */
  method ForkTask(tables: Tables, held: Held, tasks: map<nat, Pointers>, roles: map<nat, Role>,
                  current: nat, id: nat, a: Args, e: Env)
    returns (err: int, t: Tables, h: Held, ts: map<nat, Pointers>, rs: map<nat, Role>)
    requires Unlocked(held) && InStep(tables, tasks, roles)
    requires current in tasks && id !in tasks && Plausible(e) && FreshIds(tables, e)
    ensures err == Verdict(a, e, tasks[current], tasks[current].fs in tables.execing) <= 0
    ensures Unlocked(h) && InStep(t, ts, rs)
    ensures err < 0 ==> t == tables && h == held && ts == tasks && rs == roles
    ensures err == 0 ==>
              && ts == tasks[id := ChildPointers(a, e, tasks[current])] && rs == roles[id := RoleOf(a)]
              && h == WithChild(a, e, held) && FlagsMean(a, ts, current, id)
              && t.totalForks == tables.totalForks + 1
  {
    ts, rs := tasks, roles;
    CallerReady(tables, tasks, current, e);
    var child;
    err, child, t, h := CopyProcess(a, e, tasks[current], tables, held);
    if err == 0 {
      ChildInStep(a, tables, tasks, roles, id, child);
      ChildSharesOrOwns(a, e, tables, tasks, current, id);
      ts, rs := tasks[id := child], roles[id := RoleOf(a)];
    }
  }

  class Kernel {
    var tables: Tables
    var held: Held
    var tasks: map<nat, Pointers>
    var roles: map<nat, Role>

    /** Nobody is inside copy_process, and counters and holders agree. */
    ghost predicate Valid()
      reads this
    {
      Unlocked(held) && InStep(tables, tasks, roles)
    }

    /** A fork by task current; the child gets task id id. */
    method Fork(current: nat, id: nat, a: Args, e: Env) returns (err: int)
      requires Valid() && current in tasks && id !in tasks && Plausible(e) && FreshIds(tables, e)
      modifies this
      ensures Valid()
      ensures err == old(Verdict(a, e, tasks[current], tasks[current].fs in tables.execing)) <= 0
      ensures err < 0 ==> tables == old(tables) && held == old(held) && tasks == old(tasks) && roles == old(roles)
      ensures err == 0 ==>
                && tasks == old(tasks)[id := ChildPointers(a, e, old(tasks)[current])]
                && roles == old(roles)[id := RoleOf(a)]
                && held == WithChild(a, e, old(held))
      ensures err == 0 ==> current in tasks && id in tasks && FlagsMean(a, tasks, current, id)
      ensures err == 0 ==> tables.totalForks == old(tables).totalForks + 1
    {
      err, tables, held, tasks, roles := ForkTask(tables, held, tasks, roles, current, id, a, e);
    }
  }
}
