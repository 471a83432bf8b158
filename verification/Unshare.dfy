/** unshare: ksys_unshare, check_unshare_flags, unshare_fs and unshare_fd in Kernel/kernel/fork.c,
    among tasks that clone, exit and unshare at the same time.  Each stretch of code under a lock is
    one step. */
module Unshare {
  import opened Common
  import opened Errno
  import opened RefCounts

  // ----- flags

  datatype CloneFlag =
    | Thread | Fs | NewNs | SigHand | Vm | Files | SysVSem | NewUts | NewIpc | NewNet | NewUser | NewPid
    | NewCgroup | NewTime | Other(bit: nat)

  type Flags = set<CloneFlag>

  /** What unsharing one thing demands. */
  ghost predicate IsClosed(f: Flags) {
    && (NewUser in f ==> Thread in f && Fs in f)
    && (Vm in f ==> SigHand in f)
    && (SigHand in f ==> Thread in f)
    && (NewNs in f ==> Fs in f)
  }

  /** The four tests at the head of ksys_unshare: one pass gives the least closed superset. */
  method CloseFlags(flags: Flags) returns (f: Flags)
    ensures f == Close(flags)
    ensures flags <= f && IsClosed(f) && forall g: Flags :: flags <= g && IsClosed(g) ==> f <= g
  {
    f := flags;
    if NewUser in f {
      f := f + {Thread, Fs};
    }
    if Vm in f {
      f := f + {SigHand};
    }
    if SigHand in f {
      f := f + {Thread};
    }
    if NewNs in f {
      f := f + {Fs};
    }
  }

  function Close(f: Flags): Flags {
    f + (if NewUser in f || NewNs in f then {Fs} else {})
      + (if Vm in f then {SigHand} else {})
      + (if NewUser in f || Vm in f || SigHand in f then {Thread} else {})
  }

  /** What the flags ask of the caller: nothing unknown, and a process that shares no threads, no signal
      handlers and no memory where these are to be unshared. */
  predicate Permitted(f: Flags, groupEmpty: bool, sighandCount: nat, singleThreaded: bool) {
    && (forall x :: x in f ==> !x.Other?)
    && (Thread in f ==> groupEmpty) && (SigHand in f ==> sighandCount <= 1) && (Vm in f ==> singleThreaded)
  }

  /** check_unshare_flags.  On closed flags each test speaks about one flag. */
  method CheckUnshareFlags(f: Flags, groupEmpty: bool, sighandCount: nat, singleThreaded: bool) returns (ok: bool)
    ensures IsClosed(f) ==> (ok <==> Permitted(f, groupEmpty, sighandCount, singleThreaded))
  {
    if exists x :: x in f && x.Other? {
      return false;
    }
    if Thread in f || SigHand in f || Vm in f {
      if !groupEmpty {
        return false;
      }
    }
    if SigHand in f || Vm in f {
      if sighandCount > 1 {
        return false;
      }
    }
    if Vm in f {
      if !singleThreaded {
        return false;
      }
    }
    return true;
  }

  // ----- structures and who points at them

  type TaskId = nat

  /** A pointer to a structure: a task's own, or the variable new_fs or new_fd of its unshare call. */
  datatype Holder = Task(task: TaskId) | Call(task: TaskId)

  datatype Table = Table(users: Counts, holder: map<Holder, Id>)

  /** Counters, where a structure without users that still waits to be freed counts its one pointer. */
  ghost function Owned(users: Counts): Counts {
    map id | id in users :: if users[id] == 0 then 1 else users[id]
  }

  ghost predicate Accounted(tb: Table) {
    Counted(Owned(tb.users), tb.holder)
  }

  /** Nobody else points at a structure with at most one user. */
  lemma Alone(tb: Table, h: Holder, k: Holder)
    requires Accounted(tb) && h in tb.holder && k in tb.holder && tb.holder[h] == tb.holder[k]
    requires tb.holder[h] in tb.users && tb.users[tb.holder[h]] <= 1
    ensures h == k
  {
    var all := HoldersOf(tb.holder, tb.holder[h]);
    HolderCounts(Owned(tb.users), tb.holder, h);
    assert h in all && k in all && |all| == 1;
    if h != k {
      SubsetCardinality({h, k}, all);
    }
  }

  function Hold(tb: Table, h: Holder, id: Id): Table {
    Table(Get(tb.users, id), tb.holder[h := id])
  }

  /** One user less; the last one frees. */
  function Release(tb: Table, h: Holder): Table
    requires h in tb.holder && tb.holder[h] in tb.users
  {
    Table(Put(tb.users, tb.holder[h]), tb.holder - {h})
  }

  lemma HoldAccounted(tb: Table, h: Holder, id: Id)
    requires Accounted(tb) && h !in tb.holder && (id in tb.users ==> tb.users[id] >= 1)
    ensures Accounted(Hold(tb, h, id))
  {
    GetCounts(Owned(tb.users), tb.holder, h, id);
    assert Owned(Get(tb.users, id)) == Get(Owned(tb.users), id);
  }

  lemma ReleaseAccounted(tb: Table, h: Holder)
    requires Accounted(tb) && h in tb.holder && tb.holder[h] in tb.users
    ensures Accounted(Release(tb, h))
  {
    PutCounts(Owned(tb.users), tb.holder, h);
    assert Owned(Put(tb.users, tb.holder[h])) == Put(Owned(tb.users), tb.holder[h]);
  }

  // ----- calls in progress

  datatype Stage = Rest | CopyingFs | CopyingFd | Namespaces | Swapping | PuttingFd | FreeingFs

  /** Where a task is in ksys_unshare, and its (closed) flags; ok until something fails. */
  datatype Progress = Progress(stage: Stage, flags: Flags, ok: bool)

  const IDLE := Progress(Rest, {}, false)

  datatype State = State(fs: Table, files: Table, calls: map<TaskId, Progress>)

  function At(s: State, t: TaskId): Progress {
    if t in s.calls then s.calls[t] else IDLE
  }

  function Move(s: State, t: TaskId, stage: Stage): State {
    s.(calls := s.calls[t := At(s, t).(stage := stage)])
  }

  /** A failure jumps into the ladder of clean-up labels. */
  function Fail(s: State, t: TaskId, stage: Stage): State {
    s.(calls := s.calls[t := At(s, t).(stage := stage, ok := false)])
  }

  datatype Event =
    | Enter(task: TaskId, flags: Flags, allowed: bool)
    | UnshareFs(task: TaskId, copy: Option<Id>)
    | UnshareFd(task: TaskId, copy: Option<Id>)
    | MakeNamespaces(task: TaskId, ok: bool)
    | Swap(task: TaskId)
    | PutFd(task: TaskId)
    | FreeFs(task: TaskId)
    | Clone(task: TaskId, child: TaskId, kind: Kind, copy: Option<Id>)
    | ExitFs(task: TaskId)
    | ExitFiles(task: TaskId)

  /** When a step can happen: the task is there in its code, and what it allocates is new. */
  predicate Enabled(s: State, e: Event) {
    var c := At(s, e.task);
    match e {
      case Enter(_, _, _) => c.stage == Rest
      case UnshareFs(_, copy) => c.stage == CopyingFs && (copy.Some? ==> copy.value !in s.fs.users)
      case UnshareFd(_, copy) => c.stage == CopyingFd && (copy.Some? ==> copy.value !in s.files.users)
      case MakeNamespaces(_, _) => c.stage == Namespaces
      case Swap(_) => c.stage == Swapping
      case PutFd(_) => c.stage == PuttingFd
      case FreeFs(_) => c.stage == FreeingFs
      case Clone(t, child, kind, copy) =>
        && c.stage == Rest && At(s, child).stage == Rest && child != t
        && Task(child) !in Of(s, kind).holder && (copy.Some? ==> copy.value !in Of(s, kind).users)
      case ExitFs(_) => c.stage == Rest
      case ExitFiles(_) => c.stage == Rest
    }
  }

  // ----- the steps

  /** unshare_fs copies unless the structure has one user (read without a lock). */
  function UnshareFsStep(s: State, t: TaskId, copy: Option<Id>): State {
    var h := s.fs.holder;
    if Fs !in At(s, t).flags || Task(t) !in h || (h[Task(t)] in s.fs.users && s.fs.users[h[Task(t)]] == 1) then
      Move(s, t, CopyingFd)
    else if copy.None? then Fail(s, t, Rest)
    else Move(s.(fs := Hold(s.fs, Call(t), copy.value)), t, CopyingFd)
  }

  /** unshare_fd. */
  function UnshareFdStep(s: State, t: TaskId, copy: Option<Id>): State {
    var h := s.files.holder;
    if Files !in At(s, t).flags || Task(t) !in h || (h[Task(t)] in s.files.users && s.files.users[h[Task(t)]] <= 1) then
      Move(s, t, Namespaces)
    else if copy.None? then Fail(s, t, FreeingFs)
    else Move(s.(files := Hold(s.files, Call(t), copy.value)), t, Namespaces)
  }

  /** current->fs = new_fs, and one user less of the old one; the call keeps the old one if that was
      the last. */
  function SwapFs(tb: Table, t: TaskId): Table {
    if Call(t) !in tb.holder || Task(t) !in tb.holder || tb.holder[Task(t)] !in tb.users then tb else
      var prior := tb.holder[Task(t)];
      var left := if tb.users[prior] == 0 then 0 else tb.users[prior] - 1;
      var holder := tb.holder[Task(t) := tb.holder[Call(t)]];
      Table(tb.users[prior := left], if left > 0 then holder - {Call(t)} else holder[Call(t) := prior])
  }

  /** swap(current->files, new_fd). */
  function SwapFiles(tb: Table, t: TaskId): Table {
    if Call(t) !in tb.holder || Task(t) !in tb.holder then tb else
      tb.(holder := tb.holder[Task(t) := tb.holder[Call(t)]][Call(t) := tb.holder[Task(t)]])
  }

  /** put_files_struct and free_fs_struct of a pointer that may be NULL, and the put at a task's exit. */
  function Drop(tb: Table, h: Holder): Table {
    if h in tb.holder && tb.holder[h] in tb.users then Release(tb, h) else tb
  }

  /** copy_fs and copy_files: share the parent's structure, or have a copy. */
  function Inherit(tb: Table, t: TaskId, child: TaskId, copy: Option<Id>): Table {
    if Task(t) !in tb.holder then tb
    else Hold(tb, Task(child), if copy.Some? then copy.value else tb.holder[Task(t)])
  }

  function After(s: State, e: Event): State {
    match e
    case Enter(t, flags, allowed) =>
      s.(calls := s.calls[t := Progress(if allowed then CopyingFs else Rest, Close(flags), allowed)])
    case UnshareFs(t, copy) => UnshareFsStep(s, t, copy)
    case UnshareFd(t, copy) => UnshareFdStep(s, t, copy)
    case MakeNamespaces(t, ok) => if ok then Move(s, t, Swapping) else Fail(s, t, PuttingFd)
    case Swap(t) => Move(s.(fs := SwapFs(s.fs, t), files := SwapFiles(s.files, t)), t, PuttingFd)
    case PutFd(t) => Move(s.(files := Drop(s.files, Call(t))), t, FreeingFs)
    case FreeFs(t) => Move(s.(fs := Drop(s.fs, Call(t))), t, Rest)
    case Clone(t, child, kind, copy) =>
      With(s, kind, Inherit(Of(s, kind), t, child, copy)).(calls := s.calls[t := IDLE][child := IDLE])
    case ExitFs(t) => s.(fs := Drop(s.fs, Task(t)), calls := s.calls[t := IDLE])
    case ExitFiles(t) => s.(files := Drop(s.files, Task(t)), calls := s.calls[t := IDLE])
  }

  // ----- the invariant

  ghost predicate Installed(c: Progress) {
    c.ok && (c.stage == PuttingFd || c.stage == FreeingFs)
  }

  /** Past the copying of a structure without a failure. */
  ghost predicate Done(c: Progress, flag: CloneFlag, copying: set<Stage>) {
    c.ok && flag in c.flags && c.stage !in copying
  }

  /** Only the way out knows failure. */
  ghost predicate Sane(c: Progress) {
    c.stage in {CopyingFs, CopyingFd, Namespaces, Swapping} ==> c.ok
  }

  /** The two kinds of structures, with the flag that unshares them, the stages before they are copied
      and those in which a call may point at one. */
  datatype Kind = FsKind | FilesKind {
    function Flag(): CloneFlag {
      if FsKind? then Fs else Files
    }

    function Copying(): set<Stage> {
      if FsKind? then {CopyingFs} else {CopyingFs, CopyingFd}
    }

    function Holding(): set<Stage> {
      if FsKind? then {CopyingFd, Namespaces, Swapping, PuttingFd, FreeingFs} else {Namespaces, Swapping, PuttingFd}
    }
  }

  function Of(s: State, kind: Kind): Table {
    if kind.FsKind? then s.fs else s.files
  }

  function With(s: State, kind: Kind, tb: Table): State {
    if kind.FsKind? then s.(fs := tb) else s.(files := tb)
  }

  /** A call's pointer is to its copy, which has one user, or after the swap to the old structure: an fs
      structure that has none left, or a descriptor table it has yet to put.  Once the call is past
      the copying, the task's structure is its own or has its replacement ready. */
  ghost predicate Fits(kind: Kind, tb: Table, t: TaskId, c: Progress) {
    && Sane(c)
    && (Task(t) in tb.holder ==> tb.holder[Task(t)] in tb.users && tb.users[tb.holder[Task(t)]] >= 1)
    && (Call(t) in tb.holder ==>
          && Task(t) in tb.holder && c.stage in kind.Holding() && tb.holder[Call(t)] in tb.users
          && var users := tb.users[tb.holder[Call(t)]];
          if !Installed(c) then users == 1 else if kind.FsKind? then users == 0 else users >= 1)
    && (Done(c, kind.Flag(), kind.Copying()) && Task(t) in tb.holder && (Call(t) in tb.holder ==> Installed(c)) ==>
          tb.users[tb.holder[Task(t)]] == 1)
  }

  ghost predicate InvOf(s: State, kind: Kind) {
    Accounted(Of(s, kind)) && forall t :: Fits(kind, Of(s, kind), t, At(s, t))
  }

  ghost predicate Inv(s: State) {
    InvOf(s, FsKind) && InvOf(s, FilesKind)
  }

  // ----- what one step does to the structures of either kind

  /** Two pointers to the same structure. */
  ghost predicate Meet(tb: Table, a: Holder, b: Holder) {
    a in tb.holder && b in tb.holder && tb.holder[a] == tb.holder[b]
  }

  ghost predicate UsedTwice(tb: Table, a: Holder)
    requires a in tb.holder
  {
    tb.holder[a] in tb.users && tb.users[tb.holder[a]] > 1
  }

  /** Where pointers of two tasks meet there are two users. */
  lemma OthersApart(kind: Kind, s: State, t: TaskId, u: TaskId)
    requires InvOf(s, kind) && u != t
    ensures Meet(Of(s, kind), Task(t), Task(u)) ==> UsedTwice(Of(s, kind), Task(t))
    ensures Meet(Of(s, kind), Task(t), Call(u)) ==> UsedTwice(Of(s, kind), Task(t))
    ensures Meet(Of(s, kind), Call(t), Task(u)) ==> UsedTwice(Of(s, kind), Call(t))
    ensures Meet(Of(s, kind), Call(t), Call(u)) ==> UsedTwice(Of(s, kind), Call(t))
  {
    var tb := Of(s, kind);
    forall a, b | a in {Task(t), Call(t)} && b in {Task(u), Call(u)} && Meet(tb, a, b) ensures UsedTwice(tb, a) {
      assert Fits(kind, tb, t, At(s, t)) && Fits(kind, tb, u, At(s, u));
      if tb.users[tb.holder[a]] <= 1 {
        Alone(tb, a, b);
      }
    }
  }

  lemma HoldFits(kind: Kind, s: State, t: TaskId, copy: Id, c: Progress)
    requires InvOf(s, kind) && copy !in Of(s, kind).users
    requires Task(t) in Of(s, kind).holder && Call(t) !in Of(s, kind).holder
    requires c.stage in kind.Holding() && !Installed(c) && Sane(c)
    ensures
      var tb := Hold(Of(s, kind), Call(t), copy);
      Accounted(tb) && Fits(kind, tb, t, c) && forall u :: u != t ==> Fits(kind, tb, u, At(s, u))
  {
    var was := Of(s, kind);
    HoldAccounted(was, Call(t), copy);
    assert Fits(kind, was, t, At(s, t));
    forall u | u != t ensures Fits(kind, Hold(was, Call(t), copy), u, At(s, u)) {
      assert Fits(kind, was, u, At(s, u));
    }
  }

  lemma InheritFits(kind: Kind, s: State, t: TaskId, child: TaskId, copy: Option<Id>)
    requires InvOf(s, kind) && At(s, t).stage == Rest && At(s, child).stage == Rest && child != t
    requires Task(child) !in Of(s, kind).holder && (copy.Some? ==> copy.value !in Of(s, kind).users)
    ensures
      var tb := Inherit(Of(s, kind), t, child, copy);
      && Accounted(tb) && Fits(kind, tb, t, IDLE) && Fits(kind, tb, child, IDLE)
      && forall u :: u != t && u != child ==> Fits(kind, tb, u, At(s, u))
  {
    var was := Of(s, kind);
    assert Fits(kind, was, t, At(s, t)) && Fits(kind, was, child, At(s, child));
    var tb := Inherit(was, t, child, copy);
    if Task(t) in was.holder {
      HoldAccounted(was, Task(child), if copy.Some? then copy.value else was.holder[Task(t)]);
    }
    forall u | u != t && u != child ensures Fits(kind, tb, u, At(s, u)) {
      assert Fits(kind, was, u, At(s, u));
      OthersApart(kind, s, t, u);
    }
  }

  /** The task's own pointer, at its exit. */
  lemma DropTask(kind: Kind, s: State, t: TaskId)
    requires InvOf(s, kind) && Call(t) !in Of(s, kind).holder
    ensures Accounted(Drop(Of(s, kind), Task(t))) && Fits(kind, Drop(Of(s, kind), Task(t)), t, IDLE)
  {
    assert Fits(kind, Of(s, kind), t, At(s, t));
    if Task(t) in Of(s, kind).holder {
      ReleaseAccounted(Of(s, kind), Task(t));
    }
  }

  /** The structure a call has left over: its copy, or after the swap the old one. */
  lemma DropCall(kind: Kind, s: State, t: TaskId)
    requires InvOf(s, kind) && At(s, t).stage == if kind.FsKind? then FreeingFs else PuttingFd
    ensures
      var tb := Drop(Of(s, kind), Call(t));
      && Accounted(tb) && Call(t) !in tb.holder
      && Fits(kind, tb, t, At(s, t).(stage := if kind.FsKind? then Rest else FreeingFs))
  {
    var was := Of(s, kind);
    assert Fits(kind, was, t, At(s, t));
    if Call(t) in was.holder {
      ReleaseAccounted(was, Call(t));
      if was.holder[Task(t)] == was.holder[Call(t)] && was.users[was.holder[Call(t)]] <= 1 {
        Alone(was, Task(t), Call(t));
      }
    }
  }

  lemma DropOthers(kind: Kind, s: State, t: TaskId, h: Holder)
    requires InvOf(s, kind) && h in {Task(t), Call(t)}
    ensures forall u :: u != t ==> Fits(kind, Drop(Of(s, kind), h), u, At(s, u))
  {
    forall u | u != t ensures Fits(kind, Drop(Of(s, kind), h), u, At(s, u)) {
      assert Fits(kind, Of(s, kind), u, At(s, u)) && Fits(kind, Of(s, kind), t, At(s, t));
      OthersApart(kind, s, t, u);
    }
  }

  // ----- the swap

  /** A call's pointer is never the task's. */
  lemma FsOldIsElsewhere(s: State, t: TaskId)
    requires InvOf(s, FsKind) && Call(t) in s.fs.holder
    ensures Task(t) in s.fs.holder && s.fs.holder[Task(t)] != s.fs.holder[Call(t)]
  {
    assert Fits(FsKind, s.fs, t, At(s, t));
    if s.fs.holder[Task(t)] == s.fs.holder[Call(t)] {
      Alone(s.fs, Task(t), Call(t));
    }
  }

  lemma FsSwap(s: State, t: TaskId)
    requires InvOf(s, FsKind) && At(s, t).stage == Swapping
    ensures Accounted(SwapFs(s.fs, t)) && Fits(FsKind, SwapFs(s.fs, t), t, At(s, t).(stage := PuttingFd))
    ensures forall u :: u != t ==> Fits(FsKind, SwapFs(s.fs, t), u, At(s, u))
  {
    var tb := s.fs;
    assert Fits(FsKind, tb, t, At(s, t));
    if Call(t) in tb.holder {
      FsOldIsElsewhere(s, t);
      if tb.users[tb.holder[Task(t)]] == 1 {
        SwapLast(tb, t);
      } else {
        SwapShared(tb, t);
      }
    }
    forall u | u != t ensures Fits(FsKind, SwapFs(tb, t), u, At(s, u)) {
      assert Fits(FsKind, tb, u, At(s, u));
      OthersApart(FsKind, s, t, u);
    }
  }

  /** The task was the last user: the pointers change places, the old structure waits. */
  lemma SwapLast(tb: Table, t: TaskId)
    requires Accounted(tb) && Call(t) in tb.holder && Task(t) in tb.holder && tb.holder[Task(t)] in tb.users
    requires tb.users[tb.holder[Task(t)]] == 1
    ensures Accounted(SwapFs(tb, t))
  {
    assert Owned(SwapFs(tb, t).users) == Owned(tb.users);
    SwapCounted(Owned(tb.users), tb.holder, Task(t), Call(t));
  }

  /** Somebody else stays with the old structure. */
  lemma SwapShared(tb: Table, t: TaskId)
    requires Accounted(tb) && Call(t) in tb.holder && Task(t) in tb.holder && tb.holder[Task(t)] in tb.users
    requires tb.users[tb.holder[Task(t)]] > 1
    ensures Accounted(SwapFs(tb, t))
  {
    var one := Release(tb, Task(t));
    ReleaseAccounted(tb, Task(t));
    RenameCounted(Owned(one.users), one.holder, Call(t), Task(t));
    assert SwapFs(tb, t) == Table(one.users, (one.holder - {Call(t)})[Task(t) := one.holder[Call(t)]]) by {
      assert SwapFs(tb, t).holder == (one.holder - {Call(t)})[Task(t) := one.holder[Call(t)]];
    }
  }

  lemma RenameCounted(m: Counts, holder: map<Holder, Id>, h: Holder, k: Holder)
    requires Counted(m, holder) && h in holder && k !in holder
    ensures Counted(m, (holder - {h})[k := holder[h]])
  {
    var id := holder[h];
    HolderCounts(m, holder, h);
    PutCounts(m, holder, h);
    GetCounts(Put(m, id), holder - {h}, k, id);
    assert Get(Put(m, id), id) == m;
  }

  lemma SwapCounted(m: Counts, holder: map<Holder, Id>, h: Holder, k: Holder)
    requires Counted(m, holder) && h in holder && k in holder && h != k
    ensures Counted(m, holder[h := holder[k]][k := holder[h]])
  {
    var a, b := holder[h], holder[k];
    HolderCounts(m, holder, h);
    PutCounts(m, holder, h);
    RenameCounted(Put(m, a), holder - {h}, k, h);
    var mid := (holder - {h} - {k})[h := b];
    GetCounts(Put(m, a), mid, k, a);
    assert Get(Put(m, a), a) == m;
    assert mid[k := a] == holder[h := b][k := a];
  }

  lemma FilesSwap(s: State, t: TaskId)
    requires InvOf(s, FilesKind) && At(s, t).stage == Swapping
    ensures Accounted(SwapFiles(s.files, t)) && Fits(FilesKind, SwapFiles(s.files, t), t, At(s, t).(stage := PuttingFd))
    ensures forall u :: u != t ==> Fits(FilesKind, SwapFiles(s.files, t), u, At(s, u))
  {
    assert Fits(FilesKind, s.files, t, At(s, t));
    if Call(t) in s.files.holder {
      SwapCounted(Owned(s.files.users), s.files.holder, Task(t), Call(t));
    }
    forall u | u != t ensures Fits(FilesKind, SwapFiles(s.files, t), u, At(s, u)) {
      assert Fits(FilesKind, s.files, u, At(s, u));
    }
  }

  // ----- every step keeps the invariants

  /** The state after a step, whose tasks fit one by one. */
  lemma Together(kind: Kind, s: State, s': State, t: TaskId)
    requires Accounted(Of(s', kind)) && Fits(kind, Of(s', kind), t, At(s', t))
    requires forall u :: u != t ==> At(s', u) == At(s, u) && Fits(kind, Of(s', kind), u, At(s, u))
    ensures InvOf(s', kind)
  {
    forall u ensures Fits(kind, Of(s', kind), u, At(s', u)) {
      assert u != t ==> At(s', u) == At(s, u);
    }
  }

  /** Steps of the call that leave the table alone. */
  ghost predicate PassesBy(kind: Kind, c: Progress, c': Progress) {
    || (c.stage == Rest && c'.stage == CopyingFs && c'.ok)
    || (c.stage == Rest && c'.stage == Rest && !c'.ok)
    || (kind.FilesKind? && c.stage == CopyingFs && c' == c.(stage := CopyingFd))
    || (kind.FilesKind? && c.stage == CopyingFs && c' == c.(stage := Rest, ok := false))
    || (kind.FsKind? && c.stage == CopyingFd && c' == c.(stage := Namespaces))
    || (kind.FsKind? && c.stage == CopyingFd && c' == c.(stage := FreeingFs, ok := false))
    || (c.stage == Namespaces && c' == c.(stage := Swapping))
    || (c.stage == Namespaces && c' == c.(stage := PuttingFd, ok := false))
    || (kind.FsKind? && c.stage == PuttingFd && c' == c.(stage := FreeingFs))
    || (kind.FilesKind? && c.stage == FreeingFs && c' == c.(stage := Rest))
  }

  lemma PassingByKeeps(kind: Kind, tb: Table, t: TaskId, c: Progress, c': Progress)
    requires Fits(kind, tb, t, c) && PassesBy(kind, c, c')
    ensures Fits(kind, tb, t, c')
  {
  }

  lemma QuietKeeps(kind: Kind, s: State, s': State, t: TaskId)
    requires InvOf(s, kind) && Of(s', kind) == Of(s, kind) && PassesBy(kind, At(s, t), At(s', t))
    requires forall u :: u != t ==> At(s', u) == At(s, u)
    ensures InvOf(s', kind)
  {
    PassingByKeeps(kind, Of(s, kind), t, At(s, t), At(s', t));
    forall u | u != t ensures Fits(kind, Of(s, kind), u, At(s, u)) {}
    Together(kind, s, s', t);
  }

  ghost predicate Quiet(kind: Kind, e: Event) {
    || e.Enter? || e.MakeNamespaces?
    || (kind.FsKind? && (e.UnshareFd? || e.PutFd? || e.ExitFiles?))
    || (kind.FilesKind? && (e.UnshareFs? || e.FreeFs? || e.ExitFs?))
  }

  lemma QuietStepKeeps(kind: Kind, s: State, e: Event)
    requires InvOf(s, kind) && Enabled(s, e) && Quiet(kind, e)
    ensures InvOf(After(s, e), kind)
  {
    QuietKeeps(kind, s, After(s, e), e.task);
  }

  lemma UnshareFsKeeps(s: State, t: TaskId, copy: Option<Id>)
    requires InvOf(s, FsKind) && Enabled(s, UnshareFs(t, copy))
    ensures InvOf(UnshareFsStep(s, t, copy), FsKind)
  {
    var s' := UnshareFsStep(s, t, copy);
    assert Fits(FsKind, s.fs, t, At(s, t));
    if s'.fs != s.fs {
      HoldFits(FsKind, s, t, copy.value, At(s', t));
    }
    Together(FsKind, s, s', t);
  }

  lemma UnshareFdKeeps(s: State, t: TaskId, copy: Option<Id>)
    requires InvOf(s, FilesKind) && Enabled(s, UnshareFd(t, copy))
    ensures InvOf(UnshareFdStep(s, t, copy), FilesKind)
  {
    var s' := UnshareFdStep(s, t, copy);
    assert Fits(FilesKind, s.files, t, At(s, t));
    if s'.files != s.files {
      HoldFits(FilesKind, s, t, copy.value, At(s', t));
    }
    Together(FilesKind, s, s', t);
  }

  /** The steps that give a pointer up. */
  lemma DropStepKeeps(kind: Kind, s: State, e: Event)
    requires InvOf(s, kind) && Enabled(s, e)
    requires if kind.FsKind? then e.FreeFs? || e.ExitFs? else e.PutFd? || e.ExitFiles?
    ensures InvOf(After(s, e), kind)
  {
    var t := e.task;
    assert Fits(kind, Of(s, kind), t, At(s, t));
    if e.FreeFs? || e.PutFd? {
      DropCall(kind, s, t);
      DropOthers(kind, s, t, Call(t));
    } else {
      DropTask(kind, s, t);
      DropOthers(kind, s, t, Task(t));
    }
    Together(kind, s, After(s, e), t);
  }

  lemma SwapKeeps(s: State, t: TaskId)
    requires Inv(s) && Enabled(s, Swap(t))
    ensures Inv(After(s, Swap(t)))
  {
    FsSwap(s, t);
    FilesSwap(s, t);
    Together(FsKind, s, After(s, Swap(t)), t);
    Together(FilesKind, s, After(s, Swap(t)), t);
  }

  lemma CloneKeeps(kind: Kind, s: State, e: Event)
    requires InvOf(s, kind) && Enabled(s, e) && e.Clone?
    ensures InvOf(After(s, e), kind)
  {
    var s', t, child := After(s, e), e.task, e.child;
    if e.kind == kind {
      InheritFits(kind, s, t, child, e.copy);
    } else {
      PassingByKeeps(kind, Of(s, kind), t, At(s, t), IDLE);
      PassingByKeeps(kind, Of(s, kind), child, At(s, child), IDLE);
    }
    forall u ensures Fits(kind, Of(s', kind), u, At(s', u)) {
      assert u != t && u != child ==> At(s', u) == At(s, u) && Fits(kind, Of(s, kind), u, At(s, u));
    }
  }

  lemma StepKeeps(s: State, e: Event)
    requires Inv(s) && Enabled(s, e)
    ensures Inv(After(s, e))
  {
    if e.Clone? {
      CloneKeeps(FsKind, s, e);
      CloneKeeps(FilesKind, s, e);
    } else if e.Swap? {
      SwapKeeps(s, e.task);
    } else {
      if e.UnshareFs? {
        UnshareFsKeeps(s, e.task, e.copy);
      } else if e.FreeFs? || e.ExitFs? {
        DropStepKeeps(FsKind, s, e);
      } else {
        QuietStepKeeps(FsKind, s, e);
      }
      if e.UnshareFd? {
        UnshareFdKeeps(s, e.task, e.copy);
      } else if e.PutFd? || e.ExitFiles? {
        DropStepKeeps(FilesKind, s, e);
      } else {
        QuietStepKeeps(FilesKind, s, e);
      }
    }
  }

  /** A structure is copied only if it is to be unshared and somebody else uses it too. */
  lemma CopiesOnlyShared(s: State, t: TaskId, copy: Option<Id>)
    requires Inv(s)
    ensures UnshareFsStep(s, t, copy).fs != s.fs ==>
              && Fs in At(s, t).flags && Task(t) in s.fs.holder
              && s.fs.holder[Task(t)] in s.fs.users && s.fs.users[s.fs.holder[Task(t)]] > 1
    ensures UnshareFdStep(s, t, copy).files != s.files ==>
              && Files in At(s, t).flags && Task(t) in s.files.holder
              && s.files.holder[Task(t)] in s.files.users && s.files.users[s.files.holder[Task(t)]] > 1
    ensures UnshareFsStep(s, t, copy).files == s.files && UnshareFdStep(s, t, copy).fs == s.fs
  {
    assert Fits(FsKind, s.fs, t, At(s, t)) && Fits(FilesKind, s.files, t, At(s, t));
  }

  // ----- runs

  ghost predicate Run(s: State, events: seq<Event>, last: State)
    decreases |events|
  {
    if events == [] then s == last else Enabled(s, events[0]) && Run(After(s, events[0]), events[1..], last)
  }

  lemma {:induction false} RunKeeps(s: State, events: seq<Event>, last: State)
    requires Inv(s) && Run(s, events, last)
    ensures Inv(last)
    decreases |events|
  {
    if events != [] {
      StepKeeps(s, events[0]);
      RunKeeps(After(s, events[0]), events[1..], last);
    }
  }

  /** The tasks that point at a structure. */
  ghost function TasksOf(tb: Table, id: Id): set<Holder> {
    set h | h in tb.holder && h.Task? && tb.holder[h] == id
  }

  /** After any run with no call under way, each counter is the number of tasks that use the
      structure, and a structure without users is gone. */
  lemma CountsAreTasks(s: State, events: seq<Event>, last: State, id: Id)
    requires Inv(s) && Run(s, events, last) && forall t :: At(last, t).stage == Rest
    ensures id in last.fs.users <==> TasksOf(last.fs, id) != {}
    ensures id in last.fs.users ==> last.fs.users[id] == |TasksOf(last.fs, id)|
    ensures id in last.files.users <==> TasksOf(last.files, id) != {}
    ensures id in last.files.users ==> last.files.users[id] == |TasksOf(last.files, id)|
  {
    RunKeeps(s, events, last);
    forall h | h in last.fs.holder ensures IsUser(last.fs, h) {
      assert Fits(FsKind, last.fs, h.task, At(last, h.task)) && At(last, h.task).stage == Rest;
    }
    forall h | h in last.files.holder ensures IsUser(last.files, h) {
      assert Fits(FilesKind, last.files, h.task, At(last, h.task)) && At(last, h.task).stage == Rest;
    }
    OnlyTasks(last.fs, id);
    OnlyTasks(last.files, id);
  }

  ghost predicate IsUser(tb: Table, h: Holder)
    requires h in tb.holder
  {
    h.Task? && tb.holder[h] in tb.users && tb.users[tb.holder[h]] >= 1
  }

  lemma OnlyTasks(tb: Table, id: Id)
    requires Accounted(tb) && forall h :: h in tb.holder ==> IsUser(tb, h)
    ensures id in tb.users <==> TasksOf(tb, id) != {}
    ensures id in tb.users ==> tb.users[id] == |TasksOf(tb, id)|
  {
    assert forall h :: h in HoldersOf(tb.holder, id) ==> IsUser(tb, h);
    assert TasksOf(tb, id) == HoldersOf(tb.holder, id);
    if id in tb.users {
      assert CountIs(Owned(tb.users), tb.holder, id);
      var h :| h in HoldersOf(tb.holder, id);
      assert IsUser(tb, h);
    }
  }

  /** Whatever the other tasks did meanwhile, an unshare that succeeded leaves the caller alone with
      its fs structure and descriptor table, as asked. */
  lemma SuccessMeansOwn(s: State, events: seq<Event>, last: State, t: TaskId)
    requires Inv(s) && Run(s, events, last) && At(last, t).stage == Rest && At(last, t).ok
    ensures OnItsOwn(last, t)
  {
    RunKeeps(s, events, last);
    OwnWhenDone(last, t);
  }

  /** The task is alone with what it asked for. */
  ghost predicate OnItsOwn(s: State, t: TaskId) {
    && (Fs in At(s, t).flags && Task(t) in s.fs.holder ==>
          HoldersOf(s.fs.holder, s.fs.holder[Task(t)]) == {Task(t)})
    && (Files in At(s, t).flags && Task(t) in s.files.holder ==>
          HoldersOf(s.files.holder, s.files.holder[Task(t)]) == {Task(t)})
  }

  lemma OwnWhenDone(s: State, t: TaskId)
    requires Inv(s) && At(s, t).stage == Rest && At(s, t).ok
    ensures OnItsOwn(s, t)
  {
    assert Fits(FsKind, s.fs, t, At(s, t)) && Fits(FilesKind, s.files, t, At(s, t));
    if Fs in At(s, t).flags && Task(t) in s.fs.holder {
      SoleHolder(s.fs, Task(t));
    }
    if Files in At(s, t).flags && Task(t) in s.files.holder {
      SoleHolder(s.files, Task(t));
    }
  }

  lemma SoleHolder(tb: Table, h: Holder)
    requires Accounted(tb) && h in tb.holder && tb.holder[h] in tb.users && tb.users[tb.holder[h]] == 1
    ensures HoldersOf(tb.holder, tb.holder[h]) == {h}
  {
    forall k | k in HoldersOf(tb.holder, tb.holder[h]) ensures k == h {
      Alone(tb, k, h);
    }
  }

  /** No pointer of a task or a call dangles, so no step frees twice or uses what is freed; and a
      structure is freed by the very step that takes its last pointer away. */
  lemma FreedOnceAtZero(s: State, events: seq<Event>, last: State, e: Event, id: Id)
    requires Inv(s) && Run(s, events, last) && Enabled(last, e)
    ensures forall h :: h in last.fs.holder ==> last.fs.holder[h] in last.fs.users
    ensures forall h :: h in last.files.holder ==> last.files.holder[h] in last.files.users
    ensures id in last.fs.users ==>
              (id !in After(last, e).fs.users <==> HoldersOf(After(last, e).fs.holder, id) == {})
    ensures id in last.files.users ==>
              (id !in After(last, e).files.users <==> HoldersOf(After(last, e).files.holder, id) == {})
  {
    RunKeeps(s, events, last);
    StepKeeps(last, e);
    LiveIffHeld(last.fs);
    LiveIffHeld(last.files);
    LiveIffHeld(After(last, e).fs);
    LiveIffHeld(After(last, e).files);
  }

  lemma LiveIffHeld(tb: Table)
    requires Accounted(tb)
    ensures forall h :: h in tb.holder ==> tb.holder[h] in tb.users
    ensures forall id :: id in tb.users <==> HoldersOf(tb.holder, id) != {}
  {
    forall h | h in tb.holder ensures tb.holder[h] in tb.users {
      HolderCounts(Owned(tb.users), tb.holder, h);
    }
    forall id ensures id in tb.users <==> HoldersOf(tb.holder, id) != {} {
      if id in tb.users {
        assert CountIs(Owned(tb.users), tb.holder, id);
      }
    }
  }

  /** Somebody else's step that does not make the task either. */
  predicate Aside(e: Event, t: TaskId) {
    e.task != t && (e.Clone? ==> e.child != t)
  }

  ghost predicate AllAside(events: seq<Event>, t: TaskId) {
    forall i :: 0 <= i < |events| ==> Aside(events[i], t)
  }

  /** Of the task itself, only the steps of its call; nobody makes it anew. */
  ghost predicate DuringCall(e: Event, t: TaskId) {
    && (e.task == t ==> e.UnshareFs? || e.UnshareFd? || e.MakeNamespaces? || e.Swap? || e.PutFd? || e.FreeFs?)
    && (e.Clone? ==> e.child != t)
  }

  ghost function Pointer(tb: Table, t: TaskId): Option<Id> {
    if Task(t) in tb.holder then Some(tb.holder[Task(t)]) else None
  }

  /** Success is not taken back. */
  lemma {:induction false} OkStays(s: State, events: seq<Event>, last: State, t: TaskId)
    requires Run(s, events, last) && At(s, t).ok && At(s, t).stage in {PuttingFd, FreeingFs, Rest}
    requires forall i :: 0 <= i < |events| ==> DuringCall(events[i], t)
    ensures At(last, t).ok
    decreases |events|
  {
    if events != [] {
      assert DuringCall(events[0], t);
      OkStays(After(s, events[0]), events[1..], last, t);
    }
  }

  lemma PointersStay(s: State, e: Event, t: TaskId)
    requires DuringCall(e, t) && e != Swap(t)
    ensures Pointer(After(s, e).fs, t) == Pointer(s.fs, t) && Pointer(After(s, e).files, t) == Pointer(s.files, t)
  {
  }

  /** An unshare that fails, at whatever point, leaves the caller with the structures it had. */
  lemma {:induction false} FailureChangesNothing(s: State, events: seq<Event>, last: State, t: TaskId)
    requires Inv(s) && Run(s, events, last) && !At(last, t).ok
    requires forall i :: 0 <= i < |events| ==> DuringCall(events[i], t)
    ensures Pointer(last.fs, t) == Pointer(s.fs, t) && Pointer(last.files, t) == Pointer(s.files, t)
    decreases |events|
  {
    if events != [] {
      var e := events[0];
      assert DuringCall(e, t);
      assert Fits(FsKind, s.fs, t, At(s, t));
      if e == Swap(t) {
        OkStays(After(s, e), events[1..], last, t);
        assert false;
      }
      PointersStay(s, e, t);
      StepKeeps(s, e);
      FailureChangesNothing(After(s, e), events[1..], last, t);
    }
  }

  // ----- the code

  /** The answers of the code that ksys_unshare calls.
      - fsMemory: copy_fs_struct has memory
      - fdError:  result of dup_fd
      - nsError:  first error of unshare_userns, unshare_nsproxy_namespaces and set_cred_ucounts */
  datatype Answers = Answers(
    groupEmpty: bool, sighandCount: nat, singleThreaded: bool, fsMemory: bool, fdError: int, nsError: int)

  /** There is always an id that is not in use. */
  lemma SomeIdIsFree(users: Counts)
    ensures exists id: Id :: id !in users
  {
    if forall id: Id :: id in users {
      DistinctBound(seq(|users| + 1, i requires i >= 0 => i as Id), users.Keys);
    }
  }

  /** Task t is where it was, with the structures it had. */
  ghost predicate Undisturbed(s: State, s': State, t: TaskId) {
    && At(s', t) == At(s, t)
    && Pointer(s'.fs, t) == Pointer(s.fs, t) && Pointer(s'.files, t) == Pointer(s.files, t)
  }

  lemma OthersStepAside(s: State, e: Event, t: TaskId)
    requires Aside(e, t)
    ensures Undisturbed(s, After(s, e), t)
  {
    PointersStay(s, e, t);
  }

  lemma {:induction false} OthersRunAside(s: State, events: seq<Event>, last: State, t: TaskId)
    requires Run(s, events, last) && AllAside(events, t)
    ensures Undisturbed(s, last, t)
    decreases |events|
  {
    if events != [] {
      assert Aside(events[0], t);
      OthersStepAside(s, events[0], t);
      OthersRunAside(After(s, events[0]), events[1..], last, t);
    }
  }

  /** The other tasks run on for a while. */
  ghost predicate OthersRun(s: State, events: seq<Event>, last: State, t: TaskId) {
    Run(s, events, last) && AllAside(events, t)
  }

  /** Nothing is held for a task that is not there. */
  ghost predicate Unborn(s: State, child: TaskId) {
    At(s, child).stage == Rest && Pointer(s.fs, child) == None && Pointer(s.files, child) == None
  }

  /** A fork whose copy_fs fails behind copy_files, with any steps of other tasks before its exit_files:
      the counters stay in step all the way, and nothing points at a structure for the child. */
  lemma FailedCopyFsLeavesNothing(s: State, t: TaskId, child: TaskId, files: Option<Id>,
                                  first: seq<Event>, last: State)
    requires Inv(s) && Enabled(s, Clone(t, child, FilesKind, files)) && Unborn(s, child)
    requires OthersRun(After(s, Clone(t, child, FilesKind, files)), first, last, child)
    ensures Inv(last) && Enabled(last, ExitFiles(child))
    ensures Inv(After(last, ExitFiles(child))) && Unborn(After(last, ExitFiles(child)), child)
  {
    var copyFiles := Clone(t, child, FilesKind, files);
    StepKeeps(s, copyFiles);
    RunKeeps(After(s, copyFiles), first, last);
    OthersRunAside(After(s, copyFiles), first, last, child);
    DropsOwn(last, child);
  }

  /** A fork that fails behind copy_files and copy_fs, with any steps of other tasks between the two and
      before its exit_fs and its exit_files. */
  lemma FailedForkLeavesNothing(s: State, t: TaskId, child: TaskId, files: Option<Id>, fs: Option<Id>,
                                first: seq<Event>, s1: State, second: seq<Event>, s2: State,
                                third: seq<Event>, s3: State)
    requires Inv(s) && Enabled(s, Clone(t, child, FilesKind, files))
    requires OthersRun(After(s, Clone(t, child, FilesKind, files)), first, s1, child)
    requires Enabled(s1, Clone(t, child, FsKind, fs))
    requires OthersRun(After(s1, Clone(t, child, FsKind, fs)), second, s2, child)
    requires OthersRun(After(s2, ExitFs(child)), third, s3, child)
    ensures Inv(s1) && Inv(s2) && Inv(s3) && Enabled(s2, ExitFs(child)) && Enabled(s3, ExitFiles(child))
    ensures Inv(After(s3, ExitFiles(child))) && Unborn(After(s3, ExitFiles(child)), child)
  {
    var copyFiles, copyFs := Clone(t, child, FilesKind, files), Clone(t, child, FsKind, fs);
    StepKeeps(s, copyFiles);
    RunKeeps(After(s, copyFiles), first, s1);
    StepKeeps(s1, copyFs);
    RunKeeps(After(s1, copyFs), second, s2);
    OthersRunAside(After(s1, copyFs), second, s2, child);
    DropsOwn(s2, child);
    RunKeeps(After(s2, ExitFs(child)), third, s3);
    OthersRunAside(After(s2, ExitFs(child)), third, s3, child);
    DropsOwn(s3, child);
  }

  lemma DropsOwn(s: State, t: TaskId)
    requires Inv(s) && At(s, t).stage == Rest
    ensures Inv(After(s, ExitFs(t))) && Pointer(After(s, ExitFs(t)).fs, t) == None
    ensures Inv(After(s, ExitFiles(t))) && Pointer(After(s, ExitFiles(t)).files, t) == None
    ensures At(After(s, ExitFs(t)), t).stage == Rest && After(s, ExitFiles(t)).fs == s.fs
  {
    StepKeeps(s, ExitFs(t));
    StepKeeps(s, ExitFiles(t));
    assert Fits(FsKind, s.fs, t, At(s, t)) && Fits(FilesKind, s.files, t, At(s, t));
  }

  /** Where a step that always succeeds, or says itself that it fails, leads. */
  function Next(c: Progress, e: Event): Progress {
    match e
    case Enter(_, flags, allowed) => Progress(if allowed then CopyingFs else Rest, Close(flags), allowed)
    case MakeNamespaces(_, ok) => if ok then c.(stage := Swapping) else c.(stage := PuttingFd, ok := false)
    case Swap(_) => c.(stage := PuttingFd)
    case PutFd(_) => c.(stage := FreeingFs)
    case FreeFs(_) => c.(stage := Rest)
    case _ => c
  }

  lemma StepLeads(s: State, e: Event)
    requires e.Enter? || e.MakeNamespaces? || e.Swap? || e.PutFd? || e.FreeFs?
    ensures At(After(s, e), e.task) == Next(At(s, e.task), e)
    ensures !e.Swap? ==>
              && Pointer(After(s, e).fs, e.task) == Pointer(s.fs, e.task)
              && Pointer(After(s, e).files, e.task) == Pointer(s.files, e.task)
  {
  }

  class Tasks {
    var s: State

    /** What other tasks do while t is in its call: any steps of theirs that are possible. */
    method Others(t: TaskId, events: seq<Event>)
      requires Inv(s)
      modifies this
      ensures Inv(s) && Undisturbed(old(s), s, t)
    {
      for i := 0 to |events|
        invariant Inv(s) && Undisturbed(old(s), s, t)
      {
        var e := events[i];
        if Aside(e, t) && Enabled(s, e) {
          StepKeeps(s, e);
          OthersStepAside(s, e, t);
          s := After(s, e);
        }
      }
    }

    method CopyFs(t: TaskId, memory: bool) returns (err: int)
      requires Inv(s) && At(s, t).stage == CopyingFs
      modifies this
      ensures Inv(s) && (err == 0 || (err == -ENOMEM && !memory && Fs in old(At(s, t)).flags))
      ensures Pointer(s.fs, t) == old(Pointer(s.fs, t)) && Pointer(s.files, t) == old(Pointer(s.files, t))
      ensures At(s, t) == old(At(s, t)).(stage := if err == 0 then CopyingFd else Rest, ok := err == 0)
    {
      var copy := None;
      if memory {
        SomeIdIsFree(s.fs.users);
        var id: Id :| id !in s.fs.users;
        copy := Some(id);
      }
      StepKeeps(s, UnshareFs(t, copy));
      PointersStay(s, UnshareFs(t, copy), t);
      assert Fits(FsKind, s.fs, t, At(s, t));
      s := After(s, UnshareFs(t, copy));
      err := if At(s, t).ok then 0 else -ENOMEM;
    }

    method CopyFd(t: TaskId, error: int) returns (err: int)
      requires Inv(s) && At(s, t).stage == CopyingFd
      modifies this
      ensures Inv(s) && (err == 0 || (err == error && Files in old(At(s, t)).flags))
      ensures Pointer(s.fs, t) == old(Pointer(s.fs, t)) && Pointer(s.files, t) == old(Pointer(s.files, t))
      ensures At(s, t) == old(At(s, t)).(stage := if err == 0 then Namespaces else FreeingFs, ok := err == 0)
    {
      var copy := None;
      if error == 0 {
        SomeIdIsFree(s.files.users);
        var id: Id :| id !in s.files.users;
        copy := Some(id);
      }
      StepKeeps(s, UnshareFd(t, copy));
      PointersStay(s, UnshareFd(t, copy), t);
      assert Fits(FsKind, s.fs, t, At(s, t));
      s := After(s, UnshareFd(t, copy));
      err := if At(s, t).ok then 0 else error;
    }

    /** One of the other steps of the call. */
    method Step(e: Event)
      requires Inv(s) && Enabled(s, e) && (e.Enter? || e.MakeNamespaces? || e.Swap? || e.PutFd? || e.FreeFs?)
      modifies this
      ensures Inv(s) && At(s, e.task) == Next(old(At(s, e.task)), e)
      ensures !e.Swap? ==>
                && Pointer(s.fs, e.task) == old(Pointer(s.fs, e.task))
                && Pointer(s.files, e.task) == old(Pointer(s.files, e.task))
    {
      StepKeeps(s, e);
      StepLeads(s, e);
      s := After(s, e);
    }

    /** ksys_unshare by task t, with others(k) what other tasks do before its k-th step. */
    method KsysUnshare(t: TaskId, flags: Flags, a: Answers, others: nat -> seq<Event>) returns (err: int)
      requires Inv(s) && At(s, t).stage == Rest
      modifies this
      ensures Inv(s) && At(s, t) == Progress(Rest, Close(flags), err == 0)
      ensures err == 0 ==> OnItsOwn(s, t)
      ensures err != 0 ==> Pointer(s.fs, t) == old(Pointer(s.fs, t)) && Pointer(s.files, t) == old(Pointer(s.files, t))
      ensures
        var permitted := Permitted(Close(flags), a.groupEmpty, a.sighandCount, a.singleThreaded);
        && (!permitted ==> err == -EINVAL)
        && (permitted && a.fsMemory && a.fdError == a.nsError == 0 ==> err == 0)
        && (permitted && err != 0 ==>
              || (err == -ENOMEM && !a.fsMemory && Fs in Close(flags))
              || (err == a.fdError && Files in Close(flags))
              || err == a.nsError)
        && (err == 0 ==> permitted && a.nsError == 0)
    {
      var f := CloseFlags(flags);
      var allowed := CheckUnshareFlags(f, a.groupEmpty, a.sighandCount, a.singleThreaded);
      Step(Enter(t, flags, allowed));
      if !allowed {
        return -EINVAL;
      }
      label bad_unshare_out: {
        Others(t, others(0));
        err := CopyFs(t, a.fsMemory);
        if err != 0 {
          break bad_unshare_out;
        }
        label bad_unshare_cleanup_fs: {
          Others(t, others(1));
          err := CopyFd(t, a.fdError);
          if err != 0 {
            break bad_unshare_cleanup_fs;
          }
          label bad_unshare_cleanup_fd: {
            Others(t, others(2));
            err := a.nsError;
            Step(MakeNamespaces(t, err == 0));
            if err != 0 {
              break bad_unshare_cleanup_fd;
            }
            Others(t, others(3));
            Step(Swap(t));
          }
          Others(t, others(4));
          Step(PutFd(t));
        }
        Others(t, others(5));
        Step(FreeFs(t));
      }
      if err == 0 {
        OwnWhenDone(s, t);
      }
    }
  }
}
