/** Kernel stacks and their per-CPU cache (CONFIG_VMAP_STACK part of Kernel/kernel/fork.c).  Every
    atomic operation of the C code is one step, so the runs below are all interleavings; a thread
    may even change CPU between two steps. */
module StackCache {

  /** The number of cache slots of a CPU (2 in the source); nothing depends on it. */
  const NR_CACHED_STACKS: nat

  /** THREAD_SIZE / PAGE_SIZE, whatever they are. */
  const STACK_PAGES: Pages

  type Pages = n: int | n >= 1 witness 4

  type StackId = nat
  type Thread = nat

  /** The places that hold a pointer to a stack: a cache slot of a CPU, a task, a queued RCU
      callback, or a local variable of code that is moving the stack. */
  datatype Place = Slot(cpu: nat, i: nat) | Owner(task: nat) | Callback(n: nat) | Local(thread: Thread)

  /** Where a thread is in alloc_thread_stack_node with memcg_charge_kernel_stack, or in
      free_thread_stack or thread_stack_free_rcu with try_release_thread_stack_to_cache. */
  datatype Phase =
    | TryTake(task: nat, slot: nat)
    | Found(task: nat)
    | Charging(task: nat, n: nat)
    | Uncharging(task: nat, n: nat)
    | TryPut(slot: nat, fromCallback: bool)
  {
    predicate HasStack() {
      !TryTake?
    }

    predicate Allocates() {
      !TryPut?
    }
  }

  /** An allocated stack: where it was last put, how many of its pages are charged, and whether its
      memory is all zero. */
  datatype Stack = Stack(home: Place, charged: int, zero: bool)

  /** - pointer: which stack each place points at
      - stacks:  the stacks that were allocated and not yet given to vfree
      - exiting: tasks that are through exit_task_stack_account */
  datatype System = System(
    pointer: map<Place, StackId>,
    stacks: map<StackId, Stack>,
    threads: map<Thread, Phase>,
    exiting: set<nat>,
    online: set<nat>)

  // ----- the invariant

  /** The number of charged pages that fits a place. */
  function Due(s: System, at: Place): int {
    match at
    case Owner(task) => if task in s.exiting then 0 else STACK_PAGES
    case Local(w) =>
      if w in s.threads && (s.threads[w].Charging? || s.threads[w].Uncharging?) then s.threads[w].n else 0
    case Slot(_, _) => 0
    case Callback(_) => 0
  }

  /** What holds of a place that points at a stack: the stack was last put there, it has the charge
      that is due there, it is clear if it is being charged, and code that has a stack in hand is in
      a phase that needs one. */
  ghost predicate PlaceFits(s: System, at: Place)
    requires at in s.pointer
  {
    var st := s.pointer[at];
    && st in s.stacks && s.stacks[st].home == at && s.stacks[st].charged == Due(s, at)
    && (at.Local? ==>
          && at.thread in s.threads && s.threads[at.thread].HasStack()
          && (s.threads[at.thread].Charging? ==> s.stacks[st].zero))
  }

  /** What holds of a thread: it has a stack in hand if its phase needs one, and the task it
      allocates for has none yet. */
  ghost predicate ThreadFits(s: System, w: Thread)
    requires w in s.threads
  {
    var p := s.threads[w];
    && (p.HasStack() ==> Local(w) in s.pointer)
    && (p.Charging? ==> p.n <= STACK_PAGES)
    && (p.Allocates() ==> Owner(p.task) !in s.pointer && p.task !in s.exiting)
  }

  ghost predicate OneThreadPerTask(threads: map<Thread, Phase>) {
    forall v, w :: v in threads && w in threads && threads[v].Allocates() && threads[w].Allocates() ==>
      (threads[v].task == threads[w].task ==> v == w)
  }

  ghost predicate Invariant(s: System) {
    && (forall at :: at in s.pointer ==> PlaceFits(s, at))
    && (forall st :: st in s.stacks ==> s.stacks[st].home in s.pointer && s.pointer[s.stacks[st].home] == st)
    && (forall w :: w in s.threads ==> ThreadFits(s, w))
    && OneThreadPerTask(s.threads)
    && (forall task :: task in s.exiting ==> Owner(task) in s.pointer)
  }

  // ----- three ways to change the system, and what each has to respect

  /** Only thread w goes on, and only stacks in hand of w or at the given place are affected. */
  ghost predicate OthersWait(s: System, s': System, w: Thread) {
    s'.threads - {w} == s.threads - {w}
  }

  /** The place points at an allocated stack. */
  ghost predicate Holds(s: System, at: Place) {
    at in s.pointer && s.pointer[at] in s.stacks
  }

  /** The pointer goes from one place to another. */
  ghost function Moved(s: System, from: Place, to: Place): System {
    if !Holds(s, from) then s else
      var st := s.pointer[from];
      s.(pointer := (s.pointer - {from})[to := st], stacks := s.stacks[st := s.stacks[st].(home := to)])
  }

  /** vfree of the stack a place points at; the place forgets it. */
  ghost function Freed(s: System, at: Place): System {
    if !Holds(s, at) then s else s.(pointer := s.pointer - {at}, stacks := s.stacks - {s.pointer[at]})
  }

  lemma OtherPlace(s: System, s': System, w: Thread, at: Place)
    requires OthersWait(s, s', w) && at in s.pointer && at in s'.pointer && at != Local(w) && PlaceFits(s, at)
    requires s'.pointer[at] == s.pointer[at] && s'.pointer[at] in s'.stacks
    requires s'.stacks[s.pointer[at]] == s.stacks[s.pointer[at]]
    requires at.Owner? ==> (at.task in s.exiting <==> at.task in s'.exiting)
    ensures PlaceFits(s', at)
  {
    if at.Local? {
      assert at.thread in s.threads - {w} && s'.threads[at.thread] == (s'.threads - {w})[at.thread];
    }
  }

  lemma OtherThread(s: System, s': System, w: Thread, v: Thread)
    requires OthersWait(s, s', w) && v in s'.threads && v != w
    requires v in s.threads ==> ThreadFits(s, v)
    requires Local(v) in s.pointer ==> Local(v) in s'.pointer
    requires forall task :: Owner(task) in s'.pointer && Owner(task) !in s.pointer ==>
               s'.threads[v].Allocates() ==> s'.threads[v].task != task
    requires forall task :: task in s'.exiting && task !in s.exiting ==> Owner(task) in s.pointer
    ensures v in s.threads && s'.threads[v] == s.threads[v]
    ensures ThreadFits(s', v)
  {
    assert v in s'.threads - {w} && s'.threads[v] == (s.threads - {w})[v];
  }

  /** A pointer goes from one place to another, and nothing but its stack and thread w changes. */
  ghost predicate Moves(s: System, s': System, w: Thread, from: Place, to: Place) {
    && from in s.pointer && to !in s.pointer && s.pointer[from] in s.stacks
    && s'.pointer == (s.pointer - {from})[to := s.pointer[from]] && s'.stacks.Keys == s.stacks.Keys
    && (forall st :: st in s.stacks && st != s.pointer[from] ==> s'.stacks[st] == s.stacks[st])
    && OthersWait(s, s', w) && (Local(w) in s.pointer ==> from == Local(w)) && (from.Local? ==> from == Local(w))
    && s'.exiting == (if from.Owner? then s.exiting - {from.task} else s.exiting)
    && (to.Owner? ==> to.task !in s.exiting)
  }

  lemma MovePlaces(s: System, s': System, w: Thread, from: Place, to: Place, at: Place)
    requires (forall a :: a in s.pointer ==> PlaceFits(s, a)) && Moves(s, s', w, from, to)
    requires at in s'.pointer && at != to
    ensures PlaceFits(s', at)
  {
    assert PlaceFits(s, at) && PlaceFits(s, from);
    OtherPlace(s, s', w, at);
  }

  lemma MoveKeeps(s: System, s': System, w: Thread, from: Place, to: Place)
    requires Invariant(s) && Moves(s, s', w, from, to)
    requires PlaceFits(s', to)
    requires w in s'.threads ==> ThreadFits(s', w)
    requires OneThreadPerTask(s'.threads)
    requires forall v :: v in s'.threads && s'.threads[v].Allocates() ==> to != Owner(s'.threads[v].task)
    ensures Invariant(s')
  {
    forall at | at in s'.pointer ensures PlaceFits(s', at) {
      if at != to {
        MovePlaces(s, s', w, from, to, at);
      }
    }
    forall v | v in s'.threads ensures ThreadFits(s', v) {
      if v != w {
        OtherThread(s, s', w, v);
      }
    }
    MoveHomes(s, s', w, from, to);
  }

  lemma MoveHomes(s: System, s': System, w: Thread, from: Place, to: Place)
    requires Invariant(s) && Moves(s, s', w, from, to) && PlaceFits(s', to)
    ensures forall st :: st in s'.stacks ==> s'.stacks[st].home in s'.pointer && s'.pointer[s'.stacks[st].home] == st
  {
    assert PlaceFits(s, from);
  }

  lemma FreeKeeps(s: System, s': System, w: Thread, at: Place)
    requires Invariant(s) && at in s.pointer && !at.Owner?
    requires s'.pointer == Freed(s, at).pointer && s'.stacks == Freed(s, at).stacks && s'.exiting == s.exiting
    requires OthersWait(s, s', w) && w !in s'.threads
    requires (Local(w) in s.pointer ==> at == Local(w)) && (at.Local? ==> at == Local(w))
    requires OneThreadPerTask(s'.threads)
    ensures Invariant(s')
  {
    forall a | a in s'.pointer ensures PlaceFits(s', a) {
      assert PlaceFits(s, a) && PlaceFits(s, at);
      OtherPlace(s, s', w, a);
    }
    forall v | v in s'.threads ensures ThreadFits(s', v) {
      OtherThread(s, s', w, v);
    }
  }

  /** No pointer moves; at most the stack in hand of w changes. */
  lemma StayKeeps(s: System, s': System, w: Thread)
    requires Invariant(s) && s'.pointer == s.pointer && s'.exiting == s.exiting
    requires s'.stacks.Keys == s.stacks.Keys
    requires forall st :: st in s.stacks && s.stacks[st].home != Local(w) ==> s'.stacks[st] == s.stacks[st]
    requires OthersWait(s, s', w)
    requires Local(w) in s.pointer ==> PlaceFits(s', Local(w))
    requires w in s'.threads ==> ThreadFits(s', w)
    requires OneThreadPerTask(s'.threads)
    ensures Invariant(s')
  {
    forall at | at in s'.pointer ensures PlaceFits(s', at) {
      if at != Local(w) {
        assert PlaceFits(s, at);
        OtherPlace(s, s', w, at);
      }
    }
    forall v | v in s'.threads ensures ThreadFits(s', v) {
      if v != w {
        OtherThread(s, s', w, v);
      }
    }
  }

  /** A running task changes nothing but the stack it owns. */
  lemma OwnerKeeps(s: System, s': System, task: nat)
    requires Invariant(s) && Owner(task) in s.pointer
    requires s'.pointer == s.pointer && s'.threads == s.threads && s'.stacks.Keys == s.stacks.Keys
    requires forall st :: st in s.stacks && st != s.pointer[Owner(task)] ==> s'.stacks[st] == s.stacks[st]
    requires s'.exiting == s.exiting || s'.exiting == s.exiting + {task}
    requires PlaceFits(s', Owner(task))
    ensures Invariant(s')
  {
    forall at | at in s'.pointer ensures PlaceFits(s', at) {
      assert PlaceFits(s, at) && PlaceFits(s, Owner(task));
    }
    forall v | v in s'.threads ensures ThreadFits(s', v) {
      assert ThreadFits(s, v);
    }
  }

  // ----- the steps

  datatype Event =
    | BeginAlloc(w: Thread, task: nat)
    | Exchange(w: Thread, cpu: nat)
    | Vmalloc(w: Thread, stack: StackId, ok: bool)
    | Memset(w: Thread)
    | ChargePage(w: Thread, ok: bool)
    | UnchargePage(w: Thread)
    | AllocFails(w: Thread)
    | AllocSucceeds(w: Thread)
    | UseStack(task: nat)
    | ExitAccount(task: nat)
    | BeginFree(w: Thread, task: nat)
    | CompareExchange(w: Thread, cpu: nat)
    | CallRcu(w: Thread, n: nat)
    | RunCallback(w: Thread, n: nat)
    | Vfree(w: Thread)
    | Hotplug(cpu: nat, up: bool)
    | Flush(w: Thread, cpu: nat, slot: nat)

  ghost predicate Enabled(s: System, e: Event) {
    match e
    case BeginAlloc(w, task) =>
      && w !in s.threads && Owner(task) !in s.pointer
      && (forall v :: v in s.threads && s.threads[v].Allocates() ==> s.threads[v].task != task)
    case Exchange(w, cpu) =>
      w in s.threads && s.threads[w].TryTake? && s.threads[w].slot < NR_CACHED_STACKS && cpu in s.online
    case Vmalloc(w, stack, _) =>
      w in s.threads && s.threads[w].TryTake? && s.threads[w].slot >= NR_CACHED_STACKS && stack !in s.stacks
    case Memset(w) => w in s.threads && s.threads[w].Found?
    case ChargePage(w, _) => w in s.threads && s.threads[w].Charging? && s.threads[w].n < STACK_PAGES
    case UnchargePage(w) => w in s.threads && s.threads[w].Uncharging? && s.threads[w].n > 0
    case AllocFails(w) => w in s.threads && s.threads[w].Uncharging? && s.threads[w].n == 0
    case AllocSucceeds(w) => w in s.threads && s.threads[w].Charging? && s.threads[w].n == STACK_PAGES
    case UseStack(task) => Owner(task) in s.pointer
    case ExitAccount(task) => Owner(task) in s.pointer && task !in s.exiting
    case BeginFree(w, task) => w !in s.threads && task in s.exiting
    case CompareExchange(w, cpu) =>
      w in s.threads && s.threads[w].TryPut? && s.threads[w].slot < NR_CACHED_STACKS && cpu in s.online
    case CallRcu(w, n) =>
      && w in s.threads && s.threads[w].TryPut? && s.threads[w].slot >= NR_CACHED_STACKS
      && !s.threads[w].fromCallback && Callback(n) !in s.pointer
    case RunCallback(w, n) => w !in s.threads && Callback(n) in s.pointer
    case Vfree(w) =>
      w in s.threads && s.threads[w].TryPut? && s.threads[w].slot >= NR_CACHED_STACKS && s.threads[w].fromCallback
    case Hotplug(cpu, _) => true
    case Flush(w, cpu, slot) => w !in s.threads && cpu !in s.online && slot < NR_CACHED_STACKS
  }

  ghost function SetThread(s: System, w: Thread, p: Phase): System {
    s.(threads := s.threads[w := p])
  }

  ghost function EndThread(s: System, w: Thread): System {
    s.(threads := s.threads - {w})
  }

  ghost function SetStack(s: System, at: Place, charged: int, zero: bool): System {
    if !Holds(s, at) then s else s.(stacks := s.stacks[s.pointer[at] := Stack(at, charged, zero)])
  }

  /** The stack a place points at. */
  ghost function StackAt(s: System, at: Place): Stack {
    if Holds(s, at) then s.stacks[s.pointer[at]] else Stack(at, 0, false)
  }

  /** The stack a thread has in hand. */
  ghost function InHand(s: System, w: Thread): Stack {
    StackAt(s, Local(w))
  }

  ghost function Apply(s: System, e: Event): System
    requires Enabled(s, e)
  {
    match e
    case BeginAlloc(w, task) => SetThread(s, w, TryTake(task, 0))
    case Exchange(w, cpu) =>
      var p := s.threads[w];
      if Slot(cpu, p.slot) in s.pointer then SetThread(Moved(s, Slot(cpu, p.slot), Local(w)), w, Found(p.task))
      else SetThread(s, w, TryTake(p.task, p.slot + 1))
    case Vmalloc(w, stack, ok) =>
      if ok then
        SetThread(
          s.(pointer := s.pointer[Local(w) := stack], stacks := s.stacks[stack := Stack(Local(w), 0, true)]),
          w, Charging(s.threads[w].task, 0))
      else EndThread(s, w)
    case Memset(w) => SetThread(SetStack(s, Local(w), InHand(s, w).charged, true), w, Charging(s.threads[w].task, 0))
    case ChargePage(w, ok) =>
      var p := s.threads[w];
      if ok then SetThread(SetStack(s, Local(w), InHand(s, w).charged + 1, InHand(s, w).zero), w, Charging(p.task, p.n + 1))
      else SetThread(s, w, Uncharging(p.task, p.n))
    case UnchargePage(w) =>
      var p := s.threads[w];
      SetThread(SetStack(s, Local(w), InHand(s, w).charged - 1, InHand(s, w).zero), w, Uncharging(p.task, p.n - 1))
    case AllocFails(w) => EndThread(Freed(s, Local(w)), w)
    case AllocSucceeds(w) => EndThread(Moved(s, Local(w), Owner(s.threads[w].task)), w)
    case UseStack(task) => SetStack(s, Owner(task), StackAt(s, Owner(task)).charged, false)
    case ExitAccount(task) =>
      var st := StackAt(s, Owner(task));
      SetStack(s, Owner(task), st.charged - STACK_PAGES, st.zero).(exiting := s.exiting + {task})
    case BeginFree(w, task) =>
      SetThread(Moved(s, Owner(task), Local(w)), w, TryPut(0, false)).(exiting := s.exiting - {task})
    case CompareExchange(w, cpu) =>
      var p := s.threads[w];
      if Slot(cpu, p.slot) in s.pointer then SetThread(s, w, TryPut(p.slot + 1, p.fromCallback))
      else EndThread(Moved(s, Local(w), Slot(cpu, p.slot)), w)
    case CallRcu(w, n) => EndThread(Moved(SetStack(s, Local(w), InHand(s, w).charged, false), Local(w), Callback(n)), w)
    case RunCallback(w, n) => SetThread(Moved(s, Callback(n), Local(w)), w, TryPut(0, true))
    case Vfree(w) => EndThread(Freed(s, Local(w)), w)
    case Hotplug(cpu, up) => s.(online := if up then s.online + {cpu} else s.online - {cpu})
    case Flush(w, cpu, slot) => if Slot(cpu, slot) in s.pointer then Freed(s, Slot(cpu, slot)) else s
  }

  // ----- every step keeps the invariant

  /** The facts about a thread that has a stack in hand. */
  lemma InHandFits(s: System, w: Thread)
    requires Invariant(s) && w in s.threads && s.threads[w].HasStack()
    ensures Local(w) in s.pointer && PlaceFits(s, Local(w)) && ThreadFits(s, w)
  {
    assert ThreadFits(s, w);
    assert PlaceFits(s, Local(w));
  }

  /** A thread that is about to start has nothing in hand. */
  lemma EmptyHand(s: System, w: Thread)
    requires Invariant(s) && (w in s.threads ==> !s.threads[w].HasStack())
    ensures Local(w) !in s.pointer
  {
    assert Local(w) in s.pointer ==> PlaceFits(s, Local(w));
  }

  lemma TakeStepKeeps(s: System, e: Event)
    requires Invariant(s) && Enabled(s, e) && (e.BeginAlloc? || e.Exchange?)
    ensures Invariant(Apply(s, e))
  {
    var s', w := Apply(s, e), e.w;
    EmptyHand(s, w);
    if e.Exchange? && Slot(e.cpu, s.threads[w].slot) in s.pointer {
      assert ThreadFits(s, w) && PlaceFits(s, Slot(e.cpu, s.threads[w].slot));
      MoveKeeps(s, s', w, Slot(e.cpu, s.threads[w].slot), Local(w));
    } else {
      assert e.Exchange? ==> ThreadFits(s, w);
      StayKeeps(s, s', w);
    }
  }

  lemma VmallocKeeps(s: System, w: Thread, stack: StackId, ok: bool)
    requires Invariant(s) && Enabled(s, Vmalloc(w, stack, ok))
    ensures Invariant(Apply(s, Vmalloc(w, stack, ok)))
  {
    var s' := Apply(s, Vmalloc(w, stack, ok));
    EmptyHand(s, w);
    if ok {
      forall at | at in s'.pointer ensures PlaceFits(s', at) {
        if at != Local(w) {
          assert PlaceFits(s, at);
          OtherPlace(s, s', w, at);
        }
      }
      forall v | v in s'.threads ensures ThreadFits(s', v) {
        assert ThreadFits(s, v);
      }
    } else {
      StayKeeps(s, s', w);
    }
  }

  lemma MemsetKeeps(s: System, w: Thread)
    requires Invariant(s) && Enabled(s, Memset(w))
    ensures Invariant(Apply(s, Memset(w)))
  {
    InHandFits(s, w);
    StayKeeps(s, Apply(s, Memset(w)), w);
  }

  /** One page charged, or the beginning of the roll-back. */
  lemma ChargePageKeeps(s: System, w: Thread, ok: bool)
    requires Invariant(s) && Enabled(s, ChargePage(w, ok))
    ensures Invariant(Apply(s, ChargePage(w, ok)))
  {
    InHandFits(s, w);
    StayKeeps(s, Apply(s, ChargePage(w, ok)), w);
  }

  lemma UnchargePageKeeps(s: System, w: Thread)
    requires Invariant(s) && Enabled(s, UnchargePage(w))
    ensures Invariant(Apply(s, UnchargePage(w)))
  {
    InHandFits(s, w);
    StayKeeps(s, Apply(s, UnchargePage(w)), w);
  }

  lemma AllocEndKeeps(s: System, e: Event)
    requires Invariant(s) && Enabled(s, e) && (e.AllocFails? || e.AllocSucceeds?)
    ensures Invariant(Apply(s, e))
  {
    var s', w := Apply(s, e), e.w;
    InHandFits(s, w);
    if e.AllocFails? {
      FreeKeeps(s, s', w, Local(w));
    } else {
      MoveKeeps(s, s', w, Local(w), Owner(s.threads[w].task));
    }
  }

  lemma OwnerStepKeeps(s: System, e: Event)
    requires Invariant(s) && Enabled(s, e) && (e.UseStack? || e.ExitAccount?)
    ensures Invariant(Apply(s, e))
  {
    assert PlaceFits(s, Owner(e.task));
    OwnerKeeps(s, Apply(s, e), e.task);
  }

  lemma FreeStepKeeps(s: System, e: Event)
    requires Invariant(s) && Enabled(s, e) && (e.BeginFree? || e.RunCallback?)
    ensures Invariant(Apply(s, e))
  {
    var s', w := Apply(s, e), e.w;
    var from := if e.BeginFree? then Owner(e.task) else Callback(e.n);
    EmptyHand(s, w);
    assert PlaceFits(s, from);
    MoveKeeps(s, s', w, from, Local(w));
  }

  /** Trying a cache slot: taken by another stack, or filled. */
  lemma CompareExchangeKeeps(s: System, w: Thread, cpu: nat)
    requires Invariant(s) && Enabled(s, CompareExchange(w, cpu))
    ensures Invariant(Apply(s, CompareExchange(w, cpu)))
  {
    var s' := Apply(s, CompareExchange(w, cpu));
    InHandFits(s, w);
    var slot := Slot(cpu, s.threads[w].slot);
    if slot in s.pointer {
      StayKeeps(s, s', w);
    } else {
      MoveKeeps(s, s', w, Local(w), slot);
    }
  }

  /** With no slot free the stack is queued, which overwrites its memory, ... */
  lemma CallRcuKeeps(s: System, w: Thread, n: nat)
    requires Invariant(s) && Enabled(s, CallRcu(w, n))
    ensures Invariant(Apply(s, CallRcu(w, n)))
  {
    InHandFits(s, w);
    MoveKeeps(s, Apply(s, CallRcu(w, n)), w, Local(w), Callback(n));
  }

  /** ... and the callback that finds none either frees it. */
  lemma VfreeKeeps(s: System, w: Thread)
    requires Invariant(s) && Enabled(s, Vfree(w))
    ensures Invariant(Apply(s, Vfree(w)))
  {
    InHandFits(s, w);
    FreeKeeps(s, Apply(s, Vfree(w)), w, Local(w));
  }

  lemma HotplugStepKeeps(s: System, e: Event)
    requires Invariant(s) && Enabled(s, e) && (e.Hotplug? || e.Flush?)
    ensures Invariant(Apply(s, e))
  {
    var s' := Apply(s, e);
    if e.Flush? && Slot(e.cpu, e.slot) in s.pointer {
      EmptyHand(s, e.w);
      FreeKeeps(s, s', e.w, Slot(e.cpu, e.slot));
    } else {
      assert forall at :: at in s.pointer ==> PlaceFits(s, at) && PlaceFits(s', at);
      assert forall v :: v in s.threads ==> ThreadFits(s, v) && ThreadFits(s', v);
    }
  }

  lemma EventKeeps(s: System, e: Event)
    requires Invariant(s) && Enabled(s, e)
    ensures Invariant(Apply(s, e))
  {
    match e
    case BeginAlloc(_, _) => TakeStepKeeps(s, e);
    case Exchange(_, _) => TakeStepKeeps(s, e);
    case Vmalloc(w, stack, ok) => VmallocKeeps(s, w, stack, ok);
    case Memset(w) => MemsetKeeps(s, w);
    case ChargePage(w, ok) => ChargePageKeeps(s, w, ok);
    case UnchargePage(w) => UnchargePageKeeps(s, w);
    case AllocFails(_) => AllocEndKeeps(s, e);
    case AllocSucceeds(_) => AllocEndKeeps(s, e);
    case UseStack(_) => OwnerStepKeeps(s, e);
    case ExitAccount(_) => OwnerStepKeeps(s, e);
    case BeginFree(_, _) => FreeStepKeeps(s, e);
    case CompareExchange(w, cpu) => CompareExchangeKeeps(s, w, cpu);
    case CallRcu(w, n) => CallRcuKeeps(s, w, n);
    case RunCallback(_, _) => FreeStepKeeps(s, e);
    case Vfree(w) => VfreeKeeps(s, w);
    case Hotplug(_, _) => HotplugStepKeeps(s, e);
    case Flush(_, _, _) => HotplugStepKeeps(s, e);
  }

  // ----- what the cache steps achieve

  /** A stack that is put to a free slot is there and its task's exit is done with; a taken slot is left
      alone and the next one is tried, or the stack is queued if there is none. */
  lemma PutsToFreeSlot(s: System, w: Thread, cpu: nat)
    requires Invariant(s) && Enabled(s, CompareExchange(w, cpu))
    ensures
      var s', slot := Apply(s, CompareExchange(w, cpu)), Slot(cpu, s.threads[w].slot);
      && Local(w) in s.pointer
      && (slot !in s.pointer ==> slot in s'.pointer && s'.pointer[slot] == s.pointer[Local(w)] && w !in s'.threads)
      && (slot in s.pointer ==>
            && s'.pointer == s.pointer && s'.stacks == s.stacks
            && s'.threads[w] == s.threads[w].(slot := s.threads[w].slot + 1))
  {
    InHandFits(s, w);
  }

  /** A cached stack is taken out of its slot, and only if all slots were empty a new one is made. */
  lemma TakesCached(s: System, w: Thread, cpu: nat)
    requires Invariant(s) && Enabled(s, Exchange(w, cpu))
    ensures
      var s', slot := Apply(s, Exchange(w, cpu)), Slot(cpu, s.threads[w].slot);
      && (slot in s.pointer ==>
            && slot !in s'.pointer && Local(w) in s'.pointer && s'.pointer[Local(w)] == s.pointer[slot]
            && s'.threads[w] == Found(s.threads[w].task))
      && (slot !in s.pointer ==>
            s'.pointer == s.pointer && s'.threads[w] == TryTake(s.threads[w].task, s.threads[w].slot + 1))
    ensures forall stack, ok :: Enabled(s, Vmalloc(w, stack, ok)) ==> s.threads[w].slot >= NR_CACHED_STACKS
  {
    assert Slot(cpu, s.threads[w].slot) in s.pointer ==> PlaceFits(s, Slot(cpu, s.threads[w].slot));
  }

  /** A CPU that went offline has its slots emptied and the stacks freed. */
  lemma FlushEmpties(s: System, w: Thread, cpu: nat, slot: nat)
    requires Invariant(s) && Enabled(s, Flush(w, cpu, slot))
    ensures
      var s' := Apply(s, Flush(w, cpu, slot));
      && Slot(cpu, slot) !in s'.pointer
      && (Slot(cpu, slot) in s.pointer ==> s'.stacks == s.stacks - {s.pointer[Slot(cpu, slot)]})
  {
    assert Slot(cpu, slot) in s.pointer ==> PlaceFits(s, Slot(cpu, slot));
  }

  // ----- whole runs

  ghost predicate Reaches(s: System, events: seq<Event>, s': System)
    decreases |events|
  {
    if events == [] then s == s'
    else Enabled(s, events[0]) && Reaches(Apply(s, events[0]), events[1..], s')
  }

  /** At boot no stack was allocated yet. */
  ghost predicate Initial(s: System) {
    s.pointer == map[] && s.stacks == map[] && s.threads == map[] && s.exiting == {}
  }

  lemma {:induction false} RunKeeps(s: System, events: seq<Event>, s': System)
    requires Invariant(s) && Reaches(s, events, s')
    ensures Invariant(s')
    decreases |events|
  {
    if events != [] {
      EventKeeps(s, events[0]);
      RunKeeps(Apply(s, events[0]), events[1..], s');
    }
  }

  /** In every interleaving each allocated stack is pointed at from exactly one place, and nothing
      points at a freed stack. */
  lemma ExactlyOnePlace(s: System, events: seq<Event>, s': System)
    requires Initial(s) && Reaches(s, events, s')
    ensures forall at :: at in s'.pointer ==> s'.pointer[at] in s'.stacks
    ensures forall a, b :: a in s'.pointer && b in s'.pointer && s'.pointer[a] == s'.pointer[b] ==> a == b
    ensures forall st :: st in s'.stacks ==> exists at :: at in s'.pointer && s'.pointer[at] == st
  {
    RunKeeps(s, events, s');
    assert forall at :: at in s'.pointer ==> PlaceFits(s', at);
    forall st | st in s'.stacks ensures exists at :: at in s'.pointer && s'.pointer[at] == st {
      assert s'.stacks[st].home in s'.pointer;
    }
  }

  /** In every interleaving a charged stack belongs to a task that has not exited or is on its way to
      one; cached, queued and exiting stacks carry no charge. */
  lemma ChargedOnlyForTasks(s: System, events: seq<Event>, s': System, at: Place)
    requires Initial(s) && Reaches(s, events, s') && at in s'.pointer
    ensures s'.pointer[at] in s'.stacks
    ensures
      var st := s'.stacks[s'.pointer[at]];
      && (at.Owner? && at.task !in s'.exiting ==> st.charged == STACK_PAGES)
      && (st.charged != 0 ==>
            || (at.Owner? && at.task !in s'.exiting)
            || (at.Local? && at.thread in s'.threads && s'.threads[at.thread].Allocates()))
  {
    RunKeeps(s, events, s');
    assert PlaceFits(s', at);
  }

  /** Whatever stack a task is given, new or from the cache, is all zero and fully charged; a stack
      that is given up because a page could not be charged carries no charge any more. */
  lemma HandOver(s: System, events: seq<Event>, s': System, w: Thread)
    requires Initial(s) && Reaches(s, events, s')
    ensures Enabled(s', AllocSucceeds(w)) ==>
              && Invariant(s')
              && var task, t := s'.threads[w].task, Apply(s', AllocSucceeds(w));
              && Owner(task) !in s'.pointer && Owner(task) in t.pointer && t.pointer[Owner(task)] in t.stacks
              && var st := t.stacks[t.pointer[Owner(task)]];
              && st.zero && st.charged == STACK_PAGES
    ensures Enabled(s', AllocFails(w)) ==> Invariant(s') && InHand(s', w).charged == 0
  {
    RunKeeps(s, events, s');
    if Enabled(s', AllocSucceeds(w)) || Enabled(s', AllocFails(w)) {
      InHandFits(s', w);
    }
  }

  /** memcg_charge_kernel_stack: charge every page or none.  answers are the return values of
      memcg_kmem_charge_page; pages counts the charges of each page. */
  method MemcgChargeKernelStack(pages: array<int>, answers: seq<int>) returns (ret: int)
    requires pages.Length == |answers|
    modifies pages
    ensures ret == 0 <==> forall i :: 0 <= i < |answers| ==> answers[i] == 0
    ensures ret == 0 ==> forall i :: 0 <= i < pages.Length ==> pages[i] == old(pages[i]) + 1
    ensures ret != 0 ==> pages[..] == old(pages[..]) && exists i :: 0 <= i < |answers| && answers[i] == ret
  {
    var charged := 0;
    ret := 0;
    while charged < pages.Length
      invariant charged <= pages.Length
      invariant forall i :: 0 <= i < charged ==> answers[i] == 0 && pages[i] == old(pages[i]) + 1
      invariant forall i :: charged <= i < pages.Length ==> pages[i] == old(pages[i])
    {
      if answers[charged] != 0 {
        ret := answers[charged];
        break;
      }
      pages[charged] := pages[charged] + 1;
      charged := charged + 1;
    }
    if ret != 0 {
      for i := 0 to charged
        invariant forall j :: 0 <= j < i ==> pages[j] == old(pages[j])
        invariant forall j :: i <= j < charged ==> pages[j] == old(pages[j]) + 1
        invariant forall j :: charged <= j < pages.Length ==> pages[j] == old(pages[j])
      {
        pages[i] := pages[i] - 1;
      }
    }
  }
}
