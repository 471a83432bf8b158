/** Resource limits: do_prlimit in Kernel/kernel/sys.c and their inheritance by copy_signal in
    Kernel/kernel/fork.c. */
module Rlimits {
  import opened Common
  import opened Errno

  const RLIM_NLIMITS := 16
  const RLIMIT_NOFILE := 7
  const RLIMIT_AS := 9

  /** A soft and a hard limit. */
  datatype Rlimit = Rlimit(cur: nat, max: nat)

  type Process = nat

  /** The limits of every process, one per resource. */
  type Limits = map<Process, seq<Rlimit>>

  ghost predicate WellFormed(s: Limits) {
    && (forall p :: p in s ==> |s[p]| == RLIM_NLIMITS)
    && (forall p, r :: p in s && 0 <= r < |s[p]| ==> s[p][r].cur <= s[p][r].max)
  }

  // ----- what may happen to the limits

  /** - SetLimit: prlimit, setrlimit and the memory-limit registry; cap is CAP_SYS_RESOURCE
      - Fork:     a new process starts with its parent's limits
      - Exit:     its limits go with a process */
  datatype Event =
    | SetLimit(p: Process, resource: nat, limit: Rlimit, cap: bool, nrOpen: nat)
    | Fork(parent: Process, child: Process)
    | Exit(p: Process)

  /** The checks of do_prlimit that stand before a new limit. */
  predicate MaySet(limits: seq<Rlimit>, resource: nat, limit: Rlimit, cap: bool, nrOpen: nat) {
    && resource < |limits|
    && limit.cur <= limit.max
    && (resource == RLIMIT_NOFILE ==> limit.max <= nrOpen)
    && (limit.max <= limits[resource].max || cap)
  }

  /** The answer of do_prlimit: zero, or what stands in the way. */
  function PrlimitVerdict(limits: seq<Rlimit>, resource: nat, update: Option<Rlimit>, cap: bool, lsm: int, nrOpen: nat): int
  {
    if resource >= |limits| then -EINVAL
    else if update.None? then 0
    else if update.value.cur > update.value.max then -EINVAL
    else if MaySet(limits, resource, update.value, cap, nrOpen) then lsm
    else -EPERM
  }

  /** A new limit is taken exactly if soft is at most hard, open files stay within the system's maximum,
      the hard limit is not raised without the capability, and the security hook agrees. */
  lemma PrlimitSucceeds(limits: seq<Rlimit>, resource: nat, limit: Rlimit, cap: bool, lsm: int, nrOpen: nat)
    ensures PrlimitVerdict(limits, resource, Some(limit), cap, lsm, nrOpen) == 0 <==>
            && resource < |limits| && limit.cur <= limit.max && (resource == 7 ==> limit.max <= nrOpen)
            && (limit.max <= limits[resource].max || cap) && lsm == 0
    ensures PrlimitVerdict(limits, resource, None, cap, lsm, nrOpen) == 0 <==> resource < |limits|
  {
  }

  ghost predicate Allowed(s: Limits, e: Event) {
    match e
    case SetLimit(p, resource, limit, cap, nrOpen) => p in s && MaySet(s[p], resource, limit, cap, nrOpen)
    case Fork(parent, child) => parent in s && child !in s
    case Exit(p) => p in s
  }

  ghost function After(s: Limits, e: Event): Limits
    requires Allowed(s, e)
  {
    match e
    case SetLimit(p, resource, limit, _, _) => s[p := s[p][resource := limit]]
    case Fork(parent, child) => s[child := s[parent]]
    case Exit(p) => s - {p}
  }

  ghost predicate Reaches(s: Limits, events: seq<Event>, s': Limits)
    decreases |events|
  {
    if events == [] then s == s'
    else Allowed(s, events[0]) && Reaches(After(s, events[0]), events[1..], s')
  }

  /** Whom each living process descends from, counted from the start of the run. */
  ghost function Ancestors(events: seq<Event>, origin: map<Process, Process>): map<Process, Process>
    decreases |events|
  {
    if events == [] then origin else Ancestors(events[1..], Inherit(origin, events[0]))
  }

  ghost function Inherit(origin: map<Process, Process>, e: Event): map<Process, Process> {
    if e.Fork? && e.parent in origin then origin[e.child := origin[e.parent]]
    else if e.Exit? then origin - {e.p}
    else origin
  }

  /** Soft limits never exceed hard limits, in every run. */
  lemma {:induction false} RunKeepsWellFormed(s: Limits, events: seq<Event>, s': Limits)
    requires WellFormed(s) && Reaches(s, events, s')
    ensures WellFormed(s')
    decreases |events|
  {
    if events != [] {
      var mid := After(s, events[0]);
      assert WellFormed(mid);
      RunKeepsWellFormed(mid, events[1..], s');
    }
  }

  /** Nobody in the run had CAP_SYS_RESOURCE. */
  ghost predicate Unprivileged(events: seq<Event>) {
    forall i :: 0 <= i < |events| ==> !(events[i].SetLimit? && events[i].cap)
  }

  /** Every process is at or below the hard limits its ancestor had in base. */
  ghost predicate Bounded(base: Limits, s: Limits, origin: map<Process, Process>) {
    && origin.Keys == s.Keys
    && (forall p :: p in s ==> origin[p] in base && |s[p]| == |base[origin[p]]|)
    && (forall p, r :: p in s && 0 <= r < |s[p]| ==> s[p][r].max <= base[origin[p]][r].max)
  }

  lemma StepKeepsBounded(base: Limits, s: Limits, e: Event, origin: map<Process, Process>)
    requires Bounded(base, s, origin) && Allowed(s, e) && !(e.SetLimit? && e.cap)
    ensures Bounded(base, After(s, e), Inherit(origin, e))
  {
  }

  lemma {:induction false} RunKeepsBounded(base: Limits, s: Limits, events: seq<Event>, s': Limits,
                                           origin: map<Process, Process>)
    requires Bounded(base, s, origin) && Unprivileged(events) && Reaches(s, events, s')
    ensures Bounded(base, s', Ancestors(events, origin))
    decreases |events|
  {
    if events != [] {
      StepKeepsBounded(base, s, events[0], origin);
      RunKeepsBounded(base, After(s, events[0]), events[1..], s', Inherit(origin, events[0]));
    }
  }

  ghost function Selves(s: Limits): map<Process, Process> {
    map p | p in s :: p
  }

  /** Without CAP_SYS_RESOURCE no hard limit rises: every process, old or new, stays within the hard
      limits that its ancestor had when the run began. */
  lemma HardLimitsNeverRise(s: Limits, events: seq<Event>, s': Limits)
    requires Unprivileged(events) && Reaches(s, events, s')
    ensures Bounded(s, s', Ancestors(events, Selves(s)))
  {
    RunKeepsBounded(s, s, events, s', Selves(s));
  }

  /** A process that lives through the run is its own ancestor. */
  lemma {:induction false} SurvivorsAreThemselves(s: Limits, events: seq<Event>, s': Limits,
                                                  origin: map<Process, Process>, p: Process)
    requires Reaches(s, events, s') && p in s && p in origin && origin[p] == p
    requires forall i :: 0 <= i < |events| ==> events[i] != Exit(p)
    ensures p in Ancestors(events, origin) && Ancestors(events, origin)[p] == p
    decreases |events|
  {
    if events != [] {
      assert events[0] != Exit(p);
      SurvivorsAreThemselves(After(s, events[0]), events[1..], s', Inherit(origin, events[0]), p);
    }
  }

  /** From a fork on, a child stays within the hard limits its parent had at the fork. */
  lemma ChildWithinParent(s: Limits, parent: Process, child: Process, events: seq<Event>, s': Limits, r: nat)
    requires Allowed(s, Fork(parent, child)) && Reaches(After(s, Fork(parent, child)), events, s')
    requires Unprivileged(events) && forall i :: 0 <= i < |events| ==> events[i] != Exit(child)
    ensures child in s' && |s'[child]| == |s[parent]|
    ensures r < |s[parent]| ==> s'[child][r].max <= s[parent][r].max
  {
    var start := After(s, Fork(parent, child));
    HardLimitsNeverRise(start, events, s');
    SurvivorsAreThemselves(start, events, s', Selves(start), child);
  }

  // ----- the code

  class Processes {
    var limits: Limits

    /** do_prlimit on process p; lsm is the verdict of security_task_setrlimit. */
    method DoPrlimit(p: Process, resource: nat, update: Option<Rlimit>, cap: bool, lsm: int, nrOpen: nat)
      returns (ret: int, previous: Option<Rlimit>)
      requires WellFormed(limits) && p in limits
      modifies this
      ensures WellFormed(limits)
      ensures ret != 0 ==> limits == old(limits) && previous == None
      ensures ret == 0 ==>
                && resource < RLIM_NLIMITS && previous == Some(old(limits)[p][resource])
                && (update.None? ==> limits == old(limits))
                && (update.Some? ==>
                      && old(Allowed(limits, SetLimit(p, resource, update.value, cap, nrOpen)))
                      && limits == After(old(limits), SetLimit(p, resource, update.value, cap, nrOpen)))
      ensures ret == 0 && update.Some? ==>
                && limits.Keys == old(limits).Keys && (forall q :: q in limits && q != p ==> limits[q] == old(limits)[q])
                && |limits[p]| == |old(limits)[p]| && limits[p][resource] == update.value
                && forall r :: 0 <= r < |limits[p]| && r != resource ==> limits[p][r] == old(limits)[p][r]
      ensures ret == PrlimitVerdict(old(limits)[p], resource, update, cap, lsm, nrOpen)
    {
      ret, previous := 0, None;
      if resource >= RLIM_NLIMITS {
        return -EINVAL, None;
      }
      if update.Some? {
        if update.value.cur > update.value.max {
          return -EINVAL, None;
        }
        if resource == RLIMIT_NOFILE && update.value.max > nrOpen {
          return -EPERM, None;
        }
      }
      var rlim := limits[p][resource];
      if update.Some? {
        if update.value.max > rlim.max && !cap {
          ret := -EPERM;
        }
        if ret == 0 {
          ret := lsm;
        }
      }
      if ret == 0 {
        previous := Some(rlim);
        if update.Some? {
          limits := limits[p := limits[p][resource := update.value]];
        }
      }
    }

    /** copy_signal for a new process. */
    method CopySignal(parent: Process, child: Process)
      requires WellFormed(limits) && parent in limits && child !in limits
      modifies this
      ensures WellFormed(limits)
      ensures limits == After(old(limits), Fork(parent, child))
      ensures child in limits && limits[child] == old(limits)[parent]
      ensures limits.Keys == old(limits).Keys + {child} && forall q :: q in old(limits) ==> limits[q] == old(limits)[q]
    {
      limits := limits[child := limits[parent]];
    }
  }
}
