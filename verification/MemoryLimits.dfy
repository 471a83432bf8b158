/** The memory-limit registry of Kernel/kernel/fase3/syscall3.c: what its four system calls do to the
    list of limited processes and to the tasks' RLIMIT_AS.  The calls take no lock; they are modelled
    one at a time. */
module MemoryLimits {
  import opened Common
  import opened Errno
  import opened Rlimits

  type Pid = int

  const LIMIT_EXCEEDED := -100
  const ALREADY_LISTED := -101
  const NOT_LISTED := -102

  /** What remove leaves behind, 110 MiB. */
  const DEFAULT_LIMIT := 110 * 1024 * 1024

  datatype Entry = Entry(pid: Pid, limit: nat)

  /** - list:   the registry, newest entry first
      - group:  the live tasks, each with the process whose limits it shares
      - limits: the limits of all processes */
  datatype State = State(list: seq<Entry>, group: map<Pid, Process>, limits: Limits)

  /** - admin, resource: CAP_SYS_ADMIN and CAP_SYS_RESOURCE of the caller
      - lsm:             verdict of security_task_setrlimit
      - usage:           bytes of address space the task uses
      - node:            the list node can be allocated */
  datatype Env = Env(admin: bool, resource: bool, lsm: int, usage: nat, node: bool)

  ghost predicate WellFormedState(s: State) {
    && WellFormed(s.limits)
    && (forall pid :: pid in s.group ==> s.group[pid] in s.limits)
    && DistinctPids(s.list)
  }

  ghost predicate DistinctPids(list: seq<Entry>) {
    forall i, j :: 0 <= i < j < |list| ==> list[i].pid != list[j].pid
  }

  /** The position of a pid, or the length of the list. */
  function Position(list: seq<Entry>, pid: Pid): (k: nat)
    ensures k <= |list| && (k < |list| ==> list[k].pid == pid)
    ensures forall i :: 0 <= i < k ==> list[i].pid != pid
  {
    if list == [] then 0 else if list[0].pid == pid then 0 else 1 + Position(list[1..], pid)
  }

  predicate Listed(list: seq<Entry>, pid: Pid) {
    Position(list, pid) < |list|
  }

  // ----- the calls on values

  function Both(limit: nat): Rlimit {
    Rlimit(limit, limit)
  }

  function SetAs(limits: Limits, p: Process, limit: nat): Limits
    requires p in limits && |limits[p]| == RLIM_NLIMITS
  {
    limits[p := limits[p][RLIMIT_AS := Both(limit)]]
  }

  /** set_process_memory_limit. */
  function PrlimitError(limits: Limits, p: Process, limit: nat, e: Env): int
    requires p in limits
  {
    if MaySet(limits[p], RLIMIT_AS, Both(limit), e.resource, 0) then e.lsm else -EPERM
  }

  function AddError(s: State, pid: Pid, limit: nat, e: Env): int
    requires pid in s.group ==> s.group[pid] in s.limits
  {
    if !e.admin then -EPERM
    else if pid <= 0 || limit == 0 then -EINVAL
    else if pid !in s.group then -ESRCH
    else if Listed(s.list, pid) then ALREADY_LISTED
    else if e.usage > limit then LIMIT_EXCEEDED
    else PrlimitError(s.limits, s.group[pid], limit, e)
  }

  /** luis_add_memory_limit: the limit is set before the node is allocated, and stays when that
      fails. */
  ghost function Add(s: State, pid: Pid, limit: nat, e: Env): (int, State)
    requires WellFormedState(s)
  {
    var err := AddError(s, pid, limit, e);
    if err != 0 then (err, s)
    else
      var t := s.(limits := SetAs(s.limits, s.group[pid], limit));
      if !e.node then (-ENOMEM, t) else (0, t.(list := [Entry(pid, limit)] + s.list))
  }

  function UpdateError(s: State, pid: Pid, limit: nat, e: Env): int
    requires pid in s.group ==> s.group[pid] in s.limits
  {
    if !e.admin then -EPERM
    else if pid <= 0 || limit == 0 then -EINVAL
    else if pid !in s.group then -ESRCH
    else if !Listed(s.list, pid) then NOT_LISTED
    else if e.usage > limit then LIMIT_EXCEEDED
    else PrlimitError(s.limits, s.group[pid], limit, e)
  }

  /** luis_update_memory_limit. */
  ghost function Update(s: State, pid: Pid, limit: nat, e: Env): (int, State)
    requires WellFormedState(s)
  {
    var err := UpdateError(s, pid, limit, e);
    if err != 0 then (err, s)
    else
      (0, s.(list := s.list[Position(s.list, pid) := Entry(pid, limit)],
             limits := SetAs(s.limits, s.group[pid], limit)))
  }

  function RemoveError(s: State, pid: Pid, e: Env): int
    requires pid in s.group ==> s.group[pid] in s.limits
  {
    if !e.admin then -EPERM
    else if pid <= 0 then -EINVAL
    else if pid !in s.group then -ESRCH
    else if !Listed(s.list, pid) then NOT_LISTED
    else PrlimitError(s.limits, s.group[pid], DEFAULT_LIMIT, e)
  }

  /** luis_remove_memory_limit: the entry goes and the task is left with 110 MiB. */
  ghost function Remove(s: State, pid: Pid, e: Env): (int, State)
    requires WellFormedState(s)
  {
    var err := RemoveError(s, pid, e);
    if err != 0 then (err, s)
    else
      var k := Position(s.list, pid);
      (0, s.(list := s.list[..k] + s.list[k + 1..], limits := SetAs(s.limits, s.group[pid], DEFAULT_LIMIT)))
  }

  // ----- the list is a map from pids to limits

  ghost function Recorded(list: seq<Entry>): map<Pid, nat> {
    if list == [] then map[] else Recorded(list[1..])[list[0].pid := list[0].limit]
  }

  lemma {:induction false} RecordedIsFirst(list: seq<Entry>, pid: Pid)
    ensures Listed(list, pid) <==> pid in Recorded(list)
    ensures Listed(list, pid) ==> Recorded(list)[pid] == list[Position(list, pid)].limit
  {
    if list != [] {
      RecordedIsFirst(list[1..], pid);
    }
  }

  lemma {:induction false} RecordedUpdate(list: seq<Entry>, pid: Pid, limit: nat)
    requires Listed(list, pid)
    ensures Recorded(list[Position(list, pid) := Entry(pid, limit)]) == Recorded(list)[pid := limit]
  {
    var k := Position(list, pid);
    var list' := list[k := Entry(pid, limit)];
    if k == 0 {
      assert list'[1..] == list[1..];
    } else {
      RecordedUpdate(list[1..], pid, limit);
      assert list'[1..] == list[1..][k - 1 := Entry(pid, limit)];
    }
  }

  lemma {:induction false} RecordedRemove(list: seq<Entry>, pid: Pid)
    requires Listed(list, pid) && DistinctPids(list)
    ensures
      var k := Position(list, pid);
      Recorded(list[..k] + list[k + 1..]) == Recorded(list) - {pid}
  {
    var k := Position(list, pid);
    var list' := list[..k] + list[k + 1..];
    if k == 0 {
      assert list' == list[1..];
      RecordedIsFirst(list', pid);
    } else {
      RecordedRemove(list[1..], pid);
      assert list'[0] == list[0] && list'[1..] == list[1..][..k - 1] + list[1..][k..];
    }
  }

  lemma AddRefines(s: State, pid: Pid, limit: nat, e: Env)
    requires WellFormedState(s)
    ensures
      var (err, t) := Add(s, pid, limit, e);
      && WellFormedState(t) && t.group == s.group
      && Recorded(t.list) == if err == 0 then Recorded(s.list)[pid := limit] else Recorded(s.list)
  {
    var (err, t) := Add(s, pid, limit, e);
    if err == 0 {
      assert t.list[1..] == s.list;
    }
  }

  lemma UpdateRefines(s: State, pid: Pid, limit: nat, e: Env)
    requires WellFormedState(s)
    ensures
      var (err, t) := Update(s, pid, limit, e);
      && WellFormedState(t) && t.group == s.group
      && (err == 0 ==> pid in Recorded(s.list))
      && Recorded(t.list) == if err == 0 then Recorded(s.list)[pid := limit] else Recorded(s.list)
  {
    if UpdateError(s, pid, limit, e) == 0 {
      RecordedUpdate(s.list, pid, limit);
      RecordedIsFirst(s.list, pid);
    }
  }

  lemma RemoveRefines(s: State, pid: Pid, e: Env)
    requires WellFormedState(s)
    ensures
      var (err, t) := Remove(s, pid, e);
      && WellFormedState(t) && t.group == s.group
      && Recorded(t.list) == if err == 0 then Recorded(s.list) - {pid} else Recorded(s.list)
  {
    if RemoveError(s, pid, e) == 0 {
      RecordedRemove(s.list, pid);
    }
  }

  // ----- when a call succeeds, and what it does then

  /** Both limits on the address space of the process are this one, and no other limit changed. */
  ghost predicate OnlyAsSet(limits: Limits, limits': Limits, p: Process, limit: nat)
    requires WellFormed(limits) && WellFormed(limits') && p in limits
  {
    && limits'.Keys == limits.Keys && (forall q :: q in limits && q != p ==> limits'[q] == limits[q])
    && limits'[p][RLIMIT_AS].cur == limits'[p][RLIMIT_AS].max == limit
    && forall r :: 0 <= r < RLIM_NLIMITS && r != RLIMIT_AS ==> limits'[p][r] == limits[p][r]
  }

  /** prlimit lets the limit through: not above the hard limit, unless the caller has the capability. */
  ghost predicate PrlimitLets(limits: Limits, p: Process, limit: nat, e: Env)
    requires WellFormed(limits) && p in limits
  {
    (limit <= limits[p][RLIMIT_AS].max || e.resource) && e.lsm == 0
  }

  /** A limit is set for a listed or unlisted live task exactly if the caller is the administrator, the
      limit is positive and not below what the task uses, and prlimit lets it through.  A limit below
      the usage is refused with -100 and changes nothing. */
  lemma AddSucceeds(s: State, pid: Pid, limit: nat, e: Env)
    requires WellFormedState(s)
    ensures
      var (err, t) := Add(s, pid, limit, e);
      && (err == 0 <==>
            && e.admin && pid > 0 && limit > 0 && pid in s.group && !Listed(s.list, pid) && e.usage <= limit
            && PrlimitLets(s.limits, s.group[pid], limit, e) && e.node)
      && (err == 0 ==> WellFormed(t.limits) && OnlyAsSet(s.limits, t.limits, s.group[pid], limit))
      && (e.admin && pid > 0 && limit > 0 && pid in s.group && !Listed(s.list, pid) && e.usage > limit ==>
            err == LIMIT_EXCEEDED)
      && (e.usage > limit ==> err != 0 && t == s)
      && (Listed(s.list, pid) ==> err != 0 && t == s)
  {
  }

  lemma UpdateSucceeds(s: State, pid: Pid, limit: nat, e: Env)
    requires WellFormedState(s)
    ensures
      var (err, t) := Update(s, pid, limit, e);
      && (err == 0 <==>
            && e.admin && pid > 0 && limit > 0 && pid in s.group && Listed(s.list, pid) && e.usage <= limit
            && PrlimitLets(s.limits, s.group[pid], limit, e))
      && (err == 0 ==> WellFormed(t.limits) && OnlyAsSet(s.limits, t.limits, s.group[pid], limit))
      && (e.admin && pid > 0 && limit > 0 && pid in s.group && Listed(s.list, pid) && e.usage > limit ==>
            err == LIMIT_EXCEEDED)
      && (err != 0 ==> t == s)
  {
  }

  lemma RemoveSucceeds(s: State, pid: Pid, e: Env)
    requires WellFormedState(s)
    ensures
      var (err, t) := Remove(s, pid, e);
      && (err == 0 <==>
            && e.admin && pid > 0 && pid in s.group && Listed(s.list, pid)
            && PrlimitLets(s.limits, s.group[pid], DEFAULT_LIMIT, e))
      && (err == 0 ==> WellFormed(t.limits) && OnlyAsSet(s.limits, t.limits, s.group[pid], 110 * 1024 * 1024))
      && (err != 0 ==> t == s)
  {
  }

  // ----- the registry and the tasks' limits

  /** pid is listed and its task is alive. */
  ghost predicate Tracked(s: State, pid: Pid) {
    pid in Recorded(s.list) && pid in s.group
  }

  /** The soft and the hard RLIMIT_AS of every tracked task are what the registry says. */
  ghost predicate Agrees(s: State)
    requires WellFormedState(s)
  {
    forall pid :: Tracked(s, pid) ==> s.limits[s.group[pid]][RLIMIT_AS] == Both(Recorded(s.list)[pid])
  }

  /** - Thread, Process: a task appears, in a process that exists or in a new one that inherits the
                          limits of another
      - Prlimit:         somebody else writes a limit, with or without CAP_SYS_RESOURCE */
  datatype Event =
    | AddCall(pid: Pid, limit: nat, env: Env)
    | UpdateCall(pid: Pid, limit: nat, env: Env)
    | RemoveCall(pid: Pid, env: Env)
    | NewThread(pid: Pid, process: Process)
    | NewProcess(pid: Pid, process: Process, parent: Process)
    | ExitTask(pid: Pid)
    | Prlimit(process: Process, resource: nat, pair: Rlimit, cap: bool, nrOpen: nat)

  ghost predicate Enabled(s: State, e: Event) {
    match e
    case NewThread(pid, process) => pid !in s.group && process in s.limits
    case NewProcess(pid, process, parent) => pid !in s.group && process !in s.limits && parent in s.limits
    case Prlimit(process, resource, limit, cap, nrOpen) =>
      process in s.limits && MaySet(s.limits[process], resource, limit, cap, nrOpen)
    case _ => true
  }

  ghost function Apply(s: State, e: Event): State
    requires WellFormedState(s) && Enabled(s, e)
  {
    match e
    case AddCall(pid, limit, env) => Add(s, pid, limit, env).1
    case UpdateCall(pid, limit, env) => Update(s, pid, limit, env).1
    case RemoveCall(pid, env) => Remove(s, pid, env).1
    case NewThread(pid, process) => s.(group := s.group[pid := process])
    case NewProcess(pid, process, parent) =>
      s.(group := s.group[pid := process], limits := s.limits[process := s.limits[parent]])
    case ExitTask(pid) => s.(group := s.group - {pid})
    case Prlimit(process, resource, limit, _, _) =>
      s.(limits := s.limits[process := s.limits[process][resource := limit]])
  }

  lemma EventKeepsWellFormed(s: State, e: Event)
    requires WellFormedState(s) && Enabled(s, e)
    ensures WellFormedState(Apply(s, e))
  {
    match e
    case AddCall(pid, limit, env) => AddRefines(s, pid, limit, env);
    case UpdateCall(pid, limit, env) => UpdateRefines(s, pid, limit, env);
    case RemoveCall(pid, env) => RemoveRefines(s, pid, env);
    case _ =>
  }

  /** The other tracked tasks that share pid's limits are recorded with the same limit. */
  ghost predicate SharersRecord(s: State, pid: Pid, limit: nat)
    requires WellFormedState(s) && pid in s.group
  {
    forall q :: Tracked(s, q) && q != pid && s.group[q] == s.group[pid] ==> Recorded(s.list)[q] == limit
  }

  /** When an event leaves registry and limits in agreement. */
  ghost predicate Harmless(s: State, e: Event)
    requires WellFormedState(s) && Enabled(s, e)
  {
    match e
    case AddCall(pid, limit, env) => AddError(s, pid, limit, env) == 0 ==> SharersRecord(s, pid, limit)
    case UpdateCall(pid, limit, env) => UpdateError(s, pid, limit, env) == 0 ==> SharersRecord(s, pid, limit)
    case RemoveCall(pid, env) => RemoveError(s, pid, env) == 0 ==> SharersRecord(s, pid, DEFAULT_LIMIT)
    case NewThread(pid, process) =>
      pid in Recorded(s.list) ==> s.limits[process][RLIMIT_AS] == Both(Recorded(s.list)[pid])
    case NewProcess(pid, process, parent) =>
      pid in Recorded(s.list) ==> s.limits[parent][RLIMIT_AS] == Both(Recorded(s.list)[pid])
    case ExitTask(_) => true
    case Prlimit(process, resource, limit, _, _) =>
      resource == RLIMIT_AS ==>
        forall q :: Tracked(s, q) && s.group[q] == process ==> limit == Both(Recorded(s.list)[q])
  }

  /** The three calls agree afterwards exactly if all sharers are recorded with the new limit. */
  lemma SetAsExact(s: State, t: State, pid: Pid, limit: nat)
    requires WellFormedState(s) && Agrees(s) && pid in s.group && t.group == s.group && WellFormedState(t)
    requires t.limits == SetAs(s.limits, s.group[pid], limit)
    requires Recorded(t.list) - {pid} == Recorded(s.list) - {pid}
    requires pid in Recorded(t.list) ==> Recorded(t.list)[pid] == limit
    ensures Agrees(t) <==> SharersRecord(s, pid, limit)
  {
    forall q | q != pid
      ensures Tracked(t, q) <==> Tracked(s, q)
      ensures Tracked(s, q) ==> Recorded(t.list)[q] == Recorded(s.list)[q]
    {
      assert q in Recorded(t.list) - {pid} <==> q in Recorded(s.list) - {pid};
      assert q in Recorded(s.list) ==> (Recorded(t.list) - {pid})[q] == (Recorded(s.list) - {pid})[q];
    }
    if Agrees(t) {
      forall q | Tracked(s, q) && q != pid && s.group[q] == s.group[pid] ensures Recorded(s.list)[q] == limit {
        assert Tracked(t, q);
      }
    }
  }

  /** An event leaves registry and limits in agreement if and only if it is harmless. */
  lemma AgreementIsExact(s: State, e: Event)
    requires WellFormedState(s) && Enabled(s, e) && Agrees(s)
    ensures WellFormedState(Apply(s, e))
    ensures Agrees(Apply(s, e)) <==> Harmless(s, e)
  {
    EventKeepsWellFormed(s, e);
    var t := Apply(s, e);
    match e
    case AddCall(pid, limit, env) =>
      AddRefines(s, pid, limit, env);
      if AddError(s, pid, limit, env) == 0 {
        RecordedIsFirst(s.list, pid);
        SetAsExact(s, t, pid, limit);
      }
    case UpdateCall(pid, limit, env) =>
      UpdateRefines(s, pid, limit, env);
      if UpdateError(s, pid, limit, env) == 0 {
        SetAsExact(s, t, pid, limit);
      }
    case RemoveCall(pid, env) =>
      RemoveRefines(s, pid, env);
      if RemoveError(s, pid, env) == 0 {
        SetAsExact(s, t, pid, DEFAULT_LIMIT);
      }
    case NewThread(pid, process) =>
      assert forall q :: Tracked(t, q) <==> Tracked(s, q) || (q == pid && pid in Recorded(s.list));
    case NewProcess(pid, process, parent) =>
      assert forall q :: Tracked(t, q) <==> Tracked(s, q) || (q == pid && pid in Recorded(s.list));
    case ExitTask(pid) =>
      assert forall q :: Tracked(t, q) ==> Tracked(s, q);
    case Prlimit(_, _, _, _, _) =>
      assert forall q :: Tracked(t, q) <==> Tracked(s, q);
  }

  // ----- whole runs, under the conditions the registry needs

  /** No two tracked tasks share their limits. */
  ghost predicate OnePerProcess(s: State) {
    forall p, q :: Tracked(s, p) && Tracked(s, q) && s.group[p] == s.group[q] ==> p == q
  }

  /** A task is added only if no other one of its process is tracked, a listed pid is not reused, and
      nobody else writes the limit of a tracked task. */
  ghost predicate Careful(s: State, e: Event)
    requires WellFormedState(s) && Enabled(s, e)
  {
    match e
    case AddCall(pid, _, _) =>
      pid in s.group ==> forall q :: Tracked(s, q) && s.group[q] == s.group[pid] ==> q == pid
    case NewThread(pid, _) => pid !in Recorded(s.list)
    case NewProcess(pid, _, _) => pid !in Recorded(s.list)
    case Prlimit(process, resource, _, _, _) =>
      resource == RLIMIT_AS ==> forall q :: Tracked(s, q) ==> s.group[q] != process
    case _ => true
  }

  lemma CarefulIsHarmless(s: State, e: Event)
    requires WellFormedState(s) && Enabled(s, e) && OnePerProcess(s) && Careful(s, e)
    ensures Harmless(s, e)
  {
    match e
    case UpdateCall(pid, _, _) => RecordedIsFirst(s.list, pid);
    case RemoveCall(pid, _) => RecordedIsFirst(s.list, pid);
    case _ =>
  }

  lemma CarefulKeepsOnePerProcess(s: State, e: Event)
    requires WellFormedState(s) && Enabled(s, e) && OnePerProcess(s) && Careful(s, e)
    ensures OnePerProcess(Apply(s, e))
  {
    var t := Apply(s, e);
    match e
    case AddCall(pid, limit, env) =>
      AddRefines(s, pid, limit, env);
      assert forall q :: Tracked(t, q) && q != pid ==> Tracked(s, q);
    case UpdateCall(pid, limit, env) =>
      UpdateRefines(s, pid, limit, env);
      assert forall q :: Tracked(t, q) ==> Tracked(s, q);
    case RemoveCall(pid, env) =>
      RemoveRefines(s, pid, env);
      assert forall q :: Tracked(t, q) ==> Tracked(s, q);
    case _ =>
      assert forall q :: Tracked(t, q) ==> Tracked(s, q) && t.group[q] == s.group[q];
  }

  ghost predicate CarefulRun(s: State, events: seq<Event>, s': State)
    decreases |events|
  {
    if events == [] then s == s'
    else
      && WellFormedState(s) && Enabled(s, events[0]) && Careful(s, events[0])
      && CarefulRun(Apply(s, events[0]), events[1..], s')
  }

  /** In every careful run the registry stays free of duplicates and every recorded limit is both the
      soft and the hard RLIMIT_AS of its task, also when node allocations fail. */
  lemma {:induction false} RegistryTellsTheTruth(s: State, events: seq<Event>, s': State)
    requires WellFormedState(s) && Agrees(s) && OnePerProcess(s) && CarefulRun(s, events, s')
    ensures WellFormedState(s') && Agrees(s') && OnePerProcess(s')
    decreases |events|
  {
    if events != [] {
      CarefulIsHarmless(s, events[0]);
      AgreementIsExact(s, events[0]);
      CarefulKeepsOnePerProcess(s, events[0]);
      RegistryTellsTheTruth(Apply(s, events[0]), events[1..], s');
    }
  }

  // ----- what the registry does to limits is what prlimit may do

  ghost function SetOf(s: State, pid: Pid, limit: nat, env: Env): Rlimits.Event
    requires pid in s.group
  {
    Rlimits.SetLimit(s.group[pid], RLIMIT_AS, Both(limit), env.resource, 0)
  }

  /** The change of limits an event amounts to, if any. */
  ghost function LimitStep(s: State, e: Event): seq<Rlimits.Event>
    requires WellFormedState(s) && Enabled(s, e)
  {
    match e
    case AddCall(pid, limit, env) => if AddError(s, pid, limit, env) == 0 then [SetOf(s, pid, limit, env)] else []
    case UpdateCall(pid, limit, env) => if UpdateError(s, pid, limit, env) == 0 then [SetOf(s, pid, limit, env)] else []
    case RemoveCall(pid, env) => if RemoveError(s, pid, env) == 0 then [SetOf(s, pid, DEFAULT_LIMIT, env)] else []
    case NewProcess(_, process, parent) => [Rlimits.Fork(parent, process)]
    case Prlimit(process, resource, limit, cap, nrOpen) =>
      [Rlimits.SetLimit(process, resource, limit, cap, nrOpen)]
    case _ => []
  }

  ghost predicate AnyRun(s: State, events: seq<Event>, s': State)
    decreases |events|
  {
    if events == [] then s == s'
    else WellFormedState(s) && Enabled(s, events[0]) && AnyRun(Apply(s, events[0]), events[1..], s')
  }

  ghost function LimitRun(s: State, events: seq<Event>, s': State): seq<Rlimits.Event>
    requires AnyRun(s, events, s')
    decreases |events|
  {
    if events == [] then [] else LimitStep(s, events[0]) + LimitRun(Apply(s, events[0]), events[1..], s')
  }

  lemma RegistryIsPrlimit(s: State, e: Event)
    requires WellFormedState(s) && Enabled(s, e) && (e.AddCall? || e.UpdateCall? || e.RemoveCall?)
    ensures LimitStep(s, e) == [] ==> Apply(s, e).limits == s.limits
    ensures LimitStep(s, e) != [] ==>
              && |LimitStep(s, e)| == 1 && Rlimits.Allowed(s.limits, LimitStep(s, e)[0])
              && Apply(s, e).limits == Rlimits.After(s.limits, LimitStep(s, e)[0])
  {
  }

  /** Every run of registry calls, forks, exits and other writers of limits, careful or not, is a run of
      the limits, so soft limits stay at or below hard limits. */
  lemma {:induction false} RegistryRunsAreLimitRuns(s: State, events: seq<Event>, s': State)
    requires WellFormedState(s) && AnyRun(s, events, s')
    ensures Rlimits.Reaches(s.limits, LimitRun(s, events, s'), s'.limits)
    ensures WellFormedState(s')
    decreases |events|
  {
    if events != [] {
      var e, mid := events[0], Apply(s, events[0]);
      EventKeepsWellFormed(s, e);
      RegistryRunsAreLimitRuns(mid, events[1..], s');
      var step, rest := LimitStep(s, e), LimitRun(mid, events[1..], s');
      if e.AddCall? || e.UpdateCall? || e.RemoveCall? {
        RegistryIsPrlimit(s, e);
      }
      if step == [] {
        assert step + rest == rest;
      } else {
        assert (step + rest)[0] == step[0] && (step + rest)[1..] == rest;
      }
    }
  }

  predicate HasCapability(e: Event) {
    match e
    case AddCall(_, _, env) => env.resource
    case UpdateCall(_, _, env) => env.resource
    case RemoveCall(_, env) => env.resource
    case Prlimit(_, _, _, cap, _) => cap
    case _ => false
  }

  /** Nobody in the run had CAP_SYS_RESOURCE. */
  ghost predicate WithoutCapability(events: seq<Event>) {
    forall i :: 0 <= i < |events| ==> !HasCapability(events[i])
  }

  lemma {:induction false} LimitRunIsUnprivileged(s: State, events: seq<Event>, s': State)
    requires AnyRun(s, events, s') && WithoutCapability(events)
    ensures Unprivileged(LimitRun(s, events, s'))
    decreases |events|
  {
    if events != [] {
      LimitRunIsUnprivileged(Apply(s, events[0]), events[1..], s');
      assert !HasCapability(events[0]);
    }
  }

  /** Limits go with their process, which these runs do not end. */
  lemma {:induction false} LimitRunEndsNobody(s: State, events: seq<Event>, s': State)
    requires AnyRun(s, events, s')
    ensures forall i :: 0 <= i < |LimitRun(s, events, s')| ==> !LimitRun(s, events, s')[i].Exit?
    decreases |events|
  {
    if events != [] {
      LimitRunEndsNobody(Apply(s, events[0]), events[1..], s');
    }
  }

  /** Without CAP_SYS_RESOURCE no hard limit rises in any run that mixes registry calls, prlimit and
      forks: a process that was there stays within its own, a new one within those of its ancestor. */
  lemma RegistryNeverRaises(s: State, events: seq<Event>, s': State)
    requires WellFormedState(s) && AnyRun(s, events, s') && WithoutCapability(events)
    ensures Bounded(s.limits, s'.limits, Ancestors(LimitRun(s, events, s'), Selves(s.limits)))
    ensures forall p, r :: p in s.limits && 0 <= r < RLIM_NLIMITS ==>
              p in s'.limits && |s'.limits[p]| == RLIM_NLIMITS && s'.limits[p][r].max <= s.limits[p][r].max
  {
    var run := LimitRun(s, events, s');
    RegistryRunsAreLimitRuns(s, events, s');
    LimitRunIsUnprivileged(s, events, s');
    LimitRunEndsNobody(s, events, s');
    HardLimitsNeverRise(s.limits, run, s'.limits);
    forall p | p in s.limits ensures p in s'.limits && Ancestors(run, Selves(s.limits))[p] == p {
      SurvivorsAreThemselves(s.limits, run, s'.limits, Selves(s.limits), p);
    }
  }

  /** And from its fork on a child stays within the hard limits its parent had then, whatever the
      registry does. */
  lemma RegistryChildWithinParent(s: State, pid: Pid, child: Process, parent: Process,
                                  events: seq<Event>, s': State, r: nat)
    requires WellFormedState(s) && Enabled(s, NewProcess(pid, child, parent)) && r < RLIM_NLIMITS
    requires AnyRun(Apply(s, NewProcess(pid, child, parent)), events, s') && WithoutCapability(events)
    ensures child in s'.limits && |s'.limits[child]| == RLIM_NLIMITS
    ensures s'.limits[child][r].max <= s.limits[parent][r].max
  {
    var born := Apply(s, NewProcess(pid, child, parent));
    EventKeepsWellFormed(s, NewProcess(pid, child, parent));
    assert child in born.limits && born.limits[child] == s.limits[parent];
    RegistryNeverRaises(born, events, s');
    assert s'.limits[child][r].max <= born.limits[child][r].max;
  }

  // ----- entries whose task has exited

  /** No task gets the pid. */
  predicate LeavesPid(e: Event, pid: Pid) {
    !((e.NewThread? || e.NewProcess?) && e.pid == pid)
  }

  lemma StaleEntryStays(s: State, e: Event, pid: Pid)
    requires WellFormedState(s) && Enabled(s, e) && LeavesPid(e, pid)
    requires pid !in s.group && pid in Recorded(s.list)
    ensures pid !in Apply(s, e).group && pid in Recorded(Apply(s, e).list)
    ensures Recorded(Apply(s, e).list)[pid] == Recorded(s.list)[pid]
  {
    match e
    case AddCall(p, limit, env) => AddRefines(s, p, limit, env);
    case UpdateCall(p, limit, env) => UpdateRefines(s, p, limit, env);
    case RemoveCall(p, env) => RemoveRefines(s, p, env);
    case _ =>
  }

  lemma {:induction false} StaleEntriesRun(s: State, pid: Pid, events: seq<Event>, s': State)
    requires WellFormedState(s) && AnyRun(s, events, s') && pid !in s.group && pid in Recorded(s.list)
    requires forall i :: 0 <= i < |events| ==> LeavesPid(events[i], pid)
    ensures pid in Recorded(s'.list) && Recorded(s'.list)[pid] == Recorded(s.list)[pid]
    decreases |events|
  {
    if events != [] {
      assert LeavesPid(events[0], pid);
      EventKeepsWellFormed(s, events[0]);
      StaleEntryStays(s, events[0], pid);
      StaleEntriesRun(Apply(s, events[0]), pid, events[1..], s');
    }
  }

  /** Once a registered task has exited, its entry is there for good, with its limit: no run of calls
      can remove or change it as long as no task gets that pid again. */
  lemma StaleEntriesStay(s: State, pid: Pid, events: seq<Event>, s': State)
    requires WellFormedState(s) && pid in Recorded(s.list) && AnyRun(Apply(s, ExitTask(pid)), events, s')
    requires forall i :: 0 <= i < |events| ==> LeavesPid(events[i], pid)
    ensures pid in Recorded(s'.list) && Recorded(s'.list)[pid] == Recorded(s.list)[pid]
  {
    EventKeepsWellFormed(s, ExitTask(pid));
    StaleEntriesRun(Apply(s, ExitTask(pid)), pid, events, s');
  }

  // ----- two registered threads of one process

  const UNLIMITED := 0xffff_ffff_ffff_ffff

  /** After boot: one process without limits and an empty registry. */
  const BOOTED := State([], map[1 := 1], map[1 := seq(RLIM_NLIMITS, _ => Rlimit(UNLIMITED, UNLIMITED))])

  const ROOT := Env(true, false, 0, 0, true)

  /** Two threads of a process are registered one after the other with different limits: the second
      call succeeds, and the first entry is wrong from then on. */
  lemma ThreadsDisagree() returns (events: seq<Event>, last: State)
    ensures WellFormedState(BOOTED) && Agrees(BOOTED) && AnyRun(BOOTED, events, last)
    ensures WellFormedState(last) && !Agrees(last)
    ensures last.list == [Entry(2, 50), Entry(1, 100)] && last.group == map[1 := 1, 2 := 1]
    ensures last.limits[1][RLIMIT_AS] == Both(50)
  {
    var thread, first, second := NewThread(2, 1), AddCall(1, 100, ROOT), AddCall(2, 50, ROOT);
    events := [thread, first, second];
    var threaded := Apply(BOOTED, thread);
    var registered := Apply(threaded, first);
    EventKeepsWellFormed(threaded, first);
    assert registered.list == [Entry(1, 100)] && registered.limits[1][RLIMIT_AS] == Both(100);
    last := Apply(registered, second);
    EventKeepsWellFormed(registered, second);
    assert last.list == [Entry(2, 50), Entry(1, 100)];
    RecordedIsFirst(last.list, 1);
    assert Tracked(last, 1);
    assert AnyRun(registered, [second], last) by {
      assert [second][1..] == [];
    }
    assert AnyRun(threaded, [first, second], last) by {
      assert [first, second][1..] == [second];
    }
    assert events[1..] == [first, second];
  }

  // ----- the linked list and the system calls

  /** struct memory_limitation_list; the list head is one too. */
  class ListNode {
    var prev: ListNode
    var next: ListNode
    var entry: Entry

    /** INIT_LIST_HEAD. */
    constructor (entry: Entry)
      ensures this.entry == entry && prev == this && next == this
    {
      this.entry := entry;
      prev, next := this, this;
    }
  }

  /** Consecutive nodes are linked both ways. */
  ghost predicate Chained(ring: seq<ListNode>)
    reads ring
  {
    forall i :: 0 <= i < |ring| - 1 ==> ring[i].next == ring[i + 1] && ring[i + 1].prev == ring[i]
  }

  class Registry {
    const head: ListNode
    ghost var nodes: seq<ListNode>
    const procs: Processes
    var group: map<Pid, Process>

    ghost predicate Ring()
      reads this, head, nodes
    {
      head !in nodes && Distinct(nodes) && Chained([head] + nodes + [head])
    }

    ghost function Contents(): seq<Entry>
      reads this, nodes
    {
      seq(|nodes|, i requires 0 <= i < |nodes| reads this, nodes => nodes[i].entry)
    }

    ghost function View(): State
      reads this, nodes, procs
    {
      State(Contents(), group, procs.limits)
    }

    ghost predicate Valid()
      reads this, head, nodes, procs
    {
      Ring() && WellFormedState(View())
    }

    /** LIST_HEAD: nothing is listed. */
    constructor (procs: Processes, group: map<Pid, Process>)
      requires WellFormed(procs.limits) && forall pid :: pid in group ==> group[pid] in procs.limits
      ensures Valid() && Contents() == [] && this.procs == procs && this.group == group && fresh(head)
    {
      head := new ListNode(Entry(0, 0));
      nodes := [];
      this.procs, this.group := procs, group;
    }

    /** find_node_by_pid; k is where the node stands. */
    method FindNodeByPid(pid: Pid) returns (node: ListNode?, ghost k: nat)
      requires Ring()
      ensures k == Position(Contents(), pid)
      ensures if k < |nodes| then node == nodes[k] else node == null
    {
      var entry := head.next;
      ghost var ring := [head] + nodes + [head];
      assert ring[0] == head && ring[0].next == ring[1];
      assert forall i :: 0 <= i < |nodes| ==> ring[i + 1] == nodes[i];
      k := 0;
      while entry != head
        invariant k <= |nodes| && entry == ring[k + 1]
        invariant forall i :: 0 <= i < k ==> nodes[i].entry.pid != pid
        decreases |nodes| - k
      {
        assert ring[k + 1] == nodes[k];
        if entry.entry.pid == pid {
          PositionIs(Contents(), pid, k);
          return entry, k;
        }
        assert ring[k + 1].next == ring[k + 2];
        entry := entry.next;
        k := k + 1;
      }
      PositionIs(Contents(), pid, k);
      node := null;
    }

    /** list_add behind the head. */
    method ListAdd(node: ListNode)
      requires Ring() && node !in nodes && node != head
      modifies this`nodes, head, nodes, node
      ensures Ring() && nodes == [node] + old(nodes)
      ensures node.entry == old(node.entry) && forall n :: n in old(nodes) ==> n.entry == old(n.entry)
    {
      ghost var ring := [head] + nodes + [head];
      assert ring[0].next == ring[1];
      var next := head.next;
      next.prev := node;
      node.next := next;
      node.prev := head;
      head.next := node;
      nodes := [node] + nodes;
      ghost var ring' := [head] + nodes + [head];
      forall i | 0 <= i < |ring'| - 1 ensures ring'[i].next == ring'[i + 1] && ring'[i + 1].prev == ring'[i] {
        assert i >= 1 ==> ring'[i + 1] == ring[i];
        assert i >= 2 ==> ring'[i] == ring[i - 1];
      }
    }

    /** list_del. */
    method ListDel(node: ListNode, ghost k: nat)
      requires Ring() && k < |nodes| && nodes[k] == node
      modifies this`nodes, head, nodes
      ensures Ring() && nodes == old(nodes)[..k] + old(nodes)[k + 1..]
      ensures forall n :: n in old(nodes) ==> n.entry == old(n.entry)
    {
      ghost var ring := [head] + nodes + [head];
      assert ring[k + 1] == node;
      assert ring[k].next == node && node.prev == ring[k] && node.next == ring[k + 2];
      node.prev.next := node.next;
      node.next.prev := node.prev;
      nodes := nodes[..k] + nodes[k + 1..];
      ghost var ring' := [head] + nodes + [head];
      forall i | 0 <= i < |ring'| - 1 ensures ring'[i].next == ring'[i + 1] && ring'[i + 1].prev == ring'[i] {
        assert ring'[i] == if i <= k then ring[i] else ring[i + 1];
        assert ring'[i + 1] == if i + 1 <= k then ring[i + 1] else ring[i + 2];
      }
    }

    /** set_process_memory_limit on the process of a live task. */
    method SetProcessMemoryLimit(pid: Pid, limit: nat, env: Env) returns (ret: int)
      requires Valid() && pid in group
      modifies procs
      ensures ret == PrlimitError(old(procs.limits), group[pid], limit, env)
      ensures procs.limits == if ret == 0 then SetAs(old(procs.limits), group[pid], limit) else old(procs.limits)
    {
      var previous;
      ret, previous := procs.DoPrlimit(group[pid], RLIMIT_AS, Some(Rlimit(limit, limit)), env.resource, env.lsm, 0);
    }

    /** add_memory_limitation_node. */
    method AddMemoryLimitationNode(pid: Pid, limit: nat, env: Env) returns (ret: int)
      requires Valid()
      modifies this`nodes, head, nodes
      ensures Valid() && fresh(set n | n in nodes && n !in old(nodes)) && procs.limits == old(procs.limits)
      ensures ret == if Listed(old(Contents()), pid) then ALREADY_LISTED else if env.node then 0 else -ENOMEM
      ensures Contents() == if ret == 0 then [Entry(pid, limit)] + old(Contents()) else old(Contents())
    {
      var found, k := FindNodeByPid(pid);
      if found != null {
        return ALREADY_LISTED;
      }
      if !env.node {
        return -ENOMEM;
      }
      var node := new ListNode(Entry(pid, limit));
      ListAdd(node);
      assert Contents() == [Entry(pid, limit)] + old(Contents());
      return 0;
    }

    method SetNodeLimit(node: ListNode, ghost k: nat, limit: nat)
      requires Ring() && k < |nodes| && nodes[k] == node
      modifies node`entry
      ensures Ring() && Contents() == old(Contents())[k := Entry(old(node.entry.pid), limit)]
    {
      node.entry := node.entry.(limit := limit);
    }

    method DeleteNode(node: ListNode, ghost k: nat)
      requires Ring() && k < |nodes| && nodes[k] == node
      modifies this`nodes, head, nodes
      ensures Ring() && Contents() == old(Contents())[..k] + old(Contents())[k + 1..]
    {
      ListDel(node, k);
    }

    /** luis_add_memory_limit. */
    method AddMemoryLimit(pid: Pid, limit: nat, env: Env) returns (ret: int)
      requires Valid()
      modifies this`nodes, head, nodes, procs
      ensures Valid()
      ensures (ret, View()) == Add(old(View()), pid, limit, env)
    {
      if !env.admin {
        return -EPERM;
      }
      if pid <= 0 || limit == 0 {
        return -EINVAL;
      }
      if pid !in group {
        return -ESRCH;
      }
      var existing, k := FindNodeByPid(pid);
      if existing != null {
        return ALREADY_LISTED;
      }
      if env.usage > limit {
        return LIMIT_EXCEEDED;
      }
      ret := SetProcessMemoryLimit(pid, limit, env);
      if ret != 0 {
        return;
      }
      AddRefines(old(View()), pid, limit, env.(node := false));
      ret := AddMemoryLimitationNode(pid, limit, env);
    }

    /** luis_update_memory_limit. */
    method UpdateMemoryLimit(pid: Pid, limit: nat, env: Env) returns (ret: int)
      requires Valid()
      modifies nodes, procs
      ensures Valid() && nodes == old(nodes)
      ensures (ret, View()) == Update(old(View()), pid, limit, env)
    {
      if !env.admin {
        return -EPERM;
      }
      if pid <= 0 || limit == 0 {
        return -EINVAL;
      }
      if pid !in group {
        return -ESRCH;
      }
      var node, k := FindNodeByPid(pid);
      if node == null {
        return NOT_LISTED;
      }
      if env.usage > limit {
        return LIMIT_EXCEEDED;
      }
      ret := SetProcessMemoryLimit(pid, limit, env);
      if ret != 0 {
        return;
      }
      SetNodeLimit(node, k, limit);
      UpdateRefines(old(View()), pid, limit, env);
      return 0;
    }

    /** luis_remove_memory_limit. */
    method RemoveMemoryLimit(pid: Pid, env: Env) returns (ret: int)
      requires Valid()
      modifies this`nodes, head, nodes, procs
      ensures Valid()
      ensures (ret, View()) == Remove(old(View()), pid, env)
    {
      if !env.admin {
        return -EPERM;
      }
      if pid <= 0 {
        return -EINVAL;
      }
      if pid !in group {
        return -ESRCH;
      }
      var node, k := FindNodeByPid(pid);
      if node == null {
        return NOT_LISTED;
      }
      ret := SetProcessMemoryLimit(pid, DEFAULT_LIMIT, env);
      if ret != 0 {
        return;
      }
      DeleteNode(node, k);
      RemoveRefines(old(View()), pid, env);
      return 0;
    }

    /** luis_get_memory_limits; buffer and copied are whether the kernel buffer can be allocated and
        copied out, reported whether the count can be. */
    method GetMemoryLimits(maxEntries: nat, accessOk: bool, buffer: bool, copied: bool, reported: bool)
      returns (ret: int, out: seq<Entry>, count: nat)
      requires Valid()
      ensures ret == if maxEntries == 0 || !accessOk then -EINVAL else if !buffer then -ENOMEM
                     else if !copied || !reported then -EFAULT else 0
      ensures ret == 0 ==>
                && count == (if maxEntries < |Contents()| then maxEntries else |Contents()|)
                && out == Contents()[..count]
    {
      out, count := [], 0;
      if maxEntries == 0 {
        return -EINVAL, out, count;
      }
      if !accessOk {
        return -EINVAL, out, count;
      }
      if !buffer {
        return -ENOMEM, out, count;
      }
      var entries := new Entry[maxEntries];
      var entry := head.next;
      ghost var ring := [head] + nodes + [head];
      assert ring[0] == head && ring[0].next == ring[1];
      while entry != head
        invariant count <= |nodes| && count <= maxEntries && entry == ring[count + 1]
        invariant entries[..count] == Contents()[..count]
        decreases |nodes| - count
      {
        assert ring[count + 1] == nodes[count];
        if count >= maxEntries {
          break;
        }
        entries[count] := entry.entry;
        assert ring[count + 1].next == ring[count + 2];
        entry := entry.next;
        count := count + 1;
      }
      assert count < |nodes| ==> ring[count + 1] == nodes[count];
      if !copied {
        return -EFAULT, out, count;
      }
      out := entries[..count];
      if !reported {
        return -EFAULT, out, count;
      }
      return 0, out, count;
    }
  }

  lemma {:induction false} PositionIs(list: seq<Entry>, pid: Pid, k: nat)
    requires k <= |list| && (k < |list| ==> list[k].pid == pid)
    requires forall i :: 0 <= i < k ==> list[i].pid != pid
    ensures Position(list, pid) == k
  {
    if list != [] && k > 0 {
      PositionIs(list[1..], pid, k - 1);
    }
  }
}
