/** The child-subreaper flags: PR_SET_CHILD_SUBREAPER and propagate_has_child_subreaper in
    Kernel/kernel/sys.c, and the inheritance of the flag in copy_process, Kernel/kernel/fork.c. */
module Subreaper {
  import opened Common
  import opened ProcessTree

  // ----- growing the task graph

  /** A new process on the tail of parent's child list. */
  ghost function AddProcess(g: TaskGraph, parent: Task, child: Task): TaskGraph
    requires IsTask(g, parent) && !IsTask(g, child)
  {
    var p := g.tasks[parent];
    TaskGraph(
      g.tasks[parent := p.(children := p.children + [child])]
             [child := TaskInfo(child, parent, [child], [], g.total)],
      g.total + 1)
  }

  /** A new thread on the tail of its group's thread list. */
  ghost function AddThread(g: TaskGraph, leader: Task, t: Task): TaskGraph
    requires IsTask(g, leader) && !IsTask(g, t)
  {
    var l := g.tasks[leader];
    TaskGraph(
      g.tasks[leader := l.(threads := l.threads + [t])]
             [t := TaskInfo(leader, l.parent, [], [], g.total)],
      g.total + 1)
  }

  lemma AddProcessWellFormed(g: TaskGraph, parent: Task, child: Task)
    requires WellFormed(g) && IsTask(g, parent) && !IsTask(g, child)
    ensures WellFormed(AddProcess(g, parent, child))
    ensures forall t, c :: IsChild(AddProcess(g, parent, child), t, c) <==>
                           IsChild(g, t, c) || (t == parent && c == child)
  {
    var g' := AddProcess(g, parent, child);
    forall t, c ensures IsChild(g', t, c) <==> IsChild(g, t, c) || (t == parent && c == child) {}
    forall l, t | IsThread(g', l, t) && IsLeader(g', l) ensures IsTask(g', t) && LeaderOf(g', t) == l {
      assert l != child ==> IsThread(g, l, t) && IsLeader(g, l);
    }
    forall t | IsTask(g', t)
      ensures IsLeader(g', LeaderOf(g', t)) && IsThread(g', LeaderOf(g', t), t)
      ensures Distinct(g'.tasks[t].children)
    {
      if t != child {
        assert IsTask(g, t) && IsThread(g, LeaderOf(g, t), t);
        assert !IsChild(g, t, child);
      }
    }
    forall t, c | IsChild(g', t, c)
      ensures IsLeader(g', c) && g'.tasks[c].parent == t && g'.tasks[LeaderOf(g', t)].birth < g'.tasks[c].birth
    {
      if IsChild(g, t, c) {
        assert IsTask(g, t);
      }
    }
  }

  lemma AddProcessKeepsLeaders(g: TaskGraph, parent: Task, child: Task)
    requires IsTask(g, parent) && !IsTask(g, child)
    ensures IsLeader(AddProcess(g, parent, child), child)
    ensures forall t :: IsTask(g, t) ==>
              IsTask(AddProcess(g, parent, child), t) && LeaderOf(AddProcess(g, parent, child), t) == LeaderOf(g, t)
    ensures forall p :: IsLeader(g, p) ==> IsLeader(AddProcess(g, parent, child), p)
  {}

  lemma AddThreadKeepsLeaders(g: TaskGraph, leader: Task, t: Task)
    requires IsLeader(g, leader) && !IsTask(g, t)
    ensures forall u :: IsTask(g, u) ==>
              IsTask(AddThread(g, leader, t), u) && LeaderOf(AddThread(g, leader, t), u) == LeaderOf(g, u)
  {}

  lemma AddThreadKeepsChildren(g: TaskGraph, leader: Task, t: Task)
    requires IsLeader(g, leader) && !IsTask(g, t)
    ensures forall u, c :: IsChild(AddThread(g, leader, t), u, c) <==> IsChild(g, u, c)
  {
  }

  lemma AddThreadLists(g: TaskGraph, leader: Task, t: Task)
    requires WellFormed(g) && IsLeader(g, leader) && !IsTask(g, t)
    ensures
      var g' := AddThread(g, leader, t);
      forall l, u :: IsThread(g', l, u) && IsLeader(g', l) ==> IsTask(g', u) && LeaderOf(g', u) == l
  {
    var g' := AddThread(g, leader, t);
    forall l, u | IsThread(g', l, u) && IsLeader(g', l) ensures IsTask(g', u) && LeaderOf(g', u) == l {
      assert u != t ==> IsThread(g, l, u) && IsLeader(g, l);
    }
  }

  lemma AddThreadTasks(g: TaskGraph, leader: Task, t: Task, u: Task)
    requires WellFormed(g) && IsLeader(g, leader) && !IsTask(g, t) && IsTask(AddThread(g, leader, t), u)
    ensures
      var g' := AddThread(g, leader, t);
      && IsLeader(g', LeaderOf(g', u)) && IsThread(g', LeaderOf(g', u), u)
      && Distinct(g'.tasks[u].threads) && Distinct(g'.tasks[u].children) && g'.tasks[u].birth < g'.total
  {
    if u != t {
      assert IsTask(g, u) && IsThread(g, LeaderOf(g, u), u);
      assert !IsThread(g, leader, t);
    }
  }

  lemma AddThreadWellFormed(g: TaskGraph, leader: Task, t: Task)
    requires WellFormed(g) && IsLeader(g, leader) && !IsTask(g, t)
    ensures WellFormed(AddThread(g, leader, t))
    ensures forall u, c :: IsChild(AddThread(g, leader, t), u, c) <==> IsChild(g, u, c)
  {
    var g' := AddThread(g, leader, t);
    AddThreadKeepsChildren(g, leader, t);
    AddThreadLists(g, leader, t);
    forall u | IsTask(g', u)
      ensures IsLeader(g', LeaderOf(g', u)) && IsThread(g', LeaderOf(g', u), u) && Distinct(g'.tasks[u].threads)
      ensures Distinct(g'.tasks[u].children) && g'.tasks[u].birth < g'.total
    {
      AddThreadTasks(g, leader, t, u);
    }
  }

  // ----- the flags and the visitor

  /** propagate_has_child_subreaper: flag a process and descend, or skip its subtree when it is
      flagged already or is the child reaper of its pid namespace. */
  function Propagate(reaper: set<Task>): Visitor<set<Task>> {
    (p: Task, has: set<Task>) => if p in has || p in reaper then (0, has) else (1, has + {p})
  }

  /** Every child of a flagged process is flagged or a namespace reaper, save for the listed ones. */
  ghost predicate ClosedBut(g: TaskGraph, has: set<Task>, sub: set<Task>, reaper: set<Task>, todo: seq<Task>) {
    forall t, c :: IsChild(g, t, c) && LeaderOf(g, t) in has + sub ==> c in has || c in reaper || c in todo
  }

  ghost predicate Closed(g: TaskGraph, has: set<Task>, sub: set<Task>, reaper: set<Task>) {
    ClosedBut(g, has, sub, reaper, [])
  }

  /** New flags go to listed processes and, from there, to children of newly flagged ones only. */
  ghost predicate SpreadsFrom(g: TaskGraph, has: set<Task>, has': set<Task>, todo: seq<Task>) {
    forall c :: c in has' - has ==> c in todo || exists t :: IsChild(g, t, c) && LeaderOf(g, t) in has' - has
  }

  /** The walk never gives up, never takes a flag away, flags no namespace reaper, and flags only
      processes that hang off the listed ones. */
  lemma {:induction false} PropagateGrows(g: TaskGraph, has: set<Task>, reaper: set<Task>, todo: seq<Task>)
    requires WellFormed(g) && AllLeaders(g, todo)
    ensures
      var walked := Preorder(g, Propagate(reaper), todo, has);
      && !walked.stopped && has <= walked.data && walked.data !! reaper - has
      && SpreadsFrom(g, has, walked.data, todo)
    decreases g.tasks.Keys - has, |todo|
  {
    if todo != [] {
      var c := todo[0];
      var (res, has') := Propagate(reaper)(c, has);
      PreorderVisit(g, Propagate(reaper), todo, has);
      assert c in g.tasks.Keys;
      var next := NextTodo(g, todo, res);
      PropagateGrows(g, has', reaper, next);
      var final := Preorder(g, Propagate(reaper), next, has').data;
      forall k | k in final - has && k !in todo
        ensures exists t :: IsChild(g, t, k) && LeaderOf(g, t) in final - has
      {
        if k in next {
          KidsMember(g, c, k);
        }
      }
    }
  }

  /** The walk that prunes at flagged processes leaves no child of a flagged process behind. */
  lemma {:induction false} PropagateCloses(g: TaskGraph, has: set<Task>, sub: set<Task>, reaper: set<Task>,
                                           todo: seq<Task>)
    requires WellFormed(g) && AllLeaders(g, todo) && ClosedBut(g, has, sub, reaper, todo)
    ensures Closed(g, Preorder(g, Propagate(reaper), todo, has).data, sub, reaper)
    decreases g.tasks.Keys - has, |todo|
  {
    if todo != [] {
      var c := todo[0];
      var (res, has') := Propagate(reaper)(c, has);
      PreorderVisit(g, Propagate(reaper), todo, has);
      VisitCloses(g, has, sub, reaper, todo);
      assert c in g.tasks.Keys;
      PropagateCloses(g, has', sub, reaper, NextTodo(g, todo, res));
    }
  }

  lemma VisitCloses(g: TaskGraph, has: set<Task>, sub: set<Task>, reaper: set<Task>, todo: seq<Task>)
    requires WellFormed(g) && AllLeaders(g, todo) && todo != [] && ClosedBut(g, has, sub, reaper, todo)
    ensures
      var (res, has') := Propagate(reaper)(todo[0], has);
      ClosedBut(g, has', sub, reaper, NextTodo(g, todo, res))
  {
    var c := todo[0];
    var (res, has') := Propagate(reaper)(c, has);
    forall t, k | IsChild(g, t, k) && LeaderOf(g, t) in has' + sub
      ensures k in has' || k in reaper || k in NextTodo(g, todo, res)
    {
      if LeaderOf(g, t) == c && res > 0 {
        KidsMember(g, c, k);
        assert k in Kids(g, c);
      }
    }
  }

  /** The flags kept in signal_struct, one per process. */
  class SubreaperFlags {
    var hasSubreaper: set<Task>
    var isSubreaper: set<Task>

    /** PR_SET_CHILD_SUBREAPER with nobody else running: writes the flag and, when it is being set,
        walks the process tree. */
    method SetChildSubreaper(g: TaskGraph, me: Task, reaper: set<Task>, on: bool)
      requires WellFormed(g) && IsTask(g, me)
      modifies this
      ensures isSubreaper == if on then old(isSubreaper) + {LeaderOf(g, me)} else old(isSubreaper) - {LeaderOf(g, me)}
      ensures !on ==> hasSubreaper == old(hasSubreaper)
      ensures on ==> hasSubreaper == Preorder(g, Propagate(reaper), Kids(g, LeaderOf(g, me)), old(hasSubreaper)).data
      ensures old(hasSubreaper) <= hasSubreaper && hasSubreaper !! reaper - old(hasSubreaper)
      ensures SpreadsFrom(g, old(hasSubreaper), hasSubreaper, Kids(g, LeaderOf(g, me)))
      ensures old(Closed(g, hasSubreaper, isSubreaper, reaper)) ==> Closed(g, hasSubreaper, isSubreaper, reaper)
    {
      var leader := LeaderOf(g, me);
      isSubreaper := if on then isSubreaper + {leader} else isSubreaper - {leader};
      if on {
        var has, stopped, calls := WalkProcessTree(g, me, Propagate(reaper), hasSubreaper);
        PropagateGrows(g, hasSubreaper, reaper, Kids(g, leader));
        if Closed(g, hasSubreaper, old(isSubreaper), reaper) {
          OpenBelow(g, hasSubreaper, old(isSubreaper), reaper, leader);
          PropagateCloses(g, hasSubreaper, isSubreaper, reaper, Kids(g, leader));
        }
        hasSubreaper := has;
      }
    }
  }

  /** Turning a process into a subreaper opens the closure at its own children only. */
  lemma OpenBelow(g: TaskGraph, has: set<Task>, sub: set<Task>, reaper: set<Task>, leader: Task)
    requires WellFormed(g) && IsLeader(g, leader) && Closed(g, has, sub, reaper)
    ensures ClosedBut(g, has, sub + {leader}, reaper, Kids(g, leader))
  {
    forall t, c | IsChild(g, t, c) && LeaderOf(g, t) in has + (sub + {leader})
      ensures c in has || c in reaper || c in Kids(g, leader)
    {
      KidsMember(g, leader, c);
    }
  }

  // ----- all interleavings

  /** A fork that holds tasklist_lock for writing: it has read its parent's flags but has not put
      the child on the list yet. */
  datatype ForkInFlight = ForkInFlight(parent: Task, inherits: bool)

  /** - has, sub: the two flags; reaper: the namespace reapers
      - pending: processes whose flag was written and whose walk has not taken the lock yet
      - walks:   the walks holding tasklist_lock for reading, with what they still have to visit
      - fork:    the fork holding tasklist_lock for writing, if any */
  datatype System = System(
    g: TaskGraph,
    has: set<Task>,
    sub: set<Task>,
    reaper: set<Task>,
    pending: multiset<Task>,
    walks: map<nat, seq<Task>>,
    fork: Option<ForkInFlight>)

  datatype Event =
    | WriteFlag(me: Task, on: bool)
    | StartWalk(id: nat, top: Task)
    | Visit(id: nat)
    | EndWalk(id: nat)
    | BeginFork(parent: Task)
    | EndFork(child: Task, isReaper: bool)
    | NewThread(leader: Task, thread: Task)

  /** A fork needs the lock alone; walks may share it. */
  ghost predicate Enabled(s: System, e: Event) {
    match e
    case WriteFlag(me, _) => IsLeader(s.g, me)
    case StartWalk(id, top) => s.fork.None? && id !in s.walks && top in s.pending
    case Visit(id) => id in s.walks && s.walks[id] != []
    case EndWalk(id) => id in s.walks && s.walks[id] == []
    case BeginFork(parent) => s.fork.None? && s.walks == map[] && IsTask(s.g, parent)
    case EndFork(child, _) => s.fork.Some? && !IsTask(s.g, child)
    case NewThread(leader, t) => s.fork.None? && s.walks == map[] && IsLeader(s.g, leader) && !IsTask(s.g, t)
  }

  ghost function Apply(s: System, e: Event): System
    requires Valid(s) && Enabled(s, e)
  {
    match e
    case WriteFlag(me, on) =>
      if on then s.(sub := s.sub + {me}, pending := s.pending + multiset{me})
      else s.(sub := s.sub - {me})
    case StartWalk(id, top) =>
      s.(pending := s.pending - multiset{top}, walks := s.walks[id := Kids(s.g, top)])
    case Visit(id) =>
      var (res, has) := Propagate(s.reaper)(s.walks[id][0], s.has);
      s.(has := has, walks := s.walks[id := NextTodo(s.g, s.walks[id], res)])
    case EndWalk(id) => s.(walks := s.walks - {id})
    case BeginFork(parent) =>
      s.(fork := Some(ForkInFlight(parent, LeaderOf(s.g, parent) in s.has + s.sub)))
    case EndFork(child, isReaper) =>
      s.(g := AddProcess(s.g, s.fork.value.parent, child),
         has := if s.fork.value.inherits then s.has + {child} else s.has,
         reaper := if isReaper then s.reaper + {child} else s.reaper,
         fork := None)
    case NewThread(leader, t) => s.(g := AddThread(s.g, leader, t))
  }

  /** What makes the steps well defined. */
  ghost predicate Valid(s: System) {
    && WellFormed(s.g)
    && (forall p :: p in s.has || p in s.sub || p in s.reaper ==> IsLeader(s.g, p))
    && (forall p :: p in s.pending ==> IsLeader(s.g, p))
    && (forall id :: id in s.walks ==> AllLeaders(s.g, s.walks[id]))
    && (s.fork.Some? ==> s.walks == map[] && IsTask(s.g, s.fork.value.parent))
  }

  ghost predicate Outstanding(s: System, c: Task) {
    exists id :: id in s.walks && c in s.walks[id]
  }

  /** The inductive form of the claim: a gap in the closure is always in front of some walk. */
  ghost predicate Covered(s: System)
    requires Valid(s)
  {
    && (forall t, c :: IsChild(s.g, t, c) && LeaderOf(s.g, t) in s.has + s.sub ==>
          c in s.has || c in s.reaper || LeaderOf(s.g, t) in s.pending || Outstanding(s, c))
    && (s.fork.Some? && !s.fork.value.inherits ==>
          var p := LeaderOf(s.g, s.fork.value.parent);
          p in s.has + s.sub ==> p in s.pending)
  }

  ghost predicate Invariant(s: System) {
    Valid(s) && Covered(s)
  }

  lemma WriteFlagKeeps(s: System, me: Task, on: bool)
    requires Invariant(s) && Enabled(s, WriteFlag(me, on))
    ensures Invariant(Apply(s, WriteFlag(me, on)))
  {
    var s' := Apply(s, WriteFlag(me, on));
    assert forall c :: Outstanding(s, c) ==> Outstanding(s', c);
  }

  lemma StartWalkKeeps(s: System, id: nat, top: Task)
    requires Invariant(s) && Enabled(s, StartWalk(id, top))
    ensures Invariant(Apply(s, StartWalk(id, top)))
  {
    var s' := Apply(s, StartWalk(id, top));
    forall t, c | IsChild(s.g, t, c) && LeaderOf(s.g, t) in s.has + s.sub
      ensures c in s.has || c in s.reaper || LeaderOf(s.g, t) in s'.pending || Outstanding(s', c)
    {
      if LeaderOf(s.g, t) == top {
        KidsMember(s.g, top, c);
        assert c in s'.walks[id];
      } else if Outstanding(s, c) {
        var i :| i in s.walks && c in s.walks[i];
        assert i in s'.walks && s'.walks[i] == s.walks[i];
      }
    }
  }

  lemma VisitKeeps(s: System, id: nat)
    requires Invariant(s) && Enabled(s, Visit(id))
    ensures Invariant(Apply(s, Visit(id)))
  {
    var s' := Apply(s, Visit(id));
    var todo := s.walks[id];
    var top := todo[0];
    forall c | Outstanding(s, c) && c != top ensures Outstanding(s', c) {
      var i :| i in s.walks && c in s.walks[i];
      assert i == id ==> c in todo[1..];
      assert c in s'.walks[i];
    }
    forall t, c | IsChild(s.g, t, c) && LeaderOf(s.g, t) in s'.has + s'.sub
      ensures c in s'.has || c in s'.reaper || LeaderOf(s.g, t) in s'.pending || Outstanding(s', c)
    {
      if LeaderOf(s.g, t) in s'.has - s.has {
        KidsMember(s.g, top, c);
        assert c in s'.walks[id];
      }
    }
  }

  lemma EndWalkKeeps(s: System, id: nat)
    requires Invariant(s) && Enabled(s, EndWalk(id))
    ensures Invariant(Apply(s, EndWalk(id)))
  {
    var s' := Apply(s, EndWalk(id));
    forall c | Outstanding(s, c) ensures Outstanding(s', c) {
      var i :| i in s.walks && c in s.walks[i];
      assert i in s'.walks && s'.walks[i] == s.walks[i];
    }
  }

  lemma EndForkValid(s: System, child: Task, isReaper: bool)
    requires Valid(s) && Enabled(s, EndFork(child, isReaper))
    ensures Valid(Apply(s, EndFork(child, isReaper)))
  {
    var s' := Apply(s, EndFork(child, isReaper));
    AddProcessWellFormed(s.g, s.fork.value.parent, child);
    AddProcessKeepsLeaders(s.g, s.fork.value.parent, child);
    assert s'.walks == map[];
  }

  /** The link may be missing a flag only if the parent's own walk is still to come. */
  lemma EndForkKeeps(s: System, child: Task, isReaper: bool)
    requires Invariant(s) && Enabled(s, EndFork(child, isReaper))
    ensures Invariant(Apply(s, EndFork(child, isReaper)))
  {
    EndForkValid(s, child, isReaper);
    var s' := Apply(s, EndFork(child, isReaper));
    var parent := s.fork.value.parent;
    AddProcessWellFormed(s.g, parent, child);
    forall t, c | IsChild(s'.g, t, c) && LeaderOf(s'.g, t) in s'.has + s'.sub
      ensures c in s'.has || c in s'.reaper || LeaderOf(s'.g, t) in s'.pending
    {
      EndForkEdge(s, child, isReaper, t, c);
    }
  }

  lemma EndForkEdge(s: System, child: Task, isReaper: bool, t: Task, c: Task)
    requires Invariant(s) && Enabled(s, EndFork(child, isReaper))
    requires IsChild(s.g, t, c) || (t == s.fork.value.parent && c == child)
    ensures
      var s' := Apply(s, EndFork(child, isReaper));
      && IsTask(s'.g, t)
      && (LeaderOf(s'.g, t) in s'.has + s'.sub ==>
            c in s'.has || c in s'.reaper || LeaderOf(s'.g, t) in s'.pending)
  {
    var s' := Apply(s, EndFork(child, isReaper));
    assert IsTask(s.g, t) && IsLeader(s.g, LeaderOf(s.g, t));
    assert LeaderOf(s'.g, t) == LeaderOf(s.g, t) != child;
    assert !Outstanding(s, c);
  }

  lemma NewThreadKeeps(s: System, leader: Task, t: Task)
    requires Invariant(s) && Enabled(s, NewThread(leader, t))
    ensures Invariant(Apply(s, NewThread(leader, t)))
  {
    var s' := Apply(s, NewThread(leader, t));
    AddThreadWellFormed(s.g, leader, t);
    forall p | IsLeader(s.g, p) ensures IsLeader(s'.g, p) {}
    forall u, c | IsChild(s'.g, u, c) && LeaderOf(s'.g, u) in s'.has + s'.sub
      ensures c in s'.has || c in s'.reaper || LeaderOf(s'.g, u) in s'.pending
    {
      assert IsChild(s.g, u, c) && LeaderOf(s'.g, u) == LeaderOf(s.g, u);
      assert !Outstanding(s, c);
    }
  }

  lemma EventKeeps(s: System, e: Event)
    requires Invariant(s) && Enabled(s, e)
    ensures Invariant(Apply(s, e))
  {
    match e
    case WriteFlag(me, on) => WriteFlagKeeps(s, me, on);
    case StartWalk(id, top) => StartWalkKeeps(s, id, top);
    case Visit(id) => VisitKeeps(s, id);
    case EndWalk(id) => EndWalkKeeps(s, id);
    case BeginFork(parent) =>
    case EndFork(child, isReaper) => EndForkKeeps(s, child, isReaper);
    case NewThread(leader, t) => NewThreadKeeps(s, leader, t);
  }

  /** No flag has been set and nobody holds the lock. */
  ghost predicate Initial(s: System) {
    && Valid(s) && s.has == {} && s.sub == {}
    && s.pending == multiset{} && s.walks == map[] && s.fork.None?
  }

  /** A run from an initial system: the events it took, oldest first, and the system they lead to. */
  ghost predicate Reaches(s: System, events: seq<Event>, s': System)
    decreases |events|
  {
    if events == [] then s == s'
    else Valid(s) && Enabled(s, events[0]) && Reaches(Apply(s, events[0]), events[1..], s')
  }

  lemma {:induction false} RunKeeps(s: System, events: seq<Event>, s': System)
    requires Invariant(s) && Reaches(s, events, s')
    ensures Invariant(s')
    decreases |events|
  {
    if events != [] {
      EventKeeps(s, events[0]);
      RunKeeps(Apply(s, events[0]), events[1..], s');
    }
  }

  /** Whenever no walk is under way or about to start, every child of a process with either flag
      has the inherited flag or is a namespace reaper. */
  lemma ClosedWhenQuiet(s: System, events: seq<Event>, s': System)
    requires Initial(s) && Reaches(s, events, s')
    requires s'.pending == multiset{} && s'.walks == map[]
    ensures WellFormed(s'.g) && Closed(s'.g, s'.has, s'.sub, s'.reaper)
  {
    RunKeeps(s, events, s');
    forall c ensures !Outstanding(s', c) {}
  }

  /** path leads from process top downwards, one child at a time, past no namespace reaper. */
  ghost predicate Lineage(g: TaskGraph, reaper: set<Task>, top: Task, path: seq<Task>)
    requires WellFormed(g)
    decreases |path|
  {
    path == [] ||
    (&& (exists t :: IsChild(g, t, path[0]) && LeaderOf(g, t) == top)
     && path[0] !in reaper && Lineage(g, reaper, path[0], path[1..]))
  }

  /** So pruning misses nobody: below a process with either flag everything is flagged, as far as
      the next namespace reaper. */
  lemma {:induction false} DescendantsFlagged(g: TaskGraph, has: set<Task>, sub: set<Task>, reaper: set<Task>,
                                              top: Task, path: seq<Task>)
    requires WellFormed(g) && Closed(g, has, sub, reaper) && top in has + sub
    requires Lineage(g, reaper, top, path)
    ensures forall c :: c in path ==> c in has
    decreases |path|
  {
    if path != [] {
      var t :| IsChild(g, t, path[0]) && LeaderOf(g, t) == top;
      assert path[0] in has;
      DescendantsFlagged(g, has, sub, reaper, path[0], path[1..]);
      assert path == [path[0]] + path[1..];
    }
  }

  // ----- an interleaved walk is a run of walk_process_tree

  /** What a disturbed walk knows: the flags, and for each visit to come the flags others will have set
      by then. */
  datatype Disturbed = Disturbed(has: set<Task>, later: seq<set<Task>>)

  /** propagate_has_child_subreaper with others setting flags before each visit. */
  function PropagateAmong(reaper: set<Task>): Visitor<Disturbed> {
    (p: Task, d: Disturbed) =>
      var found := if d.later == [] then d.has else d.has + d.later[0];
      var (res, has) := Propagate(reaper)(p, found);
      (res, Disturbed(has, if d.later == [] then [] else d.later[1..]))
  }

  /** The flags at each visit of walk id, ... */
  ghost function Schedule(s: System, events: seq<Event>, s': System, id: nat): seq<set<Task>>
    requires Reaches(s, events, s')
    decreases |events|
  {
    if events == [] then []
    else (if events[0] == Visit(id) then [s.has] else []) + Schedule(Apply(s, events[0]), events[1..], s', id)
  }

  /** ... and whom it visits. */
  ghost function Visits(s: System, events: seq<Event>, s': System, id: nat): seq<Task>
    requires Reaches(s, events, s')
    decreases |events|
  {
    if events == [] then []
    else
      (if events[0] == Visit(id) then [s.walks[id][0]] else []) + Visits(Apply(s, events[0]), events[1..], s', id)
  }

  /** Until it ends, a walk keeps forks out, and other steps leave its agenda alone. */
  ghost predicate Leaves(s: System, s': System, id: nat) {
    && s'.g == s.g && s'.reaper == s.reaper && s.has <= s'.has
    && id in s.walks && id in s'.walks && s'.walks[id] == s.walks[id]
  }

  lemma OtherVisitLeaves(s: System, other: nat, id: nat)
    requires Valid(s) && Enabled(s, Visit(other)) && id in s.walks && other != id
    ensures Leaves(s, Apply(s, Visit(other)), id)
  {
  }

  lemma OthersLeaveWalk(s: System, e: Event, id: nat)
    requires Valid(s) && Enabled(s, e) && id in s.walks && e != Visit(id) && e != EndWalk(id)
    ensures Leaves(s, Apply(s, e), id)
  {
    assert s.walks != map[];
    match e
    case Visit(other) => OtherVisitLeaves(s, other, id);
    case WriteFlag(_, _) =>
    case StartWalk(_, _) =>
    case EndWalk(_) =>
    case _ => assert false;
  }

  /** Whatever other walks and flag writers do in between, the visits of a walk are exactly the
      visitor calls of the recursive walk over its agenda, with a visitor that finds the flags as the
      others left them.  The agenda a walk begins with is the children of its process, so these are the
      calls of walk_process_tree. */
  lemma {:induction false} InterleavedWalk(s: System, events: seq<Event>, s': System, id: nat, known: set<Task>)
    requires Invariant(s) && Reaches(s, events, s') && id in s.walks && known <= s.has
    requires EndWalk(id) !in events && id in s'.walks && s'.walks[id] == []
    ensures AllLeaders(s.g, s.walks[id])
    ensures
      var walked := Preorder(s.g, PropagateAmong(s.reaper), s.walks[id], Disturbed(known, Schedule(s, events, s', id)));
      walked.calls == Visits(s, events, s', id) && !walked.stopped && walked.data.has <= s'.has
    decreases |events|
  {
    if events != [] {
      var e, mid := events[0], Apply(s, events[0]);
      EventKeeps(s, e);
      if e == Visit(id) {
        InterleavedWalk(mid, events[1..], s', id, mid.has);
        VisitAmong(s, id, known, Schedule(mid, events[1..], s', id));
      } else {
        assert e != EndWalk(id);
        OthersLeaveWalk(s, e, id);
        InterleavedWalk(mid, events[1..], s', id, known);
        assert [] + Schedule(mid, events[1..], s', id) == Schedule(mid, events[1..], s', id);
      }
    }
  }

  /** One visit and the rest. */
  lemma VisitAmong(s: System, id: nat, known: set<Task>, later: seq<set<Task>>)
    requires Valid(s) && Enabled(s, Visit(id)) && known <= s.has
    ensures
      var mid := Apply(s, Visit(id));
      && AllLeaders(mid.g, mid.walks[id])
      && var rest := Preorder(mid.g, PropagateAmong(mid.reaper), mid.walks[id], Disturbed(mid.has, later));
      Preorder(s.g, PropagateAmong(s.reaper), s.walks[id], Disturbed(known, [s.has] + later)) ==
      rest.(calls := [s.walks[id][0]] + rest.calls)
  {
    var d := Disturbed(known, [s.has] + later);
    PreorderVisit(s.g, PropagateAmong(s.reaper), s.walks[id], d);
    assert known + s.has == s.has && ([s.has] + later)[1..] == later;
  }

  // ----- no process is flagged without a reason

  /** A proper ancestor of process p is among the given processes. */
  ghost predicate Descends(g: TaskGraph, writers: set<Task>, p: Task)
    requires WellFormed(g)
    decreases if IsTask(g, p) then g.tasks[p].birth else 0
  {
    exists t :: IsChild(g, t, p) && (LeaderOf(g, t) in writers || Descends(g, writers, LeaderOf(g, t)))
  }

  /** The processes that became subreapers in the course of the events. */
  ghost function Writers(events: seq<Event>): set<Task> {
    set i | 0 <= i < |events| && events[i].WriteFlag? && events[i].on :: events[i].me
  }

  ghost predicate AllDescend(g: TaskGraph, writers: set<Task>, ps: seq<Task>)
    requires WellFormed(g)
  {
    forall i :: 0 <= i < |ps| ==> Descends(g, writers, ps[i])
  }

  /** Subreapers and those about to walk were made so, and everybody flagged, about to be visited or
      about to inherit descends from one. */
  ghost predicate HasReason(s: System, writers: set<Task>)
    requires WellFormed(s.g)
  {
    && (forall p :: p in s.sub || p in s.pending ==> p in writers)
    && (forall p :: p in s.has ==> Descends(s.g, writers, p))
    && (forall id :: id in s.walks ==> AllDescend(s.g, writers, s.walks[id]))
    && (s.fork.Some? && s.fork.value.inherits ==> IsTask(s.g, s.fork.value.parent) && Inherits(s, writers))
  }

  ghost predicate Inherits(s: System, writers: set<Task>)
    requires WellFormed(s.g) && s.fork.Some? && IsTask(s.g, s.fork.value.parent)
  {
    var p := LeaderOf(s.g, s.fork.value.parent);
    p in writers || Descends(s.g, writers, p)
  }

  /** Growth of the graph takes no reason away. */
  lemma {:induction false} DescendsStays(g: TaskGraph, g': TaskGraph, writers: set<Task>, p: Task)
    requires WellFormed(g) && WellFormed(g') && Descends(g, writers, p)
    requires forall t :: IsTask(g, t) ==> IsTask(g', t) && LeaderOf(g', t) == LeaderOf(g, t)
    requires forall t, c :: IsChild(g, t, c) ==> IsChild(g', t, c)
    ensures Descends(g', writers, p)
    decreases if IsTask(g, p) then g.tasks[p].birth else 0
  {
    var t :| IsChild(g, t, p) && (LeaderOf(g, t) in writers || Descends(g, writers, LeaderOf(g, t)));
    if LeaderOf(g, t) !in writers {
      DescendsStays(g, g', writers, LeaderOf(g, t));
    }
    assert IsChild(g', t, p);
  }

  /** With no subreapers at all nobody descends from one. */
  lemma {:induction false} NobodyDescends(g: TaskGraph, p: Task)
    requires WellFormed(g)
    ensures !Descends(g, {}, p)
    decreases if IsTask(g, p) then g.tasks[p].birth else 0
  {
    if t :| IsChild(g, t, p) && Descends(g, {}, LeaderOf(g, t)) {
      NobodyDescends(g, LeaderOf(g, t));
    }
  }

  lemma KidsDescend(g: TaskGraph, writers: set<Task>, top: Task)
    requires WellFormed(g) && IsLeader(g, top) && (top in writers || Descends(g, writers, top))
    ensures AllDescend(g, writers, Kids(g, top))
  {
    forall i | 0 <= i < |Kids(g, top)| ensures Descends(g, writers, Kids(g, top)[i]) {
      KidsMember(g, top, Kids(g, top)[i]);
    }
  }

  lemma VisitHasReason(s: System, id: nat, writers: set<Task>)
    requires Valid(s) && Enabled(s, Visit(id)) && HasReason(s, writers)
    ensures HasReason(Apply(s, Visit(id)), writers)
  {
    var s', todo := Apply(s, Visit(id)), s.walks[id];
    assert AllDescend(s.g, writers, todo) && Descends(s.g, writers, todo[0]);
    KidsDescend(s.g, writers, todo[0]);
    assert AllDescend(s.g, writers, todo[1..]);
    forall i | i in s'.walks ensures AllDescend(s.g, writers, s'.walks[i]) {
      assert i != id ==> AllDescend(s.g, writers, s.walks[i]);
    }
  }

  /** A graph that only grew. */
  lemma GrownHasReason(s: System, g': TaskGraph, writers: set<Task>)
    requires WellFormed(s.g) && WellFormed(g') && HasReason(s, writers) && s.walks == map[]
    requires forall t :: IsTask(s.g, t) ==> IsTask(g', t) && LeaderOf(g', t) == LeaderOf(s.g, t)
    requires forall t, c :: IsChild(s.g, t, c) ==> IsChild(g', t, c)
    ensures HasReason(s.(g := g'), writers)
  {
    forall p | Descends(s.g, writers, p) ensures Descends(g', writers, p) {
      DescendsStays(s.g, g', writers, p);
    }
  }

  lemma EndForkHasReason(s: System, child: Task, isReaper: bool, writers: set<Task>)
    requires Valid(s) && Enabled(s, EndFork(child, isReaper)) && HasReason(s, writers)
    ensures
      var s' := Apply(s, EndFork(child, isReaper));
      WellFormed(s'.g) && HasReason(s', writers)
  {
    var s', parent := Apply(s, EndFork(child, isReaper)), s.fork.value.parent;
    AddProcessWellFormed(s.g, parent, child);
    AddProcessKeepsLeaders(s.g, parent, child);
    GrownHasReason(s, s'.g, writers);
    assert IsChild(s'.g, parent, child);
    if s.fork.value.inherits {
      assert Inherits(s.(g := s'.g), writers);
      assert Descends(s'.g, writers, child);
    }
  }

  lemma StartWalkHasReason(s: System, id: nat, top: Task, writers: set<Task>)
    requires Valid(s) && Enabled(s, StartWalk(id, top)) && HasReason(s, writers)
    ensures HasReason(Apply(s, StartWalk(id, top)), writers)
  {
    var s' := Apply(s, StartWalk(id, top));
    KidsDescend(s.g, writers, top);
    forall i | i in s'.walks ensures AllDescend(s.g, writers, s'.walks[i]) {
      assert i != id ==> AllDescend(s.g, writers, s.walks[i]);
    }
  }

  lemma NewThreadHasReason(s: System, leader: Task, t: Task, writers: set<Task>)
    requires Valid(s) && Enabled(s, NewThread(leader, t)) && HasReason(s, writers)
    ensures
      var s' := Apply(s, NewThread(leader, t));
      WellFormed(s'.g) && HasReason(s', writers)
  {
    var g' := AddThread(s.g, leader, t);
    AddThreadWellFormed(s.g, leader, t);
    AddThreadKeepsLeaders(s.g, leader, t);
    GrownHasReason(s, g', writers);
    assert Apply(s, NewThread(leader, t)) == s.(g := g');
  }

  /** The steps that leave the graph and the agendas of the walks that go on alone. */
  lemma QuietHasReason(s: System, e: Event, writers: set<Task>)
    requires Valid(s) && Enabled(s, e) && HasReason(s, writers) && (e.WriteFlag? || e.EndWalk? || e.BeginFork?)
    requires e.WriteFlag? && e.on ==> e.me in writers
    ensures WellFormed(Apply(s, e).g) && HasReason(Apply(s, e), writers)
  {
    var s' := Apply(s, e);
    forall i | i in s'.walks ensures AllDescend(s'.g, writers, s'.walks[i]) {
      assert AllDescend(s.g, writers, s.walks[i]);
    }
  }

  lemma EventHasReason(s: System, e: Event, writers: set<Task>)
    requires Valid(s) && Enabled(s, e) && HasReason(s, writers)
    requires e.WriteFlag? && e.on ==> e.me in writers
    ensures WellFormed(Apply(s, e).g) && HasReason(Apply(s, e), writers)
  {
    match e
    case StartWalk(id, top) => StartWalkHasReason(s, id, top, writers);
    case Visit(id) => VisitHasReason(s, id, writers);
    case EndFork(child, isReaper) => EndForkHasReason(s, child, isReaper, writers);
    case NewThread(leader, t) => NewThreadHasReason(s, leader, t, writers);
    case _ => QuietHasReason(s, e, writers);
  }

  lemma {:induction false} RunHasReason(s: System, events: seq<Event>, s': System, writers: set<Task>)
    requires Invariant(s) && Reaches(s, events, s') && HasReason(s, writers) && Writers(events) <= writers
    ensures WellFormed(s'.g) && HasReason(s', writers)
    decreases |events|
  {
    if events != [] {
      var e := events[0];
      assert e.WriteFlag? && e.on ==> e.me in Writers(events);
      EventKeeps(s, e);
      EventHasReason(s, e, writers);
      assert Writers(events[1..]) <= Writers(events) by {
        forall i | 0 <= i < |events[1..]| && events[1..][i].WriteFlag? && events[1..][i].on
          ensures events[1..][i].me in Writers(events)
        {
          assert events[i + 1] == events[1..][i];
        }
      }
      RunHasReason(Apply(s, e), events[1..], s', writers);
    }
  }

  /** In every run each flagged process has a proper ancestor that called PR_SET_CHILD_SUBREAPER in the
      run, whatever walks and forks did. */
  lemma FlaggedForAReason(s: System, events: seq<Event>, s': System, p: Task)
    requires Initial(s) && Reaches(s, events, s') && p in s'.has
    ensures WellFormed(s'.g) && Descends(s'.g, Writers(events), p)
  {
    RunHasReason(s, events, s', Writers(events));
  }

  /** So if nobody did, nobody is flagged. */
  lemma NobodyFlagged(s: System, events: seq<Event>, s': System)
    requires Initial(s) && Reaches(s, events, s')
    requires forall i :: 0 <= i < |events| ==> !(events[i].WriteFlag? && events[i].on)
    ensures s'.has == {}
  {
    assert Writers(events) == {};
    forall p | p in s'.has ensures false {
      FlaggedForAReason(s, events, s', p);
      NobodyDescends(s'.g, p);
    }
  }

  /** What a process said last about being a subreaper. */
  ghost function LastSaid(events: seq<Event>, p: Task, start: bool): bool
    decreases |events|
  {
    if events == [] then start
    else LastSaid(events[1..], p, if events[0].WriteFlag? && events[0].me == p then events[0].on else start)
  }

  /** The processes that are subreapers are those that said so last; walks and forks make none. */
  lemma {:induction false} SubreapersAsLastSaid(s: System, events: seq<Event>, s': System, p: Task)
    requires Reaches(s, events, s')
    ensures p in s'.sub <==> LastSaid(events, p, p in s.sub)
    decreases |events|
  {
    if events != [] {
      SubreapersAsLastSaid(Apply(s, events[0]), events[1..], s', p);
    }
  }
}
