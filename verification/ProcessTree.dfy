/** The task graph and the stackless depth-first walk over it
    (walk_process_tree in Kernel/kernel/fork.c). */
module ProcessTree {
  import opened Common

  type Task = nat

  /** The fields of a task that the walk reads.
      - leader:   group_leader
      - parent:   real_parent
      - threads:  the thread list of the group, kept with the group leader
      - children: the child list
      - birth:    creation order */
  datatype TaskInfo = TaskInfo(leader: Task, parent: Task, threads: seq<Task>, children: seq<Task>, birth: nat)

  /** The task graph; it cannot change while tasklist_lock is held. */
  datatype TaskGraph = TaskGraph(tasks: map<Task, TaskInfo>, total: nat)

  predicate IsTask(g: TaskGraph, t: Task) {
    t in g.tasks
  }

  predicate IsLeader(g: TaskGraph, t: Task) {
    IsTask(g, t) && g.tasks[t].leader == t
  }

  predicate IsThread(g: TaskGraph, leader: Task, t: Task) {
    IsTask(g, leader) && t in g.tasks[leader].threads
  }

  predicate IsChild(g: TaskGraph, t: Task, c: Task) {
    IsTask(g, t) && c in g.tasks[t].children
  }

  function LeaderOf(g: TaskGraph, t: Task): Task
    requires IsTask(g, t)
  {
    g.tasks[t].leader
  }

  /** Thread lists hold the threads of their group; only group leaders are on child lists, each on
      the list of its real_parent, and every child is younger than its parent's group leader. */
  ghost predicate WellFormed(g: TaskGraph) {
    && (forall t :: IsTask(g, t) ==>
          && IsLeader(g, LeaderOf(g, t))
          && IsThread(g, LeaderOf(g, t), t)
          && Distinct(g.tasks[t].children)
          && Distinct(g.tasks[t].threads)
          && g.tasks[t].birth < g.total)
    && (forall l, t :: IsThread(g, l, t) && IsLeader(g, l) ==> IsTask(g, t) && LeaderOf(g, t) == l)
    && (forall t, c :: IsChild(g, t, c) ==>
          && IsLeader(g, c)
          && g.tasks[c].parent == t
          && g.tasks[LeaderOf(g, t)].birth < g.tasks[c].birth)
  }

  // ----- child lists of whole thread groups

  ghost predicate AllTasks(g: TaskGraph, ts: seq<Task>) {
    forall i :: 0 <= i < |ts| ==> IsTask(g, ts[i])
  }

  ghost predicate AllLeaders(g: TaskGraph, ts: seq<Task>) {
    forall i :: 0 <= i < |ts| ==> IsLeader(g, ts[i])
  }

  /** The child lists of the given threads, one after the other. */
  ghost function KidsOf(g: TaskGraph, ts: seq<Task>): seq<Task>
    requires AllTasks(g, ts)
  {
    if ts == [] then [] else g.tasks[ts[0]].children + KidsOf(g, ts[1..])
  }

  lemma ThreadsAreTasks(g: TaskGraph, leader: Task)
    requires WellFormed(g) && IsLeader(g, leader)
    ensures AllTasks(g, g.tasks[leader].threads)
    ensures leader in g.tasks[leader].threads
  {
    assert IsThread(g, leader, leader);
    forall t | t in g.tasks[leader].threads ensures IsTask(g, t) {
      assert IsThread(g, leader, t);
    }
  }

  /** All children of the process led by leader, in the order the nested loops meet them. */
  ghost function Kids(g: TaskGraph, leader: Task): (kids: seq<Task>)
    requires WellFormed(g) && IsLeader(g, leader)
    ensures AllLeaders(g, kids)
  {
    ThreadsAreTasks(g, leader);
    KidsOfLeaders(g, g.tasks[leader].threads);
    KidsOf(g, g.tasks[leader].threads)
  }

  lemma {:induction false} KidsOfMember(g: TaskGraph, ts: seq<Task>, c: Task)
    requires AllTasks(g, ts)
    ensures c in KidsOf(g, ts) <==> exists t :: t in ts && IsChild(g, t, c)
  {
    if ts != [] {
      assert AllTasks(g, ts[1..]);
      KidsOfMember(g, ts[1..], c);
      assert IsChild(g, ts[0], c) <==> c in g.tasks[ts[0]].children;
    }
  }

  /** The children of a process are exactly the tasks on the child list of one of its threads. */
  lemma KidsMember(g: TaskGraph, leader: Task, c: Task)
    requires WellFormed(g) && IsLeader(g, leader)
    ensures c in Kids(g, leader) <==> exists t :: IsTask(g, t) && LeaderOf(g, t) == leader && IsChild(g, t, c)
    ensures c in Kids(g, leader) ==>
            && IsLeader(g, c) && IsTask(g, g.tasks[c].parent)
            && LeaderOf(g, g.tasks[c].parent) == leader
            && g.tasks[leader].birth < g.tasks[c].birth
  {
    ThreadsAreTasks(g, leader);
    KidsOfMember(g, g.tasks[leader].threads, c);
    forall t | t in g.tasks[leader].threads ensures IsTask(g, t) && LeaderOf(g, t) == leader {
      assert IsThread(g, leader, t);
    }
    forall t | IsTask(g, t) && LeaderOf(g, t) == leader ensures t in g.tasks[leader].threads {
      assert IsThread(g, leader, t);
    }
  }

  lemma {:induction false} KidsOfDistinct(g: TaskGraph, ts: seq<Task>)
    requires WellFormed(g) && Distinct(ts) && AllTasks(g, ts)
    ensures Distinct(KidsOf(g, ts))
  {
    if ts != [] {
      var first, rest := g.tasks[ts[0]].children, KidsOf(g, ts[1..]);
      KidsOfDistinct(g, ts[1..]);
      forall c | c in first ensures c !in rest {
        KidsOfMember(g, ts[1..], c);
        assert IsChild(g, ts[0], c);
        assert ts[0] !in ts[1..];
      }
      DistinctConcat(first, rest);
    }
  }

  // ----- the recursive reference walk

  /** A visitor inspects one child, may update its data, and answers with a sign:
      negative stops the walk, positive descends, zero skips the subtree. */
  type Visitor<!D> = (Task, D) -> (int, D)

  datatype Walked<D> = Walked(data: D, stopped: bool, calls: seq<Task>)

  /** Distance of the oldest listed process from the youngest possible one. */
  ghost function Span(g: TaskGraph, todo: seq<Task>): nat
    requires WellFormed(g) && AllLeaders(g, todo)
  {
    if todo == [] then 0
    else
      var here := g.total - g.tasks[todo[0]].birth;
      var rest := Span(g, todo[1..]);
      if here > rest then here else rest
  }

  lemma {:induction false} SpanBelow(g: TaskGraph, todo: seq<Task>, bound: nat)
    requires WellFormed(g) && AllLeaders(g, todo)
    requires forall c :: c in todo ==> g.total - g.tasks[c].birth < bound
    requires 0 < bound
    ensures Span(g, todo) < bound
  {
    if todo != [] {
      SpanBelow(g, todo[1..], bound);
    }
  }

  lemma KidsSpan(g: TaskGraph, leader: Task)
    requires WellFormed(g) && IsLeader(g, leader)
    ensures Span(g, Kids(g, leader)) < g.total - g.tasks[leader].birth
  {
    forall c | c in Kids(g, leader) ensures g.tasks[leader].birth < g.tasks[c].birth {
      KidsMember(g, leader, c);
    }
    SpanBelow(g, Kids(g, leader), g.total - g.tasks[leader].birth);
  }

  /** The visitor call for one process and, where the visitor asks for it, the walk below it. */
  ghost function Subtree<D>(g: TaskGraph, visitor: Visitor<D>, c: Task, data: D): Walked<D>
    requires WellFormed(g) && IsLeader(g, c)
    decreases g.total - g.tasks[c].birth, 0, 0
  {
    var (res, d) := visitor(c, data);
    if res > 0 then
      KidsSpan(g, c);
      var below := Preorder(g, visitor, Kids(g, c), d);
      below.(calls := [c] + below.calls)
    else Walked(d, res < 0, [c])
  }

  /** The recursive preorder walk over the listed processes, until a visitor call is negative. */
  ghost function Preorder<D>(g: TaskGraph, visitor: Visitor<D>, todo: seq<Task>, data: D): Walked<D>
    requires WellFormed(g) && AllLeaders(g, todo)
    decreases Span(g, todo), |todo|, 1
  {
    if todo == [] then Walked(data, false, [])
    else
      var first := Subtree(g, visitor, todo[0], data);
      if first.stopped then first
      else
        var rest := Preorder(g, visitor, todo[1..], first.data);
        rest.(calls := first.calls + rest.calls)
  }

  /** Continue a walk with further processes unless it was stopped. */
  ghost function Then<D>(g: TaskGraph, visitor: Visitor<D>, first: Walked<D>, todo: seq<Task>): Walked<D>
    requires WellFormed(g) && AllLeaders(g, todo)
  {
    if first.stopped then first
    else
      var rest := Preorder(g, visitor, todo, first.data);
      rest.(calls := first.calls + rest.calls)
  }

  lemma {:induction false} PreorderAppend<D>(g: TaskGraph, visitor: Visitor<D>, a: seq<Task>, b: seq<Task>, data: D)
    requires WellFormed(g) && AllLeaders(g, a) && AllLeaders(g, b)
    ensures AllLeaders(g, a + b)
    ensures Preorder(g, visitor, a + b, data) == Then(g, visitor, Preorder(g, visitor, a, data), b)
    decreases |a|
  {
    if a == [] {
      assert a + b == b;
      var rest := Preorder(g, visitor, b, data);
      assert [] + rest.calls == rest.calls;
    } else {
      assert (a + b)[0] == a[0] && (a + b)[1..] == a[1..] + b;
      var first := Subtree(g, visitor, a[0], data);
      PreorderAppend(g, visitor, a[1..], b, first.data);
      ThenAssociative(g, visitor, first, a[1..], b);
    }
  }

  lemma ThenAssociative<D>(g: TaskGraph, visitor: Visitor<D>, first: Walked<D>, a: seq<Task>, b: seq<Task>)
    requires WellFormed(g) && AllLeaders(g, a) && AllLeaders(g, b) && AllLeaders(g, a + b)
    requires Preorder(g, visitor, a + b, first.data) == Then(g, visitor, Preorder(g, visitor, a, first.data), b)
    ensures Then(g, visitor, first, a + b) == Then(g, visitor, Then(g, visitor, first, a), b)
  {
    if !first.stopped {
      var mid := Preorder(g, visitor, a, first.data);
      var last := Preorder(g, visitor, b, mid.data);
      ConcatAssociative(first.calls, mid.calls, last.calls);
    }
  }

  /** The outstanding processes after one visitor call that answered res. */
  ghost function NextTodo(g: TaskGraph, todo: seq<Task>, res: int): (next: seq<Task>)
    requires WellFormed(g) && AllLeaders(g, todo) && todo != []
    ensures AllLeaders(g, next)
  {
    if res > 0 then Kids(g, todo[0]) + todo[1..] else todo[1..]
  }

  /** One visitor call turns a list of outstanding processes into the next one. */
  lemma PreorderVisit<D>(g: TaskGraph, visitor: Visitor<D>, todo: seq<Task>, data: D)
    requires WellFormed(g) && AllLeaders(g, todo) && todo != []
    ensures
      var (res, d) := visitor(todo[0], data);
      Preorder(g, visitor, todo, data) ==
      Then(g, visitor, Walked(d, res < 0, [todo[0]]), NextTodo(g, todo, res))
  {
    var (res, d) := visitor(todo[0], data);
    assert Preorder(g, visitor, todo, data) == Then(g, visitor, Subtree(g, visitor, todo[0], data), todo[1..]);
    if res > 0 {
      PreorderDescend(g, visitor, todo, data);
    } else {
      assert Subtree(g, visitor, todo[0], data) == Walked(d, res < 0, [todo[0]]);
    }
  }

  lemma PreorderDescend<D>(g: TaskGraph, visitor: Visitor<D>, todo: seq<Task>, data: D)
    requires WellFormed(g) && AllLeaders(g, todo) && todo != []
    requires visitor(todo[0], data).0 > 0
    ensures Then(g, visitor, Subtree(g, visitor, todo[0], data), todo[1..]) ==
            Then(g, visitor, Walked(visitor(todo[0], data).1, false, [todo[0]]), NextTodo(g, todo, 1))
  {
    var c, rest, d := todo[0], todo[1..], visitor(todo[0], data).1;
    PreorderAppend(g, visitor, Kids(g, c), rest, d);
    var seed := Walked(d, false, [c]);
    assert Subtree(g, visitor, c, data) == Then(g, visitor, seed, Kids(g, c));
    ThenAssociative(g, visitor, seed, Kids(g, c), rest);
  }

  // ----- list cursors: what an intrusive list answers for a given entry

  /** The position of x, or |s| when x is not listed. */
  function IndexOf(s: seq<Task>, x: Task): (i: nat)
    ensures i <= |s| && (i < |s| ==> s[i] == x) && (x in s ==> i < |s|)
  {
    if s == [] then 0 else if s[0] == x then 0 else 1 + IndexOf(s[1..], x)
  }

  function First(s: seq<Task>): Option<Task> {
    if s == [] then None else Some(s[0])
  }

  /** The entries behind x. */
  function Behind(s: seq<Task>, x: Task): (rest: seq<Task>)
    requires x in s
    ensures forall y :: y in rest ==> y in s
  {
    s[IndexOf(s, x) + 1..]
  }

  /** The entries from the cursor on; no cursor means the end of the list was reached. */
  ghost function From(s: seq<Task>, cursor: Option<Task>): seq<Task>
    requires cursor.Some? ==> cursor.value in s
  {
    if cursor.None? then [] else s[IndexOf(s, cursor.value)..]
  }

  /** Moving the cursor to the next entry drops one entry. */
  lemma CursorNext(s: seq<Task>, x: Task)
    requires Distinct(s) && x in s
    ensures First(Behind(s, x)).Some? ==> First(Behind(s, x)).value in s
    ensures From(s, Some(x)) == [x] + Behind(s, x)
    ensures From(s, First(Behind(s, x))) == Behind(s, x)
  {
    var rest := Behind(s, x);
    if rest != [] {
      assert rest[0] == s[IndexOf(s, x) + 1];
    }
  }

  /** Behind the entry that follows x lies everything behind x but that entry. */
  lemma CursorSkip(s: seq<Task>, x: Task)
    requires Distinct(s) && x in s && Behind(s, x) != []
    ensures Behind(s, Behind(s, x)[0]) == Behind(s, x)[1..]
  {
    assert Behind(s, x)[0] == s[IndexOf(s, x) + 1];
  }

  lemma ConcatAssociative(a: seq<Task>, b: seq<Task>, c: seq<Task>)
    ensures a + (b + c) == a + b + c
  {}

  lemma CursorFirst(s: seq<Task>)
    requires s != []
    ensures From(s, First(s)) == s
  {}

  // ----- what a position of the walk still has to visit

  /** leader can be reached from top by going up through real_parent and group_leader. */
  ghost predicate Below(g: TaskGraph, top: Task, leader: Task)
    requires WellFormed(g) && IsLeader(g, leader)
    decreases g.tasks[leader].birth
  {
    || leader == top
    || (var p := g.tasks[leader].parent; IsChild(g, p, leader) && Below(g, top, LeaderOf(g, p)))
  }

  /** The two loops stand at thread parent of the process led by leader. */
  ghost predicate At(g: TaskGraph, top: Task, leader: Task, parent: Task)
    requires WellFormed(g)
  {
    IsLeader(g, leader) && Below(g, top, leader) && IsThread(g, leader, parent)
  }

  ghost function LaterThreads(g: TaskGraph, leader: Task, parent: Task): (ts: seq<Task>)
    requires WellFormed(g) && IsLeader(g, leader) && IsThread(g, leader, parent)
    ensures AllTasks(g, ts)
  {
    ThreadsAreTasks(g, leader);
    Behind(g.tasks[leader].threads, parent)
  }

  /** What follows once the whole subtree of leader is done: its younger siblings, the children
      of its parent's later threads, and so on up to top. */
  ghost function Above(g: TaskGraph, top: Task, leader: Task): (todo: seq<Task>)
    requires WellFormed(g) && IsLeader(g, leader) && Below(g, top, leader)
    decreases g.tasks[leader].birth, 0
  {
    if leader == top then []
    else
      var p := g.tasks[leader].parent;
      Behind(g.tasks[p].children, leader) + Outside(g, top, LeaderOf(g, p), p)
  }

  /** What follows once the child list of parent is done. */
  ghost function Outside(g: TaskGraph, top: Task, leader: Task, parent: Task): seq<Task>
    requires WellFormed(g) && At(g, top, leader, parent)
    decreases g.tasks[leader].birth, 1
  {
    KidsOf(g, LaterThreads(g, leader, parent)) + Above(g, top, leader)
  }

  /** Everything still to be visited when the two loops stand at parent and child. */
  ghost function Todo(g: TaskGraph, top: Task, leader: Task, parent: Task, child: Option<Task>): seq<Task>
    requires WellFormed(g) && At(g, top, leader, parent) && IsTask(g, parent)
    requires child.Some? ==> IsChild(g, parent, child.value)
  {
    From(g.tasks[parent].children, child) + Outside(g, top, leader, parent)
  }

  /** Standing at the first child of a thread. */
  lemma TodoFirstChild(g: TaskGraph, top: Task, leader: Task, parent: Task)
    requires WellFormed(g) && At(g, top, leader, parent) && IsTask(g, parent)
    ensures
      var cs := g.tasks[parent].children;
      && (First(cs).Some? ==> IsChild(g, parent, First(cs).value))
      && Todo(g, top, leader, parent, First(cs)) == cs + Outside(g, top, leader, parent)
  {
    var cs := g.tasks[parent].children;
    if cs != [] {
      CursorFirst(cs);
    }
  }

  /** Entering a process (the down label) makes all its children outstanding. */
  lemma TodoDown(g: TaskGraph, top: Task, leader: Task)
    requires WellFormed(g) && IsLeader(g, leader) && Below(g, top, leader)
    ensures g.tasks[leader].threads != []
    ensures
      var parent := g.tasks[leader].threads[0];
      && At(g, top, leader, parent) && IsTask(g, parent)
      && g.tasks[parent].children + Outside(g, top, leader, parent) == Kids(g, leader) + Above(g, top, leader)
  {
    ThreadsAreTasks(g, leader);
    var threads := g.tasks[leader].threads;
    var parent := threads[0];
    assert IsThread(g, leader, parent);
    assert LaterThreads(g, leader, parent) == threads[1..];
    ConcatAssociative(g.tasks[parent].children, KidsOf(g, threads[1..]), Above(g, top, leader));
  }

  /** Moving on to the next thread of the group leaves the outstanding processes as they are. */
  lemma TodoNextThread(g: TaskGraph, top: Task, leader: Task, parent: Task)
    requires WellFormed(g) && At(g, top, leader, parent)
    requires LaterThreads(g, leader, parent) != []
    ensures
      var next := LaterThreads(g, leader, parent)[0];
      && At(g, top, leader, next) && IsTask(g, next)
      && g.tasks[next].children + Outside(g, top, leader, next) == Outside(g, top, leader, parent)
      && |LaterThreads(g, leader, next)| < |LaterThreads(g, leader, parent)|
  {
    var threads := g.tasks[leader].threads;
    var rest := LaterThreads(g, leader, parent);
    var next := rest[0];
    assert IsThread(g, leader, next);
    CursorSkip(threads, parent);
    ConcatAssociative(g.tasks[next].children, KidsOf(g, rest[1..]), Above(g, top, leader));
  }

  /** Climbing to the parent (the up label) leaves the outstanding processes as they are. */
  lemma TodoUp(g: TaskGraph, top: Task, leader: Task, parent: Task)
    requires WellFormed(g) && At(g, top, leader, parent) && leader != top
    requires LaterThreads(g, leader, parent) == []
    ensures
      var p := g.tasks[leader].parent;
      && IsChild(g, p, leader) && IsTask(g, p) && At(g, top, LeaderOf(g, p), p)
      && var child := First(Behind(g.tasks[p].children, leader));
      && (child.Some? ==> IsChild(g, p, child.value))
      && Todo(g, top, LeaderOf(g, p), p, child) == Outside(g, top, leader, parent)
      && g.tasks[LeaderOf(g, p)].birth < g.tasks[leader].birth
  {
    var p := g.tasks[leader].parent;
    CursorNext(g.tasks[p].children, leader);
    assert [] + Above(g, top, leader) == Above(g, top, leader);
  }

  lemma KidsOfLeaders(g: TaskGraph, ts: seq<Task>)
    requires WellFormed(g) && AllTasks(g, ts)
    ensures AllLeaders(g, KidsOf(g, ts))
  {
    forall c | c in KidsOf(g, ts) ensures IsLeader(g, c) {
      KidsOfMember(g, ts, c);
    }
  }

  // ----- no process is met twice

  /** The process whose child c is. */
  ghost function ParentProcess(g: TaskGraph, c: Task): Option<Task>
    requires IsTask(g, c)
  {
    var p := g.tasks[c].parent;
    if IsTask(g, p) then Some(LeaderOf(g, p)) else None
  }

  /** c is a process below top whose parent is top or was visited. */
  ghost predicate Reached(g: TaskGraph, top: Task, calls: seq<Task>, c: Task)
    requires IsTask(g, top)
  {
    && IsLeader(g, c) && g.tasks[top].birth < g.tasks[c].birth
    && ParentProcess(g, c).Some?
    && (ParentProcess(g, c).value == top || ParentProcess(g, c).value in calls)
  }

  /** Visited and outstanding processes are pairwise different and were all reached. */
  ghost predicate Fresh(g: TaskGraph, top: Task, calls: seq<Task>, todo: seq<Task>)
    requires IsTask(g, top)
  {
    Distinct(calls + todo) && forall c :: c in calls + todo ==> Reached(g, top, calls, c)
  }

  lemma KidsFresh(g: TaskGraph, top: Task)
    requires WellFormed(g) && IsLeader(g, top)
    ensures Fresh(g, top, [], Kids(g, top))
  {
    ThreadsAreTasks(g, top);
    KidsOfDistinct(g, g.tasks[top].threads);
    assert [] + Kids(g, top) == Kids(g, top);
    forall c | c in Kids(g, top) ensures Reached(g, top, [], c) {
      KidsMember(g, top, c);
    }
  }

  /** One visitor call keeps visited and outstanding processes apart. */
  lemma VisitFresh(g: TaskGraph, top: Task, calls: seq<Task>, todo: seq<Task>, res: int)
    requires WellFormed(g) && IsLeader(g, top) && todo != [] && AllLeaders(g, todo)
    requires Fresh(g, top, calls, todo)
    ensures Fresh(g, top, calls + [todo[0]], NextTodo(g, todo, res))
  {
    var c, rest := todo[0], todo[1..];
    var calls' := calls + [c];
    assert calls + todo == calls' + rest;
    if res > 0 {
      var kids := Kids(g, c);
      ThreadsAreTasks(g, c);
      KidsOfDistinct(g, g.tasks[c].threads);
      forall k | k in kids
        ensures Reached(g, top, calls', k) && k !in calls' + rest
      {
        NotReachedYet(g, top, calls, todo, k);
      }
      DistinctInsert(calls', kids, rest);
    }
    forall x | x in calls' + NextTodo(g, todo, res) ensures Reached(g, top, calls', x) {
      assert x in calls' + rest ==> Reached(g, top, calls, x);
    }
  }

  lemma NotReachedYet(g: TaskGraph, top: Task, calls: seq<Task>, todo: seq<Task>, k: Task)
    requires WellFormed(g) && IsLeader(g, top) && todo != [] && AllLeaders(g, todo)
    requires Fresh(g, top, calls, todo) && k in Kids(g, todo[0])
    ensures k !in calls + todo
    ensures Reached(g, top, calls + [todo[0]], k)
  {
    var c := todo[0];
    KidsMember(g, c, k);
    assert (calls + todo)[|calls|] == c;
    assert Reached(g, top, calls, c);
    DistinctParts(calls, todo);
  }

  // ----- the stackless walk

  /** A visitor call seen from the middle of a walk. */
  lemma ThenVisit<D>(g: TaskGraph, visitor: Visitor<D>, data: D, calls: seq<Task>, todo: seq<Task>)
    requires WellFormed(g) && AllLeaders(g, todo) && todo != []
    ensures
      var (res, d) := visitor(todo[0], data);
      Then(g, visitor, Walked(data, false, calls), todo) ==
      Then(g, visitor, Walked(d, res < 0, calls + [todo[0]]), NextTodo(g, todo, res))
  {
    PreorderVisit(g, visitor, todo, data);
    var (res, d) := visitor(todo[0], data);
    if res >= 0 {
      var rest := Preorder(g, visitor, NextTodo(g, todo, res), d);
      assert calls + ([todo[0]] + rest.calls) == calls + [todo[0]] + rest.calls;
    }
  }

  lemma CallsBound(g: TaskGraph, top: Task, calls: seq<Task>, todo: seq<Task>)
    requires IsTask(g, top) && Fresh(g, top, calls, todo)
    ensures Distinct(calls) && |calls| <= |g.tasks|
  {
    DistinctParts(calls, todo);
    forall c | c in calls ensures c in g.tasks.Keys {
      assert c in calls + todo;
    }
    DistinctBound(calls, g.tasks.Keys);
  }

  /** Standing at a child, the walk may skip it or enter it. */
  lemma TodoVisit(g: TaskGraph, top: Task, leader: Task, parent: Task, c: Task)
    requires WellFormed(g) && IsTask(g, top) && At(g, top, leader, parent) && IsChild(g, parent, c)
    ensures
      var todo := Todo(g, top, leader, parent, Some(c));
      var next := First(Behind(g.tasks[parent].children, c));
      && todo != [] && todo[0] == c
      && (next.Some? ==> IsChild(g, parent, next.value))
      && Todo(g, top, leader, parent, next) == todo[1..]
      && IsLeader(g, c) && Below(g, top, c) && Above(g, top, c) == todo[1..]
  {
    var cs := g.tasks[parent].children;
    CursorNext(cs, c);
    ConcatAssociative([c], Behind(cs, c), Outside(g, top, leader, parent));
    BelowIsYounger(g, top, leader);
  }

  lemma {:induction false} BelowIsYounger(g: TaskGraph, top: Task, leader: Task)
    requires WellFormed(g) && IsTask(g, top) && IsLeader(g, leader) && Below(g, top, leader)
    ensures g.tasks[top].birth <= g.tasks[leader].birth
    decreases g.tasks[leader].birth
  {
    if leader != top {
      BelowIsYounger(g, top, LeaderOf(g, g.tasks[leader].parent));
    }
  }

  /** walk_process_tree: no stack, only the cursors leader, parent and child.  A missing child
      means that the inner loop ran off the end of parent's child list. */
  method WalkProcessTree<D>(g: TaskGraph, from: Task, visitor: Visitor<D>, data: D)
    returns (result: D, stopped: bool, calls: seq<Task>)
    requires WellFormed(g) && IsTask(g, from)
    ensures Walked(result, stopped, calls) == Preorder(g, visitor, Kids(g, LeaderOf(g, from)), data)
    ensures Distinct(calls)
  {
    var top := LeaderOf(g, from);
    result, stopped, calls := data, false, [];
    var leader := top;
    TodoDown(g, top, leader);
    var parent := g.tasks[leader].threads[0];
    var child := First(g.tasks[parent].children);
    ghost var goal := Preorder(g, visitor, Kids(g, top), data);
    TodoFirstChild(g, top, leader, parent);
    ghost var todo := Todo(g, top, leader, parent, child);
    KidsFresh(g, top);
    assert todo == Kids(g, top) by { assert Kids(g, top) + [] == Kids(g, top); }
    assert [] + goal.calls == goal.calls;
    while true
      invariant At(g, top, leader, parent) && IsTask(g, parent)
      invariant child.Some? ==> IsChild(g, parent, child.value)
      invariant todo == Todo(g, top, leader, parent, child) && AllLeaders(g, todo)
      invariant !stopped && Fresh(g, top, calls, todo)
      invariant goal == Then(g, visitor, Walked(result, false, calls), todo)
      decreases |g.tasks| - |calls|, g.tasks[leader].birth, |LaterThreads(g, leader, parent)|
    {
      CallsBound(g, top, calls, todo);
      if child.Some? {
        var c := child.value;
        TodoVisit(g, top, leader, parent, c);
        ThenVisit(g, visitor, result, calls, todo);
        var (res, d) := visitor(c, result);
        VisitFresh(g, top, calls, todo, res);
        todo := NextTodo(g, todo, res);
        result, calls := d, calls + [c];
        CallsBound(g, top, calls, todo);
        if res < 0 {
          stopped := true;
          return;
        } else if res > 0 {
          leader := c;
          TodoDown(g, top, leader);
          parent := g.tasks[leader].threads[0];
          child := First(g.tasks[parent].children);
          TodoFirstChild(g, top, leader, parent);
        } else {
          child := First(Behind(g.tasks[parent].children, c));
        }
      } else {
        assert todo == Outside(g, top, leader, parent);
        var rest := Behind(g.tasks[leader].threads, parent);
        if rest != [] {
          TodoNextThread(g, top, leader, parent);
          parent := rest[0];
          child := First(g.tasks[parent].children);
          TodoFirstChild(g, top, leader, parent);
        } else if leader != top {
          TodoUp(g, top, leader, parent);
          child := Some(leader);
          parent := g.tasks[leader].parent;
          leader := LeaderOf(g, parent);
          child := First(Behind(g.tasks[parent].children, child.value));
        } else {
          assert todo == [];
          return;
        }
      }
    }
  }
}
