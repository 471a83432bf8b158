/** Process groups and sessions in one pid namespace: setpgid, set_special_pids and ksys_setsid in
    Kernel/kernel/sys.c, and what copy_process (Kernel/kernel/fork.c) hands to a child.  The rules
    are those of setpgid() and setsid() in the System Interfaces volume of POSIX.1-2017. */
module ProcessGroups {
  import opened Errno

  type Pid = int

  /** A thread group.
      - parent:     thread group of the leader's real_parent
      - leader:     signal->leader, set by setsid
      - forkNoExec: PF_FORKNOEXEC, cleared by the first exec */
  datatype Process = Process(parent: Pid, pgid: Pid, sid: Pid, leader: bool, forkNoExec: bool)

  /** The live processes by pid, and the live non-leader threads with their process. */
  datatype Table = Table(procs: map<Pid, Process>, threads: map<Pid, Pid>)

  // ----- invariants

  ghost predicate SameGroup(t: Table, p: Pid, q: Pid) {
    p in t.procs && q in t.procs && t.procs[p].pgid == t.procs[q].pgid
  }

  /** The members of a process group share one session. */
  ghost predicate GroupsInsideSessions(t: Table) {
    forall p, q :: SameGroup(t, p, q) ==> t.procs[p].sid == t.procs[q].sid
  }

  /** A group named after a live process lies in that process's session, whether or not that
      process is still a member. */
  ghost predicate GroupsWithTheirNamesake(t: Table) {
    forall q :: q in t.procs && t.procs[q].pgid in t.procs ==> t.procs[q].sid == t.procs[t.procs[q].pgid].sid
  }

  /** A session leader leads its own group and session, and a session named after a live process
      is led by it. */
  ghost predicate SessionsHaveLeaders(t: Table) {
    && (forall p :: p in t.procs && t.procs[p].leader ==> t.procs[p].pgid == p && t.procs[p].sid == p)
    && (forall q :: q in t.procs && t.procs[q].sid in t.procs ==> t.procs[t.procs[q].sid].leader)
  }

  ghost predicate TableWellFormed(t: Table) {
    && (forall p :: p in t.procs ==> p > 0 && p !in t.threads && t.procs[p].parent != p)
    && (forall tid :: tid in t.threads ==> tid > 0 && t.threads[tid] in t.procs)
  }

  ghost predicate Sound(t: Table) {
    TableWellFormed(t) && GroupsInsideSessions(t) && GroupsWithTheirNamesake(t) && SessionsHaveLeaders(t)
  }

  /** alloc_pid hands out a number that no live task, group or session uses. */
  predicate Unused(t: Table, n: Pid) {
    && n > 0 && n !in t.procs && n !in t.threads
    && (forall q :: q in t.procs ==> t.procs[q].pgid != n && t.procs[q].sid != n && t.procs[q].parent != n)
  }

  // ----- what each call may do, in the terms of the standard

  predicate GroupExists(t: Table, group: Pid) {
    exists g :: g in t.procs && t.procs[g].pgid == group
  }

  predicate GroupInSession(t: Table, group: Pid, session: Pid) {
    exists g :: g in t.procs && t.procs[g].pgid == group && t.procs[g].sid == session
  }

  /** The caller moves itself or a child that has not called exec and is in its session; a session
      leader is never moved; the group is the process's own or one of the caller's session. */
  ghost predicate MaySetpgid(t: Table, me: Pid, target: Pid, group: Pid) {
    && me in t.procs && target in t.procs && group >= 0
    && (target == me ||
        (&& t.procs[target].parent == me
         && t.procs[target].sid == t.procs[me].sid
         && t.procs[target].forkNoExec))
    && !t.procs[target].leader
    && (group == target || GroupInSession(t, group, t.procs[me].sid))
  }

  /** The caller leads no session, and no process group is named after it. */
  ghost predicate MaySetsid(t: Table, me: Pid) {
    me in t.procs && !t.procs[me].leader && !GroupExists(t, me)
  }

  datatype Event =
    | Setpgid(me: Pid, target: Pid, group: Pid)
    | Setsid(me: Pid)
    | Fork(me: Pid, parent: Pid, child: Pid)
    | NewThread(me: Pid, tid: Pid)
    | Exec(me: Pid)
    | Exit(me: Pid, heir: Pid)

  ghost predicate Allowed(t: Table, e: Event) {
    match e
    case Setpgid(me, target, group) => MaySetpgid(t, me, target, group)
    case Setsid(me) => MaySetsid(t, me)
    case Fork(me, parent, child) =>
      me in t.procs && (parent == me || parent == t.procs[me].parent) && Unused(t, child)
    case NewThread(me, tid) => me in t.procs && Unused(t, tid)
    case Exec(me) => me in t.procs
    case Exit(me, heir) => me in t.procs && heir != me && (heir in t.procs ==> t.procs[heir].parent != me)
  }

  /** The table after a call that succeeds; a call that fails changes nothing. */
  ghost function After(t: Table, e: Event): Table
    requires Allowed(t, e)
  {
    match e
    case Setpgid(_, target, group) => t.(procs := t.procs[target := t.procs[target].(pgid := group)])
    case Setsid(me) => t.(procs := t.procs[me := t.procs[me].(pgid := me, sid := me, leader := true)])
    case Fork(me, parent, child) =>
      t.(procs := t.procs[child := Process(parent, t.procs[me].pgid, t.procs[me].sid, false, true)])
    case NewThread(me, tid) => t.(threads := t.threads[tid := me])
    case Exec(me) => t.(procs := t.procs[me := t.procs[me].(forkNoExec := false)])
    case Exit(me, heir) =>
      Table(
        map p | p in t.procs && p != me ::
          if t.procs[p].parent == me then t.procs[p].(parent := heir) else t.procs[p],
        map tid | tid in t.threads && t.threads[tid] != me :: t.threads[tid])
  }

  // ----- what each call does, field by field

  /** Parent and exec state are as before. */
  ghost predicate SameButIds(p: Process, q: Process) {
    q.parent == p.parent && q.forkNoExec == p.forkNoExec
  }

  /** No other process and no thread is touched. */
  ghost predicate OthersUntouched(t: Table, t': Table, p: Pid) {
    && t'.threads == t.threads && t'.procs.Keys == t.procs.Keys
    && forall q :: q in t.procs && q != p ==> t'.procs[q] == t.procs[q]
  }

  /** A child joins the group and the session of the process that forks, leads neither, and hangs under
      the parent it was given; nobody else notices. */
  lemma ForkJoins(t: Table, me: Pid, parent: Pid, child: Pid)
    requires Allowed(t, Fork(me, parent, child))
    ensures
      var t' := After(t, Fork(me, parent, child));
      && t'.procs.Keys == t.procs.Keys + {child} && t'.threads == t.threads
      && (forall q :: q in t.procs ==> t'.procs[q] == t.procs[q])
      && SameGroup(t', me, child) && t'.procs[child].sid == t'.procs[me].sid && !t'.procs[child].leader
      && t'.procs[child].parent == parent && t'.procs[child].forkNoExec
  {
  }

  /** An exit takes the process and its threads away and gives its children to the heir; groups and
      sessions of all others stay. */
  lemma ExitLeaves(t: Table, me: Pid, heir: Pid)
    requires Allowed(t, Exit(me, heir))
    ensures
      var t' := After(t, Exit(me, heir));
      && t'.procs.Keys == t.procs.Keys - {me}
      && (forall tid :: tid in t'.threads <==> tid in t.threads && t.threads[tid] != me)
      && forall q :: q in t'.procs ==>
           && t'.procs[q].pgid == t.procs[q].pgid && t'.procs[q].sid == t.procs[q].sid
           && t'.procs[q].leader == t.procs[q].leader && t'.procs[q].forkNoExec == t.procs[q].forkNoExec
           && t'.procs[q].parent == if t.procs[q].parent == me then heir else t.procs[q].parent
  {
  }

  /** A new thread belongs to its process, and setpgid does not take its number for a process. */
  lemma ThreadBelongs(t: Table, me: Pid, tid: Pid)
    requires Allowed(t, NewThread(me, tid))
    ensures
      var t' := After(t, NewThread(me, tid));
      && t'.procs == t.procs && tid in t'.threads && t'.threads[tid] == me && t'.threads - {tid} == t.threads - {tid}
      && forall p, group :: !MaySetpgid(t', p, tid, group)
  {
  }

  /** After an exec its parent may not move the process any more. */
  lemma ExecPinsGroup(t: Table, parent: Pid, p: Pid, group: Pid)
    requires Allowed(t, Exec(p)) && parent != p
    ensures !MaySetpgid(After(t, Exec(p)), parent, p, group)
    ensures p in After(t, Exec(p)).procs && OthersUntouched(t, After(t, Exec(p)), p)
  {
  }

  lemma SetpgidKeepsSound(t: Table, me: Pid, target: Pid, group: Pid)
    requires Sound(t) && MaySetpgid(t, me, target, group)
    ensures Sound(After(t, Setpgid(me, target, group)))
  {
    var t' := After(t, Setpgid(me, target, group));
    var session := t.procs[me].sid;
    assert t.procs[target].sid == session;
    forall q | q in t.procs && t.procs[q].pgid == group ensures t.procs[q].sid == session {
      if group != target {
        var g :| g in t.procs && t.procs[g].pgid == group && t.procs[g].sid == session;
        assert SameGroup(t, g, q);
      }
    }
    forall p, q | SameGroup(t', p, q) ensures t'.procs[p].sid == t'.procs[q].sid {
      assert SameGroup(t, p, q) || t'.procs[p].pgid == group;
    }
    forall q | q in t'.procs && t'.procs[q].pgid in t'.procs
      ensures t'.procs[q].sid == t'.procs[t'.procs[q].pgid].sid
    {
      if q == target && group != target {
        var g :| g in t.procs && t.procs[g].pgid == group && t.procs[g].sid == session;
      }
    }
  }

  lemma SetsidKeepsSound(t: Table, me: Pid)
    requires Sound(t) && MaySetsid(t, me)
    ensures Sound(After(t, Setsid(me)))
    ensures forall q :: q in t.procs && q != me ==> t.procs[q].sid != me && t.procs[q].pgid != me
  {
    var t' := After(t, Setsid(me));
    forall p, q | SameGroup(t', p, q) ensures t'.procs[p].sid == t'.procs[q].sid {
      assert p != me && q != me ==> SameGroup(t, p, q);
    }
  }

  lemma ForkKeepsSound(t: Table, me: Pid, parent: Pid, child: Pid)
    requires Sound(t) && Allowed(t, Fork(me, parent, child))
    ensures Sound(After(t, Fork(me, parent, child)))
  {
    var t' := After(t, Fork(me, parent, child));
    forall p, q | SameGroup(t', p, q) ensures t'.procs[p].sid == t'.procs[q].sid {
      var p' := if p == child then me else p;
      var q' := if q == child then me else q;
      assert SameGroup(t, p', q');
    }
  }

  lemma ExitKeepsSound(t: Table, me: Pid, heir: Pid)
    requires Sound(t) && Allowed(t, Exit(me, heir))
    ensures Sound(After(t, Exit(me, heir)))
  {
    var t' := After(t, Exit(me, heir));
    forall p, q | SameGroup(t', p, q) ensures t'.procs[p].sid == t'.procs[q].sid {
      assert SameGroup(t, p, q);
    }
  }

  lemma EventKeepsSound(t: Table, e: Event)
    requires Sound(t) && Allowed(t, e)
    ensures Sound(After(t, e))
  {
    match e
    case Setpgid(me, target, group) => SetpgidKeepsSound(t, me, target, group);
    case Setsid(me) => SetsidKeepsSound(t, me);
    case Fork(me, parent, child) => ForkKeepsSound(t, me, parent, child);
    case NewThread(me, tid) =>
      var t' := After(t, e);
      assert forall p, q :: SameGroup(t', p, q) ==> SameGroup(t, p, q);
    case Exec(me) =>
      var t' := After(t, e);
      assert forall p, q :: SameGroup(t', p, q) ==> SameGroup(t, p, q);
    case Exit(me, heir) => ExitKeepsSound(t, me, heir);
  }

  // ----- whole runs

  ghost predicate Reaches(t: Table, events: seq<Event>, t': Table)
    decreases |events|
  {
    if events == [] then t == t'
    else Allowed(t, events[0]) && Reaches(After(t, events[0]), events[1..], t')
  }

  /** Only init is running. */
  const INITIAL_TABLE := Table(map[1 := Process(0, 0, 0, false, false)], map[])

  lemma {:induction false} RunKeepsSound(t: Table, events: seq<Event>, t': Table)
    requires Sound(t) && Reaches(t, events, t')
    ensures Sound(t')
    decreases |events|
  {
    if events != [] {
      EventKeepsSound(t, events[0]);
      RunKeepsSound(After(t, events[0]), events[1..], t');
    }
  }

  /** In every run all members of a process group share one session. */
  lemma GroupsStayInsideSessions(events: seq<Event>, t: Table)
    requires Reaches(INITIAL_TABLE, events, t)
    ensures GroupsInsideSessions(t)
  {
    RunKeepsSound(INITIAL_TABLE, events, t);
  }

  /** As long as a process lives it can change session only by founding its own, and what setsid
      gave it (session, group, leadership) it keeps. */
  lemma {:induction false} SessionHistory(t: Table, events: seq<Event>, t': Table, p: Pid)
    requires Sound(t) && Reaches(t, events, t') && p in t.procs
    requires forall i :: 0 <= i < |events| ==> !(events[i].Exit? && events[i].me == p)
    ensures p in t'.procs
    ensures t'.procs[p].sid == t.procs[p].sid || (t'.procs[p].leader && t'.procs[p].sid == p)
    ensures t.procs[p].leader ==>
              t'.procs[p].leader && t'.procs[p].sid == t.procs[p].sid && t'.procs[p].pgid == t.procs[p].pgid
    decreases |events|
  {
    if events != [] {
      EventKeepsSound(t, events[0]);
      var mid := After(t, events[0]);
      assert events[0].Exit? ==> events[0].me != p;
      SessionHistory(mid, events[1..], t', p);
      RunKeepsSound(mid, events[1..], t');
    }
  }

  /** The bare property is not kept step by step: process 2 has left group 2 behind, group 2 sits
      in another session, and setpgid(0, 0) takes process 2 back into it. */
  lemma BarePropertyIsNotInductive()
    ensures exists t, e :: GroupsInsideSessions(t) && Allowed(t, e) && !GroupsInsideSessions(After(t, e))
  {
    var t := Table(map[2 := Process(1, 7, 1, false, true), 3 := Process(1, 2, 9, false, true)], map[]);
    var e := Setpgid(2, 2, 2);
    assert GroupsInsideSessions(t);
    assert Allowed(t, e);
    assert SameGroup(After(t, e), 2, 3);
  }

  // ----- the system calls

  class ProcessTable {
    var table: Table

    /** setpgid, called by a thread of process me; lsm is the verdict of security_task_setpgid. */
    method SetPgid(me: Pid, pidArg: Pid, pgidArg: Pid, lsm: int) returns (err: int)
      requires Sound(table) && me in table.procs
      modifies this
      ensures Sound(table)
      ensures err != 0 ==> table == old(table)
      ensures
        var t := old(table);
        var target := if pidArg == 0 then me else pidArg;
        var group := if pgidArg == 0 then target else pgidArg;
        && (err == 0 <==> MaySetpgid(t, me, target, group) && lsm == 0)
        && (err == 0 ==> table == After(t, Setpgid(me, target, group)))
        && (err == 0 ==>
              && target in table.procs && table.procs[target].pgid == group
              && SameButIds(t.procs[target], table.procs[target])
              && table.procs[target].sid == t.procs[target].sid && table.procs[target].leader == t.procs[target].leader
              && OthersUntouched(t, table, target))
        && (err != 0 && MaySetpgid(t, me, target, group) ==> err == lsm)
        && (lsm == 0 ==>
              && (err == -EINVAL <==> group < 0 || target in t.threads)
              && (err == -ESRCH <==>
                    && group >= 0 && target !in t.threads
                    && (target !in t.procs || (target != me && t.procs[target].parent != me)))
              && (err == -EACCES <==>
                    && group >= 0 && target in t.procs && t.procs[target].parent == me
                    && t.procs[target].sid == t.procs[me].sid && !t.procs[target].forkNoExec))
    {
      var pid := if pidArg == 0 then me else pidArg;
      var pgid := if pgidArg == 0 then pid else pgidArg;
      if pgid < 0 {
        return -EINVAL;
      }
      if pid !in table.procs && pid !in table.threads {
        return -ESRCH;
      }
      if pid in table.threads {
        return -EINVAL;
      }
      var p := table.procs[pid];
      if p.parent == me {
        if p.sid != table.procs[me].sid {
          return -EPERM;
        }
        if !p.forkNoExec {
          return -EACCES;
        }
      } else if pid != me {
        return -ESRCH;
      }
      if p.leader {
        return -EPERM;
      }
      if pgid != pid {
        if !GroupExists(table, pgid) {
          return -EPERM;
        }
        var g :| g in table.procs && table.procs[g].pgid == pgid;
        if table.procs[g].sid != table.procs[me].sid {
          OtherSession(table, g, pgid, table.procs[me].sid);
          return -EPERM;
        }
      }
      if lsm != 0 {
        return lsm;
      }
      SetpgidKeepsSound(table, me, pid, pgid);
      if p.pgid != pgid {
        table := table.(procs := table.procs[pid := p.(pgid := pgid)]);
      }
      return 0;
    }

    /** ksys_setsid: the new session id, or the error. */
    method SetSid(me: Pid) returns (err: int)
      requires Sound(table) && me in table.procs
      modifies this
      ensures Sound(table)
      ensures err == if old(MaySetsid(table, me)) then me else -EPERM
      ensures old(MaySetsid(table, me)) ==> table == After(old(table), Setsid(me))
      ensures !old(MaySetsid(table, me)) ==> table == old(table)
      ensures err == me ==>
                && me in table.procs && table.procs[me].sid == table.procs[me].pgid == me && table.procs[me].leader
                && SameButIds(old(table).procs[me], table.procs[me]) && OthersUntouched(old(table), table, me)
      ensures err == me ==>
                forall q :: q in table.procs && (table.procs[q].sid == me || table.procs[q].pgid == me) ==> q == me
    {
      var p := table.procs[me];
      if p.leader {
        return -EPERM;
      }
      if GroupExists(table, me) {
        return -EPERM;
      }
      SetsidKeepsSound(table, me);
      p := p.(leader := true);
      p := SetSpecialPids(p, me);
      table := table.(procs := table.procs[me := p]);
      return me;
    }
  }

  /** set_special_pids on the entry of the calling process. */
  function SetSpecialPids(p: Process, pid: Pid): Process {
    var q := if p.sid != pid then p.(sid := pid) else p;
    if q.pgid != pid then q.(pgid := pid) else q
  }

  /** One member of another session speaks for its whole group. */
  lemma OtherSession(t: Table, g: Pid, group: Pid, session: Pid)
    requires Sound(t) && g in t.procs && t.procs[g].pgid == group && t.procs[g].sid != session
    ensures !GroupInSession(t, group, session)
  {
    forall q | q in t.procs && t.procs[q].pgid == group ensures t.procs[q].sid != session {
      assert SameGroup(t, g, q);
    }
  }
}
