/** The set*uid and set*gid families of Kernel/kernel/sys.c.  The two families do the same to their
    four ids; only the user family can also fail in set_user and set_cred_ucounts. */
module Credentials {
  import opened Errno

  /** The id no user or group has; as an argument it means "leave unchanged". */
  const NONE := -1

  type Id = int

  /** Real, effective, saved and filesystem id. */
  datatype Ids = Ids(rid: Id, eid: Id, sid: Id, fsid: Id)

  /** A call, with its arguments already translated to kernel ids. */
  datatype Call =
    | SetRe(r: Id, e: Id)
    | Set(id: Id)
    | SetRes(r: Id, e: Id, s: Id)
    | SetFs(id: Id)

  function Or(id: Id, current: Id): Id {
    if id == NONE then current else id
  }

  /** The ids a process may switch between. */
  function Roles(c: Ids): set<Id> {
    {c.rid, c.eid, c.sid}
  }

  predicate SetResIsNoOp(c: Ids, r: Id, e: Id, s: Id) {
    (r == NONE || r == c.rid) && (e == NONE || (e == c.eid && e == c.fsid)) && (s == NONE || s == c.sid)
  }

  /** Who may make a call, cap being the capability CAP_SETUID or CAP_SETGID. */
  predicate May(c: Ids, call: Call, cap: bool) {
    match call
    case SetRe(r, e) => cap || (r in {NONE, c.rid, c.eid} && e in Roles(c) + {NONE})
    case Set(id) => id != NONE && (cap || id == c.rid || id == c.sid)
    case SetRes(r, e, s) => cap || ({r, e, s} <= Roles(c) + {NONE})
    case SetFs(id) => id != NONE && (cap || id in Roles(c) + {c.fsid})
  }

  /** The ids after a call that was allowed. */
  function After(c: Ids, call: Call, cap: bool): Ids {
    match call
    case SetRe(r, e) =>
      var eid := Or(e, c.eid);
      var sid := if r != NONE || (e != NONE && e != c.rid) then eid else c.sid;
      Ids(Or(r, c.rid), eid, sid, eid)
    case Set(id) => if cap then Ids(id, id, id, id) else Ids(c.rid, id, c.sid, id)
    case SetRes(r, e, s) =>
      if SetResIsNoOp(c, r, e, s) then c else Ids(Or(r, c.rid), Or(e, c.eid), Or(s, c.sid), Or(e, c.eid))
    case SetFs(id) => c.(fsid := id)
  }

  // ----- runs without the capability

  /** A run without the capability: each call either fails and changes nothing or is allowed. */
  ghost predicate Run(c: Ids, calls: seq<Call>, c': Ids)
    decreases |calls|
  {
    if calls == [] then c == c'
    else
      || Run(c, calls[1..], c')
      || (May(c, calls[0], false) && Run(After(c, calls[0], false), calls[1..], c'))
  }

  /** No call brings an id into the roles that was not there, and after a change of roles the
      filesystem id is one of them. */
  lemma CallKeepsRoles(c: Ids, call: Call)
    requires May(c, call, false)
    ensures
      var c' := After(c, call, false);
      Roles(c') <= Roles(c) && (c' == c || c'.fsid in Roles(c'))
  {
  }

  /** What a run without the capability can lead to. */
  ghost predicate Attainable(c: Ids, c': Ids) {
    c' == c || (Roles(c') <= Roles(c) && c'.fsid in Roles(c'))
  }

  lemma {:induction false} RunStaysAttainable(c: Ids, calls: seq<Call>, c': Ids)
    requires Run(c, calls, c')
    ensures Attainable(c, c')
    decreases |calls|
  {
    if calls != [] {
      if Run(c, calls[1..], c') {
        RunStaysAttainable(c, calls[1..], c');
      } else {
        CallKeepsRoles(c, calls[0]);
        RunStaysAttainable(After(c, calls[0], false), calls[1..], c');
      }
    }
  }

  /** In every run without the capability the four ids never gain a member: an id that is absent
      once never comes back. */
  lemma NoIdIsRegained(c: Ids, calls: seq<Call>, c': Ids)
    requires Run(c, calls, c')
    ensures Roles(c') <= Roles(c)
    ensures Roles(c') + {c'.fsid} <= Roles(c) + {c.fsid}
  {
    RunStaysAttainable(c, calls, c');
  }

  /** And conversely every arrangement of the roles can be reached, by two calls. */
  lemma EveryArrangementIsReached(c: Ids, c': Ids) returns (calls: seq<Call>)
    requires NONE !in Roles(c) && Attainable(c, c')
    ensures Run(c, calls, c')
  {
    if c' == c {
      calls := [];
    } else {
      var first, second := SetRes(c'.rid, c'.eid, c'.sid), SetFs(c'.fsid);
      calls := [first, second];
      var mid := After(c, first, false);
      assert May(c, first, false) && May(mid, second, false) && After(mid, second, false) == c';
      assert calls[1..] == [second] && [second][1..] == [];
      assert Run(c', [], c');
      assert Run(mid, [second], c');
    }
  }

  ghost predicate Leads(c: Ids, calls: seq<Call>, c': Ids) {
    Run(c, calls, c')
  }

  /** Both directions: the ids a process without the capability can get to are exactly those. */
  lemma ReachIsExact(c: Ids, c': Ids)
    requires NONE !in Roles(c)
    ensures (exists calls :: Leads(c, calls, c')) <==> Attainable(c, c')
  {
    if exists calls :: Leads(c, calls, c') {
      var calls :| Leads(c, calls, c');
      RunStaysAttainable(c, calls, c');
    }
    if Attainable(c, c') {
      var calls := EveryArrangementIsReached(c, c');
      assert Leads(c, calls, c');
    }
  }

  /** So giving up all roles but one is final. */
  lemma DroppingIsFinal(c: Ids, calls: seq<Call>, c': Ids)
    requires Run(c, calls, c') && c.rid == c.eid == c.sid == c.fsid
    ensures c' == c
  {
    RunStaysAttainable(c, calls, c');
  }

  // ----- what each call does to the four ids

  /** setreuid sets real and effective id as asked.  It replaces the saved id by the new effective one,
      unless it neither sets the real id nor moves the effective id away from it. */
  lemma SetReSets(c: Ids, r: Id, e: Id, cap: bool)
    requires May(c, SetRe(r, e), cap)
    ensures
      var c' := After(c, SetRe(r, e), cap);
      && (r == NONE ==> c'.rid == c.rid) && (r != NONE ==> c'.rid == r)
      && (e == NONE ==> c'.eid == c.eid) && (e != NONE ==> c'.eid == e)
      && c'.fsid == c'.eid
      && (r != NONE || e !in {NONE, c.rid} ==> c'.sid == c'.eid)
      && (r == NONE && e in {NONE, c.rid} ==> c'.sid == c.sid)
  {
  }

  /** setuid sets all four ids with the capability, and only effective and filesystem id without. */
  lemma SetSets(c: Ids, id: Id, cap: bool)
    requires May(c, Set(id), cap)
    ensures
      var c' := After(c, Set(id), cap);
      && c'.eid == c'.fsid == id
      && (cap ==> c'.rid == c'.sid == id) && (!cap ==> c'.rid == c.rid && c'.sid == c.sid)
  {
  }

  /** setresuid sets exactly what it is asked to, early return or not; setfsuid only the filesystem id. */
  lemma SetResSets(c: Ids, r: Id, e: Id, s: Id, cap: bool)
    requires May(c, SetRes(r, e, s), cap)
    ensures
      var c' := After(c, SetRes(r, e, s), cap);
      && c'.rid == (if r == NONE then c.rid else r) && c'.eid == (if e == NONE then c.eid else e)
      && c'.sid == (if s == NONE then c.sid else s) && (c' == c || c'.fsid == c'.eid)
    ensures forall id :: May(c, SetFs(id), cap) ==>
              After(c, SetFs(id), cap).fsid == id && After(c, SetFs(id), cap) == c.(fsid := After(c, SetFs(id), cap).fsid)
  {
  }

  /** Giving up every other id: setreuid(u, u), or setuid(u) with the capability.  Afterwards no run
      without the capability changes anything. */
  lemma DropsForGood(c: Ids, u: Id, call: Call, cap: bool, calls: seq<Call>, c': Ids)
    requires u != NONE && (call == SetRe(u, u) || (call == Set(u) && cap) || call == SetRes(u, u, u)) && May(c, call, cap)
    requires Run(After(c, call, cap), calls, c')
    ensures After(c, call, cap) == Ids(u, u, u, u) && c' == Ids(u, u, u, u)
  {
    DroppingIsFinal(After(c, call, cap), calls, c');
  }

  /** Giving up the effective id for a while: setuid to the real id and back to the saved one. */
  lemma DropsForAWhile(c: Ids)
    requires NONE !in Roles(c) && c.eid == c.sid
    ensures May(c, Set(c.rid), false)
    ensures
      var low := After(c, Set(c.rid), false);
      && low.eid == low.fsid == c.rid && low.sid == c.sid && May(low, Set(c.sid), false)
      && After(low, Set(c.sid), false) == c.(fsid := c.eid)
  {
  }

  /** Real and effective id can be exchanged, and exchanged back. */
  lemma ExchangesIds(c: Ids)
    requires NONE !in Roles(c)
    ensures May(c, SetRe(c.eid, c.rid), false)
    ensures
      var d := After(c, SetRe(c.eid, c.rid), false);
      && d.rid == c.eid && d.eid == c.rid && May(d, SetRe(d.eid, d.rid), false)
      && After(d, SetRe(d.eid, d.rid), false) == Ids(c.rid, c.eid, c.eid, c.eid)
  {
  }

  // ----- setresuid subsumes the older calls

  /** Every transition of setuid and setreuid, with the capability or without, is one of setresuid. */
  lemma SetResSubsumes(c: Ids, call: Call, cap: bool) returns (r: Id, e: Id, s: Id)
    requires NONE !in Roles(c) && (call.SetRe? || call.Set?) && May(c, call, cap)
    ensures May(c, SetRes(r, e, s), cap)
    ensures After(c, SetRes(r, e, s), cap) == After(c, call, cap)
  {
    var c' := After(c, call, cap);
    r, e, s := c'.rid, c'.eid, c'.sid;
  }

  /** The converse fails: setresuid(-1, -1, ruid) alone moves the real id into the saved one. */
  lemma SetResIsStronger()
    ensures exists c, r, e, s ::
              && NONE !in Roles(c) && May(c, SetRes(r, e, s), false)
              && forall call: Call :: (call.SetRe? || call.Set?) && May(c, call, false) ==>
                                After(c, call, false) != After(c, SetRes(r, e, s), false)
  {
    var c := Ids(1, 2, 3, 2);
    var target := After(c, SetRes(NONE, NONE, 1), false);
    assert May(c, SetRes(NONE, NONE, 1), false) && target == Ids(1, 2, 1, 2);
    forall call: Call | (call.SetRe? || call.Set?) && May(c, call, false)
      ensures After(c, call, false) != target
    {}
  }

  // ----- the system calls

  /** The user namespace's translation of ids to kernel ids; NONE for ids it does not map. */
  type IdMap = Id -> Id

  /** What the call depends on besides its arguments.
      - user:    the call is of the user family
      - prepare: prepare_creds succeeds
      - cap:     ns_capable_setid grants CAP_SETUID or CAP_SETGID
      - setUser, lsm, ucounts: results of set_user, the security hook and set_cred_ucounts */
  datatype Env = Env(user: bool, prepare: bool, cap: bool, setUser: int, lsm: int, ucounts: int)

  function Kernel(ns: IdMap, id: Id): Id {
    if id == NONE then NONE else ns(id)
  }

  predicate Mapped(ns: IdMap, id: Id) {
    id == NONE || ns(id) != NONE
  }

  /** What is left to go wrong once the call is permitted. */
  function CommitError(before: Ids, after: Ids, e: Env): int {
    if e.user && after.rid != before.rid && e.setUser < 0 then e.setUser
    else if e.lsm < 0 then e.lsm
    else if e.user && e.ucounts < 0 then e.ucounts
    else 0
  }

  class TaskIds {
    var cred: Ids

    /** __sys_setreuid and __sys_setregid. */
    method SetReId(rArg: Id, eArg: Id, ns: IdMap, env: Env) returns (ret: int)
      modifies this
      ensures ret == 0 ==> cred == After(old(cred), SetRe(Kernel(ns, rArg), Kernel(ns, eArg)), env.cap)
      ensures ret != 0 ==> cred == old(cred)
      ensures
        var call := SetRe(Kernel(ns, rArg), Kernel(ns, eArg));
        ret == if !Mapped(ns, rArg) || !Mapped(ns, eArg) then -EINVAL
               else if !env.prepare then -ENOMEM
               else if !May(old(cred), call, env.cap) then -EPERM
               else CommitError(old(cred), After(old(cred), call, env.cap), env)
    {
      var krid, keid := Kernel(ns, rArg), Kernel(ns, eArg);
      if rArg != NONE && krid == NONE {
        return -EINVAL;
      }
      if eArg != NONE && keid == NONE {
        return -EINVAL;
      }
      if !env.prepare {
        return -ENOMEM;
      }
      var prev, next := cred, cred;
      if rArg != NONE {
        next := next.(rid := krid);
        if prev.rid != krid && prev.eid != krid && !env.cap {
          return -EPERM;
        }
      }
      if eArg != NONE {
        next := next.(eid := keid);
        if prev.rid != keid && prev.eid != keid && prev.sid != keid && !env.cap {
          return -EPERM;
        }
      }
      if env.user && next.rid != prev.rid {
        if env.setUser < 0 {
          return env.setUser;
        }
      }
      if rArg != NONE || (eArg != NONE && keid != prev.rid) {
        next := next.(sid := next.eid);
      }
      next := next.(fsid := next.eid);
      if env.lsm < 0 {
        return env.lsm;
      }
      if env.user && env.ucounts < 0 {
        return env.ucounts;
      }
      cred := next;
      return 0;
    }

    /** __sys_setuid and __sys_setgid. */
    method SetId(arg: Id, ns: IdMap, env: Env) returns (ret: int)
      modifies this
      ensures ret == 0 ==> cred == After(old(cred), Set(Kernel(ns, arg)), env.cap)
      ensures ret != 0 ==> cred == old(cred)
      ensures
        var call := Set(Kernel(ns, arg));
        ret == if call.id == NONE then -EINVAL
               else if !env.prepare then -ENOMEM
               else if !May(old(cred), call, env.cap) then -EPERM
               else CommitError(old(cred), After(old(cred), call, env.cap), env)
    {
      var kid := Kernel(ns, arg);
      if kid == NONE {
        return -EINVAL;
      }
      if !env.prepare {
        return -ENOMEM;
      }
      var prev, next := cred, cred;
      if env.cap {
        next := next.(rid := kid, sid := kid);
        if env.user && kid != prev.rid {
          if env.setUser < 0 {
            return env.setUser;
          }
        }
      } else if kid != prev.rid && kid != next.sid {
        return -EPERM;
      }
      next := next.(eid := kid, fsid := kid);
      if env.lsm < 0 {
        return env.lsm;
      }
      if env.user && env.ucounts < 0 {
        return env.ucounts;
      }
      cred := next;
      return 0;
    }

    /** __sys_setresuid and __sys_setresgid, with the early return when nothing would change. */
    method SetResId(rArg: Id, eArg: Id, sArg: Id, ns: IdMap, env: Env) returns (ret: int)
      modifies this
      ensures ret == 0 ==> cred == After(old(cred), SetRes(Kernel(ns, rArg), Kernel(ns, eArg), Kernel(ns, sArg)), env.cap)
      ensures ret != 0 ==> cred == old(cred)
      ensures
        var call := SetRes(Kernel(ns, rArg), Kernel(ns, eArg), Kernel(ns, sArg));
        ret == if !Mapped(ns, rArg) || !Mapped(ns, eArg) || !Mapped(ns, sArg) then -EINVAL
               else if SetResIsNoOp(old(cred), call.r, call.e, call.s) then 0
               else if !May(old(cred), call, env.cap) then -EPERM
               else if !env.prepare then -ENOMEM
               else CommitError(old(cred), After(old(cred), call, env.cap), env)
    {
      var krid, keid, ksid := Kernel(ns, rArg), Kernel(ns, eArg), Kernel(ns, sArg);
      if (rArg != NONE && krid == NONE) || (eArg != NONE && keid == NONE) || (sArg != NONE && ksid == NONE) {
        return -EINVAL;
      }
      var prev := cred;
      if && (rArg == NONE || krid == prev.rid)
         && (eArg == NONE || (keid == prev.eid && keid == prev.fsid))
         && (sArg == NONE || ksid == prev.sid) {
        return 0;
      }
      var rNew := rArg != NONE && krid != prev.rid && krid != prev.eid && krid != prev.sid;
      var eNew := eArg != NONE && keid != prev.rid && keid != prev.eid && keid != prev.sid;
      var sNew := sArg != NONE && ksid != prev.rid && ksid != prev.eid && ksid != prev.sid;
      if (rNew || eNew || sNew) && !env.cap {
        return -EPERM;
      }
      if !env.prepare {
        return -ENOMEM;
      }
      var next := prev;
      if rArg != NONE {
        next := next.(rid := krid);
        if env.user && krid != prev.rid {
          if env.setUser < 0 {
            return env.setUser;
          }
        }
      }
      if eArg != NONE {
        next := next.(eid := keid);
      }
      if sArg != NONE {
        next := next.(sid := ksid);
      }
      next := next.(fsid := next.eid);
      if env.lsm < 0 {
        return env.lsm;
      }
      if env.user && env.ucounts < 0 {
        return env.ucounts;
      }
      cred := next;
      return 0;
    }

    /** __sys_setfsuid and __sys_setfsgid: always answers with the previous id, seen from the
        namespace. */
    method SetFsId(arg: Id, ns: IdMap, munged: IdMap, env: Env) returns (ret: Id)
      modifies this
      ensures ret == munged(old(cred).fsid)
      ensures
        var call := SetFs(Kernel(ns, arg));
        cred == if May(old(cred), call, env.cap) && env.prepare && env.lsm == 0
                then After(old(cred), call, env.cap) else old(cred)
    {
      var prev := cred;
      ret := munged(prev.fsid);
      var kid := Kernel(ns, arg);
      if kid == NONE {
        return;
      }
      if !env.prepare {
        return;
      }
      if kid == prev.rid || kid == prev.eid || kid == prev.sid || kid == prev.fsid || env.cap {
        if kid != prev.fsid {
          var next := prev.(fsid := kid);
          if env.lsm == 0 {
            cred := next;
          }
        }
      }
    }
  }
}
