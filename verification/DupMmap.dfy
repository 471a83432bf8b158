/** dup_mmap in Kernel/kernel/fork.c: the child's tree starts as a copy that still holds the parent's
    areas, and they are replaced one by one. */
module DupMmap {
  import opened Common
  import opened Errno

  /** What vm_stat_account distinguishes besides the total. */
  datatype Kind = Exec | Stack | Data | Other

  /** An area of the parent.
      - dontCopy:   VM_DONTCOPY
      - account:    VM_ACCOUNT
      - wipeOnFork: VM_WIPEONFORK */
  datatype Area = Area(pages: nat, kind: Kind, dontCopy: bool, account: bool, wipeOnFork: bool, file: Option<nat>)

  /** One range of the child's tree. */
  datatype Slot = Parents(area: Area) | Childs(area: Area) | Cleared | Marker

  /** What the helpers answer for one area. */
  datatype AreaEnv = AreaEnv(
    clear: int, fatalSignal: bool, enoughMemory: bool, areaDup: bool, policy: int, userfaultfd: int,
    anonVma: bool, copyPages: int)

  datatype Env = Env(lockKilled: bool, ksm: int, treeDup: int, areas: seq<AreaEnv>, arch: int)

  /** Pages by kind, and in total. */
  datatype Stats = Stats(total: int, exec: int, stack: int, data: int)

  /** vm_stat_account. */
  function Account(s: Stats, kind: Kind, pages: int): Stats {
    Stats(
      s.total + pages,
      if kind.Exec? then s.exec + pages else s.exec,
      if kind.Stack? then s.stack + pages else s.stack,
      if kind.Data? then s.data + pages else s.data)
  }

  // ----- what the first n areas amount to

  function Copied(areas: seq<Area>, n: nat): nat
    requires n <= |areas|
  {
    if n == 0 then 0 else Copied(areas, n - 1) + if areas[n - 1].dontCopy then 0 else 1
  }

  function CopiedAccountable(areas: seq<Area>, n: nat): nat
    requires n <= |areas|
  {
    if n == 0 then 0
    else
      var a := areas[n - 1];
      CopiedAccountable(areas, n - 1) + if !a.dontCopy && a.account then a.pages else 0
  }

  /** References that the copied areas hold to one given file. */
  function CopiedRefs(areas: seq<Area>, n: nat, file: nat): nat
    requires n <= |areas|
  {
    if n == 0 then 0
    else
      var a := areas[n - 1];
      CopiedRefs(areas, n - 1, file) + if !a.dontCopy && a.file == Some(file) then 1 else 0
  }

  /** Sizes of the areas that are copied (or, with skipped set, of those that are not). */
  function Sizes(areas: seq<Area>, n: nat, skipped: bool): Stats
    requires n <= |areas|
  {
    if n == 0 then Stats(0, 0, 0, 0)
    else
      var a := areas[n - 1];
      var rest := Sizes(areas, n - 1, skipped);
      if a.dontCopy == skipped then Account(rest, a.kind, a.pages) else rest
  }

  function Minus(s: Stats, t: Stats): Stats {
    Stats(s.total - t.total, s.exec - t.exec, s.stack - t.stack, s.data - t.data)
  }

  function Plus(s: Stats, t: Stats): Stats {
    Stats(s.total + t.total, s.exec + t.exec, s.stack + t.stack, s.data + t.data)
  }

  // ----- what happens to one area

  /** Whether the area ends up in the child's tree. */
  predicate Installs(a: Area, e: AreaEnv) {
    && !a.dontCopy && !e.fatalSignal && (a.account ==> e.enoughMemory) && e.areaDup
    && e.policy == 0 && e.userfaultfd == 0 && (a.wipeOnFork || e.anonVma)
  }

  function AreaError(a: Area, e: AreaEnv): int {
    if a.dontCopy then e.clear
    else if e.fatalSignal then -EINTR
    else if !Installs(a, e) then -ENOMEM
    else if a.wipeOnFork then 0
    else e.copyPages
  }

  /** An area goes through exactly if it is skipped and its range can be cleared, or nothing it needs is
      missing; areas that are wiped need neither anonymous memory nor pages. */
  lemma AreaSucceeds(a: Area, e: AreaEnv)
    ensures AreaError(a, e) == 0 <==>
            if a.dontCopy then e.clear == 0
            else
              && !e.fatalSignal && (a.account ==> e.enoughMemory) && e.areaDup && e.policy == 0 && e.userfaultfd == 0
              && (!a.wipeOnFork ==> e.anonVma && e.copyPages == 0)
    ensures Installs(a, e) && AreaError(a, e) != 0 ==> !a.wipeOnFork && AreaError(a, e) == e.copyPages
  {
  }

  /** Slot i after the area was dealt with. */
  function Done(a: Area): Slot {
    if a.dontCopy then Cleared else Childs(a)
  }

  /** No failure marker at or before i. */
  ghost predicate BeforeMarker(tree: seq<Slot>, i: nat) {
    i < |tree| && forall j :: 0 <= j <= i ==> !tree[j].Marker?
  }

  /** System-wide counts: committed pages, area structs, policy references, and references to one
      file; which file is a parameter wherever it matters, so the claims hold for each of them. */
  datatype Ledger = Ledger(committed: int, areas: int, policies: int, refs: int)

  /** What one installed area takes. */
  function Install(l: Ledger, a: Area, file: nat): Ledger {
    Ledger(
      l.committed + (if a.account then a.pages else 0),
      l.areas + 1,
      l.policies + 1,
      l.refs + (if a.file == Some(file) then 1 else 0))
  }

  /** The ledger with everything taken that the first n areas need, and no more. */
  function Charged(l: Ledger, areas: seq<Area>, n: nat, file: nat): Ledger
    requires n <= |areas|
  {
    Ledger(
      l.committed + CopiedAccountable(areas, n), l.areas + Copied(areas, n),
      l.policies + Copied(areas, n), l.refs + CopiedRefs(areas, n, file))
  }

  /** The error of the first area that fails, or that of arch_dup_mmap. */
  function FirstError(areas: seq<Area>, env: Env, i: nat): int
    requires i <= |areas| == |env.areas|
    decreases |areas| - i
  {
    if i == |areas| then env.arch
    else if AreaError(areas[i], env.areas[i]) != 0 then AreaError(areas[i], env.areas[i])
    else FirstError(areas, env, i + 1)
  }

  /** The tree in which the first n areas were dealt with and the next one may be marked. */
  ghost predicate TreeAt(tree: seq<Slot>, areas: seq<Area>, n: nat, marked: bool) {
    && |tree| == |areas| && n <= |areas|
    && (forall i :: 0 <= i < n ==> tree[i] == Done(areas[i]))
    && (forall i :: n <= i < |areas| ==> tree[i] == if marked && i == n then Marker else Parents(areas[i]))
  }

  class ChildMm {
    var tree: seq<Slot>
    var mapCount: nat
    var stats: Stats

    /** The part of the loop body that copies one area, with its three error labels. */
    method DupArea(a: Area, e: AreaEnv, i: nat, file: nat, ledger: Ledger) returns (err: int, l: Ledger)
      requires !a.dontCopy && i < |tree|
      modifies this`tree, this`mapCount
      ensures err == AreaError(a, e)
      ensures Installs(a, e) ==>
                tree == old(tree)[i := Childs(a)] && mapCount == old(mapCount) + 1 && l == Install(ledger, a, file)
      ensures !Installs(a, e) ==>
                tree == old(tree) && mapCount == old(mapCount) && l == ledger && err != 0
    {
      l := ledger;
      var charge := 0;
      if e.fatalSignal {
        return -EINTR, l;
      }
      label fail_nomem: {
        if a.account {
          if !e.enoughMemory {
            break fail_nomem;
          }
          l := l.(committed := l.committed + a.pages);
          charge := a.pages;
        }
        if !e.areaDup {
          break fail_nomem;
        }
        l := l.(areas := l.areas + 1);
        label fail_nomem_policy: {
          err := e.policy;
          if err != 0 {
            break fail_nomem_policy;
          }
          l := l.(policies := l.policies + 1);
          label fail_nomem_anon_vma_fork: {
            err := e.userfaultfd;
            if err != 0 {
              break fail_nomem_anon_vma_fork;
            }
            if !a.wipeOnFork && !e.anonVma {
              break fail_nomem_anon_vma_fork;
            }
            if a.file == Some(file) {
              l := l.(refs := l.refs + 1);
            }
            tree := tree[i := Childs(a)];
            mapCount := mapCount + 1;
            if !a.wipeOnFork {
              err := e.copyPages;
            }
            return;
          }
          l := l.(policies := l.policies - 1);
        }
        l := l.(areas := l.areas - 1);
      }
      l := l.(committed := l.committed - charge);
      err := -ENOMEM;
    }

    /** The loop body.  dealt says that the area was cleared or installed; an installed one may still
        fail when its pages are copied. */
    method NextArea(a: Area, e: AreaEnv, i: nat, file: nat, ledger: Ledger) returns (err: int, l: Ledger, dealt: bool)
      requires i < |tree|
      modifies this
      ensures err == AreaError(a, e) && (dealt <==> Installs(a, e) || (a.dontCopy && err == 0)) && (!dealt ==> err != 0)
      ensures tree == if dealt then old(tree)[i := Done(a)] else old(tree)
      ensures mapCount == old(mapCount) + if dealt && !a.dontCopy then 1 else 0
      ensures l == if dealt && !a.dontCopy then Install(ledger, a, file) else ledger
      ensures stats == if dealt && a.dontCopy then Account(old(stats), a.kind, 0 - a.pages) else old(stats)
    {
      l, dealt := ledger, true;
      if a.dontCopy {
        err := e.clear;
        if err != 0 {
          dealt := false;
          return;
        }
        tree := tree[i := Cleared];
        stats := Account(stats, a.kind, 0 - a.pages);
      } else {
        err, l := DupArea(a, e, i, file, l);
        dealt := Installs(a, e);
      }
    }

    /** The loop over the areas, up to the label loop_out.  done is the number of areas dealt with. */
    method DupAreas(areas: seq<Area>, parent: Stats, env: Env, file: nat, ledger: Ledger)
      returns (err: int, done: nat, l: Ledger)
      requires |env.areas| == |areas| && TreeAt(tree, areas, 0, false) && mapCount == 0 && stats == parent
      modifies this
      ensures err == FirstError(areas, env, 0) && (err == 0 ==> done == |areas|)
      ensures TreeAt(tree, areas, done, false)
      ensures mapCount == Copied(areas, done)
      ensures l == Charged(ledger, areas, done, file)
      ensures stats == Minus(parent, Sizes(areas, done, true))
    {
      l, done, err := ledger, 0, 0;
      while done < |areas|
        invariant done <= |areas| && err == 0
        invariant FirstError(areas, env, 0) == FirstError(areas, env, done)
        invariant TreeAt(tree, areas, done, false)
        invariant mapCount == Copied(areas, done)
        invariant l == Charged(ledger, areas, done, file)
        invariant stats == Minus(parent, Sizes(areas, done, true))
      {
        var dealt;
        err, l, dealt := NextArea(areas[done], env.areas[done], done, file, l);
        if dealt {
          done := done + 1;
        }
        if err != 0 {
          return;
        }
      }
      err := env.arch;
    }

    /** dup_mmap. */
    method DupMmap(areas: seq<Area>, parent: Stats, env: Env, file: nat, ledger: Ledger)
      returns (err: int, done: nat, l: Ledger)
      requires |env.areas| == |areas| && mapCount == 0
      modifies this
      ensures env.lockKilled || env.ksm != 0 || env.treeDup != 0 ==>
                err != 0 && tree == old(tree) && mapCount == 0 && l == ledger
      ensures !env.lockKilled && env.ksm == 0 && env.treeDup == 0 ==>
                && err == FirstError(areas, env, 0)
                && TreeAt(tree, areas, done, err != 0)
                && (err == 0 ==> done == |areas|)
                && (forall i: nat :: BeforeMarker(tree, i) ==> !tree[i].Parents?)
                && mapCount == Copied(areas, done)
                && l == Charged(ledger, areas, done, file)
                && stats == Minus(parent, Sizes(areas, done, true))
      ensures err == 0 && CountsPages(parent, areas, |areas|, false) ==> CountsPages(stats, areas, |areas|, true)
    {
      l, done := ledger, 0;
      if env.lockKilled {
        return -EINTR, done, l;
      }
      stats := parent;
      err := env.ksm;
      if err != 0 {
        return;
      }
      err := env.treeDup;
      if err != 0 {
        return;
      }
      tree := seq(|areas|, i requires 0 <= i < |areas| => Parents(areas[i]));
      err, done, l := DupAreas(areas, parent, env, file, l);
      if err != 0 && done < |areas| {
        tree := tree[done := Marker];
      }
      MarkerSeparates(tree, areas, done, err != 0);
      AllSizesSplit(areas, |areas|);
      SizesCountPages(areas, |areas|);
    }
  }

  /** Before the marker, or anywhere if there is none, the tree holds nothing of the parent's. */
  lemma MarkerSeparates(tree: seq<Slot>, areas: seq<Area>, n: nat, marked: bool)
    requires TreeAt(tree, areas, n, marked) && (!marked ==> n == |areas|)
    ensures forall i: nat :: BeforeMarker(tree, i) ==> i < n && !tree[i].Parents?
  {
    assert n < |areas| ==> tree[n].Marker?;
    forall i: nat | BeforeMarker(tree, i) ensures i < n {
    }
  }

  function AllSizes(areas: seq<Area>, n: nat): Stats
    requires n <= |areas|
  {
    if n == 0 then Stats(0, 0, 0, 0) else Account(AllSizes(areas, n - 1), areas[n - 1].kind, areas[n - 1].pages)
  }

  lemma {:induction false} AllSizesSplit(areas: seq<Area>, n: nat)
    requires n <= |areas|
    ensures AllSizes(areas, n) == Plus(Sizes(areas, n, false), Sizes(areas, n, true))
  {
    if n > 0 {
      AllSizesSplit(areas, n - 1);
    }
  }

  // ----- the statistics as plain sums

  /** Pages of the first n areas: of all of them or of those that are copied, of one kind or of any. */
  function PagesOf(areas: seq<Area>, n: nat, copiedOnly: bool, kind: Option<Kind>): nat
    requires n <= |areas|
  {
    if n == 0 then 0
    else
      var a := areas[n - 1];
      PagesOf(areas, n - 1, copiedOnly, kind) +
      if (copiedOnly && a.dontCopy) || (kind.Some? && a.kind != kind.value) then 0 else a.pages
  }

  /** The statistics count these pages. */
  ghost predicate CountsPages(s: Stats, areas: seq<Area>, n: nat, copiedOnly: bool)
    requires n <= |areas|
  {
    && s.total == PagesOf(areas, n, copiedOnly, None) && s.exec == PagesOf(areas, n, copiedOnly, Some(Exec))
    && s.stack == PagesOf(areas, n, copiedOnly, Some(Stack)) && s.data == PagesOf(areas, n, copiedOnly, Some(Data))
  }

  lemma {:induction false} SizesCountPages(areas: seq<Area>, n: nat)
    requires n <= |areas|
    ensures CountsPages(Sizes(areas, n, false), areas, n, true)
    ensures CountsPages(AllSizes(areas, n), areas, n, false)
  {
    if n > 0 {
      SizesCountPages(areas, n - 1);
    }
  }

  // ----- the marker tells the teardown exactly what to give back

  /** What exit_mmap does with the tree: it releases the child's areas up to the marker. */
  function Teardown(tree: seq<Slot>, l: Ledger, i: nat, file: nat): Ledger
    requires i <= |tree|
    decreases |tree| - i
  {
    if i == |tree| || tree[i].Marker? then l
    else if tree[i].Childs? then
      var a := tree[i].area;
      var rest := Ledger(
        l.committed - (if a.account then a.pages else 0), l.areas - 1, l.policies - 1,
        l.refs - (if a.file == Some(file) then 1 else 0));
      Teardown(tree, rest, i + 1, file)
    else Teardown(tree, l, i + 1, file)
  }

  /** The ledger when the teardown has come to area i. */
  ghost function Remaining(before: Ledger, areas: seq<Area>, i: nat, n: nat, file: nat): Ledger
    requires i <= n <= |areas|
  {
    var all, gone := Charged(before, areas, n, file), Charged(before, areas, i, file);
    Ledger(
      before.committed + all.committed - gone.committed, before.areas + all.areas - gone.areas,
      before.policies + all.policies - gone.policies, before.refs + all.refs - gone.refs)
  }

  lemma {:induction false} TeardownFrom(before: Ledger, tree: seq<Slot>, areas: seq<Area>, n: nat, marked: bool,
                                        i: nat, file: nat)
    requires TreeAt(tree, areas, n, marked) && (!marked ==> n == |areas|) && i <= n
    ensures Teardown(tree, Remaining(before, areas, i, n, file), i, file) == before
    decreases n - i
  {
    if i < n {
      TeardownFrom(before, tree, areas, n, marked, i + 1, file);
    }
  }

  /** A failed copy followed by the teardown of the child's tree leaves the ledger as it was. */
  lemma TeardownSettles(before: Ledger, tree: seq<Slot>, areas: seq<Area>, n: nat, marked: bool, file: nat)
    requires TreeAt(tree, areas, n, marked) && (!marked ==> n == |areas|)
    ensures Teardown(tree, Charged(before, areas, n, file), 0, file) == before
  {
    TeardownFrom(before, tree, areas, n, marked, 0, file);
  }
}
