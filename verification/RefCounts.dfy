/** Reference-counted structures shared between tasks (fs_struct, files_struct, sighand_struct,
    mm_struct): the counters, and what it means for them to count their holders. */
module RefCounts {

  type Id = nat

  /** The live structures with their counters. */
  type Counts = map<Id, nat>

  /** One more user of a structure; a structure nobody counted yet is born with one user. */
  function Get(m: Counts, id: Id): Counts {
    m[id := if id in m then m[id] + 1 else 1]
  }

  /** One user less; the last one frees the structure. */
  function Put(m: Counts, id: Id): Counts
    requires id in m
  {
    if m[id] <= 1 then m - {id} else m[id := m[id] - 1]
  }

  /** No live structure is without a user. */
  ghost predicate Live(m: Counts) {
    forall id :: id in m ==> m[id] >= 1
  }

  lemma PutUndoesGet(m: Counts, id: Id)
    requires id in m ==> m[id] >= 1
    ensures id in Get(m, id) && Put(Get(m, id), id) == m
  {
    if id !in m {
      assert Get(m, id) - {id} == m;
    }
  }

  // ----- counters and holders

  /** The holders that point at a structure. */
  ghost function HoldersOf<H>(holder: map<H, Id>, id: Id): set<H> {
    set h | h in holder && holder[h] == id
  }

  /** The holder points at a live structure. */
  ghost predicate PointsAtLive<H>(m: Counts, holder: map<H, Id>, h: H)
    requires h in holder
  {
    holder[h] in m
  }

  /** The counter is the number of holders, and there are some. */
  ghost predicate CountIs<H>(m: Counts, holder: map<H, Id>, id: Id)
    requires id in m
  {
    m[id] >= 1 && m[id] == |HoldersOf(holder, id)|
  }

  /** Exactly the structures that somebody holds are live, and each counter is the number of
      holders. */
  ghost predicate Counted<H>(m: Counts, holder: map<H, Id>) {
    && (forall h {:trigger PointsAtLive(m, holder, h)} :: h in holder ==> PointsAtLive(m, holder, h))
    && (forall id {:trigger CountIs(m, holder, id)} :: id in m ==> CountIs(m, holder, id))
  }

  lemma GetCounts<H>(m: Counts, holder: map<H, Id>, h: H, id: Id)
    requires Counted(m, holder) && h !in holder
    ensures Counted(Get(m, id), holder[h := id])
  {
    var m', holder' := Get(m, id), holder[h := id];
    assert HoldersOf(holder', id) == HoldersOf(holder, id) + {h};
    if id in m {
      assert CountIs(m, holder, id);
    } else {
      forall k | k in holder ensures holder[k] != id {
        assert PointsAtLive(m, holder, k);
      }
      assert HoldersOf(holder, id) == {};
    }
    forall j | j in m' ensures CountIs(m', holder', j) {
      if j != id {
        assert HoldersOf(holder', j) == HoldersOf(holder, j) && CountIs(m, holder, j);
      }
    }
    forall k | k in holder' ensures PointsAtLive(m', holder', k) {
      assert k != h ==> PointsAtLive(m, holder, k);
    }
  }

  /** What a holder can rely on. */
  lemma HolderCounts<H>(m: Counts, holder: map<H, Id>, h: H)
    requires Counted(m, holder) && h in holder
    ensures holder[h] in m && m[holder[h]] >= 1 && m[holder[h]] == |HoldersOf(holder, holder[h])|
  {
    assert PointsAtLive(m, holder, h) && CountIs(m, holder, holder[h]);
  }

  lemma PutCounts<H>(m: Counts, holder: map<H, Id>, h: H)
    requires Counted(m, holder) && h in holder
    ensures holder[h] in m && Counted(Put(m, holder[h]), holder - {h})
  {
    HolderCounts(m, holder, h);
    var id, holder' := holder[h], holder - {h};
    var m' := Put(m, id);
    assert HoldersOf(holder', id) == HoldersOf(holder, id) - {h};
    assert CountIs(m, holder, id);
    forall j | j in m' ensures CountIs(m', holder', j) {
      if j != id {
        assert HoldersOf(holder', j) == HoldersOf(holder, j) && CountIs(m, holder, j);
      }
    }
    forall k | k in holder' ensures PointsAtLive(m', holder', k) {
      assert PointsAtLive(m, holder, k);
      assert holder'[k] == id ==> k in HoldersOf(holder', id);
    }
  }
}
