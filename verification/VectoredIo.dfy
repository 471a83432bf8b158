/** do_loop_readv_writev in Kernel/fs/read_write.c: a vector of user buffers, transferred one segment
    at a time with the plain read or write operation of a file. */
module VectoredIo {
  import opened Errno

  /** A user buffer. */
  datatype Segment = Segment(base: nat, len: nat)

  /** The addresses of a buffer, in order. */
  function Addresses(base: nat, len: nat): (a: seq<nat>)
    ensures |a| == len && forall i :: 0 <= i < len ==> a[i] == base + i
  {
    seq(len, i requires i >= 0 => base + i)
  }

  /** The addresses of a whole vector, one buffer after the other. */
  ghost function Flat(segments: seq<Segment>): seq<nat> {
    if segments == [] then [] else Addresses(segments[0].base, segments[0].len) + Flat(segments[1..])
  }

  // ----- the iterator

  /** struct iov_iter over the segments not yet finished; offset counts into the first of them, and
      count is what is wanted of the rest, which may be less than there is. */
  datatype Iter = Iter(segments: seq<Segment>, offset: nat, count: nat) {
    ghost predicate Valid() {
      && offset + count <= |Flat(segments)|
      && (segments != [] ==> offset <= segments[0].len)
    }

    /** The addresses not yet transferred. */
    ghost function Remaining(): seq<nat>
      requires Valid()
    {
      Flat(segments)[offset..]
    }

    /** What is left of the first segment. */
    ghost function Here(): (len: nat)
      requires Valid() && count > 0
      ensures segments != [] && len == segments[0].len - offset
    {
      segments[0].len - offset
    }
  }

  function Least(a: nat, b: nat): nat {
    if a <= b then a else b
  }

  /** The position size bytes into the segments, past finished and empty ones. */
  function Skip(segments: seq<Segment>, size: nat): (seq<Segment>, nat) {
    if segments == [] || size < segments[0].len then (segments, size) else Skip(segments[1..], size - segments[0].len)
  }

  /** iov_iter_advance, never by more than count. */
  function Advanced(it: Iter, n: nat): Iter {
    if it.count == 0 then it
    else
      var m := Least(n, it.count);
      var (segments, offset) := Skip(it.segments, it.offset + m);
      Iter(segments, offset, it.count - m)
  }

  lemma {:induction false} SkipIs(segments: seq<Segment>, size: nat)
    requires size <= |Flat(segments)|
    ensures
      var (rest, offset) := Skip(segments, size);
      && |rest| <= |segments| && offset <= |Flat(rest)| && (rest != [] ==> offset < rest[0].len)
      && Flat(rest)[offset..] == Flat(segments)[size..]
      && (segments != [] && size >= segments[0].len ==> |rest| < |segments|)
    decreases |segments|
  {
    if segments != [] && size >= segments[0].len {
      SkipIs(segments[1..], size - segments[0].len);
    }
  }

  lemma AdvancedIs(it: Iter, n: nat)
    requires it.Valid()
    ensures
      var it', m := Advanced(it, n), Least(n, it.count);
      && it'.Valid() && it'.count == it.count - m && it'.Remaining() == it.Remaining()[m..]
      && |it'.segments| <= |it.segments|
      && (it.count > 0 && n >= it.Here() ==> |it'.segments| < |it.segments| || it'.count == 0)
  {
    if it.count > 0 {
      SkipIs(it.segments, it.offset + Least(n, it.count));
    }
  }

  // ----- the loop as a function

  /** The file operation: its answer to the k-th call for len bytes is the number of bytes it moved or
      a negative error. */
  type Operation = (nat, nat) -> int

  ghost predicate Bounded(op: Operation) {
    forall k: nat, len: nat :: op(k, len) <= len
  }

  /** The addresses transferred, the error that ended the loop (or zero), and the calls made. */
  datatype Outcome = Outcome(moved: seq<nat>, error: int, calls: seq<(nat, int)>)

  /** The bytes moved, or an error if there were none. */
  function Result(r: Outcome): int {
    if r.moved == [] then r.error else |r.moved|
  }

  ghost function Loop(it: Iter, op: Operation, k: nat): Outcome
    requires it.Valid() && Bounded(op)
    decreases |it.segments|, it.count
  {
    if it.count == 0 then Outcome([], 0, [])
    else
      var len := it.Here();
      var nr := op(k, len);
      if nr < 0 then Outcome([], nr, [(len, nr)])
      else
        var part := Addresses(it.segments[0].base + it.offset, nr);
        if nr != len then Outcome(part, 0, [(len, nr)])
        else
          AdvancedIs(it, nr);
          var rest := Loop(Advanced(it, nr), op, k + 1);
          Outcome(part + rest.moved, rest.error, [(len, nr)] + rest.calls)
  }

  /** One turn of the loop. */
  lemma LoopTurn(it: Iter, op: Operation, k: nat)
    requires it.Valid() && Bounded(op) && it.count > 0
    ensures
      var r, len, nr := Loop(it, op, k), it.Here(), op(k, it.Here());
      && (nr < 0 ==> r.moved == [] && r.error == nr)
      && (0 <= nr != len ==> r.moved == Addresses(it.segments[0].base + it.offset, nr) && r.error == 0)
      && (nr == len ==>
            && Advanced(it, nr).Valid()
            && Smaller(Advanced(it, nr), it)
            && r.moved == Addresses(it.segments[0].base + it.offset, nr) + Loop(Advanced(it, nr), op, k + 1).moved
            && r.error == Loop(Advanced(it, nr), op, k + 1).error)
  {
    AdvancedIs(it, it.Here());
  }

  // ----- what the loop does

  /** The first segment's unfinished part leads what remains. */
  lemma FirstSegment(it: Iter, n: nat)
    requires it.Valid() && it.count > 0 && n <= it.Here()
    ensures n <= |it.Remaining()| && it.Remaining()[..n] == Addresses(it.segments[0].base + it.offset, n)
  {
  }

  lemma PrefixJoins(all: seq<nat>, n: nat, rest: seq<nat>)
    requires n <= |all| && rest <= all[n..]
    ensures all[..n] + rest <= all
  {
  }

  /** Segments are transferred in order: what moved is a prefix of what there was. */
  lemma {:induction false} MovesPrefix(it: Iter, op: Operation, k: nat)
    requires it.Valid() && Bounded(op)
    ensures Loop(it, op, k).moved <= it.Remaining()
    decreases |it.segments|, it.count
  {
    if it.count > 0 && op(k, it.Here()) >= 0 {
      var nr := op(k, it.Here());
      FirstSegment(it, nr);
      if nr == it.Here() {
        AdvancedIs(it, nr);
        var next := Advanced(it, nr);
        MovesPrefix(next, op, k + 1);
        var rest := Loop(next, op, k + 1).moved;
        assert rest <= it.Remaining()[nr..] by {
          assert it.count < nr ==> rest == [];
        }
        PrefixJoins(it.Remaining(), nr, rest);
      }
    }
  }

  ghost predicate AllFull(calls: seq<(nat, int)>) {
    forall i :: 0 <= i < |calls| ==> calls[i].1 == calls[i].0
  }

  /** It gives up early only after a call that was short or failed, and every call before was full; an
      error is that of the last call. */
  lemma {:induction false} StopsOnlyWhenShort(it: Iter, op: Operation, k: nat)
    requires it.Valid() && Bounded(op)
    ensures
      var r := Loop(it, op, k);
      && (|r.moved| < it.count ==> r.calls != [] && r.calls[|r.calls| - 1].1 != r.calls[|r.calls| - 1].0)
      && (r.calls != [] ==> AllFull(r.calls[..|r.calls| - 1]))
      && (r.error != 0 ==> r.error < 0 && r.calls != [] && r.calls[|r.calls| - 1].1 == r.error)
    decreases |it.segments|, it.count
  {
    if it.count > 0 && op(k, it.Here()) == it.Here() {
      var nr := it.Here();
      AdvancedIs(it, nr);
      StopsOnlyWhenShort(Advanced(it, nr), op, k + 1);
      FullInFront(nr, Loop(Advanced(it, nr), op, k + 1).calls);
    }
  }

  lemma FullInFront(n: nat, rest: seq<(nat, int)>)
    ensures
      var calls := [(n, n as int)] + rest;
      && (rest != [] ==> calls[|calls| - 1] == rest[|rest| - 1])
      && (rest != [] && AllFull(rest[..|rest| - 1]) ==> AllFull(calls[..|calls| - 1]))
  {
    if rest != [] {
      var calls := [(n, n as int)] + rest;
      assert calls[..|calls| - 1] == [(n, n as int)] + rest[..|rest| - 1];
    }
  }

  // ----- when it keeps to count

  /** A number of bytes that ends where a segment ends. */
  ghost predicate EndsSegment(segments: seq<Segment>, n: int) {
    n == 0 || (segments != [] && n >= segments[0].len && EndsSegment(segments[1..], n - segments[0].len))
  }

  lemma {:induction false} SkipKeepsEnds(segments: seq<Segment>, size: nat, count: nat)
    ensures
      var (rest, offset) := Skip(segments, size);
      EndsSegment(rest, offset + count) <==> EndsSegment(segments, size + count)
    decreases |segments|
  {
    if segments != [] && size >= segments[0].len {
      SkipKeepsEnds(segments[1..], size - segments[0].len, count);
    }
  }

  lemma {:induction false} KeepsToCount(it: Iter, op: Operation, k: nat)
    requires it.Valid() && Bounded(op) && EndsSegment(it.segments, it.offset + it.count)
    ensures |Loop(it, op, k).moved| <= it.count
    decreases |it.segments|, it.count
  {
    if it.count > 0 && op(k, it.Here()) == it.Here() {
      AdvancedIs(it, it.Here());
      SkipKeepsEnds(it.segments, it.offset + it.Here(), it.count - it.Here());
      KeepsToCount(Advanced(it, it.Here()), op, k + 1);
    }
  }

  /** The operation that always moves everything. */
  const FULL: Operation := (k: nat, len: nat) => len

  lemma {:induction false} Overshoots(it: Iter, k: nat)
    requires it.Valid() && it.count > 0 && !EndsSegment(it.segments, it.offset + it.count)
    ensures |Loop(it, FULL, k).moved| > it.count
    decreases |it.segments|, it.count
  {
    if it.Here() < it.count {
      AdvancedIs(it, it.Here());
      SkipKeepsEnds(it.segments, it.offset + it.Here(), it.count - it.Here());
      Overshoots(Advanced(it, it.Here()), k + 1);
    }
  }

  /** Whole segments are handed to the file operation, so the loop keeps to count whatever the operation
      does if and only if count ends where a segment ends. */
  lemma KeepsToCountExactly(it: Iter)
    requires it.Valid() && it.count > 0
    ensures (forall op: Operation :: Bounded(op) ==> |Loop(it, op, 0).moved| <= it.count) <==>
            EndsSegment(it.segments, it.offset + it.count)
  {
    if EndsSegment(it.segments, it.offset + it.count) {
      forall op: Operation | Bounded(op) ensures |Loop(it, op, 0).moved| <= it.count {
        KeepsToCount(it, op, 0);
      }
    } else {
      assert Bounded(FULL);
      Overshoots(it, 0);
    }
  }

  /** A count that is all of the vector, as import_iovec makes it, always ends where a segment ends. */
  lemma {:induction false} WholeVectorEnds(segments: seq<Segment>)
    ensures EndsSegment(segments, |Flat(segments)|)
    decreases |segments|
  {
    if segments != [] {
      WholeVectorEnds(segments[1..]);
    }
  }

  lemma WholeVectorIsKeptTo(it: Iter, op: Operation)
    requires it.Valid() && Bounded(op) && it.offset + it.count == |Flat(it.segments)|
    ensures |Loop(it, op, 0).moved| <= it.count
  {
    WholeVectorEnds(it.segments);
    KeepsToCount(it, op, 0);
  }

  /** Four bytes wanted of a segment of ten: ten are moved. */
  lemma TruncatedOvershoots()
    ensures
      var it := Iter([Segment(0, 10)], 0, 4);
      it.Valid() && Bounded(FULL) && |Loop(it, FULL, 0).moved| > 4
  {
    assert Flat([Segment(0, 10)]) == Addresses(0, 10) + Flat([]);
    Overshoots(Iter([Segment(0, 10)], 0, 4), 0);
  }

  /** The loop has moved so much and goes on from here to the goal. */
  ghost predicate OnTheWay(goal: Outcome, moved: seq<nat>, it: Iter, op: Operation, k: nat) {
    it.Valid() && Bounded(op) && goal.moved == moved + Loop(it, op, k).moved && goal.error == Loop(it, op, k).error
  }

  lemma NextTurn(goal: Outcome, moved: seq<nat>, it: Iter, op: Operation, k: nat)
    requires OnTheWay(goal, moved, it, op, k)
    ensures it.count == 0 ==> goal.moved == moved && goal.error == 0
    ensures it.count > 0 ==>
              var len, nr := it.Here(), op(k, it.Here());
              && (nr < 0 ==> goal.moved == moved && goal.error == nr)
              && (nr >= 0 ==>
                    var part := Addresses(it.segments[0].base + it.offset, nr);
                    && (nr != len ==> goal.moved == moved + part && goal.error == 0)
                    && (nr == len ==>
                          && OnTheWay(goal, moved + part, Advanced(it, nr), op, k + 1)
                          && Smaller(Advanced(it, nr), it)))
  {
    if it.count > 0 {
      LoopTurn(it, op, k);
      if op(k, it.Here()) == it.Here() {
        var nr := it.Here();
        var part := Addresses(it.segments[0].base + it.offset, nr);
        assert moved + (part + Loop(Advanced(it, nr), op, k + 1).moved) ==
               (moved + part) + Loop(Advanced(it, nr), op, k + 1).moved;
      }
    }
  }

  /** Nearer to the end. */
  ghost predicate Smaller(a: Iter, b: Iter) {
    |a.segments| < |b.segments| || (|a.segments| == |b.segments| && a.count < b.count)
  }

  // ----- the code

  class IovIter {
    var segments: seq<Segment>
    var offset: nat
    var count: nat

    ghost function Value(): Iter
      reads this
    {
      Iter(segments, offset, count)
    }

    method Advance(n: nat)
      modifies this
      ensures Value() == Advanced(old(Value()), n)
    {
      if count == 0 {
        return;
      }
      ghost var before := Value();
      var m := Least(n, count);
      count := count - m;
      var size: nat := m + offset;
      while segments != []
        invariant count == before.count - m && Skip(segments, size) == Skip(before.segments, before.offset + m)
        decreases |segments|
      {
        if size < segments[0].len {
          break;
        }
        size := size - segments[0].len;
        segments := segments[1..];
      }
      offset := size;
    }

    /** One turn: the call, and the advance if it was full. */
    method Turn(op: Operation, k: nat, ghost goal: Outcome, ghost sofar: seq<nat>)
      returns (len: nat, nr: int, part: seq<nat>)
      requires count > 0 && OnTheWay(goal, sofar, Value(), op, k)
      modifies this
      ensures |part| == if nr < 0 then 0 else nr
      ensures nr < 0 ==> goal.moved == sofar && goal.error == nr
      ensures 0 <= nr != len ==> goal.moved == sofar + part && goal.error == 0
      ensures nr == len ==> OnTheWay(goal, sofar + part, Value(), op, k + 1) && Smaller(Value(), old(Value()))
    {
      NextTurn(goal, sofar, Value(), op, k);
      var base := segments[0].base + offset;
      len := segments[0].len - offset;
      nr := op(k, len);
      part := [];
      if nr >= 0 {
        part := Addresses(base, nr);
        if nr == len {
          Advance(nr);
        }
      }
    }

    /** do_loop_readv_writev. */
    method DoLoopReadvWritev(op: Operation, badFlags: bool) returns (ret: int, moved: seq<nat>)
      requires Value().Valid() && Bounded(op)
      modifies this
      ensures badFlags ==> ret == -EOPNOTSUPP && moved == [] && Value() == old(Value())
      ensures !badFlags ==>
                var r := Loop(old(Value()), op, 0);
                moved == r.moved && ret == Result(r)
      ensures !badFlags ==> (ret < 0 ==> moved == []) && (ret >= 0 ==> ret == |moved|)
    {
      ret, moved := 0, [];
      if badFlags {
        return -EOPNOTSUPP, [];
      }
      ghost var it := Value();
      ghost var goal := Loop(it, op, 0);
      var k := 0;
      while count > 0
        invariant ret == |moved| && it == Value() && OnTheWay(goal, moved, it, op, k)
        decreases |it.segments|, it.count
      {
        var len, nr, part := Turn(op, k, goal, moved);
        if nr < 0 {
          if ret == 0 {
            ret := nr;
          }
          return;
        }
        ret := ret + nr;
        moved := moved + part;
        if nr != len {
          return;
        }
        it, k := Value(), k + 1;
      }
      NextTurn(goal, moved, it, op, k);
    }
  }
}
