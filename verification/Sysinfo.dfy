/** Scaling of the memory counters: do_sysinfo and the compat sysinfo call in Kernel/kernel/sys.c.
    unsigned long is 64 bits wide, the compat fields are 32 bits wide. */
module Sysinfo {

  const W64 := 0x1_0000_0000_0000_0000
  const W32 := 0x1_0000_0000
  const PAGE_SIZE := 4096

  /** The counters of struct sysinfo, in units of mem_unit bytes. */
  datatype Counters = Counters(
    totalram: nat, freeram: nat, sharedram: nat, bufferram: nat,
    totalswap: nat, freeswap: nat, totalhigh: nat, freehigh: nat)
  {
    /** The same operation on every counter. */
    function Each(f: nat -> nat): Counters {
      Counters(f(totalram), f(freeram), f(sharedram), f(bufferram), f(totalswap), f(freeswap), f(totalhigh), f(freehigh))
    }

    /** Every counter holds at most n. */
    predicate AtMost(n: int) {
      && totalram <= n && freeram <= n && sharedram <= n && bufferram <= n
      && totalswap <= n && freeswap <= n && totalhigh <= n && freehigh <= n
    }

    /** No part is larger than its total. */
    predicate Consistent() {
      && freeram <= totalram && sharedram <= totalram && bufferram <= totalram
      && totalhigh <= totalram && freehigh <= totalram && freeswap <= totalswap
    }
  }

  datatype Info = Info(memUnit: nat, c: Counters)

  function Pow2(n: nat): (p: nat)
    ensures p >= 1
  {
    if n == 0 then 1 else 2 * Pow2(n - 1)
  }

  /** The number of times a unit can be halved before it reaches one. */
  function Log2(unit: nat): nat {
    if unit <= 1 then 0 else 1 + Log2(unit / 2)
  }

  ghost predicate IsPow2(unit: nat) {
    exists n: nat :: unit == Pow2(n)
  }

  /** A left shift in 64 bits. */
  function Shl(x: nat, n: nat): nat {
    x * Pow2(n) % W64
  }

  function Quotient(x: nat, p: nat): nat
    requires p >= 1
  {
    x / p
  }

  function Shr(x: nat, n: nat): nat {
    Quotient(x, Pow2(n))
  }

  lemma {:induction false} Pow2Adds(a: nat, b: nat)
    ensures Pow2(a + b) == Pow2(a) * Pow2(b)
  {
    if a > 0 {
      Pow2Adds(a - 1, b);
      assert a + b - 1 == (a - 1) + b;
      assert 2 * (Pow2(a - 1) * Pow2(b)) == (2 * Pow2(a - 1)) * Pow2(b);
    }
  }

  lemma {:induction false} Log2OfPow2(n: nat)
    ensures Log2(Pow2(n)) == n
  {
    if n > 0 {
      Log2OfPow2(n - 1);
      assert Pow2(n) / 2 == Pow2(n - 1);
    }
  }

  /** Rounding down to a power of two loses something unless the unit is one. */
  lemma {:induction false} Log2Rounds(unit: nat)
    requires unit >= 1
    ensures Pow2(Log2(unit)) <= unit
    ensures Pow2(Log2(unit)) == unit <==> IsPow2(unit)
  {
    if unit > 1 {
      Log2Rounds(unit / 2);
    }
    if n: nat :| unit == Pow2(n) {
      Log2OfPow2(n);
    }
  }

  lemma Larger(x: nat, a: nat, b: nat)
    requires a <= b
    ensures x * a <= x * b && a * x <= b * x
  {}

  // ----- scaling up

  /** All the memory there is, in bytes, fits the counters. */
  predicate Fits(info: Info) {
    (info.c.totalram + info.c.totalswap) * Pow2(Log2(info.memUnit)) < W64
  }

  lemma Doubles(total: nat, n: nat)
    ensures total * Pow2(n + 1) == 2 * (total * Pow2(n))
  {
    assert total * (2 * Pow2(n)) == 2 * (total * Pow2(n));
  }

  /** Once it does not fit it never fits again. */
  lemma KeepsOverflowing(total: nat, n: nat, m: nat)
    requires n <= m && total * Pow2(n) >= W64
    ensures total * Pow2(m) >= W64
  {
    Pow2Adds(n, m - n);
    Larger(Pow2(n), 1, Pow2(m - n));
    Larger(total, Pow2(n), Pow2(m));
  }

  /** A doubled number that became smaller has overflowed, and only such a number. */
  lemma DoublingWraps(x: nat)
    requires x < W64
    ensures x * 2 % W64 < x <==> x * 2 >= W64
    ensures x * 2 < W64 ==> x * 2 % W64 == x * 2
  {}

  /** The same of a sum. */
  lemma SumWraps(x: nat, y: nat)
    requires x < W64 && y < W64
    ensures (x + y) % W64 < x || (x + y) % W64 < y <==> x + y >= W64
    ensures x + y < W64 ==> (x + y) % W64 == x + y
  {}

  /** The loop of do_sysinfo: a doubled total that became smaller has overflowed. */
  method CountShifts(total: nat, unit: nat) returns (ok: bool, bitcount: nat)
    requires total < W64
    ensures ok <==> total * Pow2(Log2(unit)) < W64
    ensures ok ==> bitcount == Log2(unit)
  {
    var memTotal, memUnit := total, unit;
    bitcount := 0;
    while memUnit > 1
      invariant memTotal == total * Pow2(bitcount) < W64
      invariant Log2(unit) == bitcount + Log2(memUnit)
    {
      Doubles(total, bitcount);
      bitcount := bitcount + 1;
      memUnit := memUnit / 2;
      var savTotal := memTotal;
      DoublingWraps(savTotal);
      memTotal := savTotal * 2 % W64;
      if memTotal < savTotal {
        KeepsOverflowing(total, bitcount, Log2(unit));
        return false, bitcount;
      }
    }
    return true, bitcount;
  }

  method DoSysinfo(info: Info) returns (r: Info)
    requires info.c.AtMost(W64 - 1)
    ensures r == if Fits(info) then Info(1, info.c.Each(x => Shl(x, Log2(info.memUnit)))) else info
    ensures IsPow2(info.memUnit) && info.c.Consistent() ==> SameBytes(info, r)
  {
    var memTotal := (info.c.totalram + info.c.totalswap) % W64;
    SumWraps(info.c.totalram, info.c.totalswap);
    if memTotal < info.c.totalram || memTotal < info.c.totalswap {
      KeepsOverflowing(info.c.totalram + info.c.totalswap, 0, Log2(info.memUnit));
      return info;
    }
    var ok, bitcount := CountShifts(memTotal, info.memUnit);
    if !ok {
      return info;
    }
    r := Info(1, info.c.Each(x => Shl(x, bitcount)));
    if IsPow2(info.memUnit) && info.c.Consistent() {
      ScaledSameBytes(info);
    }
  }

  /** Every counter stands for as many bytes as before. */
  ghost predicate SameBytes(a: Info, b: Info) {
    && b.c.totalram * b.memUnit == a.c.totalram * a.memUnit && b.c.freeram * b.memUnit == a.c.freeram * a.memUnit
    && b.c.sharedram * b.memUnit == a.c.sharedram * a.memUnit && b.c.bufferram * b.memUnit == a.c.bufferram * a.memUnit
    && b.c.totalswap * b.memUnit == a.c.totalswap * a.memUnit && b.c.freeswap * b.memUnit == a.c.freeswap * a.memUnit
    && b.c.totalhigh * b.memUnit == a.c.totalhigh * a.memUnit && b.c.freehigh * b.memUnit == a.c.freehigh * a.memUnit
  }

  lemma ScaledSameBytes(info: Info)
    requires Fits(info) && IsPow2(info.memUnit) && info.c.Consistent()
    ensures SameBytes(info, Info(1, info.c.Each(x => Shl(x, Log2(info.memUnit)))))
  {
    var n: nat :| info.memUnit == Pow2(n);
    ScalingIsExact(info, info.c.totalram);
    ScalingIsExact(info, info.c.freeram);
    ScalingIsExact(info, info.c.sharedram);
    ScalingIsExact(info, info.c.bufferram);
    ScalingIsExact(info, info.c.totalswap);
    ScalingIsExact(info, info.c.freeswap);
    ScalingIsExact(info, info.c.totalhigh);
    ScalingIsExact(info, info.c.freehigh);
  }

  /** For a unit that is a power of two, giving up means exactly that the memory in bytes does not fit
      in 64 bits. */
  lemma GivesUpOnlyOnOverflow(info: Info)
    requires IsPow2(info.memUnit)
    ensures Fits(info) <==> (info.c.totalram + info.c.totalswap) * info.memUnit < W64
  {
    var n: nat :| info.memUnit == Pow2(n);
    Log2OfPow2(n);
  }

  /** A scaled counter times the new unit is the old counter times the old unit: for a power of two
      always, for any other unit only if the counter is zero. */
  lemma ScalingIsExact(info: Info, x: nat)
    requires Fits(info) && info.memUnit >= 1 && x <= info.c.totalram + info.c.totalswap
    ensures Shl(x, Log2(info.memUnit)) == x * info.memUnit <==> IsPow2(info.memUnit) || x == 0
  {
    var p := Pow2(Log2(info.memUnit));
    NoWrap(x, info.c.totalram + info.c.totalswap, p);
    Log2Rounds(info.memUnit);
    if p < info.memUnit && x > 0 {
      StrictlyLarger(x, p, info.memUnit);
    }
  }

  lemma StrictlyLarger(x: nat, a: nat, b: nat)
    requires x > 0 && a < b
    ensures x * a < x * b
  {
    Larger(x, a + 1, b);
    assert x * (a + 1) == x * a + x;
  }

  lemma NoWrap(x: nat, bound: nat, p: nat)
    requires x <= bound && bound * p < W64
    ensures x * p % W64 == x * p <= bound * p
  {
    Larger(p, x, bound);
  }

  // ----- scaling down for 32-bit callers

  /** Doubling a power of two below the page size until it is not below ends at the page size. */
  method ShiftsToPage(unit: nat, ghost e: nat) returns (bitcount: nat, memUnit: nat)
    requires unit == Pow2(e)
    ensures memUnit == if unit < PAGE_SIZE then PAGE_SIZE else unit
    ensures bitcount == if e < 12 then 12 - e else 0
  {
    bitcount, memUnit := 0, unit;
    PageSizeIs();
    Pow2Grows(e, 12);
    while memUnit < PAGE_SIZE
      invariant memUnit == Pow2(e + bitcount)
      invariant if e < 12 then e + bitcount <= 12 else bitcount == 0
      decreases 12 - (e + bitcount)
    {
      Pow2Grows(e + bitcount, 12);
      memUnit := memUnit * 2;
      bitcount := bitcount + 1;
    }
    Pow2Grows(e + bitcount, 12);
  }

  /** The compat call on what do_sysinfo returned: the counters before and after they are copied into
      32-bit fields. */
  method CompatSysinfo(s: Info, ghost e: nat) returns (wide: Info, narrow: Info)
    requires s.memUnit == Pow2(e)
    ensures
      if s.c.totalram >= W32 || s.c.totalswap >= W32
      then wide == Info(if s.memUnit < PAGE_SIZE then PAGE_SIZE else s.memUnit,
                        s.c.Each(x => Shr(x, if e < 12 then 12 - e else 0)))
      else wide == s
    ensures narrow == Info(wide.memUnit, wide.c.Each(x => x % W32))
  {
    wide := s;
    if s.c.totalram / W32 != 0 || s.c.totalswap / W32 != 0 {
      var bitcount, memUnit := ShiftsToPage(s.memUnit, e);
      wide := Info(memUnit, s.c.Each(x => Shr(x, bitcount)));
    }
    narrow := Info(wide.memUnit, wide.c.Each(x => x % W32));
  }

  lemma UpAndDown(x: nat, bound: nat)
    requires x <= bound && bound * PAGE_SIZE < W64
    ensures Shl(x, 12) == x * PAGE_SIZE && Shr(Shl(x, 12), 12) == x
  {
    PageSizeIs();
    NoWrap(x, bound, PAGE_SIZE);
  }

  /** do_sysinfo on page counts: bytes if they fit, pages otherwise. */
  method SysinfoOfPages(pages: Counters) returns (s: Info)
    requires pages.AtMost(W64 - 1) && pages.Consistent()
    ensures s == if (pages.totalram + pages.totalswap) * PAGE_SIZE < W64
                 then Info(1, pages.Each(x => x * PAGE_SIZE)) else Info(PAGE_SIZE, pages)
  {
    PageSizeIs();
    Log2OfPow2(12);
    s := DoSysinfo(Info(PAGE_SIZE, pages));
    if (pages.totalram + pages.totalswap) * PAGE_SIZE < W64 {
      AllUpAndDown(pages, pages.totalram + pages.totalswap);
    }
  }

  /** From page counts to 32-bit fields: either the fields hold exact bytes, or the scale-down has
      recovered exactly the page counts, and then a field is right if and only if the count fits. */
  method SysinfoForCompat(pages: Counters) returns (out: Info)
    requires pages.AtMost(W64 - 1) && pages.Consistent()
    ensures out.memUnit == 1 || out.memUnit == PAGE_SIZE
    ensures out.memUnit == 1 <==> pages.totalram * PAGE_SIZE < W32 && pages.totalswap * PAGE_SIZE < W32
    ensures out.memUnit == 1 ==> out.c == pages.Each(x => x * PAGE_SIZE)
    ensures out.memUnit == PAGE_SIZE ==> out.c == pages.Each(x => x % W32)
  {
    var s := SysinfoOfPages(pages);
    var wide;
    if s.memUnit == 1 {
      wide, out := CompatSysinfo(s, 0);
      AllUpAndDown(pages, pages.totalram + pages.totalswap);
      if s.c.totalram < W32 && s.c.totalswap < W32 {
        AllNarrow(pages);
        return;
      }
      assert wide == Info(PAGE_SIZE, pages);
    } else {
      PageSizeIs();
      wide, out := CompatSysinfo(s, 12);
      assert wide == Info(PAGE_SIZE, pages);
    }
  }

  /** In bytes, the fields stand for the memory there is: as byte counts, ... */
  lemma BytesSameBytes(pages: Counters)
    ensures SameBytes(Info(PAGE_SIZE, pages), Info(1, pages.Each(x => x * PAGE_SIZE)))
  {
  }

  /** ... and as page counts that need no more than 32 bits. */
  lemma PagesSameBytes(pages: Counters)
    requires pages.AtMost(W32 - 1)
    ensures pages.Each(x => x % W32) == pages
  {
  }

  /** If the totals fit in 32 bits then so do their parts. */
  lemma AllNarrow(pages: Counters)
    requires pages.Consistent() && pages.totalram * PAGE_SIZE < W32 && pages.totalswap * PAGE_SIZE < W32
    ensures pages.Each(x => x * PAGE_SIZE).Each(x => x % W32) == pages.Each(x => x * PAGE_SIZE)
  {}

  lemma AllUpAndDown(pages: Counters, bound: nat)
    requires pages.AtMost(bound) && bound * PAGE_SIZE < W64
    ensures pages.Each(x => Shl(x, 12)) == pages.Each(x => x * PAGE_SIZE)
    ensures pages.Each(x => x * PAGE_SIZE).Each(x => Shr(x, 12)) == pages
  {
    UpAndDown(pages.totalram, bound);
    UpAndDown(pages.freeram, bound);
    UpAndDown(pages.sharedram, bound);
    UpAndDown(pages.bufferram, bound);
    UpAndDown(pages.totalswap, bound);
    UpAndDown(pages.freeswap, bound);
    UpAndDown(pages.totalhigh, bound);
    UpAndDown(pages.freehigh, bound);
  }

  lemma PageSizeIs()
    ensures Pow2(12) == PAGE_SIZE
  {
    assert Pow2(4) == 16;
    assert Pow2(8) == 256;
  }

  lemma {:induction false} Pow2Grows(a: nat, b: nat)
    ensures a < b ==> Pow2(a) < Pow2(b)
    ensures a >= b ==> Pow2(a) >= Pow2(b)
    ensures Pow2(a) < Pow2(b) <==> a < b
  {
    if a < b {
      Pow2Adds(a, b - a - 1);
      Larger(Pow2(a), 1, Pow2(b - a - 1));
    } else {
      Pow2Adds(b, a - b);
      Larger(Pow2(b), 1, Pow2(a - b));
    }
  }
}
