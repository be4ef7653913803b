/** Which hardware queue register each ring gets.  Pools of Q = 2^e registers lie one after
    the other in 2^(e + f) registers; the driver places k rings at the start of each pool and
    finds pool boundaries with masks. */
module RingMap {
  import opened Arith

  // ---- masks ----

  /** VMDq pool mask: 0x78, 0x7C or 0x7E for pools of 8, 4 or 2 of 128 registers. */
  function PoolMask(e: nat, f: nat): (m: nat)
    ensures m < Pow2(e + f)
  {
    Pow2Grows(e, f);
    Pow2(e + f) - Pow2(e)
  }

  lemma {:induction false} Pow2Grows(e: nat, f: nat)
    ensures Pow2(e) <= Pow2(e + f)
  {
    if f > 0 { Pow2Grows(e, f - 1); }
  }

  /** __ALIGN_MASK(x, ~m) with ~m a w-bit number. */
  function AlignMask(w: nat, m: nat, x: nat): nat
    requires m < Pow2(w)
  {
    And((x + Not(w, m)) % Pow2(w), m)
  }

  /** x & ~m */
  function InPool(w: nat, m: nat, x: nat): nat
    requires m < Pow2(w)
  {
    And(x, Not(w, m))
  }

  lemma MaskFits(w: nat, e: nat, f: nat)
    requires e + f <= w
    ensures PoolMask(e, f) < Pow2(e + f) <= Pow2(w)
  {
    Pow2Grows(e + f, w - e - f);
  }

  /** Below the last register the position in the pool is the remainder. */
  lemma InPoolIs(w: nat, e: nat, f: nat, m: nat, x: nat)
    requires e + f <= w && m == PoolMask(e, f) < Pow2(w) && x < Pow2(e + f)
    ensures InPool(w, m, x) == x % Pow2(e)
  {
    assert x < Pow2(w) by { MaskFits(w, e, f); }
    assert And(x, m) + InPool(w, m, x) == x by {
      AndNot(x, w, m);
      DivIs(x, Pow2(w), 0, x);
    }
    assert And(x, m) == x - x % Pow2(e) by {
      AndRun(x, e, f);
      DivIs(x, Pow2(e + f), 0, x);
    }
  }

  lemma AlignSum(all: nat, c: nat, t: nat, d: nat, q: nat, y: nat)
    requires q > 0 && d > 0 && c > 0 && all == t * c && t == q * d && y < t
    ensures var z := y + (all - t); 0 <= z < all && z % all == z && z % t == y && z % q == y % q
  {
    var z := y + t * (c - 1);
    assert t * (c - 1) == t * c - t;
    MulStep(t, c - 1, c);
    DivIs(z, all, 0, z);
    DivIs(z, t, c - 1, y);
    ModMod(z, q, d);
  }

  lemma AlignSumIs(w: nat, e: nat, f: nat, m: nat, x: nat) returns (z: nat)
    requires e + f <= w && m == PoolMask(e, f) < Pow2(w) && x + Pow2(e) - 1 < Pow2(e + f)
    ensures z == (x + Not(w, m)) % Pow2(w)
    ensures var y := x + Pow2(e) - 1; z % Pow2(e + f) == y && z % Pow2(e) == y % Pow2(e)
  {
    var all, c, t, d, q := Pow2(w), Pow2(w - e - f), Pow2(e + f), Pow2(f), Pow2(e);
    assert all == t * c by { Pow2Sum(e + f, w - e - f); }
    assert t == q * d by { Pow2Sum(e, f); }
    z := x + Not(w, m);
    AlignSum(all, c, t, d, q, x + q - 1);
  }

  /** Aligning gives the start of the next pool. */
  lemma AlignIs(w: nat, e: nat, f: nat, m: nat, p: nat, r: nat)
    requires e + f <= w && m == PoolMask(e, f) < Pow2(w) && 0 < r < Pow2(e)
    requires Pow2(e) * p + Pow2(e) < Pow2(e + f)
    ensures AlignMask(w, m, Pow2(e) * p + r) == Pow2(e) * p + Pow2(e)
  {
    var q, t := Pow2(e), Pow2(e + f);
    var x := q * p + r;
    NextBound(e, f, p);
    var z := AlignSumIs(w, e, f, m, x);
    AndRun(z, e, f);
    assert q * (p + 1) == q * p + q;
    DivIs(x + q - 1, q, p + 1, r - 1);
  }

  /** A pool that ends below the last register leaves room for the whole next one. */
  lemma NextBound(e: nat, f: nat, p: nat)
    requires Pow2(e) * p + Pow2(e) < Pow2(e + f)
    ensures Pow2(e) * p + 2 * Pow2(e) <= Pow2(e + f)
  {
    var q, d := Pow2(e), Pow2(f);
    Pow2Sum(e, f);
    assert q * (p + 1) == q * p + q;
    assert q * (p + 2) == q * p + 2 * q;
    if d <= p + 1 {
      if d < p + 1 { MulStep(q, d, p + 1); }
    } else if p + 2 < d {
      MulStep(q, p + 2, d);
    }
  }

  // ---- the VMDq loops ----

  /** The register of ring `i`, the loop starting at register `start` and applying `round`
      to the register it has reached. */
  function Reg(round: nat -> nat, start: nat, i: nat): nat {
    round(if i == 0 then start else Reg(round, start, i - 1) + 1)
  }

  /** Past `k` rings of a pool, move to the next pool. */
  function RxRound(w: nat, m: nat, k: nat): nat -> nat
    requires m < Pow2(w)
  {
    reg => if InPool(w, m, reg) >= k then AlignMask(w, m, reg) else reg
  }

  /** The Tx loop without DCB tests the RSS mask instead. */
  function TxRound(w: nat, m: nat, rss: nat, k: nat): nat -> nat
    requires m < Pow2(w)
  {
    reg => if And(reg, rss) >= k then AlignMask(w, m, reg) else reg
  }

  function Place(q: nat, a: nat, b: nat): nat {
    q * a + b
  }

  /** In pools of q of `size` registers, `round` leaves the first `k` places of a pool alone
      and takes the next to the start of the pool after. */
  ghost predicate Skips(round: nat -> nat, q: nat, k: nat, size: nat) {
    forall a: nat, b: nat | b <= k && Place(q, a, q) <= size && (b == k ==> Place(q, a, q) < size) ::
      round(Place(q, a, b)) == Place(q, a, if b < k then b else q)
  }

  lemma RoundIs(w: nat, e: nat, f: nat, m: nat, k: nat, a: nat, b: nat)
    requires e + f <= w && m == PoolMask(e, f) < Pow2(w) && 0 < k <= Pow2(e) && b <= k
    requires var end := Place(Pow2(e), a, Pow2(e)); end <= Pow2(e + f) && (b == k ==> end < Pow2(e + f))
    ensures var q := Pow2(e);
            && RxRound(w, m, k)(Place(q, a, b)) == Place(q, a, if b < k then b else q)
            && TxRound(w, m, q - 1, k)(Place(q, a, b)) == Place(q, a, if b < k then b else q)
  {
    var q, reg := Pow2(e), Place(Pow2(e), a, b);
    InPoolIs(w, e, f, m, reg);
    AndLowMask(reg, e);
    if b < q {
      DivIs(reg, q, a, b);
      if b == k { AlignIs(w, e, f, m, a, b); }
    } else {
      assert q * (a + 1) == q * a + q;
      DivIs(reg, q, a + 1, 0);
    }
  }

  /** Both loops do, for the masks of pools of 2^e. */
  lemma BothSkip(w: nat, e: nat, f: nat, m: nat, k: nat)
    requires e + f <= w && m == PoolMask(e, f) < Pow2(w) && 0 < k <= Pow2(e)
    ensures Skips(RxRound(w, m, k), Pow2(e), k, Pow2(e + f))
    ensures Skips(TxRound(w, m, Pow2(e) - 1, k), Pow2(e), k, Pow2(e + f))
  {
    forall a: nat, b: nat
      | b <= k && Place(Pow2(e), a, Pow2(e)) <= Pow2(e + f) && (b == k ==> Place(Pow2(e), a, Pow2(e)) < Pow2(e + f))
      ensures RxRound(w, m, k)(Place(Pow2(e), a, b)) == Place(Pow2(e), a, if b < k then b else Pow2(e))
      ensures TxRound(w, m, Pow2(e) - 1, k)(Place(Pow2(e), a, b)) == Place(Pow2(e), a, if b < k then b else Pow2(e))
    {
      RoundIs(w, e, f, m, k, a, b);
    }
  }

  lemma NextPool(q: nat, k: nat, a: nat, p: nat)
    requires p > 0 && a > 0
    ensures k * p == k * (p - 1) + k && Place(q, a, 0) == Place(q, a - 1, q)
  {
  }

  /** Such a loop places ring k * p + r at the r-th register of the p-th pool from `offset` on. */
  lemma {:induction false} RegIs(round: nat -> nat, q: nat, k: nat, size: nat, offset: nat, i: nat, p: nat, r: nat)
    requires Skips(round, q, k, size) && 0 < k <= q && r < k && i == k * p + r && Place(q, offset + p, q) <= size
    ensures Reg(round, q * offset, i) == Place(q, offset + p, r)
    decreases i
  {
    if r > 0 {
      RegIs(round, q, k, size, offset, i - 1, p, r - 1);
      assert round(Place(q, offset + p, r)) == Place(q, offset + p, r);
    } else if p > 0 {
      NextPool(q, k, offset + p, p);
      RegIs(round, q, k, size, offset, i - 1, p - 1, k - 1);
      assert round(Place(q, offset + p - 1, k)) == Place(q, offset + p - 1, q);
    } else {
      assert round(Place(q, offset, 0)) == Place(q, offset, 0);
    }
  }

  lemma SamePlace(q: nat, a: nat, b: nat, c: nat, d: nat)
    requires b < q && d < q && Place(q, a, b) == Place(q, c, d)
    ensures a == c && b == d
  {
    DivIs(Place(q, a, b), q, a, b);
    DivIs(Place(q, a, b), q, c, d);
  }

  /** The register a map gives ring `i`. */
  function Target(q: nat, k: nat, offset: nat, i: nat): nat
    requires k > 0
  {
    Place(q, offset + i / k, i % k)
  }

  lemma Split(k: nat, i: nat) returns (p: nat, r: nat)
    requires k > 0
    ensures p == i / k && r == i % k < k && i == k * p + r
  {
    p, r := i / k, i % k;
  }

  lemma TargetsDiffer(q: nat, k: nat, offset: nat, i: nat, j: nat)
    requires 0 < k <= q && i != j
    ensures Target(q, k, offset, i) != Target(q, k, offset, j)
  {
    var p, r := Split(k, i);
    var p', r' := Split(k, j);
    if Target(q, k, offset, i) == Target(q, k, offset, j) {
      SamePlace(q, offset + p, r, offset + p', r');
    }
  }

  /** With `pools` pools from `offset` on inside the registers, every ring of them gets its
      target, which is a register. */
  lemma TargetIs(round: nat -> nat, q: nat, k: nat, size: nat, offset: nat, pools: nat, i: nat)
    requires Skips(round, q, k, size) && 0 < k <= q && q * (offset + pools) <= size && i < k * pools
    ensures Reg(round, q * offset, i) == Target(q, k, offset, i) < size
  {
    var p, r := i / k, i % k;
    assert i == k * p + r;
    if pools < p { MulStep(k, pools, p); }
    assert Place(q, offset + p, q) <= size by { LastPool(q, offset, p, pools); }
    RegIs(round, q, k, size, offset, i, p, r);
  }

  lemma LastPool(q: nat, offset: nat, p: nat, pools: nat)
    requires p < pools
    ensures Place(q, offset + p, q) <= q * (offset + pools)
  {
    MulStep(q, offset + p, offset + pools);
  }

  // ---- queue sizing on 82599-class parts ----

  const REGS: nat := 128
  const INT_BITS: nat := 32

  /** Pools, rings in each, the VMDq and RSS masks and the pools' size. */
  datatype Sizing = Sizing(pools: nat, k: nat, mask: nat, rss: nat, q: nat)

  function Min(a: nat, b: nat): nat {
    if a < b then a else b
  }

  /** The pool count without the offset, as a 16-bit difference. */
  function Less(total: nat, offset: nat): nat {
    (total - offset) % 0x10000
  }

  /** ixgbe_set_vmdq_queues */
  function VmdqSizing(limit: nat, offset: nat, rssLimit: nat): Sizing {
    var total := Min(64, (limit + offset) % 0x10000);
    if total > 32 then Sizing(Less(total, offset), Min(rssLimit, 2), 0x7E, 1, 2)
    else Sizing(Less(total, offset), if rssLimit > 3 then 4 else if rssLimit > 1 then 2 else 1, 0x7C, 3, 4)
  }

  /** ixgbe_set_dcb_vmdq_queues */
  function DcbVmdqSizing(limit: nat, offset: nat, tcs: nat): Sizing {
    var total := (limit + offset) % 0x10000;
    if tcs > 4 then Sizing(Less(Min(total, 16), offset), tcs, 0x78, 0, 8)
    else Sizing(Less(Min(total, 32), offset), tcs, 0x7C, 0, 4)
  }

  /** What the maps need of the sizes. */
  predicate Fits(z: Sizing, offset: nat) {
    0 < z.k <= z.q && z.q * (offset + z.pools) <= REGS
    && (z.mask, z.q) in {(0x7E, 2), (0x7C, 4), (0x78, 8)}
  }

  lemma VmdqFits(limit: nat, offset: nat, rssLimit: nat)
    requires limit + offset < 0x10000 && offset <= 64 && rssLimit > 0
    ensures var z := VmdqSizing(limit, offset, rssLimit); Fits(z, offset) && z.rss == z.q - 1
  {
  }

  lemma DcbVmdqFits(limit: nat, offset: nat, tcs: nat)
    requires limit + offset < 0x10000 && 1 < tcs <= 8 && offset <= if tcs > 4 then 16 else 32
    ensures Fits(DcbVmdqSizing(limit, offset, tcs), offset)
  {
  }

  /** The pools are the most that the limit and the hardware's `max` leave room for. */
  predicate MostPools(pools: nat, limit: nat, offset: nat, max: nat) {
    pools <= limit && offset + pools <= max && (pools == limit || offset + pools == max)
  }

  /** The most rings of a pool that are a power of two, within the limit and the pool. */
  predicate MostRings(k: nat, rssLimit: nat, q: nat) {
    k in {1, 2, 4} && k <= rssLimit && k <= q && (2 * k > rssLimit || k == q)
  }

  /** Pools of two registers if more than half of the 64 pools are taken, else of four. */
  lemma VmdqMost(limit: nat, offset: nat, rssLimit: nat)
    requires limit + offset < 0x10000 && offset <= 64 && rssLimit > 0
    ensures var z := VmdqSizing(limit, offset, rssLimit);
            && MostPools(z.pools, limit, offset, 64) && MostRings(z.k, rssLimit, z.q)
            && z.q == if offset + z.pools > 32 then 2 else 4
  {
  }

  /** A ring for every class, in the smaller pools if they will do. */
  lemma DcbVmdqMost(limit: nat, offset: nat, tcs: nat)
    requires limit + offset < 0x10000 && 1 < tcs <= 8 && offset <= if tcs > 4 then 16 else 32
    ensures var z := DcbVmdqSizing(limit, offset, tcs);
            && z.k == tcs && z.q == (if tcs <= 4 then 4 else 8)
            && MostPools(z.pools, limit, offset, if tcs <= 4 then 32 else 16)
  {
  }

  /** The three masks are pool masks of 128 registers. */
  lemma SizeExponent(z: Sizing, offset: nat) returns (e: nat)
    requires Fits(z, offset)
    ensures e <= 7 && z.q == Pow2(e) && Pow2(7) == REGS && z.mask == REGS - z.q
  {
    e := if z.q == 2 then 1 else if z.q == 4 then 2 else 3;
    assert Pow2(1) == 2 && Pow2(2) == 4 && Pow2(3) == 8 && Pow2(7) == 128;
  }

  lemma MaskBelow(w: nat, z: Sizing, offset: nat)
    requires Fits(z, offset) && w >= 7
    ensures z.mask < Pow2(w)
  {
    var e := SizeExponent(z, offset);
    MaskFits(w, e, 7 - e);
  }

  lemma SizesSkip(w: nat, z: Sizing, offset: nat)
    requires Fits(z, offset) && w >= 7 && z.mask < Pow2(w)
    ensures Skips(RxRound(w, z.mask, z.k), z.q, z.k, REGS)
    ensures Skips(TxRound(w, z.mask, z.q - 1, z.k), z.q, z.k, REGS)
  {
    var e := SizeExponent(z, offset);
    BothSkip(w, e, 7 - e, z.mask, z.k);
  }

  /** The registers of the rings, whichever loop places them. */
  lemma RingsPlaced(w: nat, z: Sizing, offset: nat, i: nat)
    requires Fits(z, offset) && w >= 7 && i < z.k * z.pools && z.mask < Pow2(w)
    ensures Reg(RxRound(w, z.mask, z.k), z.q * offset, i) == Target(z.q, z.k, offset, i) < REGS
    ensures Reg(TxRound(w, z.mask, z.q - 1, z.k), z.q * offset, i) == Target(z.q, z.k, offset, i)
  {
    SizesSkip(w, z, offset);
    TargetIs(RxRound(w, z.mask, z.k), z.q, z.k, REGS, offset, z.pools, i);
    TargetIs(TxRound(w, z.mask, z.q - 1, z.k), z.q, z.k, REGS, offset, z.pools, i);
  }

  lemma AllPlaced(w: nat, z: Sizing, offset: nat)
    requires Fits(z, offset) && w >= 7 && z.mask < Pow2(w)
    ensures Along(RxRound(w, z.mask, z.k), z, offset) && Along(TxRound(w, z.mask, z.q - 1, z.k), z, offset)
  {
    forall i: nat | i < z.k * z.pools
      ensures Reg(RxRound(w, z.mask, z.k), z.q * offset, i) == Target(z.q, z.k, offset, i) < REGS
      ensures Reg(TxRound(w, z.mask, z.q - 1, z.k), z.q * offset, i) == Target(z.q, z.k, offset, i)
    {
      RingsPlaced(w, z, offset, i);
    }
  }

  /** The loop places every ring at its target, a register. */
  ghost predicate Along(round: nat -> nat, z: Sizing, offset: nat)
    requires z.k > 0
  {
    forall i: nat | i < z.k * z.pools :: Reg(round, z.q * offset, i) == Target(z.q, z.k, offset, i) < REGS
  }

  // ---- DCB without VMDq ----

  /** ixgbe_get_first_reg_idx */
  function FirstTx(tcs: nat, tc: nat): nat {
    if tcs > 4 then (if tc < 3 then tc * 32 else if tc < 5 then (tc + 2) * 16 else (tc + 8) * 8)
    else if tc < 2 then tc * 64 else (tc + 4) * 16
  }

  function FirstRx(tcs: nat, tc: nat): nat {
    if tcs > 4 then tc * 16 else tc * 32
  }

  /** The queues of each class, as the hardware divides its 128 among eight or four. */
  function TxQueues(tcs: nat): seq<nat> {
    if tcs > 4 then [32, 32, 16, 16, 8, 8, 8, 8] else [64, 32, 16, 16]
  }

  function RxQueues(tcs: nat): seq<nat> {
    if tcs > 4 then [16, 16, 16, 16, 16, 16, 16, 16] else [32, 32, 32, 32]
  }

  /** The blocks of classes start at 0, follow each other and end with the last register. */
  ghost predicate Tiles(first: nat -> nat, sizes: seq<nat>) {
    first(0) == 0 && forall tc: nat | tc < |sizes| ::
      first(tc) + sizes[tc] == if tc + 1 < |sizes| then first(tc + 1) else REGS
  }

  lemma ClassesTile(tcs: nat)
    ensures Tiles(tc => FirstTx(tcs, tc), TxQueues(tcs)) && Tiles(tc => FirstRx(tcs, tc), RxQueues(tcs))
  {
  }

  /** ixgbe_set_dcb_queues: the rings of each class. */
  function DcbRings(txQueues: nat, tcs: nat, limit: nat): nat
    requires tcs > 0
  {
    Min(Min(txQueues / tcs, if tcs > 4 then 8 else 16), limit)
  }

  /** They are the most that the device's queues, the hardware and the limit allow. */
  lemma DcbRingsMost(txQueues: nat, tcs: nat, limit: nat, rss: nat)
    requires tcs > 0
    ensures rss <= DcbRings(txQueues, tcs, limit)
       <==> rss * tcs <= txQueues && rss <= (if tcs > 4 then 8 else 16) && rss <= limit
  {
    var most := txQueues / tcs;
    assert txQueues == tcs * most + txQueues % tcs;
    if rss < most { MulStep(tcs, rss, most); }
    if most < rss { MulStep(tcs, most, rss); }
  }

  /** Rings of one class or of two never share a register, and every register exists. */
  lemma DcbDiffer(tcs: nat, rss: nat, tc: nat, i: nat, tc': nat, i': nat)
    requires 1 < tcs <= 8 && tc < tcs && tc' < tcs && !(tc == tc' && i == i')
    requires i < rss && i' < rss && rss <= if tcs > 4 then 8 else 16
    ensures FirstTx(tcs, tc) + i < REGS && FirstRx(tcs, tc) + i < REGS
    ensures FirstTx(tcs, tc) + i != FirstTx(tcs, tc') + i' && FirstRx(tcs, tc) + i != FirstRx(tcs, tc') + i'
  {
  }

  /** The registers of ring `n`, `rss` rings in each class. */
  function DcbTx(tcs: nat, rss: nat, n: nat): nat
    requires rss > 0
  {
    FirstTx(tcs, n / rss) + n % rss
  }

  function DcbRx(tcs: nat, rss: nat, n: nat): nat
    requires rss > 0
  {
    FirstRx(tcs, n / rss) + n % rss
  }

  lemma DcbInjective(txQueues: nat, tcs: nat, limit: nat, rss: nat, n: nat, n': nat)
    requires 1 < tcs <= 8 && rss == DcbRings(txQueues, tcs, limit) > 0
    requires n < rss * tcs && n' < rss * tcs && n != n'
    ensures DcbTx(tcs, rss, n) < REGS && DcbRx(tcs, rss, n) < REGS
    ensures DcbTx(tcs, rss, n) != DcbTx(tcs, rss, n') && DcbRx(tcs, rss, n) != DcbRx(tcs, rss, n')
  {
    var tc, i := ClassOf(rss, tcs, n);
    var tc', i' := ClassOf(rss, tcs, n');
    DcbDiffer(tcs, rss, tc, i, tc', i');
  }

  /** The registers of ring `i` of class `tc` lie in that class's blocks. */
  lemma DcbInBlock(txQueues: nat, tcs: nat, limit: nat, rss: nat, tc: nat, i: nat)
    requires 1 < tcs <= 8 && rss == DcbRings(txQueues, tcs, limit) && tc < tcs && i < rss
    ensures tcs <= |TxQueues(tcs)| == |RxQueues(tcs)|
    ensures DcbTx(tcs, rss, rss * tc + i) == FirstTx(tcs, tc) + i && i < TxQueues(tcs)[tc]
    ensures DcbRx(tcs, rss, rss * tc + i) == FirstRx(tcs, tc) + i && i < RxQueues(tcs)[tc]
  {
    DivIs(rss * tc + i, rss, tc, i);
    RingsFit(tcs, tc, i);
  }

  lemma RingsFit(tcs: nat, tc: nat, i: nat)
    requires 1 < tcs <= 8 && tc < tcs && i < if tcs > 4 then 8 else 16
    ensures tcs <= |TxQueues(tcs)| == |RxQueues(tcs)| && i < TxQueues(tcs)[tc] && i < RxQueues(tcs)[tc]
  {
  }

  lemma ClassOf(rss: nat, tcs: nat, n: nat) returns (tc: nat, i: nat)
    requires rss > 0 && n < rss * tcs
    ensures tc == n / rss && i == n % rss && tc < tcs && i < rss && n == rss * tc + i
  {
    tc, i := n / rss, n % rss;
    assert n == rss * tc + i;
    if tcs < tc { MulStep(rss, tcs, tc); }
  }

  // ---- the driver ----

  class Rings {
    const rx: array<nat>               // reg_idx of each Rx ring
    const tx: array<nat>
    const intBits: nat

    constructor (n: nat)
      ensures rx.Length == tx.Length == n && rx != tx && fresh(rx) && fresh(tx) && intBits == INT_BITS
    {
      rx, tx, intBits := new nat[n], new nat[n], INT_BITS;
    }

    static method Fill(regs: array<nat>, n: nat, round: nat -> nat, start: nat)
      requires n <= regs.Length
      modifies regs
      ensures forall i: nat | i < n :: regs[i] == Reg(round, start, i)
      ensures regs[n..] == old(regs[n..])
    {
      var i, reg := 0, start;
      while i < n
        invariant 0 <= i <= n
        invariant reg == if i == 0 then start else Reg(round, start, i - 1) + 1
        invariant forall j: nat | j < i :: regs[j] == Reg(round, start, j)
        invariant regs[n..] == old(regs[n..])
      {
        reg := round(reg);
        regs[i] := reg;
        i, reg := i + 1, reg + 1;
      }
    }

    /** ixgbe_cache_ring_vmdq and, with the Rx test in both loops, ixgbe_cache_ring_dcb_vmdq. */
    method CacheVmdq(z: Sizing, offset: nat, dcb: bool)
      requires Fits(z, offset) && (!dcb ==> z.rss == z.q - 1) && intBits >= 7
      requires rx != tx && z.k * z.pools <= rx.Length == tx.Length
      modifies rx, tx
      ensures forall i: nat | i < z.k * z.pools :: rx[i] == tx[i] == Target(z.q, z.k, offset, i) < REGS
      ensures rx[z.k * z.pools..] == old(rx[z.k * z.pools..]) && tx[z.k * z.pools..] == old(tx[z.k * z.pools..])
    {
      MaskBelow(intBits, z, offset);
      AllPlaced(intBits, z, offset);
      AlignOne(intBits, z, offset);
      var start := AlignMask(intBits, z.mask, 1) * offset;
      Fill(rx, z.k * z.pools, RxRound(intBits, z.mask, z.k), start);
      if dcb {
        Fill(tx, z.k * z.pools, RxRound(intBits, z.mask, z.k), start);
      } else {
        Fill(tx, z.k * z.pools, TxRound(intBits, z.mask, z.rss, z.k), start);
      }
    }

    /** ixgbe_cache_ring_dcb, the rings of one class. */
    method CacheClass(tcs: nat, tc: nat, rss: nat, offset: nat)
      requires rx != tx && offset + rss <= rx.Length == tx.Length
      modifies rx, tx
      ensures forall j | 0 <= j < rx.Length ::
                (rx[j], tx[j]) == if offset <= j < offset + rss
                                  then (FirstRx(tcs, tc) + (j - offset), FirstTx(tcs, tc) + (j - offset))
                                  else old((rx[j], tx[j]))
    {
      var txIdx, rxIdx := FirstTx(tcs, tc), FirstRx(tcs, tc);
      var i := 0;
      while i < rss
        invariant 0 <= i <= rss && txIdx == FirstTx(tcs, tc) + i && rxIdx == FirstRx(tcs, tc) + i
        invariant forall j | 0 <= j < rx.Length ::
                    (rx[j], tx[j]) == if offset <= j < offset + i
                                      then (FirstRx(tcs, tc) + (j - offset), FirstTx(tcs, tc) + (j - offset))
                                      else old((rx[j], tx[j]))
      {
        tx[offset + i] := txIdx;
        rx[offset + i] := rxIdx;
        i, txIdx, rxIdx := i + 1, txIdx + 1, rxIdx + 1;
      }
    }

    method CacheDcb(tcs: nat, rss: nat)
      requires rss > 0 && rx != tx && rss * tcs <= rx.Length == tx.Length
      modifies rx, tx
      ensures forall n: nat | n < rss * tcs :: rx[n] == DcbRx(tcs, rss, n) && tx[n] == DcbTx(tcs, rss, n)
    {
      var tc, offset := 0, 0;
      while tc < tcs
        invariant 0 <= tc <= tcs && offset == rss * tc
        invariant forall n: nat | n < offset :: rx[n] == DcbRx(tcs, rss, n) && tx[n] == DcbTx(tcs, rss, n)
      {
        MulStep(rss, tc, tcs);
        CacheClass(tcs, tc, rss, offset);
        forall n: nat | offset <= n < offset + rss ensures n / rss == tc && n % rss == n - offset {
          DivIs(n, rss, tc, n - offset);
        }
        tc, offset := tc + 1, offset + rss;
      }
    }
  }

  /** __ALIGN_MASK(1, ~mask) is the pool size. */
  lemma AlignOne(w: nat, z: Sizing, offset: nat)
    requires Fits(z, offset) && w >= 7 && z.mask < Pow2(w)
    ensures AlignMask(w, z.mask, 1) == z.q
  {
    var e := SizeExponent(z, offset);
    var f := 7 - e;
    assert e + f == 7 && z.mask == PoolMask(e, f);
    var x := Pow2(e) * 0;
    assert x == 0;
    AlignIs(w, e, f, z.mask, 0, 1);
  }
}
