/** Interrupt vectors and the rings dealt to them.  A ring and a vector never
    change after they are built, so their fields are constants; the adapter's
    four pointer arrays and its counts are what the driver updates.  A vector's
    rings are a linked list through `next`, newest first. */
module QVectors {
  import opened Arith

  class Ring {
    const queueIndex: nat
    const xdp: bool
    const vector: nat      // index of the vector it belongs to
    const next: Ring?

    constructor (queueIndex: nat, xdp: bool, vector: nat, next: Ring?)
      ensures this.queueIndex == queueIndex && this.xdp == xdp && this.vector == vector && this.next == next
    {
      this.queueIndex, this.xdp, this.vector, this.next := queueIndex, xdp, vector, next;
    }
  }

  /** `head` starts a list through exactly the rings `rings`. */
  ghost predicate Linked(head: Ring?, rings: seq<Ring>) {
    if rings == [] then head == null
    else head == rings[0] && Linked(rings[0].next, rings[1..])
  }

  class QVector {
    const vIdx: nat
    const tx: Ring?
    const rx: Ring?
    ghost const txRings: seq<Ring>
    ghost const rxRings: seq<Ring>

    constructor (vIdx: nat, tx: Ring?, rx: Ring?, ghost txRings: seq<Ring>, ghost rxRings: seq<Ring>)
      ensures this.vIdx == vIdx && this.tx == tx && this.rx == rx
      ensures this.txRings == txRings && this.rxRings == rxRings
    {
      this.vIdx, this.tx, this.rx, this.txRings, this.rxRings := vIdx, tx, rx, txRings, rxRings;
    }
  }

  // ---- how many rings a vector gets ----

  /** DIV_ROUND_UP */
  function CeilDiv(a: nat, b: nat): nat
    requires b > 0
  {
    (a + b - 1) / b
  }

  /** With a = q * b + e and 0 <= e <= b, the ceiling of a / b is q, plus one if e > 0. */
  lemma CeilShape(q: nat, b: nat, e: nat)
    requires b > 0 && e <= b
    ensures CeilDiv(b * q + e, b) == q + if e > 0 then 1 else 0
  {
    var x := b * q + e + b - 1;
    if e > 0 { DivIs(x, b, q + 1, e - 1); } else { DivIs(x, b, q, b - 1); }
  }

  lemma CeilFits(a: nat, b: nat)
    requires b > 0
    ensures CeilDiv(a, b) <= a
  {
    var q, e := a / b, a % b;
    assert a == b * q + e;
    CeilShape(q, b, e);
    if q > 0 { MulStep(q, 0, b); }
  }

  /** Rings left after `u` of `m` vectors took their ceiling share of `n`. */
  function Left(n: nat, m: nat, u: nat): (left: nat)
    requires u <= m
  {
    if u == 0 then n
    else
      var l := Left(n, m, u - 1);
      CeilFits(l, m - u + 1);
      l - CeilDiv(l, m - u + 1)
  }

  /** What the next vector takes. */
  function Share(n: nat, m: nat, u: nat): nat
    requires u < m
  {
    CeilDiv(Left(n, m, u), m - u)
  }

  function Excess(r: nat, u: nat): nat {
    if u < r then r - u else 0
  }

  /** The shares differ by at most one, larger ones first. */
  lemma {:induction false} LeftIs(n: nat, m: nat, u: nat, q: nat, r: nat)
    requires u <= m && n == m * q + r && r < m
    ensures Left(n, m, u) == (m - u) * q + Excess(r, u)
  {
    if u > 0 {
      LeftIs(n, m, u - 1, q, r);
      LeftStep(q, m - u + 1, Excess(r, u - 1));
    }
  }

  lemma LeftStep(q: nat, b: nat, e: nat)
    requires b > 0 && e <= b
    ensures b * q + e - CeilDiv(b * q + e, b) == (b - 1) * q + if e > 0 then e - 1 else 0
  {
    CeilShape(q, b, e);
    assert b * q == (b - 1) * q + q;
  }

  lemma ShareIs(n: nat, m: nat, u: nat)
    requires u < m
    ensures Share(n, m, u) == n / m + if u < n % m then 1 else 0
  {
    LeftIs(n, m, u, n / m, n % m);
    CeilShape(n / m, m - u, Excess(n % m, u));
  }

  /** The indices idx, idx + stride, ..., `count` of them. */
  function Strided(idx: nat, count: nat, stride: nat): set<nat>
    decreases count
  {
    if count == 0 then {} else {idx} + Strided(idx + stride, count - 1, stride)
  }

  lemma {:induction false} StridedFrom(r: nat, k: nat, count: nat, stride: nat, i: nat)
    requires r < stride
    ensures i in Strided(stride * k + r, count, stride) <==> i % stride == r && k <= i / stride < k + count
    decreases count
  {
    if count > 0 {
      StridedFrom(r, k + 1, count - 1, stride, i);
      assert stride * (k + 1) == stride * k + stride;
      DivIs(stride * k + r, stride, k, r);
      if i / stride == k { OneQuotient(i, stride, k); }
    }
  }

  lemma OneQuotient(i: nat, b: nat, q: nat)
    requires b > 0 && i / b == q
    ensures i == b * q + i % b
  {
  }

  lemma StridedIff(idx: nat, count: nat, stride: nat, i: nat)
    requires idx < stride
    ensures i in Strided(idx, count, stride) <==> i % stride == idx && i / stride < count
  {
    StridedFrom(idx, 0, count, stride, i);
  }

  /** Vector `u` of `m` sharing `n` rings with stride `m` gets the indices congruent to `u`. */
  lemma DealtByResidue(n: nat, m: nat, u: nat, i: nat)
    requires u < m
    ensures i in Strided(u, Share(n, m, u), m) <==> i < n && i % m == u
  {
    ShareIs(n, m, u);
    StridedIff(u, Share(n, m, u), m, i);
    BelowIff(n, m, i);
  }

  lemma BelowIff(n: nat, m: nat, i: nat)
    requires m > 0
    ensures i < n <==> i / m < n / m || (i / m == n / m && i % m < n % m)
  {
    var a, b, c, d := n / m, n % m, i / m, i % m;
    assert n == m * a + b && i == m * c + d;
    if c < a { MulStep(m, c, a); }
    if a < c { MulStep(m, a, c); }
  }

  /** If there are no more rings than vectors, each takes one while any are left. */
  lemma DealtOneEach(n: nat, m: nat, u: nat, stride: nat, i: nat)
    requires u < m && n <= m
    ensures i in Strided(u, Share(n, m, u), stride) <==> i < n && i == u
  {
    ShareIs(n, m, u);
    if n == m { DivIs(n, m, 1, 0); } else { DivIs(n, m, 0, n); }
    assert Share(n, m, u) == if u < n then 1 else 0;
    assert Strided(u, 1, stride) == {u};
  }

  // ---- ring slots and vector lists ----

  /** Every non-null slot `i` holds ring `i` of its kind, owned by one of the first `n` vectors. */
  ghost predicate Slots(a: seq<Ring?>, xdp: bool, n: nat) {
    forall i :: 0 <= i < |a| && a[i] != null ==> a[i].queueIndex == i && a[i].xdp == xdp && a[i].vector < n
  }

  ghost predicate InSlot(a: seq<Ring?>, r: Ring) {
    r.queueIndex < |a| && a[r.queueIndex] == r
  }

  /** Every ring on vector `v`'s lists is in its slot. */
  ghost predicate TxListed(tx: seq<Ring?>, xdp: seq<Ring?>, q: QVector?, v: nat) {
    && q != null && q.vIdx == v && Linked(q.tx, q.txRings)
    && (forall r <- q.txRings :: r.vector == v && InSlot(if r.xdp then xdp else tx, r))
  }

  ghost predicate RxListed(rx: seq<Ring?>, q: QVector?, v: nat) {
    && q != null && q.vIdx == v && Linked(q.rx, q.rxRings)
    && (forall r <- q.rxRings :: r.vector == v && InSlot(rx, r))
  }

  ghost predicate OnTxList(qs: seq<QVector?>, r: Ring) {
    r.vector < |qs| && qs[r.vector] != null && r in qs[r.vector].txRings
  }

  ghost predicate OnRxList(qs: seq<QVector?>, r: Ring) {
    r.vector < |qs| && qs[r.vector] != null && r in qs[r.vector].rxRings
  }

  /** Tx and XDP slots agree with the Tx lists of vectors 0 to n - 1. */
  ghost predicate TxSide(tx: seq<Ring?>, xdp: seq<Ring?>, qs: seq<QVector?>, n: nat) {
    && n <= |qs|
    && (forall v :: 0 <= v < n ==> TxListed(tx, xdp, qs[v], v))
    && Slots(tx, false, n) && Slots(xdp, true, n)
    && (forall i :: 0 <= i < |tx| && tx[i] != null ==> OnTxList(qs, tx[i]))
    && (forall i :: 0 <= i < |xdp| && xdp[i] != null ==> OnTxList(qs, xdp[i]))
  }

  ghost predicate RxSide(rx: seq<Ring?>, qs: seq<QVector?>, n: nat) {
    && n <= |qs|
    && (forall v :: 0 <= v < n ==> RxListed(rx, qs[v], v))
    && Slots(rx, false, n)
    && (forall i :: 0 <= i < |rx| && rx[i] != null ==> OnRxList(qs, rx[i]))
  }

  /** `a` is `was`, except that rings of vector `v` may have left. */
  ghost predicate Dropped(a: seq<Ring?>, was: seq<Ring?>, v: nat) {
    |a| == |was| && forall i :: 0 <= i < |a| ==> a[i] == was[i] || (a[i] == null && was[i].vector == v)
  }

  /** Vector `v`'s rings that are still in `a` are on `rest`. */
  ghost predicate Remaining(a: seq<Ring?>, v: nat, rest: seq<Ring>) {
    forall i :: 0 <= i < |a| && a[i] != null && a[i].vector == v ==> a[i] in rest
  }

  /** Exactly the rings of vector `v` have left. */
  ghost predicate Emptied(a: seq<Ring?>, was: seq<Ring?>, v: nat) {
    && |a| == |was|
    && forall i :: 0 <= i < |a| ==> a[i] == if was[i] != null && was[i].vector == v then null else was[i]
  }

  lemma DroppedAll(a: seq<Ring?>, was: seq<Ring?>, v: nat)
    requires Dropped(a, was, v) && Remaining(a, v, [])
    ensures Emptied(a, was, v)
  {
  }

  lemma TxFreed(tx: seq<Ring?>, xdp: seq<Ring?>, qs: seq<QVector?>, tx': seq<Ring?>, xdp': seq<Ring?>, v: nat)
    requires TxSide(tx, xdp, qs, v + 1)
    requires Dropped(tx', tx, v) && Dropped(xdp', xdp, v) && Remaining(tx', v, []) && Remaining(xdp', v, [])
    ensures TxSide(tx', xdp', qs[v := null], v)
  {
    forall w | 0 <= w < v ensures TxListed(tx', xdp', qs[w], w) {
      assert TxListed(tx, xdp, qs[w], w);
    }
  }

  lemma RxFreed(rx: seq<Ring?>, qs: seq<QVector?>, rx': seq<Ring?>, v: nat)
    requires RxSide(rx, qs, v + 1) && Dropped(rx', rx, v) && Remaining(rx', v, [])
    ensures RxSide(rx', qs[v := null], v)
  {
    forall w | 0 <= w < v ensures RxListed(rx', qs[w], w) {
      assert RxListed(rx, qs[w], w);
    }
  }

  /** The slots in `at` exist and are free. */
  ghost predicate Free(a: seq<Ring?>, at: set<nat>) {
    forall i <- at :: i < |a| && a[i] == null
  }

  /** Exactly the slots in `at` have changed: each now holds a ring of vector `v` that is on `rings`. */
  ghost predicate Dealt(a: seq<Ring?>, was: seq<Ring?>, at: set<nat>, v: nat, xdp: bool, rings: seq<Ring>) {
    && |a| == |was|
    && forall i :: 0 <= i < |a| ==>
         if i in at then a[i] != null && a[i].queueIndex == i && a[i].xdp == xdp && a[i].vector == v && a[i] in rings
         else a[i] == was[i]
  }

  /** The slots dealt so far and the rings in them lie below `i`. */
  ghost predicate Below(at: set<nat>, rings: seq<Ring>, i: nat) {
    (forall k <- at :: k < i) && (forall r <- rings :: r.queueIndex < i)
  }

  /** Rings of vector `v`, each in its slot. */
  ghost predicate Stored(a: seq<Ring?>, v: nat, xdp: bool, rings: seq<Ring>) {
    forall r <- rings :: r.vector == v && r.xdp == xdp && InSlot(a, r)
  }

  /** The slots in `at` are dealt, and `n` indices from `i` on are to come. */
  ghost predicate Dealing(a: seq<Ring?>, was: seq<Ring?>, at: set<nat>, v: nat, xdp: bool, rings: seq<Ring>, i: nat,
                          n: nat, stride: nat, whole: set<nat>) {
    var pushed, toCome := Pushed(a, was, at, v, xdp, rings, i), ToCome(at, i, n, stride, whole);
    pushed && toCome
  }

  ghost predicate Pushed(a: seq<Ring?>, was: seq<Ring?>, at: set<nat>, v: nat, xdp: bool, rings: seq<Ring>, i: nat) {
    var dealt, stored, below := Dealt(a, was, at, v, xdp, rings), Stored(a, v, xdp, rings), Below(at, rings, i);
    dealt && stored && below
  }

  lemma PushedMore(a: seq<Ring?>, a': seq<Ring?>, was: seq<Ring?>, at: set<nat>, v: nat, xdp: bool,
                   rings: seq<Ring>, i: nat, stride: nat)
    requires stride > 0 && rings != [] && Pushed(a, was, at, v, xdp, rings[1..], i)
    requires i < |a| && a' == a[i := rings[0]]
    requires rings[0].queueIndex == i && rings[0].xdp == xdp && rings[0].vector == v
    ensures Pushed(a', was, at + {i}, v, xdp, rings, i + stride)
  {
    assert rings == [rings[0]] + rings[1..];
  }

  /** The `n` indices from `i` on complete `at`. */
  ghost predicate ToCome(at: set<nat>, i: nat, n: nat, stride: nat, whole: set<nat>) {
    at + Strided(i, n, stride) == whole
  }

  lemma ComesNext(at: set<nat>, i: nat, n: nat, stride: nat, whole: set<nat>)
    requires n > 0 && ToCome(at, i, n, stride, whole)
    ensures i in whole && ToCome(at + {i}, i + stride, n - 1, stride, whole)
  {
  }

  lemma TxDealt(tx: seq<Ring?>, xdp: seq<Ring?>, qs: seq<QVector?>, tx': seq<Ring?>, xdp': seq<Ring?>, q: QVector,
                v: nat, txAt: set<nat>, xdpAt: set<nat>)
    requires v < |qs| && TxSide(tx, xdp, qs, v) && Free(tx, txAt) && Free(xdp, xdpAt)
    requires TxListed(tx', xdp', q, v)
    requires Dealt(tx', tx, txAt, v, false, q.txRings) && Dealt(xdp', xdp, xdpAt, v, true, q.txRings)
    ensures TxSide(tx', xdp', qs[v := q], v + 1)
  {
    forall w | 0 <= w < v ensures TxListed(tx', xdp', qs[w], w) {
      assert TxListed(tx, xdp, qs[w], w);
    }
  }

  lemma RxDealt(rx: seq<Ring?>, qs: seq<QVector?>, rx': seq<Ring?>, q: QVector, v: nat, rxAt: set<nat>)
    requires v < |qs| && RxSide(rx, qs, v) && Free(rx, rxAt)
    requires RxListed(rx', q, v) && Dealt(rx', rx, rxAt, v, false, q.rxRings)
    ensures RxSide(rx', qs[v := q], v + 1)
  {
    forall w | 0 <= w < v ensures RxListed(rx', qs[w], w) {
      assert RxListed(rx, qs[w], w);
    }
  }

  // ---- who gets which ring ----

  /** There are enough vectors for every ring to have its own. */
  predicate Spread(numRx: nat, numTx: nat, numXdp: nat, q: nat) {
    q >= numRx + numTx + numXdp
  }

  function RxOwner(i: nat, q: nat, spread: bool): nat
    requires q > 0
  {
    if spread then i else i % q
  }

  function TxOwner(i: nat, numRx: nat, q: nat, spread: bool): nat
    requires q > 0
  {
    if spread then numRx + i else i % q
  }

  /** The Rx slots once the first `v` vectors have their rings. */
  ghost predicate RxDone(rx: seq<Ring?>, numRx: nat, q: nat, spread: bool, v: nat)
    requires q > 0
  {
    forall i :: 0 <= i < |rx| ==>
      && (rx[i] != null <==> i < numRx && RxOwner(i, q, spread) < v)
      && (rx[i] != null ==> rx[i].vector == RxOwner(i, q, spread))
  }

  ghost predicate TxDone(tx: seq<Ring?>, numRx: nat, numTx: nat, q: nat, spread: bool, v: nat)
    requires q > 0
  {
    forall i :: 0 <= i < |tx| ==>
      && (tx[i] != null <==> i < numTx && TxOwner(i, numRx, q, spread) < v)
      && (tx[i] != null ==> tx[i].vector == TxOwner(i, numRx, q, spread))
  }

  /** The first |own| XDP rings are dealt, ring `i` to vector own[i]. */
  ghost predicate XdpDone(xdp: seq<Ring?>, own: seq<nat>) {
    && (forall i :: 0 <= i < |xdp| ==> (xdp[i] != null <==> i < |own|))
    && (forall i :: 0 <= i < |xdp| && i < |own| ==> xdp[i] != null && xdp[i].vector == own[i])
  }

  lemma XdpStep(xdp: seq<Ring?>, xdp': seq<Ring?>, own: seq<nat>, count: nat, v: nat, rings: seq<Ring>)
    requires XdpDone(xdp, own) && Dealt(xdp', xdp, Strided(|own|, count, 1), v, true, rings)
    ensures XdpDone(xdp', own + Run(v, count))
  {
    forall i: nat ensures i in Strided(|own|, count, 1) <==> |own| <= i < |own| + count {
      StridedOne(|own|, count, i);
    }
  }

  /** A vector's turn: `count` rings in a row. */
  function Run(v: nat, count: nat): (r: seq<nat>)
    ensures |r| == count
  {
    seq(count, _ => v)
  }

  /** The owners of rings dealt in turns of these lengths to the vectors from `base` on. */
  function Owners(shares: seq<nat>, base: nat): seq<nat> {
    if shares == [] then []
    else Owners(shares[..|shares| - 1], base) + Run(base + |shares| - 1, shares[|shares| - 1])
  }

  lemma OwnersMore(shares: seq<nat>, base: nat, c: nat)
    ensures Owners(shares + [c], base) == Owners(shares, base) + Run(base + |shares|, c)
  {
    assert (shares + [c])[..|shares|] == shares;
  }

  /** The turns of `n` rings and `m` vectors. */
  predicate EvenShares(shares: seq<nat>, n: nat, m: nat) {
    |shares| <= m && forall u: nat | u < |shares| :: shares[u] == n / m + if u < n % m then 1 else 0
  }

  lemma SharesMore(shares: seq<nat>, n: nat, m: nat, left: nat, left': nat)
    requires |shares| < m && EvenShares(shares, n, m)
    requires left == Left(n, m, |shares|) && left' == Left(n, m, |shares| + 1)
    ensures left' <= left && EvenShares(shares + [left - left'], n, m)
  {
    CeilFits(left, m - |shares|);
    ShareIs(n, m, |shares|);
  }

  function Min(a: nat, b: nat): nat {
    if a < b then a else b
  }

  /** The vectors take runs that differ in length by at most one, longer ones first. */
  predicate InRuns(own: seq<nat>, n: nat, m: nat, base: nat) {
    forall i :: 0 <= i < |own| ==>
      && base <= own[i] < base + m
      && var u := own[i] - base;
         u * (n / m) + Min(u, n % m) <= i < (u + 1) * (n / m) + Min(u + 1, n % m)
  }

  lemma RunMore(own: seq<nat>, n: nat, m: nat, base: nat, u: nat, count: nat)
    requires u < m && InRuns(own, n, m, base) && |own| == u * (n / m) + Min(u, n % m)
    requires count == n / m + if u < n % m then 1 else 0
    ensures InRuns(own + Run(base + u, count), n, m, base)
    ensures |own| + count == (u + 1) * (n / m) + Min(u + 1, n % m)
  {
    assert (u + 1) * (n / m) == u * (n / m) + n / m;
  }

  lemma {:induction false} OwnersInRuns(shares: seq<nat>, n: nat, m: nat, base: nat)
    requires EvenShares(shares, n, m)
    ensures InRuns(Owners(shares, base), n, m, base)
    ensures m > 0 ==> |Owners(shares, base)| == |shares| * (n / m) + Min(|shares|, n % m)
  {
    if shares != [] {
      var u := |shares| - 1;
      OwnersInRuns(shares[..u], n, m, base);
      RunMore(Owners(shares[..u], base), n, m, base, u, shares[u]);
    }
  }

  /** `at` are the Rx indices of vector `v`. */
  ghost predicate RxShare(at: set<nat>, numRx: nat, q: nat, spread: bool, v: nat)
    requires q > 0
  {
    forall i: nat :: i in at <==> i < numRx && RxOwner(i, q, spread) == v
  }

  ghost predicate TxShare(at: set<nat>, numRx: nat, numTx: nat, q: nat, spread: bool, v: nat)
    requires q > 0
  {
    forall i: nat :: i in at <==> i < numTx && TxOwner(i, numRx, q, spread) == v
  }

  /** No vector has two Rx rings, two Tx rings or one of each. */
  ghost predicate Apart(rx: seq<Ring?>, tx: seq<Ring?>) {
    && (forall i, j :: 0 <= i < j < |rx| && rx[i] != null && rx[j] != null ==> rx[i].vector != rx[j].vector)
    && (forall i, j :: 0 <= i < j < |tx| && tx[i] != null && tx[j] != null ==> tx[i].vector != tx[j].vector)
    && (forall i, j :: 0 <= i < |rx| && 0 <= j < |tx| && rx[i] != null && tx[j] != null ==>
                         rx[i].vector != tx[j].vector)
  }

  /** The `n` rings go round the `q` vectors. */
  ghost predicate Around(a: seq<Ring?>, n: nat, q: nat)
    requires q > 0
  {
    n <= |a| && forall i :: 0 <= i < n ==> a[i] != null && a[i].vector == i % q
  }

  /** Enough vectors: each ring has its own; too few: the rings go round. */
  lemma DealtHow(rx: seq<Ring?>, tx: seq<Ring?>, numRx: nat, numTx: nat, numXdp: nat, q: nat)
    requires 0 < q && numRx <= |rx| && numTx <= |tx|
    requires RxDone(rx, numRx, q, Spread(numRx, numTx, numXdp, q), q)
    requires TxDone(tx, numRx, numTx, q, Spread(numRx, numTx, numXdp, q), q)
    ensures q >= numRx + numTx + numXdp ==> Apart(rx, tx)
    ensures q < numRx + numTx + numXdp ==> Around(rx, numRx, q) && Around(tx, numTx, q)
  {
  }

  /** The next vector takes every `q`-th Rx ring from `rxIdx` and Tx ring from `txIdx`, and these
      are its own. */
  ghost predicate Planned(nRx: nat, nTx: nat, q: nat, spread: bool, v: nat,
                          txCount: nat, txIdx: nat, rxCount: nat, rxIdx: nat)
    requires q > 0
  {
    && RxShare(Strided(rxIdx, rxCount, q), nRx, q, spread, v)
    && TxShare(Strided(txIdx, txCount, q), nRx, nTx, q, spread, v)
  }

  lemma RxStep(rx: seq<Ring?>, rx': seq<Ring?>, at: set<nat>, numRx: nat, q: nat, spread: bool, v: nat,
               rings: seq<Ring>)
    requires q > 0 && RxDone(rx, numRx, q, spread, v) && RxShare(at, numRx, q, spread, v)
    requires Dealt(rx', rx, at, v, false, rings)
    ensures RxDone(rx', numRx, q, spread, v + 1)
  {
  }

  lemma TxStep(tx: seq<Ring?>, tx': seq<Ring?>, at: set<nat>, numRx: nat, numTx: nat, q: nat, spread: bool, v: nat,
               rings: seq<Ring>)
    requires q > 0 && TxDone(tx, numRx, numTx, q, spread, v) && TxShare(at, numRx, numTx, q, spread, v)
    requires Dealt(tx', tx, at, v, false, rings)
    ensures TxDone(tx', numRx, numTx, q, spread, v + 1)
  {
  }

  lemma {:induction false} StridedOne(idx: nat, count: nat, i: nat)
    ensures i in Strided(idx, count, 1) <==> idx <= i < idx + count
    decreases count
  {
    if count > 0 { StridedOne(idx + 1, count - 1, i); }
  }

  // ---- the adapter ----

  class Adapter {
    var numTx: nat
    var numXdp: nat
    var numRx: nat
    var numVectors: nat
    const txRing: array<Ring?>
    const xdpRing: array<Ring?>
    const rxRing: array<Ring?>
    const qVector: array<QVector?>

    constructor (maxTx: nat, maxXdp: nat, maxRx: nat, maxVectors: nat)
      ensures Consistent(0) && numTx == numXdp == numRx == numVectors == 0
      ensures fresh(txRing) && fresh(xdpRing) && fresh(rxRing) && fresh(qVector)
      ensures txRing.Length == maxTx && xdpRing.Length == maxXdp && rxRing.Length == maxRx
      ensures qVector.Length == maxVectors
    {
      numTx, numXdp, numRx, numVectors := 0, 0, 0, 0;
      txRing, xdpRing, rxRing := new Ring?[maxTx](_ => null), new Ring?[maxXdp](_ => null), new Ring?[maxRx](_ => null);
      qVector := new QVector?[maxVectors](_ => null);
    }

    ghost predicate Shape() {
      && txRing != xdpRing && xdpRing != rxRing && txRing != rxRing
      && qVector as object !in {txRing as object, xdpRing as object, rxRing as object}
    }

    /** Vectors 0 to n - 1 exist, and ring slots and vector lists agree. */
    ghost predicate Consistent(n: nat)
      reads txRing, xdpRing, rxRing, qVector
    {
      && Shape()
      && TxSide(txRing[..], xdpRing[..], qVector[..], n) && RxSide(rxRing[..], qVector[..], n)
      && (forall v :: n <= v < qVector.Length ==> qVector[v] == null)
    }

    method FreeTxRings(q: QVector, v: nat)
      requires Shape() && TxListed(txRing[..], xdpRing[..], q, v)
      requires Slots(txRing[..], false, v + 1) && Slots(xdpRing[..], true, v + 1)
      requires Remaining(txRing[..], v, q.txRings) && Remaining(xdpRing[..], v, q.txRings)
      modifies txRing, xdpRing
      ensures Dropped(txRing[..], old(txRing[..]), v) && Dropped(xdpRing[..], old(xdpRing[..]), v)
      ensures Remaining(txRing[..], v, []) && Remaining(xdpRing[..], v, [])
    {
      var ring := q.tx;
      ghost var rest := q.txRings;
      while ring != null
        invariant Linked(ring, rest)
        invariant forall r <- rest :: r in q.txRings
        invariant Dropped(txRing[..], old(txRing[..]), v) && Dropped(xdpRing[..], old(xdpRing[..]), v)
        invariant Remaining(txRing[..], v, rest) && Remaining(xdpRing[..], v, rest)
        decreases |rest|
      {
        assert rest[0] in q.txRings;
        if ring.xdp {
          xdpRing[ring.queueIndex] := null;
        } else {
          txRing[ring.queueIndex] := null;
        }
        ring := ring.next;
        rest := rest[1..];
      }
    }

    method FreeRxRings(q: QVector, v: nat)
      requires RxListed(rxRing[..], q, v)
      requires Slots(rxRing[..], false, v + 1) && Remaining(rxRing[..], v, q.rxRings)
      modifies rxRing
      ensures Dropped(rxRing[..], old(rxRing[..]), v) && Remaining(rxRing[..], v, [])
    {
      var ring := q.rx;
      ghost var rest := q.rxRings;
      while ring != null
        invariant Linked(ring, rest)
        invariant forall r <- rest :: r in q.rxRings
        invariant Dropped(rxRing[..], old(rxRing[..]), v) && Remaining(rxRing[..], v, rest)
        decreases |rest|
      {
        assert rest[0] in q.rxRings;
        rxRing[ring.queueIndex] := null;
        ring := ring.next;
        rest := rest[1..];
      }
    }

    /** ixgbe_free_q_vector, for the highest vector there is. */
    method FreeQVector(v: nat)
      requires Consistent(v + 1)
      modifies txRing, xdpRing, rxRing, qVector
      ensures Consistent(v) && qVector[..] == old(qVector[..])[v := null]
      ensures Emptied(txRing[..], old(txRing[..]), v) && Emptied(xdpRing[..], old(xdpRing[..]), v)
      ensures Emptied(rxRing[..], old(rxRing[..]), v)
    {
      ghost var tx, xdp, rx, qs := txRing[..], xdpRing[..], rxRing[..], qVector[..];
      assert TxListed(tx, xdp, qs[v], v) && RxListed(rx, qs[v], v);
      var q := qVector[v];
      FreeTxRings(q, v);
      FreeRxRings(q, v);
      DroppedAll(txRing[..], tx, v);
      DroppedAll(xdpRing[..], xdp, v);
      DroppedAll(rxRing[..], rx, v);
      qVector[v] := null;
      TxFreed(tx, xdp, qs, txRing[..], xdpRing[..], v);
      RxFreed(rx, qs, rxRing[..], v);
      assert qVector[..] == qs[v := null];
    }

    /** The ring loops of ixgbe_alloc_q_vector, which differ in array, stride and list:
        each ring is pushed on the list `first` and stored in its slot. */
    static method Deal(a: array<Ring?>, xdp: bool, v: nat, stride: nat, count: nat, idx: nat, first: Ring?,
                       ghost before: seq<Ring>)
      returns (head: Ring?, ghost rings: seq<Ring>)
      requires stride > 0 && Linked(first, before) && Free(a[..], Strided(idx, count, stride))
      modifies a
      ensures Linked(head, rings + before)
      ensures Dealt(a[..], old(a[..]), Strided(idx, count, stride), v, xdp, rings)
      ensures Stored(a[..], v, xdp, rings)
    {
      head, rings := first, [];
      assert [] + before == before;
      var n: nat, i: nat := 0, idx;
      ghost var at: set<nat>, whole := {}, Strided(idx, count, stride);
      while n < count
        invariant n <= count && Linked(head, rings + before)
        invariant Dealing(a[..], old(a[..]), at, v, xdp, rings, i, count - n, stride, whole)
      {
        head, rings := Push(a, i, xdp, v, head, old(a[..]), at, rings, before, count - n, stride, whole);
        n, i, at := n + 1, i + stride, at + {i};
      }
      assert at == whole;
    }

    /** One ring is made, put in front of the list and stored in slot `i`. */
    static method Push(a: array<Ring?>, i: nat, xdp: bool, v: nat, head: Ring?, ghost was: seq<Ring?>,
                       ghost at: set<nat>, ghost rings: seq<Ring>, ghost before: seq<Ring>, ghost n: nat,
                       ghost stride: nat, ghost whole: set<nat>)
      returns (ring: Ring, ghost rings': seq<Ring>)
      requires n > 0 && stride > 0 && Linked(head, rings + before) && Free(was, whole)
      requires Dealing(a[..], was, at, v, xdp, rings, i, n, stride, whole)
      modifies a
      ensures Linked(ring, rings' + before)
      ensures Dealing(a[..], was, at + {i}, v, xdp, rings', i + stride, n - 1, stride, whole)
    {
      ComesNext(at, i, n, stride, whole);
      ring := new Ring(i, xdp, v, head);
      rings' := [ring] + rings;
      assert (rings' + before)[1..] == rings + before;
      ghost var s := a[..];
      a[i] := ring;
      PushedMore(s, a[..], was, at, v, xdp, rings', i, stride);
    }

    /** ixgbe_alloc_q_vector once its memory is allocated. */
    method FillQVector(v: nat, stride: nat, txCount: nat, txIdx: nat, xdpCount: nat, xdpIdx: nat,
                       rxCount: nat, rxIdx: nat)
      requires Consistent(v) && v < qVector.Length && stride > 0
      requires Free(txRing[..], Strided(txIdx, txCount, stride))
      requires Free(xdpRing[..], Strided(xdpIdx, xdpCount, 1))
      requires Free(rxRing[..], Strided(rxIdx, rxCount, stride))
      modifies txRing, xdpRing, rxRing, qVector
      ensures Consistent(v + 1) && qVector[v] != null
      ensures Dealt(txRing[..], old(txRing[..]), Strided(txIdx, txCount, stride), v, false, qVector[v].txRings)
      ensures Dealt(xdpRing[..], old(xdpRing[..]), Strided(xdpIdx, xdpCount, 1), v, true, qVector[v].txRings)
      ensures Dealt(rxRing[..], old(rxRing[..]), Strided(rxIdx, rxCount, stride), v, false, qVector[v].rxRings)
    {
      ghost var tx, xdp, rx, qs := txRing[..], xdpRing[..], rxRing[..], qVector[..];
      var txList, txRings := Deal(txRing, false, v, stride, txCount, txIdx, null, []);
      var txHead, xdpRings := Deal(xdpRing, true, v, 1, xdpCount, xdpIdx, txList, txRings + []);
      var rxHead, rxRings := Deal(rxRing, false, v, stride, rxCount, rxIdx, null, []);
      var q := new QVector(v, txHead, rxHead, xdpRings + (txRings + []), rxRings + []);
      qVector[v] := q;
      assert qVector[..] == qs[v := q];
      TxDealt(tx, xdp, qs, txRing[..], xdpRing[..], q, v,
              Strided(txIdx, txCount, stride), Strided(xdpIdx, xdpCount, 1));
      RxDealt(rx, qs, rxRing[..], q, v, Strided(rxIdx, rxCount, stride));
    }

    /** The rings of the first `v` vectors are dealt, and |own| XDP rings. */
    ghost predicate DealtTo(nRx: nat, nTx: nat, spread: bool, q: nat, v: nat, own: seq<nat>)
      requires q > 0
      reads txRing, xdpRing, rxRing, qVector
    {
      var consistent := Consistent(v);
      var rx, tx := RxDone(rxRing[..], nRx, q, spread, v), TxDone(txRing[..], nRx, nTx, q, spread, v);
      v <= q <= qVector.Length && consistent && rx && tx && XdpDone(xdpRing[..], own)
    }

    /** One more vector gets its share. */
    method AllocNext(nRx: nat, nTx: nat, spread: bool, q: nat, v: nat, x: nat,
                     txCount: nat, txIdx: nat, xdpCount: nat, rxCount: nat, rxIdx: nat, ghost own: seq<nat>)
      requires 0 < q && v < q && DealtTo(nRx, nTx, spread, q, v, own) && |own| == x
      requires nRx <= rxRing.Length && nTx <= txRing.Length && x + xdpCount <= xdpRing.Length
      requires Planned(nRx, nTx, q, spread, v, txCount, txIdx, rxCount, rxIdx)
      modifies txRing, xdpRing, rxRing, qVector
      ensures DealtTo(nRx, nTx, spread, q, v + 1, own + Run(v, xdpCount))
    {
      ghost var tx, xdp, rx := txRing[..], xdpRing[..], rxRing[..];
      forall i: nat ensures i in Strided(x, xdpCount, 1) <==> x <= i < x + xdpCount {
        StridedOne(x, xdpCount, i);
      }
      FillQVector(v, q, txCount, txIdx, xdpCount, x, rxCount, rxIdx);
      RxStep(rx, rxRing[..], Strided(rxIdx, rxCount, q), nRx, q, spread, v, qVector[v].rxRings);
      TxStep(tx, txRing[..], Strided(txIdx, txCount, q), nRx, nTx, q, spread, v, qVector[v].txRings);
      XdpStep(xdp, xdpRing[..], own, xdpCount, v, qVector[v].txRings);
    }

    /** One pass of the first loop. */
    method AllocRxVector(q: nat, nRx: nat, nTx: nat, v: nat)
      requires v < nRx <= q && nRx <= rxRing.Length && nTx <= txRing.Length && DealtTo(nRx, nTx, true, q, v, [])
      modifies txRing, xdpRing, rxRing, qVector
      ensures DealtTo(nRx, nTx, true, q, v + 1, [])
    {
      RxAlone(nRx, nTx, q, v);
      AllocNext(nRx, nTx, true, q, v, 0, 0, 0, 0, 1, v, []);
      assert [] + Run(v, 0) == [];
    }

    /** The first loop of ixgbe_alloc_q_vectors: a vector for each Rx ring. */
    method AllocRxVectors(q: nat, nRx: nat, nTx: nat, granted: seq<bool>) returns (ok: bool, v: nat)
      requires 0 < q && nRx + nTx <= q <= |granted| && nRx <= rxRing.Length && nTx <= txRing.Length
      requires DealtTo(nRx, nTx, true, q, 0, [])
      modifies txRing, xdpRing, rxRing, qVector
      ensures DealtTo(nRx, nTx, true, q, v, []) && v <= nRx
      ensures (forall w :: 0 <= w < v ==> granted[w]) && (if ok then v == nRx else v < q && !granted[v])
    {
      ok, v := true, 0;
      while v < nRx
        invariant 0 <= v <= nRx
        invariant DealtTo(nRx, nTx, true, q, v, [])
        invariant forall w :: 0 <= w < v ==> granted[w]
      {
        if !granted[v] {
          return false, v;
        }
        AllocRxVector(q, nRx, nTx, v);
        v := v + 1;
      }
    }

    /** All rings are dealt, the XDP rings in runs to the vectors from `base` on. */
    ghost predicate AllDealt(nRx: nat, nTx: nat, nXdp: nat, spread: bool, q: nat, base: nat)
      reads txRing, xdpRing, rxRing, qVector
    {
      exists own :: DealtRuns(nRx, nTx, nXdp, spread, q, base, own)
    }

    ghost predicate DealtRuns(nRx: nat, nTx: nat, nXdp: nat, spread: bool, q: nat, base: nat, own: seq<nat>)
      reads txRing, xdpRing, rxRing, qVector
    {
      && 0 < q && base <= q && |own| == nXdp
      && var dealt, runs := DealtTo(nRx, nTx, spread, q, q, own), InRuns(own, nXdp, q - base, base);
         dealt && runs
    }

    /** Vectors `base` to v - 1 have taken their rounded-up shares. */
    ghost predicate Midway(q: nat, nRx: nat, nTx: nat, nXdp: nat, base: nat, spread: bool, v: nat,
                           rxLeft: nat, txLeft: nat, xdpLeft: nat, own: seq<nat>)
      reads txRing, xdpRing, rxRing, qVector
    {
      && SharesLeft(q, nRx, nTx, nXdp, base, spread, v, rxLeft, txLeft, xdpLeft)
      && nRx <= rxRing.Length && nTx <= txRing.Length && nXdp <= xdpRing.Length
      && |own| == nXdp - xdpLeft && var dealt := DealtTo(nRx, nTx, spread, q, v, own); dealt
    }

    /** One pass of the second loop. */
    method AllocShare(q: nat, nRx: nat, nTx: nat, nXdp: nat, base: nat, spread: bool, v: nat,
                      rxLeft: nat, txLeft: nat, xdpLeft: nat, ghost own: seq<nat>)
      returns (rxLeft': nat, txLeft': nat, xdpLeft': nat)
      requires v < q && Midway(q, nRx, nTx, nXdp, base, spread, v, rxLeft, txLeft, xdpLeft, own)
      modifies txRing, xdpRing, rxRing, qVector
      ensures xdpLeft' <= xdpLeft
      ensures Midway(q, nRx, nTx, nXdp, base, spread, v + 1, rxLeft', txLeft', xdpLeft',
                     own + Run(v, xdpLeft - xdpLeft'))
    {
      var rqpv, tqpv, xqpv := PlanShare(q, nRx, nTx, nXdp, base, spread, v, rxLeft, txLeft, xdpLeft);
      rxLeft', txLeft', xdpLeft' := rxLeft - rqpv, txLeft - tqpv, xdpLeft - xqpv;
      var x := nXdp - xdpLeft;
      AllocNext(nRx, nTx, spread, q, v, x, tqpv, v - base, xqpv, rqpv, v, own);
      assert xdpLeft - xdpLeft' == xqpv;
    }

    /** The vectors so far took turns of lengths `shares` at the XDP rings. */
    ghost predicate Turns(q: nat, nRx: nat, nTx: nat, nXdp: nat, base: nat, spread: bool, v: nat,
                          rxLeft: nat, txLeft: nat, xdpLeft: nat, shares: seq<nat>)
      reads txRing, xdpRing, rxRing, qVector
    {
      && base <= q && |shares| == v - base && EvenShares(shares, nXdp, q - base)
      && Midway(q, nRx, nTx, nXdp, base, spread, v, rxLeft, txLeft, xdpLeft, Owners(shares, base))
    }

    method AllocTurn(q: nat, nRx: nat, nTx: nat, nXdp: nat, base: nat, spread: bool, v: nat,
                     rxLeft: nat, txLeft: nat, xdpLeft: nat, ghost shares: seq<nat>)
      returns (rxLeft': nat, txLeft': nat, xdpLeft': nat, ghost shares': seq<nat>)
      requires v < q && Turns(q, nRx, nTx, nXdp, base, spread, v, rxLeft, txLeft, xdpLeft, shares)
      modifies txRing, xdpRing, rxRing, qVector
      ensures Turns(q, nRx, nTx, nXdp, base, spread, v + 1, rxLeft', txLeft', xdpLeft', shares')
    {
      rxLeft', txLeft', xdpLeft' :=
        AllocShare(q, nRx, nTx, nXdp, base, spread, v, rxLeft, txLeft, xdpLeft, Owners(shares, base));
      shares' := shares + [xdpLeft - xdpLeft'];
      SharesMore(shares, nXdp, q - base, xdpLeft, xdpLeft');
      OwnersMore(shares, base, xdpLeft - xdpLeft');
    }

    lemma TurnsDone(q: nat, nRx: nat, nTx: nat, nXdp: nat, base: nat, spread: bool,
                    rxLeft: nat, txLeft: nat, xdpLeft: nat, shares: seq<nat>)
      requires Turns(q, nRx, nTx, nXdp, base, spread, q, rxLeft, txLeft, xdpLeft, shares)
      ensures AllDealt(nRx, nTx, nXdp, spread, q, base)
    {
      LeftEnd(nXdp, q - base);
      OwnersInRuns(shares, nXdp, q - base, base);
      assert DealtRuns(nRx, nTx, nXdp, spread, q, base, Owners(shares, base));
    }

    /** The second loop: the remaining vectors share what is left, by rounded-up division. */
    method AllocShares(q: nat, nRx: nat, nTx: nat, nXdp: nat, base: nat, spread: bool, granted: seq<bool>)
      returns (ok: bool, v: nat)
      requires q <= |granted| && Turns(q, nRx, nTx, nXdp, base, spread, base, if spread then 0 else nRx, nTx, nXdp, [])
      requires forall w :: 0 <= w < base ==> granted[w]
      modifies txRing, xdpRing, rxRing, qVector
      ensures v <= q && (ok ==> v == q && AllDealt(nRx, nTx, nXdp, spread, q, base))
      ensures !ok ==> Consistent(v)
      ensures (forall w :: 0 <= w < v ==> granted[w]) && (!ok ==> v < q && !granted[v])
    {
      var rxLeft: nat, txLeft: nat, xdpLeft: nat := if spread then 0 else nRx, nTx, nXdp;
      ok, v := true, base;
      ghost var shares: seq<nat> := [];
      while v < q
        invariant base <= v <= q && Turns(q, nRx, nTx, nXdp, base, spread, v, rxLeft, txLeft, xdpLeft, shares)
        invariant forall w :: 0 <= w < v ==> granted[w]
      {
        if !granted[v] {
          return false, v;
        }
        rxLeft, txLeft, xdpLeft, shares :=
          AllocTurn(q, nRx, nTx, nXdp, base, spread, v, rxLeft, txLeft, xdpLeft, shares);
        v := v + 1;
      }
      TurnsDone(q, nRx, nTx, nXdp, base, spread, rxLeft, txLeft, xdpLeft, shares);
    }

    ghost predicate Empty()
      reads txRing, xdpRing, rxRing, qVector
    {
      && (forall i :: 0 <= i < txRing.Length ==> txRing[i] == null)
      && (forall i :: 0 <= i < xdpRing.Length ==> xdpRing[i] == null)
      && (forall i :: 0 <= i < rxRing.Length ==> rxRing[i] == null)
      && (forall v :: 0 <= v < qVector.Length ==> qVector[v] == null)
    }

    /** ixgbe_alloc_q_vectors; the memory for vector `v` is there when `granted[v]`.  Either
        every ring has its slot and its one vector, or nothing is left behind. */
    method AllocQVectors(granted: seq<bool>) returns (ok: bool)
      requires Consistent(0) && 1 <= numVectors <= qVector.Length && numVectors <= |granted|
      requires numTx <= txRing.Length && numXdp <= xdpRing.Length && numRx <= rxRing.Length
      modifies this, txRing, xdpRing, rxRing, qVector
      ensures ok <==> forall v :: 0 <= v < old(numVectors) ==> granted[v]
      ensures ok ==> numVectors == old(numVectors)
      ensures ok ==> numTx == old(numTx) && numXdp == old(numXdp) && numRx == old(numRx)
      ensures ok ==> AllDealt(numRx, numTx, numXdp, Spread(numRx, numTx, numXdp, numVectors), numVectors,
                              if numVectors >= numRx + numTx + numXdp then numRx else 0)
      ensures ok && numVectors >= numRx + numTx + numXdp ==> Apart(rxRing[..], txRing[..])
      ensures ok && numVectors < numRx + numTx + numXdp ==>
                Around(rxRing[..], numRx, numVectors) && Around(txRing[..], numTx, numVectors)
      ensures !ok ==> Consistent(0) && Empty() && numVectors == 0 && numTx == 0 && numXdp == 0 && numRx == 0
    {
      var q := numVectors;
      var spread := Spread(numRx, numTx, numXdp, q);
      var v := 0;
      ok := true;
      if spread {
        ok, v := AllocRxVectors(q, numRx, numTx, granted);
      }
      if ok {
        ok, v := AllocShares(q, numRx, numTx, numXdp, v, spread, granted);
      }
      if !ok {
        Rollback(v);
      } else {
        DealtHow(rxRing[..], txRing[..], numRx, numTx, numXdp, q);
      }
    }

    /** The error path of ixgbe_alloc_q_vectors, and with `v` the vector count ixgbe_free_q_vectors. */
    method Rollback(count: nat)
      requires Consistent(count)
      modifies this, txRing, xdpRing, rxRing, qVector
      ensures Consistent(0) && Empty() && numVectors == 0 && numTx == 0 && numXdp == 0 && numRx == 0
    {
      numTx, numXdp, numRx, numVectors := 0, 0, 0, 0;
      var v := count;
      while v != 0
        invariant 0 <= v <= count && Consistent(v)
        invariant numVectors == 0 && numTx == 0 && numXdp == 0 && numRx == 0
      {
        v := v - 1;
        FreeQVector(v);
      }
    }
  }

  /** A ring is on the list of one vector only, the one it names: Tx and XDP rings ... */
  lemma OneTxOwner(tx: seq<Ring?>, xdp: seq<Ring?>, qs: seq<QVector?>, n: nat, v: nat, r: Ring)
    requires TxSide(tx, xdp, qs, n) && v < n
    ensures qs[v] != null && (r in qs[v].txRings <==> r.vector == v && InSlot(if r.xdp then xdp else tx, r))
  {
    assert TxListed(tx, xdp, qs[v], v);
  }

  /** ... and Rx rings. */
  lemma OneRxOwner(rx: seq<Ring?>, qs: seq<QVector?>, n: nat, v: nat, r: Ring)
    requires RxSide(rx, qs, n) && v < n
    ensures qs[v] != null && (r in qs[v].rxRings <==> r.vector == v && !r.xdp && InSlot(rx, r))
  {
    assert RxListed(rx, qs[v], v);
  }

  /** What vectors `base` to v - 1 have left over, taking rounded-up shares. */
  predicate SharesLeft(q: nat, nRx: nat, nTx: nat, nXdp: nat, base: nat, spread: bool, v: nat,
                       rxLeft: nat, txLeft: nat, xdpLeft: nat)
  {
    && 0 < q && base <= v <= q
    && (if spread then base == nRx && nRx + nTx + nXdp <= q && rxLeft == 0 else base == 0 && rxLeft == Left(nRx, q, v))
    && txLeft == Left(nTx, q - base, v - base)
    && xdpLeft == Left(nXdp, q - base, v - base) <= nXdp
  }

  /** Each kind of ring: how many the next vector takes. */
  method PlanShare(q: nat, nRx: nat, nTx: nat, nXdp: nat, base: nat, spread: bool, v: nat,
                   rxLeft: nat, txLeft: nat, xdpLeft: nat)
    returns (rqpv: nat, tqpv: nat, xqpv: nat)
    requires v < q && SharesLeft(q, nRx, nTx, nXdp, base, spread, v, rxLeft, txLeft, xdpLeft)
    ensures rqpv <= rxLeft && tqpv <= txLeft && xqpv <= xdpLeft && (spread ==> rqpv == 0)
    ensures SharesLeft(q, nRx, nTx, nXdp, base, spread, v + 1, rxLeft - rqpv, txLeft - tqpv, xdpLeft - xqpv)
    ensures Planned(nRx, nTx, q, spread, v, tqpv, v - base, rqpv, v)
  {
    rqpv, tqpv, xqpv := CeilDiv(rxLeft, q - v), CeilDiv(txLeft, q - v), CeilDiv(xdpLeft, q - v);
    if !spread { TakeShare(nRx, q, v, q - v, rqpv); } else { TakeNone(q - v); }
    TakeShare(nTx, q - base, v - base, q - v, tqpv);
    TakeShare(nXdp, q - base, v - base, q - v, xqpv);
    RxShareIs(nRx, q, spread, v, rqpv);
    TxShareIs(nRx, nTx, q, spread, base, v, tqpv);
  }

  lemma TakeShare(n: nat, m: nat, u: nat, d: nat, c: nat)
    requires u < m && d == m - u && c == CeilDiv(Left(n, m, u), d)
    ensures c == Share(n, m, u) && c <= Left(n, m, u) && Left(n, m, u + 1) == Left(n, m, u) - c
  {
    CeilFits(Left(n, m, u), d);
  }

  lemma LeftEnd(n: nat, m: nat)
    requires m == 0 ==> n == 0
    ensures Left(n, m, m) == 0
  {
    if m > 0 { LeftIs(n, m, m, n / m, n % m); }
  }

  lemma TakeNone(d: nat)
    requires d > 0
    ensures CeilDiv(0, d) == 0
  {
    CeilFits(0, d);
  }

  lemma RxAlone(nRx: nat, nTx: nat, q: nat, v: nat)
    requires v < nRx <= q
    ensures Planned(nRx, nTx, q, true, v, 0, 0, 1, v)
  {
    assert Strided(v, 1, q) == {v} by { assert Strided(v, 0, q) == {}; }
  }

  lemma RxShareIs(nRx: nat, q: nat, spread: bool, v: nat, count: nat)
    requires 0 < q && v < q && count == if spread then 0 else Share(nRx, q, v)
    requires spread ==> nRx <= v
    ensures RxShare(Strided(v, count, q), nRx, q, spread, v)
  {
    if !spread {
      forall i: nat ensures i in Strided(v, count, q) <==> i < nRx && i % q == v {
        DealtByResidue(nRx, q, v, i);
      }
    }
  }

  lemma TxShareIs(nRx: nat, nTx: nat, q: nat, spread: bool, base: nat, v: nat, count: nat)
    requires 0 < q && base <= v < q && count == Share(nTx, q - base, v - base)
    requires if spread then base == nRx && nRx + nTx <= q else base == 0
    ensures TxShare(Strided(v - base, count, q), nRx, nTx, q, spread, v)
  {
    forall i: nat ensures i in Strided(v - base, count, q) <==> i < nTx && TxOwner(i, nRx, q, spread) == v {
      if spread { DealtOneEach(nTx, q - base, v - base, q, i); } else { DealtByResidue(nTx, q, v, i); }
    }
  }
}
