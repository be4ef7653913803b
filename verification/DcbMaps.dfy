/** From class bitmaps to the priority map, the map register and back, and which classes
    get flow-control thresholds. */
module DcbMaps {
  import opened Arith

  const PRIORITIES: nat := 8           // IXGBE_DCB_MAX_USER_PRIORITY
  const CLASSES: nat := 8              // IXGBE_DCB_MAX_TRAFFIC_CLASS

  // ---- the map of a configuration ----

  /** `tc` is the highest class below `tcs`, other than 0, that takes the priority, or 0. */
  predicate IsClassOf(bitmaps: seq<set<nat>>, tcs: nat, up: nat, tc: nat)
    requires tcs <= |bitmaps|
  {
    && (tc == 0 || (tc < tcs && up in bitmaps[tc]))
    && forall t: nat | tc < t < tcs :: up !in bitmaps[t]
  }

  /** ixgbe_dcb_get_tc_from_up */
  method GetTcFromUp(bitmaps: seq<set<nat>>, tcs: nat, up: nat) returns (tc: nat)
    requires tcs <= |bitmaps|
    ensures IsClassOf(bitmaps, tcs, up, tc)
    ensures tc < tcs || tc == tcs == 0
  {
    tc := tcs;
    if tc == 0 { return; }
    tc := tc - 1;
    while tc != 0
      invariant tc < tcs && forall t: nat | tc < t < tcs :: up !in bitmaps[t]
    {
      if up in bitmaps[tc] { break; }
      tc := tc - 1;
    }
  }

  predicate IsMap(bitmaps: seq<set<nat>>, tcs: nat, map_: seq<nat>)
    requires tcs <= |bitmaps|
  {
    |map_| == PRIORITIES && forall up: nat | up < PRIORITIES :: IsClassOf(bitmaps, tcs, up, map_[up])
  }

  /** ixgbe_dcb_unpack_map_cee */
  method UnpackMap(bitmaps: seq<set<nat>>, tcs: nat) returns (m: array<nat>)
    requires tcs <= |bitmaps| && tcs <= CLASSES
    ensures fresh(m) && IsMap(bitmaps, tcs, m[..]) && InRange(m[..])
  {
    m := new nat[PRIORITIES];
    for up := 0 to PRIORITIES
      invariant forall u: nat | u < up :: IsClassOf(bitmaps, tcs, u, m[u]) && m[u] < CLASSES
    {
      m[up] := GetTcFromUp(bitmaps, tcs, up);
    }
  }

  predicate InRange(m: seq<nat>) {
    forall c <- m :: c < CLASSES
  }

  // ---- RTRUP2TC ----

  /** The register the arbiter setup builds, three bits for each priority. */
  function Pack(m: seq<nat>): nat {
    if m == [] then 0
    else Or(Pack(m[..|m| - 1]), m[|m| - 1] * Pow2(3 * (|m| - 1)))
  }

  function UnpackAt(reg: nat, i: nat): nat {
    And(Shr(reg, 3 * i), 7)
  }

  /** The same as a number to base 8, least digit first. */
  function Digits(m: seq<nat>): nat {
    if m == [] then 0 else m[0] + 8 * Digits(m[1..])
  }

  lemma Pow8(k: nat)
    requires k > 0
    ensures Pow2(3 * k) == 8 * Pow2(3 * (k - 1))
  {
    assert Pow2(3) == 8;
    Pow2Sum(3, 3 * (k - 1));
  }

  lemma {:induction false} DigitsBound(m: seq<nat>)
    requires InRange(m)
    ensures Digits(m) < Pow2(3 * |m|)
  {
    if m != [] {
      assert m[0] in m && forall c <- m[1..] :: c in m;
      DigitsBound(m[1..]);
      Pow8(|m|);
    }
  }

  lemma {:induction false} DigitsSnoc(m: seq<nat>, d: nat)
    ensures Digits(m + [d]) == Digits(m) + d * Pow2(3 * |m|)
  {
    if m == [] {
      assert (m + [d])[1..] == [];
    } else {
      assert (m + [d])[1..] == m[1..] + [d];
      DigitsSnoc(m[1..], d);
      Pow8(|m|);
      var p := Pow2(3 * (|m| - 1));
      assert d * (8 * p) == 8 * (d * p);
    }
  }

  lemma PackSnoc(m: seq<nat>, d: nat)
    ensures Pack(m + [d]) == Or(Pack(m), d * Pow2(3 * |m|))
  {
    assert (m + [d])[..|m|] == m;
  }

  lemma OneMore(x: nat, n: nat, d: nat)
    requires x < Pow2(3 * n)
    ensures Or(x, d * Pow2(3 * n)) == x + d * Pow2(3 * n)
  {
    var p := Pow2(3 * n);
    OrApart(x, 3 * n, d, d * p);
  }

  lemma {:induction false} PackIs(m: seq<nat>)
    requires InRange(m)
    ensures Pack(m) == Digits(m)
  {
    if m != [] {
      var n := |m| - 1;
      var front, d := m[..n], m[n];
      assert forall c <- front :: c in m;
      assert m == front + [d];
      PackIs(front);
      PackSnoc(front, d);
      DigitsBound(front);
      DigitsSnoc(front, d);
      OneMore(Digits(front), n, d);
    }
  }

  lemma ShrDigit(r: nat, d: nat, k: nat)
    requires r < 8
    ensures Shr(r + 8 * d, k + 3) == Shr(d, k)
  {
    var x := r + 8 * d;
    assert Shr(x, k + 3) == Shr(x / 2, k + 2);
    assert Shr(x / 2, k + 2) == Shr(x / 2 / 2, k + 1);
    assert Shr(x / 2 / 2, k + 1) == Shr(x / 2 / 2 / 2, k);
    assert x / 2 / 2 / 2 == d;
  }

  lemma {:induction false} DigitAt(m: seq<nat>, i: nat)
    requires InRange(m) && i < |m|
    ensures Shr(Digits(m), 3 * i) % 8 == m[i]
    decreases i
  {
    assert m[0] in m;
    if i > 0 {
      assert forall c <- m[1..] :: c in m;
      DigitAt(m[1..], i - 1);
      ShrDigit(m[0], Digits(m[1..]), 3 * (i - 1));
    }
  }

  lemma UnpackIs(reg: nat, i: nat)
    ensures UnpackAt(reg, i) == Shr(reg, 3 * i) % 8
  {
    assert Pow2(3) == 8;
    AndLowMask(Shr(reg, 3 * i), 3);
  }

  /** What is packed is read back. */
  lemma RoundTrip(m: seq<nat>, i: nat)
    requires InRange(m) && i < |m|
    ensures UnpackAt(Pack(m), i) == m[i]
  {
    UnpackIs(Pack(m), i);
    PackIs(m);
    DigitAt(m, i);
  }

  /** The map loop of ixgbe_dcb_config_rx_arbiter_82599 and of the Tx data arbiter. */
  method WriteMap(m: array<nat>) returns (reg: nat)
    ensures reg == Pack(m[..])
  {
    reg := 0;
    for i := 0 to m.Length
      invariant reg == Pack(m[..i])
    {
      PackSnoc(m[..i], m[i]);
      assert m[..i + 1] == m[..i] + [m[i]];
      reg := Or(reg, m[i] * Pow2(3 * i));
    }
    assert m[..m.Length] == m[..];
  }

  /** ixgbe_dcb_get_rtrup2tc_generic */
  method ReadMap(reg: nat) returns (m: array<nat>)
    ensures fresh(m) && m.Length == PRIORITIES && forall i: nat | i < PRIORITIES :: m[i] == UnpackAt(reg, i)
  {
    m := new nat[PRIORITIES];
    for i := 0 to PRIORITIES
      invariant forall j: nat | j < i :: m[j] == UnpackAt(reg, j)
    {
      m[i] := And(Shr(reg, 3 * i), 7);
    }
  }

  /** The map built from the bitmaps, written and read back is unchanged. */
  method MapThroughHardware(bitmaps: seq<set<nat>>, tcs: nat) returns (built: array<nat>, read: array<nat>)
    requires tcs <= |bitmaps| && tcs <= CLASSES
    ensures IsMap(bitmaps, tcs, built[..]) && read[..] == built[..]
  {
    built := UnpackMap(bitmaps, tcs);
    var reg := WriteMap(built);
    read := ReadMap(reg);
    forall i: nat | i < PRIORITIES ensures UnpackAt(reg, i) == built[i] { RoundTrip(built[..], i); }
  }

  // ---- flow control ----

  /** The priorities whose class has PFC enabled. */
  ghost predicate PfcBits(pfc: seq<bool>, m: seq<nat>, bits: set<nat>)
    requires forall c <- m :: c < |pfc|
  {
    forall up: nat :: up in bits <==> up < |m| && (assert m[up] in m; pfc[m[up]])
  }

  /** ixgbe_dcb_unpack_pfc_cee */
  method UnpackPfc(pfc: seq<bool>, m: seq<nat>) returns (bits: set<nat>)
    requires forall c <- m :: c < |pfc|
    ensures PfcBits(pfc, m, bits)
  {
    bits := {};
    for up := 0 to |m|
      invariant forall u: nat :: u in bits <==> u < up && (assert m[u] in m; pfc[m[u]])
    {
      assert m[up] in m;
      if pfc[m[up]] { bits := bits + {up}; }
    }
  }

  /** A priority of class `i` has PFC. */
  predicate Enabled(bits: set<nat>, m: seq<nat>, i: nat) {
    exists j: nat | j < |m| :: m[j] == i && j in bits
  }

  const XONE: nat := 0x8000_0000       // IXGBE_FCRTL_XONE, IXGBE_FCRTH_FCEN

  /** A water mark in KB with the enable bit. */
  function Marked(kb: nat): nat {
    Or(kb * 1024 % 0x1_0000_0000, XONE)
  }

  /** The low threshold of a class. */
  function LowThreshold(bits: set<nat>, m: seq<nat>, low: nat, i: nat): nat {
    if Enabled(bits, m, i) then Marked(low) else 0
  }

  /** A class has a low threshold exactly when its PFC is on and a priority maps to it. */
  lemma ThresholdIff(pfc: seq<bool>, m: seq<nat>, bits: set<nat>, low: nat, i: nat)
    requires (forall c <- m :: c < |pfc|) && PfcBits(pfc, m, bits) && i < |pfc|
    ensures LowThreshold(bits, m, low, i) != 0 <==> pfc[i] && i in m
  {
    if pfc[i] && i in m {
      var j: nat :| j < |m| && m[j] == i;
      assert j in bits;
    }
  }

  method Highest(m: seq<nat>) returns (max: nat)
    ensures forall c <- m :: c <= max
    ensures max == 0 || max in m
  {
    max := 0;
    for i := 0 to |m|
      invariant forall c <- m[..i] :: c <= max
      invariant max == 0 || max in m
    {
      assert m[..i + 1] == m[..i] + [m[i]];
      if m[i] > max { max := m[i]; }
    }
    assert m[..|m|] == m;
  }

  method IsEnabled(bits: set<nat>, m: seq<nat>, i: nat) returns (on: bool)
    ensures on == Enabled(bits, m, i)
  {
    for j := 0 to |m|
      invariant forall k: nat | k < j :: !(m[k] == i && k in bits)
    {
      if m[j] == i && j in bits { return true; }
    }
    on := false;
  }

  /** The high threshold: with PFC the water mark, else the buffer size less 24 KB for a
      class up to the highest in use, and 0 above. */
  function HighThreshold(bits: set<nat>, m: seq<nat>, high: nat, buffer: nat, i: nat): nat {
    if Enabled(bits, m, i) then Marked(high)
    else if i == 0 || exists c <- m :: i <= c then (buffer + 0x1_0000_0000 - 24576) % 0x1_0000_0000
    else 0
  }

  lemma MarkRead(kb: nat)
    requires kb < 0x20_0000
    ensures Marked(kb) / XONE == 1 && Marked(kb) % XONE / 1024 == kb
  {
    MarkIs(kb);
    DivIs(Marked(kb), XONE, 1, kb * 1024);
    DivIs(kb * 1024, 1024, kb, 0);
  }

  lemma Power31()
    ensures Pow2(31) == XONE
  {
    Pow2Sum(15, 15);
    assert Pow2(15) == 0x8000 && Pow2(31) == 2 * Pow2(30);
  }

  lemma EnableApart(x: nat, bit: nat)
    requires x < bit == Pow2(31)
    ensures Or(x, bit) == x + bit
  {
    OrApart(x, 31, 1, bit);
  }

  lemma MarkIs(kb: nat)
    requires kb < 0x20_0000
    ensures Marked(kb) == XONE + kb * 1024
  {
    var x := kb * 1024;
    DivIs(x, 0x1_0000_0000, 0, x);
    Power31();
    EnableApart(x, XONE);
  }

  /** The registers read back: the enable bit and the water marks in KB of a class with PFC,
      24 KB below the buffer size for another class in use, and nothing for the rest. */
  lemma ThresholdsRead(bits: set<nat>, m: seq<nat>, low: nat, high: nat, buffer: nat, i: nat)
    requires low < 0x20_0000 && high < 0x20_0000 && 24576 <= buffer < 0x1_0000_0000
    ensures var l, h := LowThreshold(bits, m, low, i), HighThreshold(bits, m, high, buffer, i);
            if Enabled(bits, m, i) then l / XONE == h / XONE == 1 && l % XONE / 1024 == low && h % XONE / 1024 == high
            else l == 0 && h == if i == 0 || exists c <- m :: i <= c then buffer - 24576 else 0
  {
    MarkRead(low);
    MarkRead(high);
  }

  /** One class up to the highest in use; `buffer` is its packet buffer size. */
  method ConfigClass(bits: set<nat>, m: seq<nat>, low: nat, high: nat, buffer: nat, i: nat)
    returns (fcrtl: nat, fcrth: nat)
    requires i == 0 || exists c <- m :: i <= c
    ensures fcrtl == LowThreshold(bits, m, low, i) && fcrth == HighThreshold(bits, m, high, buffer, i)
  {
    var on := IsEnabled(bits, m, i);
    if on {
      fcrth := Or(high * 1024 % 0x1_0000_0000, XONE);
      fcrtl := Or(low * 1024 % 0x1_0000_0000, XONE);
    } else {
      fcrth := (buffer + 0x1_0000_0000 - 24576) % 0x1_0000_0000;
      fcrtl := 0;
    }
  }

  /** The threshold loops of ixgbe_dcb_config_pfc_82599. */
  method ConfigThresholds(bits: set<nat>, m: seq<nat>, low: seq<nat>, high: seq<nat>, buffer: seq<nat>,
                          fcrtl: array<nat>, fcrth: array<nat>)
    requires InRange(m) && |low| == |high| == |buffer| == fcrtl.Length == fcrth.Length == CLASSES && fcrtl != fcrth
    modifies fcrtl, fcrth
    ensures forall i: nat | i < CLASSES :: fcrtl[i] == LowThreshold(bits, m, low[i], i)
    ensures forall i: nat | i < CLASSES :: fcrth[i] == HighThreshold(bits, m, high[i], buffer[i], i)
  {
    var max := Highest(m);
    var i := 0;
    while i <= max
      invariant 0 <= i <= max + 1 <= CLASSES
      invariant forall k: nat | k < i :: fcrtl[k] == LowThreshold(bits, m, low[k], k)
      invariant forall k: nat | k < i :: fcrth[k] == HighThreshold(bits, m, high[k], buffer[k], k)
    {
      fcrtl[i], fcrth[i] := ConfigClass(bits, m, low[i], high[i], buffer[i], i);
      i := i + 1;
    }
    while i < CLASSES
      invariant max < i <= CLASSES
      invariant forall k: nat | k < i :: fcrtl[k] == LowThreshold(bits, m, low[k], k)
      invariant forall k: nat | k < i :: fcrth[k] == HighThreshold(bits, m, high[k], buffer[k], k)
    {
      NoneAbove(bits, m, max, i);
      fcrtl[i] := 0;
      fcrth[i] := 0;
      i := i + 1;
    }
  }

  lemma NoneAbove(bits: set<nat>, m: seq<nat>, max: nat, i: nat)
    requires max < i && forall c <- m :: c <= max
    ensures !Enabled(bits, m, i)
  {
    assert forall j: nat | j < |m| :: m[j] in m;
  }
}
