/** The VLAN pool filter: VFTA (one bit per VLAN), VLVF (64 slots naming a VLAN)
    and VLVFB (two pool bitmaps per slot).  A 32-bit bitmap register is the set
    of positions of its 1 bits: `|`, `& ~` and `^` are `+`, `-` and symmetric
    difference.  A VLVF register is a number; as every VLAN written there is at
    most 4095, `IXGBE_VLVF_VIEN | vlan` is `VIEN + vlan`. */
module Vlan {

  const VLVF_ENTRIES: nat := 64
  const VFT_SIZE: nat := 128
  const VIEN: nat := 0x8000_0000
  const MAX_VLAN: nat := 4095
  const MAX_POOL: nat := 63

  const SUCCESS: int := 0
  const ERR_PARAM: int := -5
  const ERR_NO_SPACE: int := -25

  type Bitmap = set<nat>

  /** The three register arrays, and the VT-enable bit of VT_CTL. */
  datatype Regs = Regs(vfta: seq<Bitmap>, vlvf: seq<nat>, vlvfb: seq<Bitmap>, vt: bool) {
    predicate Shape() {
      |vfta| == VFT_SIZE && |vlvf| == VLVF_ENTRIES && |vlvfb| == 2 * VLVF_ENTRIES
    }

    predicate PoolBit(s: nat, p: nat)
      requires Shape() && s < VLVF_ENTRIES && p <= MAX_POOL
    {
      p % 32 in vlvfb[2 * s + p / 32]
    }

    predicate VftaBit(v: nat)
      requires Shape() && v <= MAX_VLAN
    {
      v % 32 in vfta[v / 32]
    }
  }

  // ---- register writes ----

  datatype Write = Vfta(i: nat, bits: Bitmap) | Vlvf(i: nat, value: nat) | Vlvfb(i: nat, bits: Bitmap)

  predicate InRange(w: Write) {
    match w
    case Vfta(i, _) => i < VFT_SIZE
    case Vlvf(i, _) => i < VLVF_ENTRIES
    case Vlvfb(i, _) => i < 2 * VLVF_ENTRIES
  }

  function Apply(r: Regs, w: Write): (r': Regs)
    requires r.Shape() && InRange(w)
    ensures r'.Shape() && r'.vt == r.vt
  {
    match w
    case Vfta(i, b) => r.(vfta := r.vfta[i := b])
    case Vlvf(i, x) => r.(vlvf := r.vlvf[i := x])
    case Vlvfb(i, b) => r.(vlvfb := r.vlvfb[i := b])
  }

  predicate AllInRange(ws: seq<Write>) {
    forall w <- ws :: InRange(w)
  }

  /** The registers after the writes `ws`, oldest first. */
  function ApplyAll(r: Regs, ws: seq<Write>): (r': Regs)
    requires r.Shape() && AllInRange(ws)
    ensures r'.Shape() && r'.vt == r.vt
    decreases |ws|
  {
    if ws == [] then r
    else ApplyAll(Apply(r, ws[0]), ws[1..])
  }

  // ---- the driver's calls, as the register writes they make ----

  /** Slots `hi` down to 1: the slot holding `want`, else the first zero slot met, else `empty`. */
  function Search(vlvf: seq<nat>, want: nat, hi: nat, empty: int): (s: int)
    requires hi < |vlvf|
    ensures s == empty || s <= hi
  {
    if hi == 0 then (if empty != 0 then empty else ERR_NO_SPACE)
    else if vlvf[hi] == want then hi
    else Search(vlvf, want, hi - 1, if empty == 0 && vlvf[hi] == 0 then hi else empty)
  }

  function FindSlot(r: Regs, vlan: nat, bypass: bool): (s: int)
    requires r.Shape()
    ensures s < VLVF_ENTRIES
  {
    if vlan == 0 then 0
    else Search(r.vlvf, VIEN + vlan, VLVF_ENTRIES - 1, if bypass then ERR_NO_SPACE else 0)
  }

  /** The search returns the slot holding the VLAN; failing that a zero slot, or no slot. */
  lemma {:induction false} SearchMeaning(vlvf: seq<nat>, want: nat, hi: nat, empty: int)
    requires hi < |vlvf| && want != 0
    ensures var s := Search(vlvf, want, hi, empty);
            if exists k :: 0 < k <= hi && vlvf[k] == want
            then 0 < s <= hi && vlvf[s] == want
            else if empty != 0 then s == empty
            else if exists k :: 0 < k <= hi && vlvf[k] == 0
            then 0 < s <= hi && vlvf[s] == 0
            else s == ERR_NO_SPACE
  {
    if hi != 0 && vlvf[hi] != want {
      SearchMeaning(vlvf, want, hi - 1, if empty == 0 && vlvf[hi] == 0 then hi else empty);
    }
  }

  datatype SlotOutcome = SlotOutcome(status: int, delta: Bitmap, writes: seq<Write>)

  /** ixgbe_set_vlvf_generic: status, the possibly cleared VFTA difference, and the writes. */
  function SetVlvf(r: Regs, vlan: nat, vind: nat, on: bool, delta: Bitmap, vfta: Bitmap, bypass: bool): (o: SlotOutcome)
    requires r.Shape()
  {
    if vlan > MAX_VLAN || vind > MAX_POOL then SlotOutcome(ERR_PARAM, delta, [])
    else if !r.vt then SlotOutcome(SUCCESS, delta, [])
    else
      var s := FindSlot(r, vlan, bypass);
      if s < 0 then SlotOutcome(s, delta, [])
      else
        var reg := s * 2 + vind / 32;
        var other := s * 2 + 1 - vind / 32;
        if on then
          SlotOutcome(SUCCESS, delta, [Vlvfb(reg, r.vlvfb[reg] + {vind % 32}), Vlvf(s, VIEN + vlan)])
        else if r.vlvfb[reg] - {vind % 32} == {} && r.vlvfb[other] == {} then
          SlotOutcome(SUCCESS, delta,
                      (if delta != {} then [Vfta(vlan / 32, vfta)] else []) + [Vlvf(s, 0), Vlvfb(reg, {})])
        else
          SlotOutcome(SUCCESS, {}, [Vlvfb(reg, r.vlvfb[reg] - {vind % 32}), Vlvf(s, VIEN + vlan)])
  }

  datatype Outcome = Outcome(status: int, writes: seq<Write>)

  /** ixgbe_set_vfta_generic. */
  function SetVfta(r: Regs, vlan: nat, vind: nat, on: bool, bypass: bool): (o: Outcome)
    requires r.Shape()
  {
    if vlan > MAX_VLAN || vind > MAX_POOL then Outcome(ERR_PARAM, [])
    else
      var was := r.vfta[vlan / 32];
      var delta := if on then {vlan % 32} - was else {vlan % 32} * was;
      var now := if on then was + delta else was - delta;
      var o := SetVlvf(r, vlan, vind, on, delta, now, bypass);
      if o.status != SUCCESS && !bypass then Outcome(o.status, o.writes)
      else Outcome(SUCCESS, o.writes + (if o.delta != {} then [Vfta(vlan / 32, now)] else []))
  }

  // ---- what the registers mean ----

  /** Slot `s` is enabled for VLAN `v`. */
  ghost predicate Holds(r: Regs, s: nat, v: nat)
    requires r.Shape()
  {
    s < VLVF_ENTRIES && r.vlvf[s] == VIEN + v
  }

  ghost predicate HasSlot(r: Regs, v: nat)
    requires r.Shape()
  {
    exists s :: Holds(r, s, v)
  }

  /** The (VLAN, pool) pairs the filter lets through. */
  ghost predicate Member(r: Regs, v: nat, p: nat)
    requires r.Shape() && p <= MAX_POOL
  {
    exists s :: Holds(r, s, v) && r.PoolBit(s, p)
  }

  predicate Unpooled(r: Regs, s: nat)
    requires r.Shape() && s < VLVF_ENTRIES
  {
    r.vlvfb[2 * s] == {} && r.vlvfb[2 * s + 1] == {}
  }

  /** The table is well formed: a slot is enabled exactly when it has a pool, no
      VLAN has two slots, and slot 0 is VLAN 0's. */
  ghost predicate Inv(r: Regs) {
    && r.Shape()
    && (forall i, b :: 0 <= i < |r.vlvfb| && b in r.vlvfb[i] ==> b < 32)
    && (forall s :: 0 <= s < VLVF_ENTRIES ==> r.vlvf[s] == 0 || VIEN <= r.vlvf[s] <= VIEN + MAX_VLAN)
    && (forall s, t :: 0 <= s < t < VLVF_ENTRIES && r.vlvf[s] == r.vlvf[t] ==> r.vlvf[s] == 0)
    && (forall s :: 0 <= s < VLVF_ENTRIES ==> (r.vlvf[s] == 0 <==> Unpooled(r, s)))
    && (forall s :: 0 <= s < VLVF_ENTRIES ==> (r.vlvf[s] == VIEN ==> s == 0))
    && r.vlvf[0] in {0, VIEN}
  }

  /** Slot `s` after VLAN `v` gained (`on`) or lost pool `p` there. */
  function Slotted(r: Regs, s: nat, v: nat, p: nat, on: bool): (r': Regs)
    requires r.Shape() && s < VLVF_ENTRIES && p <= MAX_POOL
    ensures r'.Shape()
  {
    var reg := 2 * s + p / 32;
    var bits := WithBit(r.vlvfb[reg], p % 32, on);
    var gone := bits == {} && r.vlvfb[2 * s + 1 - p / 32] == {};
    r.(vlvfb := r.vlvfb[reg := bits], vlvf := r.vlvf[s := if gone then 0 else VIEN + v])
  }

  ghost predicate Usable(r: Regs, s: nat, v: nat)
    requires r.Shape()
  {
    && s < VLVF_ENTRIES && v <= MAX_VLAN && (s == 0 <==> v == 0)
    && (Holds(r, s, v) || (r.vlvf[s] == 0 && !HasSlot(r, v)))
  }

  /** What the update does, slot by slot. */
  lemma SlottedFrame(r: Regs, s: nat, v: nat, p: nat, on: bool)
    requires r.Shape() && s < VLVF_ENTRIES && p <= MAX_POOL
    ensures var r' := Slotted(r, s, v, p, on);
            && (forall t :: 0 <= t < VLVF_ENTRIES && t != s ==> r'.vlvf[t] == r.vlvf[t])
            && (forall t :: 0 <= t < VLVF_ENTRIES && t != s ==> Unpooled(r', t) == Unpooled(r, t))
            && (forall t, q :: 0 <= t < VLVF_ENTRIES && 0 <= q <= MAX_POOL ==>
                  (r'.PoolBit(t, q) <==> if t == s && q == p then on else r.PoolBit(t, q)))
            && r'.vlvf[s] == (if Unpooled(r', s) then 0 else VIEN + v)
  {
    forall t, q | 0 <= t < VLVF_ENTRIES && 0 <= q <= MAX_POOL
      ensures Slotted(r, s, v, p, on).PoolBit(t, q) <==> if t == s && q == p then on else r.PoolBit(t, q)
    {
      if t == s && q / 32 == p / 32 && q % 32 == p % 32 { assert q == p; }
    }
  }

  lemma SlottedKeepsInv(r: Regs, s: nat, v: nat, p: nat, on: bool)
    requires Inv(r) && Usable(r, s, v) && p <= MAX_POOL
    ensures Inv(Slotted(r, s, v, p, on))
  {
    var r' := Slotted(r, s, v, p, on);
    SlottedFrame(r, s, v, p, on);
    forall t | 0 <= t < VLVF_ENTRIES && t != s ensures r.vlvf[t] != VIEN + v {
      assert !Holds(r, t, v);
    }
  }

  lemma HasPool(r: Regs, s: nat, p: nat)
    requires r.Shape() && s < VLVF_ENTRIES && p <= MAX_POOL && r.PoolBit(s, p)
    ensures !Unpooled(r, s)
  {
    assert p / 32 == 0 || p / 32 == 1;
  }

  /** The slot update changes the pair (v, p) and no other. */
  lemma SlottedPair(r: Regs, s: nat, v: nat, p: nat, on: bool, v': nat, p': nat)
    requires Inv(r) && Usable(r, s, v) && p <= MAX_POOL && p' <= MAX_POOL && v' <= MAX_VLAN
    ensures Member(Slotted(r, s, v, p, on), v', p') <==> if v' == v && p' == p then on else Member(r, v', p')
  {
    var r' := Slotted(r, s, v, p, on);
    SlottedFrame(r, s, v, p, on);
    if v' == v && p' == p {
      if on {
        HasPool(r', s, p);
        assert Holds(r', s, v);
      }
      if t :| Holds(r', t, v) && r'.PoolBit(t, p) {
        if t != s { assert Holds(r, t, v); }
      }
    } else {
      if t :| Holds(r, t, v') && r.PoolBit(t, p') {
        HasPool(r', t, p');
        assert Holds(r', t, v');
      }
      if t :| Holds(r', t, v') && r'.PoolBit(t, p') {
        HasPool(r, t, p');
        assert Holds(r, t, v');
      }
    }
  }

  // ---- one call ----

  lemma SlotChoice(r: Regs, v: nat, bypass: bool)
    requires Inv(r) && v <= MAX_VLAN
    ensures var s := FindSlot(r, v, bypass);
            && (s >= 0 ==> Usable(r, s, v) && (bypass && v != 0 ==> Holds(r, s, v)))
            && (s < 0 ==> s == ERR_NO_SPACE && v != 0 && !HasSlot(r, v))
            && (s < 0 <==> v != 0 && !HasSlot(r, v) && (bypass || !Room(r)))
  {
    if v != 0 {
      SearchMeaning(r.vlvf, VIEN + v, VLVF_ENTRIES - 1, if bypass then ERR_NO_SPACE else 0);
      var s := FindSlot(r, v, bypass);
      if t: nat :| Holds(r, t, v) { assert 0 < t && r.vlvf[t] == VIEN + v; }
      if k :| 0 < k <= VLVF_ENTRIES - 1 && r.vlvf[k] == VIEN + v { assert Holds(r, k, v); }
    } else if r.vlvf[0] != 0 {
      assert Holds(r, 0, 0);
    }
  }

  /** Some slot other than 0 is free. */
  ghost predicate Room(r: Regs)
    requires r.Shape()
  {
    exists s :: 0 < s < VLVF_ENTRIES && r.vlvf[s] == 0
  }

  function WithBit(b: Bitmap, i: nat, on: bool): (b': Bitmap)
    ensures (i in b <==> on) ==> b' == b
  {
    if on then b + {i} else b - {i}
  }

  function Marked(r: Regs, v: nat, on: bool): (r': Regs)
    requires r.Shape() && v <= MAX_VLAN
    ensures r'.Shape()
  {
    r.(vfta := r.vfta[v / 32 := WithBit(r.vfta[v / 32], v % 32, on)])
  }

  lemma MarkedBit(r: Regs, v: nat, on: bool, v': nat)
    requires r.Shape() && v <= MAX_VLAN && v' <= MAX_VLAN
    ensures Marked(r, v, on).VftaBit(v') <==> if v' == v then on else r.VftaBit(v')
  {
    if v' / 32 == v / 32 && v' % 32 == v % 32 { assert v' == v; }
  }

  lemma ApplyCons(r: Regs, w: Write, ws: seq<Write>)
    requires r.Shape() && InRange(w) && AllInRange(ws)
    ensures AllInRange([w] + ws)
    ensures ApplyAll(r, [w] + ws) == ApplyAll(Apply(r, w), ws)
  {
    assert ([w] + ws)[0] == w && ([w] + ws)[1..] == ws;
  }

  lemma {:induction false} ApplyConcat(r: Regs, a: seq<Write>, b: seq<Write>)
    requires r.Shape() && AllInRange(a) && AllInRange(b)
    ensures AllInRange(a + b) && ApplyAll(r, a + b) == ApplyAll(ApplyAll(r, a), b)
    decreases |a|
  {
    if a == [] {
      assert a + b == b;
    } else {
      assert (a + b)[1..] == a[1..] + b;
      ApplyConcat(Apply(r, a[0]), a[1..], b);
    }
  }

  /** The registers a successful call leaves when the VLAN has, or gets, slot `s`. */
  function Target(r: Regs, s: nat, v: nat, p: nat, on: bool): (r': Regs)
    requires r.Shape() && s < VLVF_ENTRIES && v <= MAX_VLAN && p <= MAX_POOL
    ensures r'.Shape()
  {
    var r1 := Slotted(r, s, v, p, on);
    if on || Unpooled(r1, s) then Marked(r1, v, on) else r1
  }

  /** The VFTA write a call makes when the VLAN's bit has to change. */
  function MarkWrites(r: Regs, v: nat, on: bool): (ws: seq<Write>)
    requires r.Shape() && v <= MAX_VLAN
    ensures AllInRange(ws) && |ws| <= 1
  {
    if r.VftaBit(v) == on then [] else [Vfta(v / 32, Marked(r, v, on).vfta[v / 32])]
  }

  lemma MarkWritesMark(r: Regs, r1: Regs, v: nat, on: bool)
    requires r.Shape() && r1.Shape() && v <= MAX_VLAN && r1.vfta in [r.vfta, Marked(r, v, on).vfta]
    ensures ApplyAll(r1, MarkWrites(r, v, on)) == Marked(r1, v, on)
  {
    var ws := MarkWrites(r, v, on);
    if ws == [] {
      assert Marked(r1, v, on).vfta == r1.vfta;
    } else {
      assert ws == [ws[0]] + [];
      ApplyCons(r1, ws[0], []);
      assert Marked(Marked(r, v, on), v, on).vfta == Marked(r, v, on).vfta;
    }
  }

  /** The writes of a call that has slot `s`, spelled out. */
  function SlotWrites(r: Regs, s: nat, v: nat, p: nat, on: bool): (ws: seq<Write>)
    requires r.Shape() && s < VLVF_ENTRIES && v <= MAX_VLAN && p <= MAX_POOL
    ensures AllInRange(ws)
  {
    var r1 := Slotted(r, s, v, p, on);
    var pool := Vlvfb(2 * s + p / 32, r1.vlvfb[2 * s + p / 32]);
    var slot := Vlvf(s, r1.vlvf[s]);
    if on then [pool] + ([slot] + MarkWrites(r, v, true))
    else if Unpooled(r1, s) then MarkWrites(r, v, false) + ([slot] + ([pool] + MarkWrites(r, v, false)))
    else [pool] + ([slot] + [])
  }

  /** The XOR difference the driver computes is what has to change, or empty. */
  lemma Delta(r: Regs, v: nat, on: bool)
    requires r.Shape() && v <= MAX_VLAN
    ensures var was := r.vfta[v / 32];
            var delta := if on then {v % 32} - was else {v % 32} * was;
            MarkWrites(r, v, on)
            == if delta != {} then [Vfta(v / 32, if on then was + delta else was - delta)] else []
  {
    var was := r.vfta[v / 32];
    var delta := if on then {v % 32} - was else {v % 32} * was;
    if r.VftaBit(v) == on {
      assert delta == {};
    } else {
      assert delta == {v % 32};
    }
  }

  lemma OnWrites(r: Regs, v: nat, p: nat, bypass: bool)
    requires r.Shape() && r.vt && v <= MAX_VLAN && p <= MAX_POOL && FindSlot(r, v, bypass) >= 0
    ensures SetVfta(r, v, p, true, bypass) == Outcome(SUCCESS, SlotWrites(r, FindSlot(r, v, bypass), v, p, true))
  {
    Delta(r, v, true);
    var s: nat := FindSlot(r, v, bypass);
    var reg := s * 2 + p / 32;
    var r1 := Slotted(r, s, v, p, true);
    var pool, slot := Vlvfb(reg, r1.vlvfb[reg]), Vlvf(s, r1.vlvf[s]);
    assert [pool, slot] + MarkWrites(r, v, true) == [pool] + ([slot] + MarkWrites(r, v, true));
  }

  lemma OffWrites(r: Regs, v: nat, p: nat, bypass: bool)
    requires r.Shape() && r.vt && v <= MAX_VLAN && p <= MAX_POOL && FindSlot(r, v, bypass) >= 0
    ensures SetVfta(r, v, p, false, bypass) == Outcome(SUCCESS, SlotWrites(r, FindSlot(r, v, bypass), v, p, false))
  {
    Delta(r, v, false);
    var s: nat := FindSlot(r, v, bypass);
    var reg := s * 2 + p / 32;
    var mark := MarkWrites(r, v, false);
    var r1 := Slotted(r, s, v, p, false);
    var pool, slot := Vlvfb(reg, r1.vlvfb[reg]), Vlvf(s, r1.vlvf[s]);
    assert p / 32 == 0 || p / 32 == 1;
    if Unpooled(r1, s) {
      assert (mark + [slot, pool]) + mark == mark + ([slot] + ([pool] + mark));
    } else {
      assert [pool, slot] + [] == [pool] + ([slot] + []);
    }
  }

  lemma CallWrites(r: Regs, v: nat, p: nat, on: bool, bypass: bool)
    requires r.Shape() && r.vt && v <= MAX_VLAN && p <= MAX_POOL && FindSlot(r, v, bypass) >= 0
    ensures SetVfta(r, v, p, on, bypass) == Outcome(SUCCESS, SlotWrites(r, FindSlot(r, v, bypass), v, p, on))
  {
    if on { OnWrites(r, v, p, bypass); } else { OffWrites(r, v, p, bypass); }
  }

  lemma SlotWritesTarget(r: Regs, s: nat, v: nat, p: nat, on: bool)
    requires r.Shape() && s < VLVF_ENTRIES && v <= MAX_VLAN && p <= MAX_POOL
    ensures ApplyAll(r, SlotWrites(r, s, v, p, on)) == Target(r, s, v, p, on)
  {
    var r1 := Slotted(r, s, v, p, on);
    var pool := Vlvfb(2 * s + p / 32, r1.vlvfb[2 * s + p / 32]);
    var slot := Vlvf(s, r1.vlvf[s]);
    if on {
      var tail := MarkWrites(r, v, true);
      ApplyCons(r, pool, [slot] + tail);
      ApplyCons(Apply(r, pool), slot, tail);
      MarkWritesMark(r, r1, v, true);
    } else if Unpooled(r1, s) {
      var mark := MarkWrites(r, v, false);
      var r2 := Marked(r, v, false);
      MarkWritesMark(r, r, v, false);
      ApplyConcat(r, mark, [slot] + ([pool] + mark));
      ApplyCons(r2, slot, [pool] + mark);
      ApplyCons(Apply(r2, slot), pool, mark);
      MarkWritesMark(r, Apply(Apply(r2, slot), pool), v, false);
    } else {
      ApplyCons(r, pool, [slot] + []);
      ApplyCons(Apply(r, pool), slot, []);
    }
  }

  // ---- the abstract filter ----

  /** What the filter is for: which pools receive a VLAN, and which VLANs pass at all. */
  datatype Filter = Filter(pairs: set<(nat, nat)>, enabled: set<nat>) {
    function Vlans(): set<nat> {
      set q | q in pairs :: q.0
    }
  }

  /** A filter with room for VLAN 0 and 63 others, no registers involved. */
  function FilterSet(f: Filter, vt: bool, v: nat, p: nat, on: bool, bypass: bool): (int, Filter) {
    if v > MAX_VLAN || p > MAX_POOL then (ERR_PARAM, f)
    else if !vt then (SUCCESS, f.(enabled := WithBit(f.enabled, v, on)))
    else if v == 0 || v in f.Vlans() || (!bypass && |f.Vlans() - {0}| < VLVF_ENTRIES - 1) then
      var f' := f.(pairs := if on then f.pairs + {(v, p)} else f.pairs - {(v, p)});
      (SUCCESS, if on || v !in f'.Vlans() then f'.(enabled := WithBit(f.enabled, v, on)) else f')
    else if bypass then (SUCCESS, f.(enabled := WithBit(f.enabled, v, on)))
    else (ERR_NO_SPACE, f)
  }

  ghost function View(r: Regs): (f: Filter)
    requires r.Shape()
  {
    Filter(set v: nat, p: nat | v <= MAX_VLAN && p <= MAX_POOL && Member(r, v, p) :: (v, p),
           set v: nat | v <= MAX_VLAN && r.VftaBit(v))
  }

  lemma SlotIffVlan(r: Regs, v: nat)
    requires Inv(r)
    ensures v in View(r).Vlans() <==> HasSlot(r, v)
  {
    if v in View(r).Vlans() {
      var q :| q in View(r).pairs && q.0 == v;
      assert Member(r, v, q.1);
    }
    if s: nat :| Holds(r, s, v) {
      assert !Unpooled(r, s);
      var p: nat := if r.vlvfb[2 * s] != {} then (var b :| b in r.vlvfb[2 * s]; b)
                    else (var b :| b in r.vlvfb[2 * s + 1]; b + 32);
      assert r.PoolBit(s, p);
      assert Member(r, v, p);
      assert (v, p) in View(r).pairs;
    }
  }

  /** The VLANs named by slots 1 to k - 1. */
  function Named(vlvf: seq<nat>, k: nat): set<int>
    requires k <= |vlvf|
  {
    if k <= 1 then {}
    else if vlvf[k - 1] == 0 then Named(vlvf, k - 1)
    else Named(vlvf, k - 1) + {vlvf[k - 1] - VIEN}
  }

  lemma {:induction false} NamedIff(vlvf: seq<nat>, k: nat, v: int)
    requires k <= |vlvf| && VIEN + v > 0
    ensures v in Named(vlvf, k) <==> exists s :: 0 < s < k && vlvf[s] == VIEN + v
  {
    if k > 1 {
      NamedIff(vlvf, k - 1, v);
    }
  }

  lemma {:induction false} NamedCount(vlvf: seq<nat>, k: nat)
    requires 0 < k <= |vlvf|
    requires forall s, t :: 0 <= s < t < |vlvf| && vlvf[s] == vlvf[t] ==> vlvf[s] == 0
    ensures |Named(vlvf, k)| <= k - 1
    ensures |Named(vlvf, k)| < k - 1 <==> exists s :: 0 < s < k && vlvf[s] == 0
  {
    if k > 1 {
      NamedCount(vlvf, k - 1);
      if vlvf[k - 1] != 0 {
        NamedIff(vlvf, k - 1, vlvf[k - 1] - VIEN);
      }
    }
  }

  /** A free slot exists exactly while fewer than 63 VLANs other than 0 are in use. */
  lemma RoomIffFew(r: Regs)
    requires Inv(r)
    ensures Room(r) <==> |View(r).Vlans() - {0}| < VLVF_ENTRIES - 1
  {
    var few: set<int> := View(r).Vlans() - {0};
    forall v: int ensures v in few <==> v in Named(r.vlvf, VLVF_ENTRIES) {
      FewIffNamed(r, v);
    }
    assert few == Named(r.vlvf, VLVF_ENTRIES);
    NamedCount(r.vlvf, VLVF_ENTRIES);
  }

  lemma FewIffNamed(r: Regs, v: int)
    requires Inv(r)
    ensures v in View(r).Vlans() - {0} <==> v in Named(r.vlvf, VLVF_ENTRIES)
  {
    if VIEN + v > 0 {
      NamedIff(r.vlvf, VLVF_ENTRIES, v);
    }
    if v < 0 {
      NamedNat(r, VLVF_ENTRIES, v);
    } else {
      SlotIffVlan(r, v);
      if v != 0 {
        if s: nat :| Holds(r, s, v) { assert 0 < s < VLVF_ENTRIES; }
        if s: nat :| 0 < s < VLVF_ENTRIES && r.vlvf[s] == VIEN + v { assert Holds(r, s, v); }
      }
    }
  }

  lemma {:induction false} NamedNat(r: Regs, k: nat, v: int)
    requires Inv(r) && k <= VLVF_ENTRIES && v < 0
    ensures v !in Named(r.vlvf, k)
  {
    if k > 1 { NamedNat(r, k - 1, v); }
  }

  // ---- refinement ----

  lemma SlottedView(r: Regs, s: nat, v: nat, p: nat, on: bool)
    requires Inv(r) && Usable(r, s, v) && p <= MAX_POOL
    ensures var r' := Slotted(r, s, v, p, on);
            View(r') == View(r).(pairs := if on then View(r).pairs + {(v, p)} else View(r).pairs - {(v, p)})
  {
    forall v': nat, p': nat | v' <= MAX_VLAN && p' <= MAX_POOL
      ensures Member(Slotted(r, s, v, p, on), v', p') <==> if v' == v && p' == p then on else Member(r, v', p')
    {
      SlottedPair(r, s, v, p, on, v', p');
    }
  }

  lemma MarkedView(r: Regs, v: nat, on: bool)
    requires Inv(r) && v <= MAX_VLAN
    ensures Inv(Marked(r, v, on))
    ensures View(Marked(r, v, on)) == View(r).(enabled := WithBit(View(r).enabled, v, on))
  {
    var r' := Marked(r, v, on);
    forall s: nat | s < VLVF_ENTRIES ensures Unpooled(r', s) == Unpooled(r, s) {}
    forall v': nat, p': nat | v' <= MAX_VLAN && p' <= MAX_POOL ensures Member(r', v', p') <==> Member(r, v', p') {
      MarkedMember(r, v, on, v', p');
    }
    forall v': nat | v' <= MAX_VLAN ensures r'.VftaBit(v') <==> if v' == v then on else r.VftaBit(v') {
      MarkedBit(r, v, on, v');
    }
    assert View(r').enabled == WithBit(View(r).enabled, v, on);
  }

  lemma TargetView(r: Regs, s: nat, v: nat, p: nat, on: bool)
    requires Inv(r) && Usable(r, s, v) && p <= MAX_POOL
    ensures var r1 := Slotted(r, s, v, p, on);
            var r' := Target(r, s, v, p, on);
            && Inv(r') && (v in View(r1).Vlans() <==> !Unpooled(r1, s))
            && View(r') == if on || Unpooled(r1, s) then View(r1).(enabled := WithBit(View(r).enabled, v, on))
                           else View(r1)
  {
    var r1 := Slotted(r, s, v, p, on);
    SlottedKeepsInv(r, s, v, p, on);
    SlottedView(r, s, v, p, on);
    MarkedView(r1, v, on);
    SlotIffVlan(r1, v);
    SlottedSlot(r, s, v, p, on);
  }

  lemma MarkedMember(r: Regs, v: nat, on: bool, v': nat, p': nat)
    requires r.Shape() && v <= MAX_VLAN && p' <= MAX_POOL
    ensures Member(Marked(r, v, on), v', p') <==> Member(r, v', p')
  {
    var r' := Marked(r, v, on);
    if s: nat :| Holds(r, s, v') && r.PoolBit(s, p') { assert Holds(r', s, v') && r'.PoolBit(s, p'); }
    if s: nat :| Holds(r', s, v') && r'.PoolBit(s, p') { assert Holds(r, s, v') && r.PoolBit(s, p'); }
  }

  lemma SlottedSlot(r: Regs, s: nat, v: nat, p: nat, on: bool)
    requires Inv(r) && Usable(r, s, v) && p <= MAX_POOL
    ensures var r' := Slotted(r, s, v, p, on);
            HasSlot(r', v) <==> !Unpooled(r', s)
  {
    var r' := Slotted(r, s, v, p, on);
    SlottedFrame(r, s, v, p, on);
    if !Unpooled(r', s) { assert Holds(r', s, v); }
    if t: nat :| Holds(r', t, v) && t != s { assert Holds(r, t, v); }
  }

  /** Every call, bypass or not, in VT mode or not, does to the registers exactly
      what `FilterSet` does to the filter they stand for, and keeps them well formed. */
  lemma SetVftaRefines(r: Regs, v: nat, p: nat, on: bool, bypass: bool)
    requires Inv(r)
    ensures var o := SetVfta(r, v, p, on, bypass);
            && AllInRange(o.writes)
            && Inv(ApplyAll(r, o.writes))
            && (o.status, View(ApplyAll(r, o.writes))) == FilterSet(View(r), r.vt, v, p, on, bypass)
  {
    var o := SetVfta(r, v, p, on, bypass);
    if v <= MAX_VLAN && p <= MAX_POOL {
      if r.vt {
        SlotChoice(r, v, bypass);
        SlotIffVlan(r, v);
        RoomIffFew(r);
      }
      if r.vt && FindSlot(r, v, bypass) >= 0 {
        CallWrites(r, v, p, on, bypass);
        SlotWritesTarget(r, FindSlot(r, v, bypass), v, p, on);
        TargetView(r, FindSlot(r, v, bypass), v, p, on);
        SlottedView(r, FindSlot(r, v, bypass), v, p, on);
      } else if !r.vt || bypass {
        MarkOnly(r, v, p, on, bypass);
        MarkedView(r, v, on);
      }
    }
  }

  /** A refused call writes nothing; it is refused for lack of space exactly when
      63 other VLANs are in use and the VLAN is neither 0 nor among them. */
  lemma RefusedWritesNothing(r: Regs, v: nat, p: nat, on: bool, bypass: bool)
    requires Inv(r)
    ensures var o := SetVfta(r, v, p, on, bypass);
            && (o.status != SUCCESS ==> o.writes == [])
            && (o.status == ERR_NO_SPACE <==>
                 && v <= MAX_VLAN && p <= MAX_POOL && r.vt && !bypass && v != 0 && v !in View(r).Vlans()
                 && |View(r).Vlans() - {0}| >= VLVF_ENTRIES - 1)
  {
    SetVftaRefines(r, v, p, on, bypass);
    if v <= MAX_VLAN && p <= MAX_POOL && r.vt && FindSlot(r, v, bypass) >= 0 {
      CallWrites(r, v, p, on, bypass);
    }
  }

  lemma FilterBypass(f: Filter, v: nat, p: nat, on: bool)
    requires v <= MAX_VLAN && p <= MAX_POOL
    ensures FilterSet(f, true, v, p, on, true).1.pairs != f.pairs
       <==> (v == 0 || v in f.Vlans()) && ((v, p) in f.pairs) != on
  {
    if on && (v, p) in f.pairs { assert f.pairs + {(v, p)} == f.pairs; }
    if !on && (v, p) !in f.pairs { assert f.pairs - {(v, p)} == f.pairs; }
  }

  /** A bypass call changes which pools VLANs have exactly when the VLAN already has a slot or
      is VLAN 0, and the pool is not as asked: slot 0 counts as present even while empty. */
  lemma BypassPairs(r: Regs, v: nat, p: nat, on: bool)
    requires Inv(r) && r.vt && v <= MAX_VLAN && p <= MAX_POOL
    ensures var o := SetVfta(r, v, p, on, true);
            AllInRange(o.writes)
            && ((View(ApplyAll(r, o.writes)).pairs != View(r).pairs)
                  <==> (v == 0 || HasSlot(r, v)) && ((v, p) in View(r).pairs) != on)
  {
    SetVftaRefines(r, v, p, on, true);
    FilterBypass(View(r), v, p, on);
    SlotIffVlan(r, v);
  }

  /** So a bypass call does add a VLAN 0 that has no slot. */
  lemma BypassZeroAddsSlot()
    ensures var r := Cleared(true);
            !HasSlot(r, 0) && AllInRange(SetVfta(r, 0, 7, true, true).writes)
            && HasSlot(ApplyAll(r, SetVfta(r, 0, 7, true, true).writes), 0)
  {
    var r := Cleared(true);
    SetVftaRefines(r, 0, 7, true, true);
    ClearedView(true);
    SlotIffVlan(r, 0);
    var r' := ApplyAll(r, SetVfta(r, 0, 7, true, true).writes);
    assert (0, 7) in View(r').pairs;
    SlotIffVlan(r', 0);
  }

  lemma MarkOnly(r: Regs, v: nat, p: nat, on: bool, bypass: bool)
    requires Inv(r) && v <= MAX_VLAN && p <= MAX_POOL
    requires !r.vt || (bypass && FindSlot(r, v, bypass) < 0)
    ensures var o := SetVfta(r, v, p, on, bypass);
            && o == Outcome(SUCCESS, MarkWrites(r, v, on))
            && ApplyAll(r, o.writes) == Marked(r, v, on)
  {
    Delta(r, v, on);
    MarkWritesMark(r, r, v, on);
  }

  // ---- safety at every single register write ----

  ghost predicate Served(r: Regs, s: nat, v: nat)
    requires r.Shape()
  {
    Holds(r, s, v) && !Unpooled(r, s)
  }

  /** No VLAN passes the VFTA without an enabled slot that names a pool for it. */
  ghost predicate Safe(r: Regs)
    requires r.Shape()
  {
    forall v: nat :: v <= MAX_VLAN && r.VftaBit(v) ==> exists s :: Served(r, s, v)
  }

  /** Safe now and after each of the writes. */
  ghost predicate SafeAlong(r: Regs, ws: seq<Write>)
    requires r.Shape() && AllInRange(ws)
    decreases |ws|
  {
    Safe(r) && (ws != [] ==> SafeAlong(Apply(r, ws[0]), ws[1..]))
  }

  lemma {:induction false} SafeAfterEach(r: Regs, ws: seq<Write>, k: nat)
    requires r.Shape() && AllInRange(ws) && SafeAlong(r, ws) && k <= |ws|
    ensures Safe(ApplyAll(r, ws[..k]))
    decreases k
  {
    if k > 0 {
      SafeAfterEach(Apply(r, ws[0]), ws[1..], k - 1);
      assert ws[..k][0] == ws[0] && ws[..k][1..] == ws[1..][..k - 1];
    }
  }

  lemma SafeCons(r: Regs, w: Write, ws: seq<Write>)
    requires r.Shape() && InRange(w) && AllInRange(ws) && Safe(r) && SafeAlong(Apply(r, w), ws)
    ensures AllInRange([w] + ws) && SafeAlong(r, [w] + ws)
  {
    assert ([w] + ws)[1..] == ws;
  }

  lemma {:induction false} SafeConcat(r: Regs, a: seq<Write>, b: seq<Write>)
    requires r.Shape() && AllInRange(a) && AllInRange(b) && SafeAlong(r, a) && SafeAlong(ApplyAll(r, a), b)
    ensures AllInRange(a + b) && SafeAlong(r, a + b)
    decreases |a|
  {
    if a == [] {
      assert a + b == b;
    } else {
      assert (a + b)[1..] == a[1..] + b;
      SafeConcat(Apply(r, a[0]), a[1..], b);
    }
  }

  /** Safety survives a change that lets no new VLAN pass and takes no slot from one that passes. */
  lemma StillSafe(r: Regs, r': Regs)
    requires r.Shape() && r'.Shape() && Safe(r)
    requires forall v: nat :: v <= MAX_VLAN && r'.VftaBit(v) ==> r.VftaBit(v)
    requires forall v: nat, s: nat :: v <= MAX_VLAN && r'.VftaBit(v) && Served(r, s, v) ==> Served(r', s, v)
    ensures Safe(r')
  {
    forall v: nat | v <= MAX_VLAN && r'.VftaBit(v) ensures exists s :: Served(r', s, v) {
      var s: nat :| Served(r, s, v);
      assert Served(r', s, v);
    }
  }

  lemma SafeOn(r: Regs, s: nat, v: nat, p: nat)
    requires Inv(r) && Safe(r) && Usable(r, s, v) && p <= MAX_POOL
    ensures SafeAlong(r, SlotWrites(r, s, v, p, true))
  {
    var r1 := Slotted(r, s, v, p, true);
    var pool := Vlvfb(2 * s + p / 32, r1.vlvfb[2 * s + p / 32]);
    var slot := Vlvf(s, r1.vlvf[s]);
    var ra := Apply(r, pool);
    SlottedFrame(r, s, v, p, true);
    HasPool(r1, s, p);
    assert r1 == Apply(ra, slot);
    assert forall t: nat :: t < VLVF_ENTRIES && !Unpooled(r, t) ==> !Unpooled(ra, t);
    StillSafe(r, ra);
    assert forall t: nat :: t < VLVF_ENTRIES ==> Unpooled(ra, t) == Unpooled(r1, t);
    StillSafe(r, r1);
    MarkServed(r, r1, s, v);
    SafeCons(ra, slot, MarkWrites(r, v, true));
    SafeCons(r, pool, [slot] + MarkWrites(r, v, true));
  }

  lemma MarkServed(r: Regs, r1: Regs, s: nat, v: nat)
    requires r.Shape() && r1.Shape() && r1.vfta == r.vfta && v <= MAX_VLAN && Safe(r1) && Served(r1, s, v)
    ensures SafeAlong(r1, MarkWrites(r, v, true))
  {
    var r2 := Marked(r1, v, true);
    forall v': nat | v' <= MAX_VLAN && r2.VftaBit(v') ensures exists t :: Served(r2, t, v') {
      MarkedBit(r1, v, true, v');
      if v' == v {
        assert Served(r2, s, v);
      } else {
        var t: nat :| Served(r1, t, v');
        assert Served(r2, t, v');
      }
    }
    var ws := MarkWrites(r, v, true);
    if ws != [] {
      assert ws == [ws[0]] + [] && Apply(r1, ws[0]) == r2;
      SafeCons(r1, ws[0], []);
    }
  }

  lemma UnmarkSafe(r: Regs, r1: Regs, v: nat)
    requires r.Shape() && r1.Shape() && v <= MAX_VLAN && r1.vfta in [r.vfta, Marked(r, v, false).vfta] && Safe(r1)
    ensures SafeAlong(r1, MarkWrites(r, v, false))
  {
    var r2 := Marked(r1, v, false);
    forall v': nat | v' <= MAX_VLAN && r2.VftaBit(v') ensures r1.VftaBit(v') { MarkedBit(r1, v, false, v'); }
    StillSafe(r1, r2);
    var ws := MarkWrites(r, v, false);
    if ws != [] {
      assert ws == [ws[0]] + [] && Apply(r1, ws[0]) == r2;
      SafeCons(r1, ws[0], []);
    }
  }

  /** A slot whose VLAN does not pass can be disabled, then emptied. */
  lemma DisableSafe(r: Regs, s: nat, v: nat, reg: nat)
    requires r.Shape() && Safe(r) && v <= MAX_VLAN && !r.VftaBit(v)
    requires s < VLVF_ENTRIES && r.vlvf[s] in {0, VIEN + v} && reg / 2 == s
    ensures var r3 := Apply(r, Vlvf(s, 0)); Safe(r3) && Safe(Apply(r3, Vlvfb(reg, {})))
  {
    var r3 := Apply(r, Vlvf(s, 0));
    var r4 := Apply(r3, Vlvfb(reg, {}));
    assert forall t: nat :: t < VLVF_ENTRIES ==> Unpooled(r3, t) == Unpooled(r, t);
    StillSafe(r, r3);
    assert forall t: nat :: t < VLVF_ENTRIES && t != s ==> Unpooled(r4, t) == Unpooled(r3, t);
    StillSafe(r3, r4);
  }

  lemma LastOffWrites(r: Regs, s: nat, v: nat, p: nat)
    requires r.Shape() && s < VLVF_ENTRIES && v <= MAX_VLAN && p <= MAX_POOL
    requires Unpooled(Slotted(r, s, v, p, false), s)
    ensures var mark := MarkWrites(r, v, false);
            SlotWrites(r, s, v, p, false) == mark + ([Vlvf(s, 0)] + ([Vlvfb(2 * s + p / 32, {})] + mark))
  {
    assert p / 32 == 0 || p / 32 == 1;
  }

  lemma UnmarkDisableSafe(r: Regs, s: nat, v: nat, reg: nat)
    requires r.Shape() && Safe(r) && v <= MAX_VLAN
    requires s < VLVF_ENTRIES && r.vlvf[s] in {0, VIEN + v} && reg / 2 == s
    ensures var mark := MarkWrites(r, v, false);
            var ws := mark + ([Vlvf(s, 0)] + ([Vlvfb(reg, {})] + mark));
            AllInRange(ws) && SafeAlong(r, ws)
  {
    var mark := MarkWrites(r, v, false);
    var slot, pool := Vlvf(s, 0), Vlvfb(reg, {});
    var r2 := Marked(r, v, false);
    var r3 := Apply(r2, slot);
    UnmarkSafe(r, r, v);
    assert Safe(r2) && ApplyAll(r, mark) == r2 by {
      MarkWritesMark(r, r, v, false);
      SafeAfterEach(r, mark, |mark|);
      assert mark[..|mark|] == mark;
    }
    MarkedBit(r, v, false, v);
    DisableSafe(r2, s, v, reg);
    UnmarkSafe(r, Apply(r3, pool), v);
    SafeCons(r3, pool, mark);
    SafeCons(r2, slot, [pool] + mark);
    SafeConcat(r, mark, [slot] + ([pool] + mark));
  }

  lemma SafeLastOff(r: Regs, s: nat, v: nat, p: nat)
    requires Inv(r) && Safe(r) && Usable(r, s, v) && p <= MAX_POOL && Unpooled(Slotted(r, s, v, p, false), s)
    ensures SafeAlong(r, SlotWrites(r, s, v, p, false))
  {
    LastOffWrites(r, s, v, p);
    UnmarkDisableSafe(r, s, v, 2 * s + p / 32);
  }

  lemma SafePartOff(r: Regs, s: nat, v: nat, p: nat)
    requires Inv(r) && Safe(r) && Usable(r, s, v) && p <= MAX_POOL && !Unpooled(Slotted(r, s, v, p, false), s)
    ensures SafeAlong(r, SlotWrites(r, s, v, p, false))
  {
    var r1 := Slotted(r, s, v, p, false);
    var pool := Vlvfb(2 * s + p / 32, r1.vlvfb[2 * s + p / 32]);
    var slot := Vlvf(s, r1.vlvf[s]);
    SlottedFrame(r, s, v, p, false);
    var ra := Apply(r, pool);
    assert r1 == Apply(ra, slot);
    assert forall t: nat :: t < VLVF_ENTRIES ==> Unpooled(ra, t) == Unpooled(r1, t);
    StillSafe(r, ra);
    StillSafe(r, r1);
    SafeCons(ra, slot, []);
    SafeCons(r, pool, [slot] + []);
  }

  /** Write order: from a safe state, a call that uses a slot is safe after every
      register write it makes.  Only a bypass call may open the VFTA without one. */
  lemma SetVftaSafe(r: Regs, v: nat, p: nat, on: bool, bypass: bool)
    requires Inv(r) && r.vt && Safe(r)
    ensures var o := SetVfta(r, v, p, on, bypass);
            AllInRange(o.writes)
            && (SafeAlong(r, o.writes) <==>
                 !(bypass && on && v <= MAX_VLAN && p <= MAX_POOL && v != 0 && v !in View(r).Vlans()))
  {
    if v <= MAX_VLAN && p <= MAX_POOL {
      SlotChoice(r, v, bypass);
      SlotIffVlan(r, v);
      var s := FindSlot(r, v, bypass);
      if s >= 0 {
        CallWrites(r, v, p, on, bypass);
        if on { SafeOn(r, s, v, p); }
        else if Unpooled(Slotted(r, s, v, p, false), s) { SafeLastOff(r, s, v, p); }
        else { SafePartOff(r, s, v, p); }
      } else if bypass {
        MarkOnly(r, v, p, on, bypass);
        if on { BypassUnsafe(r, v); } else { UnmarkSafe(r, r, v); }
      }
    }
  }

  lemma BypassUnsafe(r: Regs, v: nat)
    requires r.Shape() && v <= MAX_VLAN && !HasSlot(r, v)
    ensures !SafeAlong(r, MarkWrites(r, v, true))
  {
    var ws := MarkWrites(r, v, true);
    if SafeAlong(r, ws) {
      SafeAfterEach(r, ws, |ws|);
      MarkWritesMark(r, r, v, true);
      assert ws[..|ws|] == ws;
      var r2 := Marked(r, v, true);
      MarkedBit(r, v, true, v);
      var s: nat :| Served(r2, s, v);
      assert Holds(r, s, v);
    }
  }

  // ---- clearing the whole table ----

  function ZeroVfta(r: Regs, i: nat): (ws: seq<Write>)
    requires r.Shape() && i <= |r.vfta|
    ensures AllInRange(ws)
    decreases |r.vfta| - i
  {
    if i == |r.vfta| then [] else [Vfta(i, {})] + ZeroVfta(r, i + 1)
  }

  function ZeroSlots(r: Regs, i: nat): (ws: seq<Write>)
    requires r.Shape() && i <= |r.vlvf|
    ensures AllInRange(ws)
    decreases |r.vlvf| - i
  {
    if i == |r.vlvf| then []
    else [Vlvf(i, 0)] + ([Vlvfb(i * 2, {})] + ([Vlvfb(i * 2 + 1, {})] + ZeroSlots(r, i + 1)))
  }

  /** ixgbe_clear_vfta_generic. */
  function ClearVfta(r: Regs): (ws: seq<Write>)
    requires r.Shape()
    ensures AllInRange(ws)
  {
    ZeroVfta(r, 0) + ZeroSlots(r, 0)
  }

  function Cleared(vt: bool): (r: Regs)
    ensures Inv(r)
  {
    Regs(seq(VFT_SIZE, _ => {}), seq(VLVF_ENTRIES, _ => 0), seq(2 * VLVF_ENTRIES, _ => {}), vt)
  }

  lemma {:induction false} ZeroVftaEffect(r: Regs, g: Regs, i: nat)
    requires r.Shape() && g.Shape() && i <= |g.vfta|
    ensures ApplyAll(r, ZeroVfta(g, i)).vlvf == r.vlvf && ApplyAll(r, ZeroVfta(g, i)).vlvfb == r.vlvfb
    ensures forall j :: 0 <= j < VFT_SIZE ==> ApplyAll(r, ZeroVfta(g, i)).vfta[j] == if j < i then r.vfta[j] else {}
    ensures Safe(r) ==> SafeAlong(r, ZeroVfta(g, i))
    decreases |g.vfta| - i
  {
    if i < |g.vfta| {
      var r' := Apply(r, Vfta(i, {}));
      ZeroVftaEffect(r', g, i + 1);
      ApplyCons(r, Vfta(i, {}), ZeroVfta(g, i + 1));
      if Safe(r) {
        assert forall t: nat :: t < VLVF_ENTRIES ==> Unpooled(r', t) == Unpooled(r, t);
        StillSafe(r, r');
        SafeCons(r, Vfta(i, {}), ZeroVfta(g, i + 1));
      }
    }
  }

  lemma {:induction false} ZeroSlotsEffect(r: Regs, g: Regs, i: nat)
    requires r.Shape() && g.Shape() && i <= |g.vlvf|
    ensures var r' := ApplyAll(r, ZeroSlots(g, i));
            && r'.vfta == r.vfta
            && (forall j :: 0 <= j < VLVF_ENTRIES ==> r'.vlvf[j] == if j < i then r.vlvf[j] else 0)
            && (forall j :: 0 <= j < 2 * VLVF_ENTRIES ==> r'.vlvfb[j] == if j < 2 * i then r.vlvfb[j] else {})
    decreases |g.vlvf| - i
  {
    if i < |g.vlvf| {
      var a, b, c := Vlvf(i, 0), Vlvfb(i * 2, {}), Vlvfb(i * 2 + 1, {});
      var ra := Apply(r, a);
      var rb := Apply(ra, b);
      var rest := ZeroSlots(g, i + 1);
      ZeroSlotsEffect(Apply(rb, c), g, i + 1);
      ApplyCons(rb, c, rest);
      ApplyCons(ra, b, [c] + rest);
      ApplyCons(r, a, [b] + ([c] + rest));
    }
  }

  /** While no VLAN passes, slots may change freely. */
  lemma {:induction false} ShutSafe(r: Regs, ws: seq<Write>)
    requires r.Shape() && AllInRange(ws) && r.vfta == Cleared(r.vt).vfta
    requires forall w <- ws :: !w.Vfta?
    ensures SafeAlong(r, ws)
    decreases |ws|
  {
    if ws != [] { ShutSafe(Apply(r, ws[0]), ws[1..]); }
  }

  lemma {:induction false} ZeroSlotsKind(g: Regs, i: nat)
    requires g.Shape() && i <= |g.vlvf|
    ensures forall w <- ZeroSlots(g, i) :: !w.Vfta?
    decreases |g.vlvf| - i
  {
    if i < |g.vlvf| { ZeroSlotsKind(g, i + 1); }
  }

  /** Clearing empties every register and never opens a VLAN on the way. */
  lemma ClearEffect(r: Regs)
    requires r.Shape()
    ensures ApplyAll(r, ClearVfta(r)) == Cleared(r.vt)
    ensures Safe(r) ==> SafeAlong(r, ClearVfta(r))
  {
    ZeroVftaEffect(r, r, 0);
    var r1 := ApplyAll(r, ZeroVfta(r, 0));
    assert r1.vfta == Cleared(r.vt).vfta;
    ZeroSlotsEffect(r1, r, 0);
    AllZero(ApplyAll(r1, ZeroSlots(r, 0)));
    ApplyConcat(r, ZeroVfta(r, 0), ZeroSlots(r, 0));
    if Safe(r) {
      ZeroSlotsKind(r, 0);
      ShutSafe(r1, ZeroSlots(r, 0));
      SafeConcat(r, ZeroVfta(r, 0), ZeroSlots(r, 0));
    }
  }

  lemma AllZero(r: Regs)
    requires r.Shape() && r.vfta == Cleared(r.vt).vfta
    requires forall j :: 0 <= j < VLVF_ENTRIES ==> r.vlvf[j] == 0
    requires forall j :: 0 <= j < 2 * VLVF_ENTRIES ==> r.vlvfb[j] == {}
    ensures r == Cleared(r.vt)
  {
    assert r.vlvf == Cleared(r.vt).vlvf;
    assert r.vlvfb == Cleared(r.vt).vlvfb;
  }

  lemma ClearedView(vt: bool)
    ensures Safe(Cleared(vt)) && View(Cleared(vt)) == Filter({}, {})
  {
    var r := Cleared(vt);
    assert forall v: nat, p: nat :: p <= MAX_POOL ==> !Member(r, v, p);
  }

  // ---- runs ----

  datatype Call = Set(vlan: nat, vind: nat, on: bool, bypass: bool) | Clear

  function Writes(r: Regs, c: Call): (o: Outcome)
    requires r.Shape()
  {
    match c
    case Set(v, p, on, bypass) => SetVfta(r, v, p, on, bypass)
    case Clear => Outcome(SUCCESS, ClearVfta(r))
  }

  function FilterCall(f: Filter, vt: bool, c: Call): (int, Filter) {
    match c
    case Set(v, p, on, bypass) => FilterSet(f, vt, v, p, on, bypass)
    case Clear => (SUCCESS, Filter({}, {}))
  }

  function FilterRun(f: Filter, vt: bool, cs: seq<Call>): (seq<int>, Filter)
    decreases |cs|
  {
    if cs == [] then ([], f)
    else
      var (st, f') := FilterCall(f, vt, cs[0]);
      var (sts, f'') := FilterRun(f', vt, cs[1..]);
      ([st] + sts, f'')
  }

  lemma CallRefines(r: Regs, c: Call)
    requires Inv(r)
    ensures var o := Writes(r, c);
            && AllInRange(o.writes)
            && Inv(ApplyAll(r, o.writes))
            && (o.status, View(ApplyAll(r, o.writes))) == FilterCall(View(r), r.vt, c)
  {
    match c
    case Set(v, p, on, bypass) => SetVftaRefines(r, v, p, on, bypass);
    case Clear => ClearEffect(r); ClearedView(r.vt);
  }

  /** Statuses and register writes of a run of calls. */
  ghost function Run(r: Regs, cs: seq<Call>): (o: (seq<int>, seq<Write>))
    requires Inv(r)
    ensures AllInRange(o.1)
    decreases |cs|
  {
    if cs == [] then ([], [])
    else
      CallRefines(r, cs[0]);
      var o := Writes(r, cs[0]);
      var rest := Run(ApplyAll(r, o.writes), cs[1..]);
      ([o.status] + rest.0, o.writes + rest.1)
  }

  /** Over every run of calls of any kind the registers stay well formed and behave,
      statuses included, exactly as the abstract filter. */
  lemma {:induction false} RunRefines(r: Regs, cs: seq<Call>)
    requires Inv(r)
    ensures var (sts, ws) := Run(r, cs);
            Inv(ApplyAll(r, ws)) && (sts, View(ApplyAll(r, ws))) == FilterRun(View(r), r.vt, cs)
    decreases |cs|
  {
    if cs != [] {
      CallRefines(r, cs[0]);
      var o := Writes(r, cs[0]);
      var r' := ApplyAll(r, o.writes);
      RunRefines(r', cs[1..]);
      ApplyConcat(r, o.writes, Run(r', cs[1..]).1);
    }
  }

  predicate NoBypass(c: Call) {
    c.Set? ==> !c.bypass
  }

  lemma {:induction false} RunSafeAlong(r: Regs, cs: seq<Call>)
    requires Inv(r) && r.vt && Safe(r)
    requires forall c <- cs :: NoBypass(c)
    ensures SafeAlong(r, Run(r, cs).1)
    decreases |cs|
  {
    if cs != [] {
      assert NoBypass(cs[0]);
      CallRefines(r, cs[0]);
      var ws := Writes(r, cs[0]).writes;
      match cs[0] {
        case Set(v, p, on, bypass) => SetVftaSafe(r, v, p, on, bypass);
        case Clear => ClearEffect(r);
      }
      SafeAfterEach(r, ws, |ws|);
      assert ws[..|ws|] == ws;
      RunSafeAlong(ApplyAll(r, ws), cs[1..]);
      SafeConcat(r, ws, Run(ApplyAll(r, ws), cs[1..]).1);
    }
  }

  /** In every run of non-bypass calls in VT mode from a cleared table, after each
      single register write no VLAN passes without an enabled, pooled slot. */
  lemma RunSafe(cs: seq<Call>, k: nat)
    requires forall c <- cs :: NoBypass(c)
    requires k <= |Run(Cleared(true), cs).1|
    ensures Safe(ApplyAll(Cleared(true), Run(Cleared(true), cs).1[..k]))
  {
    ClearedView(true);
    RunSafeAlong(Cleared(true), cs);
    SafeAfterEach(Cleared(true), Run(Cleared(true), cs).1, k);
  }

  lemma {:induction false} FilterRunExact(f: Filter, cs: seq<Call>)
    requires forall c <- cs :: NoBypass(c)
    requires f.enabled == f.Vlans()
    ensures var f' := FilterRun(f, true, cs).1; f'.enabled == f'.Vlans()
    decreases |cs|
  {
    if cs != [] {
      var f' := FilterCall(f, true, cs[0]).1;
      assert f'.enabled == f'.Vlans() by {
        assert NoBypass(cs[0]);
        if cs[0].Set? {
          FilterSetExact(f, cs[0].vlan, cs[0].vind, cs[0].on);
        }
      }
      FilterRunExact(f', cs[1..]);
    }
  }

  lemma FilterSetExact(f: Filter, v: nat, p: nat, on: bool)
    requires f.enabled == f.Vlans()
    ensures var f' := FilterSet(f, true, v, p, on, false).1; f'.enabled == f'.Vlans()
  {
    var pairs := if on then f.pairs + {(v, p)} else f.pairs - {(v, p)};
    var f' := f.(pairs := pairs);
    forall u: nat | u != v ensures u in f'.Vlans() <==> u in f.Vlans() {
      if u in f.Vlans() { var q :| q in f.pairs && q.0 == u; assert q in pairs; }
      if u in f'.Vlans() { var q :| q in pairs && q.0 == u; assert q in f.pairs; }
    }
    if on { assert (v, p) in pairs; }
  }

  /** After every such run a VLAN passes exactly when some pool has it. */
  lemma RunExact(cs: seq<Call>, v: nat)
    requires forall c <- cs :: NoBypass(c)
    requires v <= MAX_VLAN
    ensures var r := ApplyAll(Cleared(true), Run(Cleared(true), cs).1);
            r.VftaBit(v) <==> exists p: nat :: p <= MAX_POOL && Member(r, v, p)
  {
    var r := ApplyAll(Cleared(true), Run(Cleared(true), cs).1);
    ClearedView(true);
    RunRefines(Cleared(true), cs);
    FilterRunExact(Filter({}, {}), cs);
    assert r.VftaBit(v) <==> v in View(r).enabled;
    if v in View(r).Vlans() { var q :| q in View(r).pairs && q.0 == v; }
    if p: nat :| p <= MAX_POOL && Member(r, v, p) { assert (v, p) in View(r).pairs; }
  }
}
