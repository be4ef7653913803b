/** The VLAN filter code run against the register arrays: each method is the
    driver's loop or branch sequence, proved to make exactly the register writes
    that `Vlan` specifies, in that order. */
module VlanTable {
  import opened Vlan

  lemma ZeroVftaStep(ws: seq<Write>, r: Regs, i: nat)
    requires r.Shape() && i < |r.vfta|
    ensures ws + ZeroVfta(r, i) == ws + [Vfta(i, {})] + ZeroVfta(r, i + 1)
  {
  }

  lemma ZeroSlotsStep(ws: seq<Write>, r: Regs, i: nat)
    requires r.Shape() && i < |r.vlvf|
    ensures ws + ZeroSlots(r, i)
         == ws + [Vlvf(i, 0)] + [Vlvfb(i * 2, {})] + [Vlvfb(i * 2 + 1, {})] + ZeroSlots(r, i + 1)
  {
  }

  lemma {:induction false} ZeroSlotsSame(r: Regs, r1: Regs, i: nat)
    requires r.Shape() && r1.Shape() && i <= |r.vlvf|
    ensures ZeroSlots(r, i) == ZeroSlots(r1, i)
    decreases |r.vlvf| - i
  {
    if i < |r.vlvf| { ZeroSlotsSame(r, r1, i + 1); }
  }

  /** The writes to the two tables, one after the other. */
  lemma Joined(r: Regs, r1: Regs, r2: Regs, l: seq<Write>, a: seq<Write>, b: seq<Write>)
    requires r.Shape() && AllInRange(a) && AllInRange(b) && r1 == ApplyAll(r, a) && r2 == ApplyAll(r1, b)
    ensures r2 == ApplyAll(r, a + b) && l + a + b == l + (a + b)
  {
    ApplyConcat(r, a, b);
  }

  class Table {
    const vfta: array<Bitmap>
    const vlvf: array<nat>
    const vlvfb: array<Bitmap>
    var vt: bool
    /** Every register write so far. */
    ghost var log: seq<Write>

    constructor (vt: bool)
      ensures Valid() && fresh(vfta) && fresh(vlvf) && fresh(vlvfb) && Now() == Cleared(vt) && log == []
    {
      vfta := new Bitmap[VFT_SIZE](_ => {});
      vlvf := new nat[VLVF_ENTRIES](_ => 0);
      vlvfb := new Bitmap[2 * VLVF_ENTRIES](_ => {});
      this.vt, log := vt, [];
      new;
      var c := Cleared(vt);
      assert vfta[..] == c.vfta && vlvf[..] == c.vlvf && vlvfb[..] == c.vlvfb;
    }

    ghost predicate Valid() {
      vfta.Length == VFT_SIZE && vlvf.Length == VLVF_ENTRIES && vlvfb.Length == 2 * VLVF_ENTRIES && vfta != vlvfb
    }

    ghost function Now(): (r: Regs)
      requires Valid()
      reads this, vfta, vlvf, vlvfb
      ensures r.Shape()
    {
      Regs(vfta[..], vlvf[..], vlvfb[..], vt)
    }

    /** From a state `r` with log `l` the writes `ws` led here. */
    ghost predicate Wrote(r: Regs, l: seq<Write>, ws: seq<Write>)
      reads this, vfta, vlvf, vlvfb
    {
      Valid() && r.Shape() && AllInRange(ws) && Now() == ApplyAll(r, ws) && log == l + ws
    }

    lemma WroteMore(r: Regs, l: seq<Write>, ws: seq<Write>, w: Write)
      requires r.Shape() && AllInRange(ws) && InRange(w)
      requires Valid() && Now() == Apply(ApplyAll(r, ws), w) && log == l + ws + [w]
      ensures Wrote(r, l, ws + [w])
    {
      ApplyConcat(r, ws, [w]);
      ApplyCons(ApplyAll(r, ws), w, []);
      assert [w] + [] == [w];
      assert l + ws + [w] == l + (ws + [w]);
    }

    method WriteVfta(i: nat, bits: Bitmap, ghost r: Regs, ghost l: seq<Write>, ghost ws: seq<Write>)
      requires Wrote(r, l, ws) && i < VFT_SIZE
      modifies vfta, this`log
      ensures Wrote(r, l, ws + [Vfta(i, bits)])
    {
      vfta[i] := bits;
      log := log + [Vfta(i, bits)];
      WroteMore(r, l, ws, Vfta(i, bits));
    }

    method WriteVlvf(i: nat, value: nat, ghost r: Regs, ghost l: seq<Write>, ghost ws: seq<Write>)
      requires Wrote(r, l, ws) && i < VLVF_ENTRIES
      modifies vlvf, this`log
      ensures Wrote(r, l, ws + [Vlvf(i, value)])
    {
      vlvf[i] := value;
      log := log + [Vlvf(i, value)];
      WroteMore(r, l, ws, Vlvf(i, value));
    }

    method WriteVlvfb(i: nat, bits: Bitmap, ghost r: Regs, ghost l: seq<Write>, ghost ws: seq<Write>)
      requires Wrote(r, l, ws) && i < 2 * VLVF_ENTRIES
      modifies vlvfb, this`log
      ensures Wrote(r, l, ws + [Vlvfb(i, bits)])
    {
      vlvfb[i] := bits;
      log := log + [Vlvfb(i, bits)];
      WroteMore(r, l, ws, Vlvfb(i, bits));
    }

    /** ixgbe_find_vlvf_slot. */
    method FindVlvfSlot(vlan: nat, bypass: bool) returns (slot: int)
      requires Valid()
      ensures slot == FindSlot(Now(), vlan, bypass)
    {
      if vlan == 0 {
        return 0;
      }
      var firstEmpty := if bypass then ERR_NO_SPACE else 0;
      var regindex := VLVF_ENTRIES - 1;
      while regindex != 0
        invariant 0 <= regindex < VLVF_ENTRIES
        invariant Search(vlvf[..], VIEN + vlan, regindex, firstEmpty) == FindSlot(Now(), vlan, bypass)
      {
        var bits := vlvf[regindex];
        if bits == VIEN + vlan {
          return regindex;
        }
        if firstEmpty == 0 && bits == 0 {
          firstEmpty := regindex;
        }
        regindex := regindex - 1;
      }
      return if firstEmpty != 0 then firstEmpty else ERR_NO_SPACE;
    }

    /** The branch of ixgbe_set_vlvf_generic that gives a slot up: VFTA first, then VLVF. */
    method DisableSlot(index: nat, reg: nat, vlan: nat, delta: Bitmap, newVfta: Bitmap)
      requires Valid() && index < VLVF_ENTRIES && reg < 2 * VLVF_ENTRIES && vlan <= MAX_VLAN
      modifies vfta, vlvf, vlvfb, this`log
      ensures Wrote(old(Now()), old(log),
                    (if delta != {} then [Vfta(vlan / 32, newVfta)] else []) + [Vlvf(index, 0), Vlvfb(reg, {})])
    {
      ghost var r, l, ws: seq<Write> := Now(), log, [];
      if delta != {} {
        WriteVfta(vlan / 32, newVfta, r, l, ws);
        ws := ws + [Vfta(vlan / 32, newVfta)];
      }
      WriteVlvf(index, 0, r, l, ws);
      WriteVlvfb(reg, {}, r, l, ws + [Vlvf(index, 0)]);
      assert ws + [Vlvf(index, 0)] + [Vlvfb(reg, {})] == ws + [Vlvf(index, 0), Vlvfb(reg, {})];
    }

    /** ixgbe_set_vlvf_generic. */
    method SetVlvfEntry(vlan: nat, vind: nat, on: bool, delta: Bitmap, newVfta: Bitmap, bypass: bool)
      returns (status: int, delta': Bitmap)
      requires Valid()
      modifies vfta, vlvf, vlvfb, this`log
      ensures var o := SetVlvf(old(Now()), vlan, vind, on, delta, newVfta, bypass);
              status == o.status && delta' == o.delta && Wrote(old(Now()), old(log), o.writes)
    {
      delta' := delta;
      if vlan > MAX_VLAN || vind > MAX_POOL {
        return ERR_PARAM, delta;
      }
      if !vt {
        return SUCCESS, delta;
      }
      var index := FindVlvfSlot(vlan, bypass);
      if index < 0 {
        return index, delta;
      }
      ghost var r, l := Now(), log;
      var reg := index * 2 + vind / 32;
      var bits := vlvfb[reg] + {vind % 32};
      if !on {
        bits := bits - {vind % 32};
        assert bits == vlvfb[reg] - {vind % 32};
        if bits == {} && vlvfb[index * 2 + 1 - vind / 32] == {} {
          DisableSlot(index, reg, vlan, delta, newVfta);
          return SUCCESS, delta;
        }
        delta' := {};
      }
      WriteVlvfb(reg, bits, r, l, []);
      WriteVlvf(index, VIEN + vlan, r, l, [] + [Vlvfb(reg, bits)]);
      assert [] + [Vlvfb(reg, bits)] + [Vlvf(index, VIEN + vlan)] == [Vlvfb(reg, bits), Vlvf(index, VIEN + vlan)];
      status := SUCCESS;
    }

    /** ixgbe_set_vfta_generic. */
    method SetVftaEntry(vlan: nat, vind: nat, on: bool, bypass: bool) returns (status: int)
      requires Valid()
      modifies vfta, vlvf, vlvfb, this`log
      ensures var o := SetVfta(old(Now()), vlan, vind, on, bypass);
              status == o.status && Wrote(old(Now()), old(log), o.writes)
    {
      if vlan > MAX_VLAN || vind > MAX_POOL {
        return ERR_PARAM;
      }
      ghost var r, l := Now(), log;
      var regidx := vlan / 32;
      var was := vfta[regidx];
      var delta := if on then {vlan % 32} - was else {vlan % 32} * was;
      var now := (was - delta) + (delta - was);
      assert now == if on then was + delta else was - delta;
      var delta';
      ghost var ws := SetVlvf(r, vlan, vind, on, delta, now, bypass).writes;
      status, delta' := SetVlvfEntry(vlan, vind, on, delta, now, bypass);
      if status != SUCCESS && !bypass {
        return;
      }
      status := SUCCESS;
      if delta' != {} {
        WriteVfta(regidx, now, r, l, ws);
      } else {
        assert ws + [] == ws;
      }
    }

    /** The first loop of ixgbe_clear_vfta_generic. */
    method ClearFilter()
      requires Valid()
      modifies vfta, this`log
      ensures Wrote(old(Now()), old(log), ZeroVfta(old(Now()), 0))
    {
      ghost var r, l, ws: seq<Write> := Now(), log, [];
      ghost var all := ZeroVfta(r, 0);
      var offset := 0;
      while offset < vfta.Length
        invariant 0 <= offset <= vfta.Length
        invariant Wrote(r, l, ws)
        invariant all == ws + ZeroVfta(r, offset)
      {
        WriteVfta(offset, {}, r, l, ws);
        ZeroVftaStep(ws, r, offset);
        ws := ws + [Vfta(offset, {})];
        offset := offset + 1;
      }
      assert all == ws;
    }

    method ClearOneSlot(i: nat, ghost r: Regs, ghost l: seq<Write>, ghost ws: seq<Write>)
      requires Wrote(r, l, ws) && i < VLVF_ENTRIES
      modifies vlvf, vlvfb, this`log
      ensures Wrote(r, l, ws + [Vlvf(i, 0)] + [Vlvfb(i * 2, {})] + [Vlvfb(i * 2 + 1, {})])
    {
      WriteVlvf(i, 0, r, l, ws);
      WriteVlvfb(i * 2, {}, r, l, ws + [Vlvf(i, 0)]);
      WriteVlvfb(i * 2 + 1, {}, r, l, ws + [Vlvf(i, 0)] + [Vlvfb(i * 2, {})]);
    }

    /** The second loop. */
    method ClearSlots()
      requires Valid()
      modifies vlvf, vlvfb, this`log
      ensures Wrote(old(Now()), old(log), ZeroSlots(old(Now()), 0))
    {
      ghost var r, l, ws: seq<Write> := Now(), log, [];
      ghost var all := ZeroSlots(r, 0);
      var offset := 0;
      while offset < vlvf.Length
        invariant 0 <= offset <= vlvf.Length
        invariant Wrote(r, l, ws)
        invariant all == ws + ZeroSlots(r, offset)
      {
        ClearOneSlot(offset, r, l, ws);
        ZeroSlotsStep(ws, r, offset);
        ws := ws + [Vlvf(offset, 0)] + [Vlvfb(offset * 2, {})] + [Vlvfb(offset * 2 + 1, {})];
        offset := offset + 1;
      }
      assert all == ws;
    }

    /** ixgbe_clear_vfta_generic. */
    method ClearTable()
      requires Valid()
      modifies vfta, vlvf, vlvfb, this`log
      ensures Wrote(old(Now()), old(log), ClearVfta(old(Now())))
      ensures Now() == Cleared(vt)
    {
      ghost var r, l := Now(), log;
      ClearFilter();
      ghost var r1 := Now();
      ClearSlots();
      ZeroSlotsSame(r, r1, 0);
      Joined(r, r1, Now(), l, ZeroVfta(r, 0), ZeroSlots(r, 0));
      ClearEffect(r);
    }
  }
}
