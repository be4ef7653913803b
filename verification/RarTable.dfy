/** The receive-address calls as the driver makes them, on registers updated in place. */
module RarTable {
  import opened Options
  import opened Rar

  class Hw {
    const slot: array<Slot>            // RAL, RAH and MPSAR of num_rar_entries slots
    const san: nat                     // san_mac_rar_index
    var highwater: nat                 // rar_highwater

    constructor (slot: array<Slot>, san: nat)
      ensures this.slot == slot && this.san == san && highwater == 1
    {
      this.slot, this.san, highwater := slot, san, 1;
    }

    ghost function Value(): Table
      reads this, slot
    {
      Table(slot[..], highwater, san)
    }

    method SetVmdqBit(rar: nat, vmdq: nat) returns (ok: bool)
      modifies slot
      ensures ok == (rar < slot.Length) && Value() == SetVmdq(old(Value()), rar, vmdq)
    {
      if rar >= slot.Length { return false; }
      if vmdq < 32 {
        slot[rar] := slot[rar].(lo := slot[rar].lo + {vmdq});
      } else {
        slot[rar] := slot[rar].(hi := slot[rar].hi + {vmdq - 32});
      }
      ok := true;
    }

    method SetAddress(index: nat, m: Mac, vmdq: nat, enable: bool) returns (ok: bool)
      modifies slot
      ensures ok == (index < slot.Length) && Value() == SetRar(old(Value()), index, m, vmdq, enable)
    {
      if index >= slot.Length { return false; }
      ok := SetVmdqBit(index, vmdq);
      slot[index] := slot[index].(mac := m, av := false);
      if enable { slot[index] := slot[index].(av := true); }
    }

    /** The MPSAR writes of ixgbe_clear_vmdq_generic. */
    method DropBits(rar: nat, q: Which)
      requires rar < slot.Length
      modifies slot
      ensures slot[..] == old(slot[..])[rar := Drop(old(slot[rar]), q)]
    {
      match q {
        case All =>
          if slot[rar].lo != {} { slot[rar] := slot[rar].(lo := {}); }
          if slot[rar].hi != {} { slot[rar] := slot[rar].(hi := {}); }
        case Pool(p) =>
          if p < 32 {
            slot[rar] := slot[rar].(lo := slot[rar].lo - {p});
          } else {
            slot[rar] := slot[rar].(hi := slot[rar].hi - {p - 32});
          }
      }
    }

    method ClearVmdqBits(rar: nat, q: Which) returns (ok: bool)
      modifies slot
      ensures ok == (rar < slot.Length) && Value() == ClearVmdq(old(Value()), rar, q)
      decreases Load(Value(), rar), 0
    {
      if rar >= slot.Length { return false; }
      ok := true;
      if slot[rar].lo == {} && slot[rar].hi == {} { return; }
      DropBits(rar, q);
      assert Value() == Put(old(Value()), rar, Drop(old(slot[rar]), q));
      if slot[rar].lo == {} && slot[rar].hi == {} && rar != 0 && rar != san {
        var _ := ClearAddress(rar);
      }
    }

    method ClearAddress(index: nat) returns (ok: bool)
      modifies slot
      ensures ok == (index < slot.Length) && Value() == ClearRar(old(Value()), index)
      decreases Load(Value(), index), 1
    {
      if index >= slot.Length { return false; }
      slot[index] := slot[index].(mac := NO_MAC, av := false);
      ok := ClearVmdqBits(index, All);
    }

    /** The register pair read at `rar`, `past` being what lies beyond the table. */
    function Read(rar: nat, past: seq<Slot>): Slot
      requires rar < slot.Length + |past|
      reads slot
    {
      if rar < slot.Length then slot[rar] else past[rar - slot.Length]
    }

    /** The search loop: the slot reached and the first empty slot met. */
    method Find(m: Mac, past: seq<Slot>) returns (rar: nat, empty: Place)
      requires highwater <= slot.Length + |past|
      ensures rar <= highwater && (rar < highwater <==> Look(Value(), m, past).Found?)
      ensures rar < highwater ==> Look(Value(), m, past) == Found(rar)
      ensures rar == highwater ==> Look(Value(), m, past) == empty
    {
      ghost var s := (slot[..] + past)[..highwater];
      rar, empty := 0, Top;
      while rar < highwater
        invariant rar <= highwater && !empty.Found?
        invariant Search(s, m, rar, empty) == Look(Value(), m, past)
      {
        var x := Read(rar, past);
        assert x == s[rar];
        if !x.av && empty == Top {
          empty := Empty(rar);
        } else if x.mac == m {
          break;
        }
        rar := rar + 1;
      }
    }

    /** ixgbe_insert_mac_addr_generic */
    method InsertMac(m: Mac, vmdq: nat, past: seq<Slot>) returns (rar: nat)
      requires highwater <= slot.Length + |past|
      modifies this, slot
      ensures (rar, Value()) == Insert(old(Value()), m, vmdq, past)
    {
      var empty;
      rar, empty := Find(m, past);
      if rar < highwater {
        var _ := SetVmdqBit(rar, vmdq);
      } else if empty != Top {
        rar := empty.i;
        var _ := SetAddress(rar, m, vmdq, true);
      } else {
        var _ := SetAddress(rar, m, vmdq, true);
        highwater := highwater + 1;
      }
      if rar == 0 {
        var _ := ClearVmdqBits(rar, Pool(0));
      }
    }

    /** ixgbe_init_rx_addrs_generic, the receive addresses; `own` if mac.addr is valid. */
    method InitAddresses(own: Option<Mac>)
      requires slot.Length > 0
      modifies slot
      ensures Value() == InitRxAddrs(old(Value()), own)
    {
      if own.Some? {
        var _ := SetAddress(0, own.value, 0, true);
      }
      var _ := ClearVmdqBits(0, All);
      ghost var s := slot[..];
      for i := 1 to slot.Length
        invariant slot[0] == s[0]
        invariant forall j: nat | 0 < j < slot.Length :: slot[j] == if j < i then Blanked(s[j]) else s[j]
      {
        slot[i] := slot[i].(mac := NO_MAC, av := false);
      }
    }
  }
}
