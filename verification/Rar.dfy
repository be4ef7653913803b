/** The receive-address table: RAL/RAH hold an address and its valid bit, MPSAR_LO/HI the
    pools it is delivered to.  An address is kept as its two register halves; a 32-bit
    MPSAR register is the set of positions of its 1 bits. */
module Rar {
  import opened Options

  datatype Mac = Mac(low: nat, high: nat)

  const NO_MAC := Mac(0, 0)

  datatype Slot = Slot(mac: Mac, av: bool, lo: set<nat>, hi: set<nat>)

  /** The slots are num_rar_entries many; `san` is san_mac_rar_index. */
  datatype Table = Table(slots: seq<Slot>, highwater: nat, san: nat)

  // ---- the driver's calls ----

  predicate NoPools(x: Slot) {
    x.lo == {} && x.hi == {}
  }

  function AddPool(x: Slot, p: nat): Slot {
    if p < 32 then x.(lo := x.lo + {p}) else x.(hi := x.hi + {p - 32})
  }

  function DropPool(x: Slot, p: nat): Slot {
    if p < 32 then x.(lo := x.lo - {p}) else x.(hi := x.hi - {p - 32})
  }

  function Put(t: Table, i: nat, x: Slot): Table
    requires i < |t.slots|
  {
    t.(slots := t.slots[i := x])
  }

  /** ixgbe_set_vmdq_generic */
  function SetVmdq(t: Table, i: nat, p: nat): Table {
    if i >= |t.slots| then t else Put(t, i, AddPool(t.slots[i], p))
  }

  /** ixgbe_set_rar_generic; `on` is enable_addr. */
  function SetRar(t: Table, i: nat, m: Mac, p: nat, on: bool): Table {
    if i >= |t.slots| then t
    else Put(SetVmdq(t, i, p), i, AddPool(t.slots[i], p).(mac := m, av := on))
  }

  /** It writes the address and the valid bit of that slot and adds the pool. */
  lemma SetRarIs(t: Table, i: nat, m: Mac, p: nat, on: bool)
    requires i < |t.slots| && Bits(t.slots[i]) && p < 64
    ensures var t' := SetRar(t, i, m, p, on);
            && t' == Put(t, i, t'.slots[i]) && t'.slots[i].mac == m && t'.slots[i].av == on
            && Pools(t'.slots[i]) == Pools(t.slots[i]) + {p}
  {
    PoolsAdd(t.slots[i], p);
  }

  /** A pool to take away, or IXGBE_CLEAR_VMDQ_ALL. */
  datatype Which = All | Pool(p: nat)

  function Drop(x: Slot, q: Which): Slot {
    match q
    case All => x.(lo := {}, hi := {})
    case Pool(p) => DropPool(x, p)
  }

  function Load(t: Table, i: nat): nat {
    if i < |t.slots| then |t.slots[i].lo| + |t.slots[i].hi| else 0
  }

  /** ixgbe_clear_vmdq_generic; it and ixgbe_clear_rar_generic call each other until the pools
      of the slot are gone. */
  function ClearVmdq(t: Table, i: nat, q: Which): Table
    decreases Load(t, i), 0
  {
    if i >= |t.slots| || NoPools(t.slots[i]) then t
    else
      var x := Drop(t.slots[i], q);
      if NoPools(x) && i != 0 && i != t.san then ClearRar(Put(t, i, x), i) else Put(t, i, x)
  }

  /** ixgbe_clear_rar_generic */
  function ClearRar(t: Table, i: nat): Table
    decreases Load(t, i), 1
  {
    if i >= |t.slots| then t
    else ClearVmdq(Put(t, i, t.slots[i].(mac := NO_MAC, av := false)), i, All)
  }

  datatype Place = Found(i: nat) | Empty(i: nat) | Top

  /** The search of ixgbe_insert_mac_addr_generic from slot `i` on. */
  function Search(slots: seq<Slot>, m: Mac, i: nat, empty: Place): Place
    requires i <= |slots|
    decreases |slots| - i
  {
    if i == |slots| then empty
    else if !slots[i].av && empty == Top then Search(slots, m, i + 1, Empty(i))
    else if slots[i].mac == m then Found(i)
    else Search(slots, m, i + 1, empty)
  }

  /** The high-water mark may lie past the table; `past` is what is read there. */
  predicate Readable(t: Table, past: seq<Slot>) {
    t.highwater <= |t.slots| + |past|
  }

  function Look(t: Table, m: Mac, past: seq<Slot>): Place
    requires Readable(t, past)
  {
    Search((t.slots + past)[..t.highwater], m, 0, Top)
  }

  /** ixgbe_insert_mac_addr_generic: the slot it returns and the table. */
  function Insert(t: Table, m: Mac, p: nat, past: seq<Slot>): (nat, Table)
    requires Readable(t, past)
  {
    var place := Look(t, m, past);
    var (i, t1) :=
      match place
      case Found(i) => (i, SetVmdq(t, i, p))
      case Empty(i) => (i, SetRar(t, i, m, p, true))
      case Top => (t.highwater, SetRar(t, t.highwater, m, p, true).(highwater := t.highwater + 1));
    (i, if i == 0 then ClearVmdq(t1, 0, Pool(0)) else t1)
  }

  function Blanked(x: Slot): Slot {
    x.(mac := NO_MAC, av := false)
  }

  /** ixgbe_init_rx_addrs_generic: slot 0 gets the port's address `m`, or keeps the one it
      has; of the other slots only RAL and RAH are written. */
  function InitRxAddrs(t: Table, m: Option<Mac>): Table
    requires |t.slots| > 0
  {
    var t1 := ClearVmdq(if m.Some? then SetRar(t, 0, m.value, 0, true) else t, 0, All);
    t1.(slots := seq(|t1.slots|, i requires 0 <= i < |t1.slots| =>
                   if i == 0 then t1.slots[0] else Blanked(t1.slots[i])))
  }

  // ---- what the table means ----

  predicate HasPool(x: Slot, p: nat) {
    if p < 32 then p in x.lo else p - 32 in x.hi
  }

  ghost function Pools(x: Slot): set<nat> {
    set p: nat | p < 64 && HasPool(x, p)
  }

  predicate Bits(x: Slot) {
    (forall b <- x.lo :: b < 32) && (forall b <- x.hi :: b < 32)
  }

  /** A slot in order: without a valid address it is blank; other than slot 0 it is valid
      only while it has pools. */
  predicate Tidy(x: Slot, i: nat) {
    Bits(x) && (!x.av ==> x.mac == NO_MAC && NoPools(x)) && (i != 0 && x.av ==> !NoPools(x))
  }

  ghost predicate Inv(t: Table) {
    && 0 < t.highwater && |t.slots| > 0
    && (t.san == 0 || t.san >= |t.slots|)
    && t.slots[0].av
    && (forall i: nat | i < |t.slots| :: Tidy(t.slots[i], i))
    && (forall i: nat | t.highwater <= i < |t.slots| :: !t.slots[i].av)
    && Unique(t.slots)
  }

  /** No address is valid in two slots. */
  ghost predicate Unique(s: seq<Slot>) {
    forall i: nat, j: nat | i < j < |s| && s[i].av && s[j].av :: s[i].mac != s[j].mac
  }

  /** Slot `i` holds `m`. */
  predicate At(t: Table, i: nat, m: Mac) {
    i < |t.slots| && t.slots[i].av && t.slots[i].mac == m
  }

  predicate Delivers(t: Table, i: nat, m: Mac, p: nat) {
    At(t, i, m) && HasPool(t.slots[i], p)
  }

  ghost predicate Present(t: Table, m: Mac) {
    exists i: nat :: At(t, i, m)
  }

  ghost predicate Delivered(t: Table, m: Mac, p: nat) {
    exists i: nat :: Delivers(t, i, m, p)
  }

  /** The table as a map from valid addresses to the pools they are delivered to. */
  ghost function View(t: Table): map<Mac, set<nat>> {
    map m | m in Macs(t) :: set p: nat | p < 64 && Delivered(t, m, p)
  }

  ghost function Macs(t: Table): set<Mac> {
    set s <- t.slots | s.av :: s.mac
  }

  /** The address in slot 0, which stays even without pools and never has pool 0. */
  function Own(t: Table): Mac
    requires |t.slots| > 0
  {
    t.slots[0].mac
  }

  // ---- pools ----

  lemma PoolsEmpty(x: Slot)
    requires Bits(x)
    ensures Pools(x) == {} <==> NoPools(x)
  {
    if b :| b in x.lo { assert b in Pools(x); }
    if b :| b in x.hi { assert HasPool(x, b + 32); assert b + 32 in Pools(x); }
  }

  lemma PoolsAdd(x: Slot, p: nat)
    requires Bits(x) && p < 64
    ensures Bits(AddPool(x, p)) && Pools(AddPool(x, p)) == Pools(x) + {p}
  {
  }

  lemma PoolsDrop(x: Slot, p: nat)
    requires Bits(x) && p < 64
    ensures Bits(DropPool(x, p)) && Pools(DropPool(x, p)) == Pools(x) - {p}
  {
  }

  // ---- one slot changes ----

  lemma ViewHas(t: Table, m: Mac)
    ensures m in View(t) <==> Present(t, m)
  {
    if i: nat :| At(t, i, m) { assert t.slots[i] in t.slots; }
    if m in View(t) {
      var s :| s in t.slots && s.av && s.mac == m;
      var i: nat :| i < |t.slots| && t.slots[i] == s;
      assert At(t, i, m);
    }
  }

  lemma ViewAt(t: Table, i: nat, m: Mac)
    requires Unique(t.slots) && At(t, i, m)
    ensures m in View(t) && View(t)[m] == Pools(t.slots[i])
  {
    ViewHas(t, m);
    forall p: nat | p < 64 ensures p in View(t)[m] <==> p in Pools(t.slots[i]) {
      if HasPool(t.slots[i], p) { assert Delivers(t, i, m, p); }
    }
  }

  /** `m` is in no slot but perhaps `i`. */
  ghost predicate Only(t: Table, i: nat, m: Mac) {
    forall j: nat :: At(t, j, m) ==> j == i
  }

  ghost function Rest(t: Table, i: nat): map<Mac, set<nat>>
    requires i < |t.slots|
  {
    if t.slots[i].av then View(t) - {t.slots[i].mac} else View(t)
  }

  lemma PutAt(t: Table, i: nat, y: Slot, m: Mac)
    requires i < |t.slots| && Unique(t.slots) && Unique(Put(t, i, y).slots) && (y.av ==> y.mac != m)
    ensures m in View(Put(t, i, y)) <==> m in Rest(t, i)
    ensures m in Rest(t, i) ==> View(Put(t, i, y))[m] == Rest(t, i)[m]
  {
    var t' := Put(t, i, y);
    ViewHas(t, m);
    ViewHas(t', m);
    if j: nat :| j != i && At(t, j, m) {
      assert At(t', j, m);
      ViewAt(t, j, m);
      ViewAt(t', j, m);
    } else {
      assert !Present(t', m);
    }
  }

  lemma ViewPut(t: Table, i: nat, y: Slot)
    requires Unique(t.slots) && i < |t.slots| && (y.av ==> Only(t, i, y.mac))
    ensures Unique(Put(t, i, y).slots)
    ensures View(Put(t, i, y)) == if y.av then Rest(t, i)[y.mac := Pools(y)] else Rest(t, i)
  {
    var t' := Put(t, i, y);
    assert Unique(t'.slots) by {
      forall j: nat, k: nat | j < k < |t'.slots| && t'.slots[j].av && t'.slots[k].av
        ensures t'.slots[j].mac != t'.slots[k].mac
      {
        if j == i { assert At(t, k, t.slots[k].mac); }
        if k == i { assert At(t, j, t.slots[j].mac); }
      }
    }
    var want := if y.av then Rest(t, i)[y.mac := Pools(y)] else Rest(t, i);
    forall m ensures (m in View(t') <==> m in want) && (m in want ==> View(t')[m] == want[m]) {
      if y.av && y.mac == m { ViewAt(t', i, m); } else { PutAt(t, i, y, m); }
    }
  }

  // ---- the calls, in closed form ----

  const BLANK := Slot(NO_MAC, false, {}, {})

  /** The recursion ends with the slot blank. */
  lemma ClearVmdqIs(t: Table, i: nat, q: Which)
    requires i < |t.slots|
    ensures ClearVmdq(t, i, q)
         == var x := Drop(t.slots[i], q);
            if NoPools(t.slots[i]) then t
            else if NoPools(x) && i != 0 && i != t.san then Put(t, i, BLANK) else Put(t, i, x)
  {
    var x := Drop(t.slots[i], q);
    var t1 := Put(t, i, x);
    if NoPools(x) && i != 0 && i != t.san {
      var t2 := Put(t1, i, x.(mac := NO_MAC, av := false));
      assert ClearRar(t1, i) == ClearVmdq(t2, i, All) == t2;
      assert t2.slots == t.slots[i := BLANK];
    }
  }

  lemma ClearRarIs(t: Table, i: nat)
    requires 0 < i < |t.slots| && i != t.san
    ensures ClearRar(t, i) == Put(t, i, BLANK)
  {
    var x := Blanked(t.slots[i]);
    ClearVmdqIs(Put(t, i, x), i, All);
    assert t.slots[i := x][i := BLANK] == t.slots[i := BLANK];
  }

  /** The search stops at the first slot that is in use for the address, or stale but not the
      first empty one; failing that it gives the first empty slot. */
  lemma {:induction false} SearchIs(s: seq<Slot>, m: Mac, i: nat, empty: Place)
    requires i <= |s| && !empty.Found?
    ensures match Search(s, m, i, empty)
            case Found(k) =>
              && i <= k < |s| && s[k].mac == m
              && (s[k].av || empty.Empty? || exists j: nat | i <= j < k :: !s[j].av)
              && (forall j: nat | i <= j < k && s[j].av :: s[j].mac != m)
            case Empty(k) =>
              if empty.Empty? then k == empty.i && forall j: nat | i <= j < |s| :: s[j].mac != m
              else
                && i <= k < |s| && !s[k].av && (forall j: nat | i <= j < k :: s[j].av)
                && forall j: nat | i <= j < |s| && j != k :: s[j].mac != m
            case Top => empty == Top && forall j: nat | i <= j < |s| :: s[j].av && s[j].mac != m
    decreases |s| - i
  {
    if i < |s| {
      if !s[i].av && empty == Top {
        SearchIs(s, m, i + 1, Empty(i));
      } else if s[i].mac != m {
        SearchIs(s, m, i + 1, empty);
      }
    }
  }

  // ---- refinement of a map ----

  datatype Op = Add(m: Mac, p: nat, past: seq<Slot>) | Remove(m: Mac, q: Which) | Forget(m: Mac)

  /** Removing a pool and forgetting an address name the slot that holds it. */
  ghost function Step(t: Table, op: Op): Table
    requires op.Add? ==> Readable(t, op.past)
  {
    match op
    case Add(m, p, past) => Insert(t, m, p, past).1
    case Remove(m, q) => if i: nat :| At(t, i, m) then ClearVmdq(t, i, q) else t
    case Forget(m) => if i: nat :| At(t, i, m) then ClearRar(t, i) else t
  }

  function Minus(s: set<nat>, q: Which): set<nat> {
    if q.All? then {} else s - {q.p}
  }

  /** The map from addresses to pool sets, `own` the address of slot 0. */
  ghost function MapStep(v: map<Mac, set<nat>>, own: Mac, op: Op): map<Mac, set<nat>> {
    match op
    case Add(m, p, _) =>
      var pools := (if m in v then v[m] else {}) + {p};
      v[m := if m == own then pools - {0} else pools]
    case Forget(m) => v - {m}
    case Remove(m, q) =>
      if m !in v || v[m] == {} then v
      else if Minus(v[m], q) == {} && m != own then v - {m}
      else v[m := Minus(v[m], q)]
  }

  ghost predicate Free(t: Table) {
    exists i: nat | i < |t.slots| :: !t.slots[i].av
  }

  /** The search would take what it reads past the table for the address. */
  ghost predicate Mistaken(t: Table, m: Mac, past: seq<Slot>)
    requires Readable(t, past)
  {
    exists j: nat | j < |past| && |t.slots| + j < t.highwater :: past[j].mac == m
  }

  /** The address is in the table, or a slot is free and no register past the table is
      mistaken for it. */
  ghost predicate Room(t: Table, m: Mac, past: seq<Slot>)
    requires Readable(t, past)
  {
    Present(t, m) || (Free(t) && !Mistaken(t, m, past))
  }

  ghost predicate Fits(t: Table, op: Op) {
    match op
    case Add(m, p, past) => m != NO_MAC && p < 64 && Readable(t, past) && Room(t, m, past)
    case Remove(m, q) => q.Pool? ==> q.p < 64
    case Forget(m) => |t.slots| > 0 && m != Own(t)
  }

  /** A slot of a table in order can be replaced by a tidy one. */
  lemma PutKeeps(t: Table, i: nat, y: Slot)
    requires Inv(t) && i < t.highwater && i < |t.slots| && Tidy(y, i)
    requires (i == 0 ==> y.av) && (y.av ==> Only(t, i, y.mac))
    ensures Inv(Put(t, i, y)) && View(Put(t, i, y)) == if y.av then Rest(t, i)[y.mac := Pools(y)] else Rest(t, i)
  {
    ViewPut(t, i, y);
  }

  lemma OnlyAt(t: Table, i: nat, m: Mac)
    requires Unique(t.slots) && At(t, i, m)
    ensures Only(t, i, m)
  {
  }

  lemma RemoveRefines(t: Table, i: nat, m: Mac, q: Which)
    requires Inv(t) && At(t, i, m) && (q.Pool? ==> q.p < 64)
    ensures Refines(t, Remove(m, q), ClearVmdq(t, i, q))
  {
    var x := t.slots[i];
    var y := Drop(x, q);
    ClearVmdqIs(t, i, q);
    ViewAt(t, i, m);
    OnlyAt(t, i, m);
    PoolsEmpty(x);
    DropIs(x, q);
    if i != 0 { assert At(t, 0, Own(t)); }
    if !NoPools(x) {
      PutKeeps(t, i, if NoPools(y) && i != 0 then BLANK else y);
      Overwrite(View(t), m, Pools(y));
    }
  }

  lemma Overwrite(v: map<Mac, set<nat>>, m: Mac, s: set<nat>)
    ensures (v - {m})[m := s] == v[m := s]
  {
  }

  lemma DropIs(x: Slot, q: Which)
    requires Bits(x) && (q.Pool? ==> q.p < 64)
    ensures Bits(Drop(x, q)) && Pools(Drop(x, q)) == Minus(Pools(x), q)
    ensures NoPools(Drop(x, q)) <==> Minus(Pools(x), q) == {}
  {
    if q.Pool? { PoolsDrop(x, q.p); }
    PoolsEmpty(Drop(x, q));
  }

  lemma LookIs(t: Table, m: Mac, past: seq<Slot>)
    requires Inv(t) && m != NO_MAC && Readable(t, past)
    ensures match Look(t, m, past)
            case Found(i) =>
              if i < |t.slots| then i < t.highwater && At(t, i, m) else !Present(t, m) && !Room(t, m, past)
            case Empty(i) =>
              && !Present(t, m)
              && if i < |t.slots| then 0 < i < t.highwater && !t.slots[i].av && !Mistaken(t, m, past) else !Free(t)
            case Top => !Present(t, m) && !Mistaken(t, m, past) && (t.highwater < |t.slots| || !Free(t))
  {
    var s := (t.slots + past)[..t.highwater];
    SearchIs(s, m, 0, Top);
    forall j: nat | j < |t.slots| && j < t.highwater ensures s[j] == t.slots[j] {}
    forall j: nat | At(t, j, m) ensures j < t.highwater && s[j] == t.slots[j] {}
    forall j: nat | j < |past| && |t.slots| + j < t.highwater ensures s[|t.slots| + j] == past[j] {}
    forall j: nat | |t.slots| <= j < t.highwater && s[j].mac == m ensures Mistaken(t, m, past) {
      assert past[j - |t.slots|] == s[j];
    }
  }

  /** A call that changes one slot for `m` in a table `t` in order. */
  lemma OneSlot(t: Table, i: nat, m: Mac, y: Slot)
    requires Inv(t) && i < t.highwater && i < |t.slots| && Only(t, i, m) && (t.slots[i].av ==> t.slots[i].mac == m)
    requires Tidy(y, i) && y.av && y.mac == m
    ensures Inv(Put(t, i, y)) && View(Put(t, i, y)) == View(t)[m := Pools(y)]
    ensures i != 0 ==> Own(Put(t, i, y)) == Own(t)
  {
    PutKeeps(t, i, y);
    Overwrite(View(t), m, Pools(y));
  }

  /** `t'` is `t` in order after `op`. */
  ghost predicate Refines(t: Table, op: Op, t': Table)
    requires Inv(t)
  {
    && Inv(t') && |t'.slots| == |t.slots| && t'.san == t.san && Own(t') == Own(t)
    && View(t') == MapStep(View(t), Own(t), op)
  }

  lemma AddFound(t: Table, i: nat, m: Mac, p: nat, past: seq<Slot>)
    requires Inv(t) && m != NO_MAC && p < 64 && Readable(t, past) && Look(t, m, past) == Found(i) && i < |t.slots|
    ensures Insert(t, m, p, past).0 == i && Refines(t, Add(m, p, past), Insert(t, m, p, past).1)
  {
    LookIs(t, m, past);
    var x := t.slots[i];
    var x1 := AddPool(x, p);
    ViewAt(t, i, m);
    OnlyAt(t, i, m);
    PoolsAdd(x, p);
    PoolsDrop(x1, 0);
    if i == 0 {
      ClearVmdqIs(Put(t, 0, x1), 0, Pool(0));
      assert Put(Put(t, 0, x1), 0, DropPool(x1, 0)) == Put(t, 0, DropPool(x1, 0));
      OneSlot(t, 0, m, DropPool(x1, 0));
    } else {
      assert At(t, 0, Own(t));
      OneSlot(t, i, m, x1);
    }
  }

  /** A fresh slot, below the high-water mark or just at it. */
  lemma AddFresh(t: Table, i: nat, m: Mac, p: nat, past: seq<Slot>)
    requires Inv(t) && m != NO_MAC && p < 64 && 0 < i < t.highwater && i < |t.slots|
    requires !t.slots[i].av && !Present(t, m)
    ensures Refines(t, Add(m, p, past), SetRar(t, i, m, p, true))
  {
    var y := AddPool(BLANK, p).(mac := m, av := true);
    assert t.slots[i] == BLANK;
    assert SetRar(t, i, m, p, true) == Put(t, i, y);
    PoolsAdd(BLANK, p);
    PoolsEmpty(BLANK);
    assert Pools(y) == Pools(AddPool(BLANK, p));
    ViewHas(t, m);
    assert At(t, 0, Own(t));
    OneSlot(t, i, m, y);
  }

  lemma AddTop(t: Table, m: Mac, p: nat, past: seq<Slot>)
    requires Inv(t) && m != NO_MAC && p < 64 && Readable(t, past)
    requires t.highwater < |t.slots| && Look(t, m, past) == Top
    ensures Refines(t, Add(m, p, past), Insert(t, m, p, past).1)
  {
    var t1 := t.(highwater := t.highwater + 1);
    LookIs(t, m, past);
    SameSlots(t, t1);
    AddFresh(t1, t.highwater, m, p, past);
  }

  lemma AddRefines(t: Table, m: Mac, p: nat, past: seq<Slot>)
    requires Inv(t) && m != NO_MAC && p < 64 && Readable(t, past) && Room(t, m, past)
    ensures Refines(t, Add(m, p, past), Insert(t, m, p, past).1)
    ensures At(Insert(t, m, p, past).1, Insert(t, m, p, past).0, m)
  {
    InsertAt(t, m, p, past);
    match Look(t, m, past)
    case Found(i) => AddFound(t, i, m, p, past);
    case Empty(i) => AddFresh(t, i, m, p, past);
    case Top => AddTop(t, m, p, past);
  }

  /** The slot returned holds the address. */
  lemma InsertAt(t: Table, m: Mac, p: nat, past: seq<Slot>)
    requires Inv(t) && m != NO_MAC && p < 64 && Readable(t, past) && Room(t, m, past)
    ensures At(Insert(t, m, p, past).1, Insert(t, m, p, past).0, m)
    ensures Look(t, m, past).Found? ==> Look(t, m, past).i < |t.slots|
    ensures Look(t, m, past).Empty? ==> 0 < Look(t, m, past).i < t.highwater && Look(t, m, past).i < |t.slots|
    ensures Look(t, m, past).Empty? ==> !t.slots[Look(t, m, past).i].av && !Present(t, m)
    ensures Look(t, m, past).Top? ==> t.highwater < |t.slots|
  {
    LookIs(t, m, past);
    if Look(t, m, past) == Found(0) { ClearVmdqIs(SetVmdq(t, 0, p), 0, Pool(0)); }
  }

  lemma SameSlots(t: Table, t1: Table)
    requires t1.slots == t.slots && Unique(t.slots)
    ensures View(t1) == View(t) && forall m :: Present(t1, m) == Present(t, m)
  {
    forall m ensures Present(t1, m) == Present(t, m) == (m in View(t)) == (m in View(t1))
      ensures m in View(t) ==> View(t1)[m] == View(t)[m]
    {
      ViewHas(t, m);
      ViewHas(t1, m);
      if i: nat :| At(t, i, m) { ViewAt(t, i, m); assert At(t1, i, m); ViewAt(t1, i, m); }
      if i: nat :| At(t1, i, m) { assert At(t, i, m); }
    }
  }

  /** Without room nothing is added: no slot changes, and a number that is no slot is returned
      as if it were one; at most the high-water mark grows. */
  lemma AddRefused(t: Table, m: Mac, p: nat, past: seq<Slot>)
    requires Inv(t) && m != NO_MAC && Readable(t, past) && !Room(t, m, past)
    ensures var (i, t') := Insert(t, m, p, past);
            i >= |t.slots| && t'.slots == t.slots && t.highwater <= t'.highwater <= t.highwater + 1
  {
    LookIs(t, m, past);
  }

  /** So adding works exactly when there is room. */
  lemma AddIff(t: Table, m: Mac, p: nat, past: seq<Slot>)
    requires Inv(t) && m != NO_MAC && p < 64 && Readable(t, past)
    ensures Refines(t, Add(m, p, past), Insert(t, m, p, past).1) <==> Room(t, m, past)
  {
    if Room(t, m, past) {
      AddRefines(t, m, p, past);
    } else {
      AddRefused(t, m, p, past);
      SameSlots(t, Insert(t, m, p, past).1);
      ViewHas(t, m);
    }
  }

  lemma ForgetRefines(t: Table, i: nat, m: Mac)
    requires Inv(t) && At(t, i, m) && m != Own(t)
    ensures Refines(t, Forget(m), ClearRar(t, i))
  {
    ClearRarIs(t, i);
    PutKeeps(t, i, BLANK);
  }

  lemma StepRefines(t: Table, op: Op)
    requires Inv(t) && Fits(t, op)
    ensures Refines(t, op, Step(t, op))
  {
    ViewHas(t, op.m);
    match op
    case Add(m, p, past) => AddRefines(t, m, p, past);
    case Remove(m, q) =>
      forall i: nat | At(t, i, m) ensures Refines(t, op, ClearVmdq(t, i, q)) { RemoveRefines(t, i, m, q); }
    case Forget(m) =>
      forall i: nat | At(t, i, m) ensures Refines(t, op, ClearRar(t, i)) { ForgetRefines(t, i, m); }
      if !Present(t, m) { assert View(t) - {m} == View(t); }
  }

  // ---- whole runs ----

  /** The tables of a run, and whether every addition in it has room. */
  ghost predicate AllFit(t: Table, ops: seq<Op>)
    decreases |ops|
  {
    ops == [] || (Fits(t, ops[0]) && AllFit(Step(t, ops[0]), ops[1..]))
  }

  ghost function Run(t: Table, ops: seq<Op>): Table
    requires AllFit(t, ops)
    decreases |ops|
  {
    if ops == [] then t else Run(Step(t, ops[0]), ops[1..])
  }

  ghost function MapRun(v: map<Mac, set<nat>>, own: Mac, ops: seq<Op>): map<Mac, set<nat>>
    decreases |ops|
  {
    if ops == [] then v else MapRun(MapStep(v, own, ops[0]), own, ops[1..])
  }

  /** Every run is a run of the map. */
  lemma {:induction false} RunRefines(t: Table, ops: seq<Op>)
    requires Inv(t) && AllFit(t, ops)
    ensures Inv(Run(t, ops)) && View(Run(t, ops)) == MapRun(View(t), Own(t), ops)
    decreases |ops|
  {
    if ops != [] {
      StepRefines(t, ops[0]);
      RunRefines(Step(t, ops[0]), ops[1..]);
    }
  }

  // ---- where runs start, and a table they fill ----

  /** The registers are 32 bits wide and the marks in place; nothing else is known. */
  predicate Wired(t: Table) {
    && |t.slots| > 0 && t.highwater > 0 && (t.san == 0 || t.san >= |t.slots|)
    && forall i: nat | i < |t.slots| :: Bits(t.slots[i])
  }

  lemma InitIs(t: Table, m: Option<Mac>)
    requires Wired(t)
    ensures var t', x := InitRxAddrs(t, m), t.slots[0];
            && |t'.slots| == |t.slots| && t'.highwater == t.highwater && t'.san == t.san
            && t'.slots[0] == (if m.Some? then Slot(m.value, true, {}, {}) else x.(lo := {}, hi := {}))
            && forall i: nat | 0 < i < |t.slots| :: t'.slots[i] == Blanked(t.slots[i])
  {
    var t0 := if m.Some? then SetRar(t, 0, m.value, 0, true) else t;
    ClearVmdqIs(t0, 0, All);
  }

  /** Initialising leaves a table in order if and only if the pool bits of the slots other
      than 0, which it does not write, were already clear, and slot 0 has an address. */
  lemma InitIff(t: Table, m: Option<Mac>)
    requires Wired(t)
    ensures Inv(InitRxAddrs(t, m))
       <==> (m.Some? || t.slots[0].av) && forall i: nat | 0 < i < |t.slots| :: NoPools(t.slots[i])
  {
    InitIs(t, m);
    var t' := InitRxAddrs(t, m);
    if Inv(t') {
      forall i: nat | 0 < i < |t.slots| ensures NoPools(t.slots[i]) { assert Tidy(t'.slots[i], i); }
    }
  }

  /** Slots 0 to k hold the first k + 1 even numbers from 2 on, which as low register halves
      are addresses of single stations, and the mark is just above. */
  predicate Filled(t: Table, k: nat) {
    && k < |t.slots| && t.highwater == k + 1
    && forall i: nat | i <= k :: t.slots[i].av && t.slots[i].mac == Mac(2 * i + 2, 0)
  }

  function Nth(k: nat): Op {
    Add(Mac(2 * k + 2, 0), 1, [])
  }

  lemma FilledPresent(t: Table, k: nat)
    requires Inv(t) && Filled(t, k) && k + 1 < |t.slots|
    ensures !Present(t, Mac(2 * k + 4, 0)) && !t.slots[k + 1].av
  {
  }

  /** The search passes over filled slots. */
  lemma LookTop(t: Table, k: nat, m: Mac)
    requires Inv(t) && Filled(t, k) && k + 1 < |t.slots| && m == Mac(2 * k + 4, 0)
    ensures Look(t, m, []) == Top
  {
    FilledPresent(t, k);
    LookIs(t, m, []);
  }

  lemma PutFilled(t: Table, k: nat)
    requires Filled(t, k) && k + 1 < |t.slots|
    ensures Filled(SetRar(t, k + 1, Mac(2 * k + 4, 0), 1, true).(highwater := k + 2), k + 1)
  {
  }

  lemma FillOne(t: Table, k: nat)
    requires Inv(t) && Filled(t, k) && k + 1 < |t.slots|
    ensures Fits(t, Nth(k + 1)) && Inv(Step(t, Nth(k + 1))) && Filled(Step(t, Nth(k + 1)), k + 1)
    ensures |Step(t, Nth(k + 1)).slots| == |t.slots|
  {
    var m := Mac(2 * k + 4, 0);
    LookTop(t, k, m);
    assert Fits(t, Nth(k + 1)) by { FilledPresent(t, k); }
    var t' := Insert(t, m, 1, []).1;
    assert Step(t, Nth(k + 1)) == t';
    assert Inv(t') && |t'.slots| == |t.slots| by { AddTop(t, m, 1, []); }
    assert Filled(t', k + 1) by { PutFilled(t, k); }
  }

  lemma {:induction false} FillAll(t: Table, k: nat)
    returns (ops: seq<Op>)
    requires Inv(t) && Filled(t, k)
    ensures AllFit(t, ops) && Inv(Run(t, ops)) && |Run(t, ops).slots| == |t.slots| && Filled(Run(t, ops), |t.slots| - 1)
    decreases |t.slots| - k
  {
    if k + 1 == |t.slots| {
      ops := [];
    } else {
      FillOne(t, k);
      var rest := FillAll(Step(t, Nth(k + 1)), k + 1);
      ops := [Nth(k + 1)] + rest;
      assert ops[1..] == rest;
    }
  }

  ghost predicate Refuses(t: Table, m: Mac) {
    Readable(t, []) && !Room(t, m, [])
  }

  /** From initialisation inserts that all fit fill a table of any size; the next address is
      then refused. */
  lemma FullReached(n: nat)
    requires n > 0
    ensures var t := InitRxAddrs(Table(seq(n, _ => BLANK), 1, 0), Some(Mac(2, 0)));
            exists ops :: AllFit(t, ops) && Inv(Run(t, ops)) && Refuses(Run(t, ops), Mac(2 * n + 2, 0))
  {
    var t0 := Table(seq(n, _ => BLANK), 1, 0);
    var t := InitRxAddrs(t0, Some(Mac(2, 0)));
    InitIs(t0, Some(Mac(2, 0)));
    InitIff(t0, Some(Mac(2, 0)));
    var ops := FillAll(t, 0);
    assert Refuses(Run(t, ops), Mac(2 * n + 2, 0));
  }
}
