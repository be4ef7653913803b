/** Traffic-class credits from bandwidth percentages, for IEEE 802.1Qaz and for the older
    CEE configuration with bandwidth groups. */
module DcbCredits {
  import opened Arith

  const CREDIT_QUANTUM: nat := 64
  const MAX_REFILL: nat := 511        // IXGBE_DCB_MAX_CREDIT_REFILL
  const MAX_CREDIT: nat := 4095

  /** Half a frame in credits, rounded up. */
  function MinCredit(frame: nat): nat {
    (frame / 2 + CREDIT_QUANTUM - 1) / CREDIT_QUANTUM
  }

  /** The smallest non-zero percentage, not above `m`. */
  function MinPercent(bw: seq<nat>, m: nat): nat {
    if bw == [] then m
    else MinPercent(bw[1..], if bw[0] < m && bw[0] != 0 then bw[0] else m)
  }

  function Multiplier(credit: nat, percent: nat): nat
    requires percent > 0
  {
    credit / percent + 1
  }

  function Refill(percent: nat, mult: nat, credit: nat): nat {
    var val := if percent * mult < MAX_REFILL then percent * mult else MAX_REFILL;
    if val < credit then credit else val
  }

  /** The most credits a class may hold; without bandwidth the minimum. */
  function Most(percent: nat, credit: nat): nat {
    if percent != 0 then percent * MAX_CREDIT / 100 else credit
  }

  // ---- what they are ----

  /** The least number of 64-byte credits that covers half a frame. */
  lemma MinCreditLeast(frame: nat, credit: nat)
    ensures credit >= MinCredit(frame) <==> credit * CREDIT_QUANTUM >= frame / 2
  {
  }

  lemma {:induction false} MinPercentIs(bw: seq<nat>, m: nat)
    requires m > 0
    ensures 0 < MinPercent(bw, m) <= m && (MinPercent(bw, m) == m || MinPercent(bw, m) in bw)
    ensures forall b <- bw :: b != 0 ==> MinPercent(bw, m) <= b
  {
    if bw != [] {
      MinPercentIs(bw[1..], if bw[0] < m && bw[0] != 0 then bw[0] else m);
      assert forall b <- bw :: b == bw[0] || b in bw[1..];
    }
  }

  /** The multiplier is the least one that lifts the smallest percentage above the minimum. */
  lemma MultiplierLeast(credit: nat, percent: nat, j: nat)
    requires percent > 0
    ensures percent * j > credit <==> j >= Multiplier(credit, percent)
  {
    var d, r := credit / percent, credit % percent;
    assert credit == percent * d + r;
    if j > d { MulStep(percent, d, j); }
    if j < d { MulStep(percent, j, d); }
  }

  /** With a minimum the hardware can hold, every refill is between the two limits, and for
      a class with at least the smallest percentage only the upper one ever cuts. */
  lemma RefillBounds(percent: nat, least: nat, credit: nat)
    requires credit <= MAX_REFILL && least > 0
    ensures var r := Refill(percent, Multiplier(credit, least), credit);
            && credit <= r <= MAX_REFILL
            && (percent >= least && percent * Multiplier(credit, least) <= MAX_REFILL
                ==> r == percent * Multiplier(credit, least) > credit)
            && (percent * Multiplier(credit, least) >= MAX_REFILL ==> r == MAX_REFILL)
            && (percent == 0 ==> r == credit)
  {
    var k := Multiplier(credit, least);
    MultiplierLeast(credit, least, k);
    if percent > least { MulStep(k, least, percent); }
  }

  lemma Uncut(a: nat, least: nat, credit: nat, k: nat)
    requires credit <= MAX_REFILL && 0 < least <= a && k == Multiplier(credit, least) && a * k <= MAX_REFILL
    ensures Refill(a, k, credit) == a * k
  {
    RefillBounds(a, least, credit);
  }

  lemma Scaled(a: nat, b: nat, k: nat, x: nat, y: nat)
    requires x == a * k && y == b * k
    ensures x * b == y * a
  {
    assert x * b == (a * k) * b == (b * k) * a;
  }

  /** Uncut refills of classes with bandwidth are exactly proportional to it. */
  lemma RefillsProportional(bw: seq<nat>, credit: nat, k: nat, i: nat, j: nat)
    requires i < |bw| && j < |bw| && bw[i] != 0 && bw[j] != 0 && credit <= MAX_REFILL
    requires k == Multiplier(credit, MinPercentOf(bw)) && bw[i] * k <= MAX_REFILL && bw[j] * k <= MAX_REFILL
    ensures Refill(bw[i], k, credit) * bw[j] == Refill(bw[j], k, credit) * bw[i]
  {
    var least := MinPercentOf(bw);
    MinPercentIs(bw, 100);
    assert bw[i] in bw && bw[j] in bw;
    Uncut(bw[i], least, credit, k);
    Uncut(bw[j], least, credit, k);
    Scaled(bw[i], bw[j], k, Refill(bw[i], k, credit), Refill(bw[j], k, credit));
  }

  function MinPercentOf(bw: seq<nat>): (m: nat)
    ensures m > 0
  {
    MinPercentIs(bw, 100);
    MinPercent(bw, 100)
  }

  /** A class's maximum is its percentage of 4095, rounded down, or without bandwidth the
      minimum. */
  lemma MostIs(percent: nat, credit: nat)
    ensures percent > 0 ==> 100 * Most(percent, credit) <= percent * MAX_CREDIT < 100 * (Most(percent, credit) + 1)
    ensures percent == 0 ==> Most(percent, credit) == credit
  {
  }

  lemma MostBounds(percent: nat, credit: nat)
    requires percent <= 100 && credit <= MAX_CREDIT
    ensures Most(percent, credit) <= MAX_CREDIT
  {
  }

  // ---- CEE: percentages of a group's percentage ----

  function Link(percent: nat, group: nat): nat {
    percent * group / 100
  }

  /** Rounded up to one for a class with bandwidth. */
  function LinkUp(percent: nat, group: nat): nat {
    if percent > 0 && Link(percent, group) == 0 then 1 else Link(percent, group)
  }

  function CeeMost(link: nat, credit: nat): nat {
    var most := link * MAX_CREDIT / 100;
    if most < credit then credit else most
  }

  /** A link percentage is rounded down, but not to nothing; and the CEE maximum is the least
      that is not below the minimum and within one of the percentage of 4095. */
  lemma LinkIs(percent: nat, group: nat, credit: nat, most: nat)
    ensures 100 * Link(percent, group) <= percent * group < 100 * (Link(percent, group) + 1)
    ensures LinkUp(percent, group) == if percent > 0 && percent * group < 100 then 1 else Link(percent, group)
    ensures var link := LinkUp(percent, group);
            most >= CeeMost(link, credit) <==> most >= credit && link * MAX_CREDIT < 100 * (most + 1)
  {
  }

  function Links(percents: seq<nat>, ids: seq<nat>, groups: seq<nat>): (r: seq<nat>)
    requires |ids| == |percents| && forall id <- ids :: id < |groups|
    ensures |r| == |percents|
  {
    seq(|percents|, i requires 0 <= i < |percents| =>
          assert ids[i] in ids; Link(percents[i], groups[ids[i]]))
  }

  // ---- the driver ----

  lemma {:induction false} MinPercentSnoc(bw: seq<nat>, b: nat, m: nat)
    ensures MinPercent(bw + [b], m) == var r := MinPercent(bw, m); if b < r && b != 0 then b else r
  {
    if bw != [] {
      assert (bw + [b])[1..] == bw[1..] + [b];
      MinPercentSnoc(bw[1..], b, if bw[0] < m && bw[0] != 0 then bw[0] else m);
    } else {
      assert (bw + [b])[1..] == [];
    }
  }

  method LeastPercent(bw: array<nat>) returns (least: nat)
    ensures least == MinPercentOf(bw[..])
  {
    least := 100;
    for i := 0 to bw.Length
      invariant least == MinPercent(bw[..i], 100)
    {
      MinPercentSnoc(bw[..i], bw[i], 100);
      assert bw[..i + 1] == bw[..i] + [bw[i]];
      if bw[i] < least && bw[i] != 0 { least := bw[i]; }
    }
    assert bw[..bw.Length] == bw[..];
  }

  method ClassRefill(percent: nat, mult: nat, credit: nat) returns (refill: nat)
    ensures refill == Refill(percent, mult, credit)
  {
    refill := if percent * mult < MAX_REFILL then percent * mult else MAX_REFILL;
    if refill < credit { refill := credit; }
  }

  /** ixgbe_dcb_calculate_tc_credits */
  method CalculateCredits(bw: array<nat>, refill: array<nat>, most: array<nat>, frame: nat)
    requires refill != bw && most != bw && refill != most && bw.Length == refill.Length == most.Length
    requires MinCredit(frame) < 0x10000
    modifies refill, most
    ensures var credit := MinCredit(frame);
            var k := Multiplier(credit, MinPercentOf(bw[..]));
            forall i | 0 <= i < bw.Length :: refill[i] == Refill(bw[i], k, credit) && most[i] == Most(bw[i], credit)
  {
    var credit := (frame / 2 + CREDIT_QUANTUM - 1) / CREDIT_QUANTUM;
    var least := LeastPercent(bw);
    var mult := credit / least + 1;
    for i := 0 to bw.Length
      invariant forall j | 0 <= j < i :: refill[j] == Refill(bw[j], mult, credit) && most[j] == Most(bw[j], credit)
    {
      var val := ClassRefill(bw[i], mult, credit);
      refill[i] := val;
      most[i] := if bw[i] != 0 then bw[i] * MAX_CREDIT / 100 else credit;
    }
  }

  /** Stored link percentage, which has 8 bits, refill and maximum of a class; the credits
      come from the whole percentage. */
  function Want(percent: nat, group: nat, k: nat, credit: nat): (nat, nat, nat) {
    var link := LinkUp(percent, group);
    (link % 256, Refill(link, k, credit), CeeMost(link, credit))
  }

  method ClassCredits(percent: nat, group: nat, mult: nat, credit: nat) returns (stored: nat, refill: nat, most: nat)
    ensures (stored, refill, most) == Want(percent, group, mult, credit)
  {
    var link := percent * group / 100;
    if percent > 0 && link == 0 { link := 1; }
    stored := link % 256;
    refill := ClassRefill(link, mult, credit);
    most := link * MAX_CREDIT / 100;
    if most < credit { most := credit; }
  }

  /** One direction of ixgbe_dcb_config. */
  class Paths {
    const ids: array<nat>              // bwg_id
    const percents: array<nat>         // bwg_percent
    const groups: array<nat>           // bw_percentage
    const links: array<nat>            // link_percent
    const refills: array<nat>          // data_credits_refill
    const mosts: array<nat>            // data_credits_max
    const descs: array<nat>            // desc_credits_max

    constructor (ids: array<nat>, percents: array<nat>, groups: array<nat>)
      requires ids.Length == percents.Length
      requires forall id <- ids[..] :: id < groups.Length
      ensures this.ids == ids && this.percents == percents && this.groups == groups && Valid()
      ensures fresh(links) && fresh(refills) && fresh(mosts) && fresh(descs)
    {
      this.ids, this.percents, this.groups := ids, percents, groups;
      links, refills := new nat[ids.Length], new nat[ids.Length];
      mosts, descs := new nat[ids.Length], new nat[ids.Length];
    }

    ghost predicate NoInput(a: array<nat>)
    {
      a != ids && a != percents && a != groups
    }

    ghost predicate Valid()
      reads this, ids
    {
      && percents.Length == ids.Length == links.Length == refills.Length == mosts.Length == descs.Length
      && NoInput(links) && NoInput(refills) && NoInput(mosts) && NoInput(descs)
      && links != refills && links != mosts && links != descs
      && refills != mosts && refills != descs && mosts != descs
      && forall id <- ids[..] :: id < groups.Length
    }

    method LeastLink() returns (least: nat)
      requires Valid()
      ensures least == MinPercentOf(Links(percents[..], ids[..], groups[..]))
    {
      ghost var all := Links(percents[..], ids[..], groups[..]);
      least := 100;
      for i := 0 to ids.Length
        invariant least == MinPercent(all[..i], 100)
      {
        assert ids[i] in ids[..];
        var link := percents[i] * groups[ids[i]] / 100;
        MinPercentSnoc(all[..i], all[i], 100);
        assert all[..i + 1] == all[..i] + [all[i]];
        if link != 0 && link < least { least := link; }
      }
      assert all[..ids.Length] == all;
    }

    /** What each class is left with, for the multiplier `k`. */
    ghost function Wanted(k: nat, credit: nat): (r: seq<(nat, nat, nat)>)
      requires Valid()
      reads this, ids, percents, groups
      ensures |r| == ids.Length
    {
      seq(ids.Length, i requires 0 <= i < ids.Length reads this, ids, percents, groups =>
            if ids[i] < groups.Length then Want(percents[i], groups[ids[i]], k, credit) else (0, 0, 0))
    }

    /** ixgbe_dcb_calculate_tc_credits_cee on an 82599-class part.  In the Tx direction the
        descriptor plane gets the same maximum. */
    method CalculateCreditsCee(frame: nat, tx: bool)
      requires Valid() && MinCredit(frame) < 0x10000
      modifies links, refills, mosts, descs
      ensures Valid()
      ensures var credit := MinCredit(frame);
              var k := Multiplier(credit, MinPercentOf(Links(percents[..], ids[..], groups[..])));
              var wanted := Wanted(k, credit);
              forall i | 0 <= i < ids.Length :: (links[i], refills[i], mosts[i]) == wanted[i]
      ensures forall i | 0 <= i < ids.Length :: descs[i] == if tx then mosts[i] else old(descs[i])
    {
      var credit := (frame / 2 + CREDIT_QUANTUM - 1) / CREDIT_QUANTUM;
      var least := LeastLink();
      var mult := credit / least + 1;
      SetClasses(mult, credit, tx);
    }

    /** The loop over the classes. */
    method SetClasses(mult: nat, credit: nat, tx: bool)
      requires Valid()
      modifies links, refills, mosts, descs
      ensures Valid()
      ensures forall i | 0 <= i < ids.Length :: (links[i], refills[i], mosts[i]) == Wanted(mult, credit)[i]
      ensures forall i | 0 <= i < ids.Length :: descs[i] == if tx then mosts[i] else old(descs[i])
    {
      ghost var wanted := Wanted(mult, credit);
      for i := 0 to ids.Length
        invariant Valid()
        invariant forall j | 0 <= j < i :: (links[j], refills[j], mosts[j]) == wanted[j]
        invariant forall j | 0 <= j < ids.Length :: descs[j] == if tx && j < i then mosts[j] else old(descs[j])
      {
        SetClass(i, mult, credit, tx);
      }
    }

    /** One pass of it. */
    method SetClass(i: nat, mult: nat, credit: nat, tx: bool)
      requires Valid() && i < ids.Length
      modifies links, refills, mosts, descs
      ensures Valid() && (links[i], refills[i], mosts[i]) == Wanted(mult, credit)[i]
      ensures forall j | 0 <= j < ids.Length && j != i ::
                links[j] == old(links[j]) && refills[j] == old(refills[j]) && mosts[j] == old(mosts[j])
      ensures forall j | 0 <= j < ids.Length :: descs[j] == if tx && j == i then mosts[j] else old(descs[j])
    {
      assert ids[i] in ids[..];
      var link, refill, most := ClassCredits(percents[i], groups[ids[i]], mult, credit);
      links[i], refills[i] := link, refill;
      if tx { descs[i] := most; }
      mosts[i] := most;
    }
  }
}
