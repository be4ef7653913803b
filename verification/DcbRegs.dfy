/** The arbiter registers of an 82599-class part, one for each traffic class.  They are
    numbers; `x << k` is x * 2^k and `x >> k` is x / 2^k. */
module DcbRegs {
  import opened Arith

  // ---- credits of a class ----

  datatype Credits = Credits(refill: nat, most: nat, group: nat, groupStrict: bool, linkStrict: bool)

  /** What fits the fields: 9 bits of refill, 3 of group, 12 of maximum. */
  predicate Fits(c: Credits) {
    c.refill < 512 && c.group < 8 && c.most < 4096
  }

  /** RTTDT2C: maximum, refill, group, then the strict bits. */
  function PackTxDesc(c: Credits): nat {
    var reg := Or(Or(c.most * 4096, c.refill), c.group * 512);
    var reg1 := if c.groupStrict then Or(reg, 0x4000_0000) else reg;
    if c.linkStrict then Or(reg1, 0x8000_0000) else reg1
  }

  /** RTTPT2C, and RTRPT4C, which has no group-strict bit: refill, maximum, group. */
  function PackData(c: Credits): nat {
    var reg := Or(Or(c.refill, c.most * 4096), c.group * 512);
    var reg1 := if c.groupStrict then Or(reg, 0x4000_0000) else reg;
    if c.linkStrict then Or(reg1, 0x8000_0000) else reg1
  }

  /** The fields read back. */
  function Unpack(reg: nat): Credits {
    Credits(reg % 512, reg / 4096 % 4096, reg / 512 % 8, reg / 0x4000_0000 % 2 == 1, reg / 0x8000_0000 % 2 == 1)
  }

  function Sum(c: Credits): nat {
    c.refill + 512 * c.group + 4096 * c.most + (if c.groupStrict then 0x4000_0000 else 0)
    + if c.linkStrict then 0x8000_0000 else 0
  }

  lemma Powers()
    ensures Pow2(9) == 512 && Pow2(12) == 4096 && Pow2(30) == 0x4000_0000 && Pow2(31) == 0x8000_0000
  {
    Pow2Sum(15, 15);
    assert Pow2(15) == 0x8000 && Pow2(31) == 2 * Pow2(30);
  }

  lemma FieldsApart(refill: nat, most: nat, group: nat)
    requires refill < 512 && group < 8 && most < 4096
    ensures Or(Or(refill, most * 4096), group * 512) == refill + 512 * group + 4096 * most
  {
    Powers();
    OrSwap(refill, most * 4096, group * 512);
    OrApart(refill, 9, group, group * 512);
    OrApart(refill + 512 * group, 12, most, most * 4096);
  }

  lemma FlagsApart(reg: nat)
    requires reg < 0x4000_0000
    ensures Or(reg, 0x4000_0000) == reg + 0x4000_0000 && Or(reg, 0x8000_0000) == reg + 0x8000_0000
    ensures Or(reg + 0x4000_0000, 0x8000_0000) == reg + 0xC000_0000
  {
    Powers();
    OrApart(reg, 30, 1, 0x4000_0000);
    OrApart(reg, 31, 1, 0x8000_0000);
    OrApart(reg + 0x4000_0000, 31, 1, 0x8000_0000);
  }

  /** The fields do not overlap. */
  lemma PackDataIs(c: Credits)
    requires Fits(c)
    ensures PackData(c) == Sum(c)
  {
    FieldsApart(c.refill, c.most, c.group);
    FlagsApart(c.refill + 512 * c.group + 4096 * c.most);
  }

  lemma {:induction false} OrComm(x: nat, y: nat)
    ensures Or(x, y) == Or(y, x)
    decreases x + y
  {
    if x + y > 0 {
      OrComm(x / 2, y / 2);
      OrStep(x, y);
      OrStep(y, x);
    }
  }

  lemma SumUnpacks(c: Credits)
    requires Fits(c)
    ensures Unpack(Sum(c)) == c
  {
    var gs, ls := if c.groupStrict then 1 else 0, if c.linkStrict then 1 else 0;
    var flags := gs + 2 * ls;
    var above := c.most + 0x4_0000 * flags;
    DivIs(Sum(c), 512, c.group + 8 * above, c.refill);
    DivIs(c.group + 8 * above, 8, above, c.group);
    DivIs(Sum(c), 4096, above, c.refill + 512 * c.group);
    DivIs(above, 4096, 64 * flags, c.most);
    DivIs(Sum(c), 0x4000_0000, flags, c.refill + 512 * c.group + 4096 * c.most);
    DivIs(Sum(c), 0x8000_0000, ls, c.refill + 512 * c.group + 4096 * c.most + 0x4000_0000 * gs);
  }

  /** Every field of either register can be read back. */
  lemma PackUnpack(c: Credits)
    requires Fits(c)
    ensures Unpack(PackData(c)) == Unpack(PackTxDesc(c)) == c
  {
    PackDataIs(c);
    OrComm(c.most * 4096, c.refill);
    SumUnpacks(c);
  }
}
