/** The bandwidth rules of a CEE configuration, one direction at a time, and what they
    guarantee about the shares of the link. */
module DcbRules {
  import opened Arith
  import opened DcbCredits

  const GROUPS: nat := 8              // IXGBE_DCB_MAX_BW_GROUP
  const FULL: nat := 100              // IXGBE_DCB_BW_PERCENT

  /** bwg_id, bwg_percent and whether tsa is link strict. */
  datatype Path = Path(id: nat, percent: nat, strict: bool)

  // ---- the rules ----

  /** A strict class has no bandwidth, any other class has some. */
  predicate ClassOk(p: Path) {
    p.id < GROUPS && (p.strict <==> p.percent == 0)
  }

  function GroupSum(ps: seq<Path>, g: nat): nat {
    if ps == [] then 0
    else (if ps[0].id == g then ps[0].percent else 0) + GroupSum(ps[1..], g)
  }

  predicate GroupStrict(ps: seq<Path>, g: nat) {
    exists p <- ps :: p.id == g && p.strict
  }

  function Total(ws: seq<nat>): nat {
    if ws == [] then 0 else ws[0] + Total(ws[1..])
  }

  /** The classes of a group add up to 100 or nothing, and to nothing in a strict group. */
  predicate GroupOk(ps: seq<Path>, g: nat) {
    GroupSum(ps, g) == 0 || (GroupSum(ps, g) == FULL && !GroupStrict(ps, g))
  }

  predicate Rules(ps: seq<Path>, ws: seq<nat>) {
    (forall p <- ps :: ClassOk(p)) && (forall g: nat | g < GROUPS :: GroupOk(ps, g)) && Total(ws) == FULL
  }

  // ---- as coded, with sums in 8 bits ----

  predicate GroupOk8(ps: seq<Path>, g: nat) {
    var sum := GroupSum(ps, g) % 256;
    if GroupStrict(ps, g) then sum == 0 else sum == FULL || sum == 0
  }

  predicate Rules8(ps: seq<Path>, ws: seq<nat>) {
    (forall p <- ps :: ClassOk(p)) && (forall g: nat | g < GROUPS :: GroupOk8(ps, g)) && Total(ws) % 256 == FULL
  }

  predicate SumsFit(ps: seq<Path>, ws: seq<nat>) {
    (forall g: nat | g < GROUPS :: GroupSum(ps, g) < 256) && Total(ws) < 256
  }

  /** When the true sums fit in 8 bits the coded rules are the rules. */
  lemma RulesAgree(ps: seq<Path>, ws: seq<nat>)
    requires SumsFit(ps, ws)
    ensures Rules8(ps, ws) <==> Rules(ps, ws)
  {
    forall g: nat | g < GROUPS ensures GroupOk8(ps, g) <==> GroupOk(ps, g) {
      assert GroupSum(ps, g) % 256 == GroupSum(ps, g);
    }
  }

  /** So the coded rules accept a wrong configuration exactly when a sum does not fit. */
  lemma RulesIff(ps: seq<Path>, ws: seq<nat>)
    ensures Rules(ps, ws) <==> Rules8(ps, ws) && SumsFit(ps, ws)
  {
    if Rules(ps, ws) {
      forall g: nat | g < GROUPS ensures GroupSum(ps, g) < 256 { assert GroupOk(ps, g); }
      RulesAgree(ps, ws);
    } else if SumsFit(ps, ws) {
      RulesAgree(ps, ws);
    }
  }

  /** Three classes of group 0 with 100, 255 and 1 percent, and five strict ones of group 1. */
  function WrapPaths(n: nat): (ps: seq<Path>)
    requires n <= 8
    ensures |ps| == n
  {
    if n == 0 then [] else [WrapPath(n)] + WrapPaths(n - 1)
  }

  function WrapPath(n: nat): Path {
    if n == 8 then Path(0, 100, false) else if n == 7 then Path(0, 255, false) else if n == 6 then Path(0, 1, false)
    else Path(1, 0, true)
  }

  lemma {:induction false} WrapSums(n: nat, g: nat, ws: seq<nat>)
    requires n <= 8 && |ws| == GROUPS && ws[0] == 100
    ensures var sum := if n == 8 then 356 else if n == 7 then 256 else if n == 6 then 1 else 0;
            GroupSum(WrapPaths(n), g) == (if g == 0 then sum else 0) && LinkSum(WrapPaths(n), ws) == sum
    ensures forall p <- WrapPaths(n) :: ClassOk(p) && (p.id == 0 ==> !p.strict) && p.id <= 1
  {
    if n > 0 { WrapSums(n - 1, g, ws); }
  }

  lemma WrapRules(n: nat, ws: seq<nat>)
    requires n == 8 && |ws| == GROUPS && ws[0] == 100 && forall w <- ws[1..] :: w == 0
    ensures Rules8(WrapPaths(n), ws) && !Rules(WrapPaths(n), ws) && LinkSum(WrapPaths(n), ws) == 356
  {
    forall g: nat | g < GROUPS ensures GroupOk8(WrapPaths(n), g) {
      WrapSums(n, g, ws);
    }
    WrapSums(n, 0, ws);
    assert !GroupOk(WrapPaths(n), 0);
    Zeros(ws[1..]);
  }

  /** Eight bits are not always enough: eight classes are accepted though group 0 adds up to
      356, and they are then promised 356 percent of the link. */
  lemma SumsWrap()
    ensures exists ps, ws :: |ps| == 8 && |ws| == GROUPS && Rules8(ps, ws) && !Rules(ps, ws) && LinkSum(ps, ws) == 356
  {
    var n, ws := 8, [100] + seq(7, _ => 0);
    WrapRules(n, ws);
    assert |WrapPaths(n)| == n;
  }

  lemma {:induction false} Zeros(ws: seq<nat>)
    requires forall w <- ws :: w == 0
    ensures Total(ws) == 0
  {
    if ws != [] {
      assert ws[0] in ws && forall w <- ws[1..] :: w in ws;
      Zeros(ws[1..]);
    }
  }

  // ---- shares of the link ----

  /** A class's percentage of its group's percentage, in hundredths of a percent. */
  function Share(p: Path, ws: seq<nat>): nat {
    if p.id < |ws| then p.percent * ws[p.id] else 0
  }

  function Shares(ps: seq<Path>, ws: seq<nat>): nat {
    if ps == [] then 0 else Share(ps[0], ws) + Shares(ps[1..], ws)
  }

  /** The same, added up group by group. */
  function ByGroup(ps: seq<Path>, ws: seq<nat>, g: nat): nat
    requires g <= |ws|
    decreases |ws| - g
  {
    if g == |ws| then 0 else ws[g] * GroupSum(ps, g) + ByGroup(ps, ws, g + 1)
  }

  lemma {:induction false} ByGroupCons(ps: seq<Path>, ws: seq<nat>, g: nat)
    requires ps != [] && g <= |ws|
    ensures ByGroup(ps, ws, g)
         == (if g <= ps[0].id then Share(ps[0], ws) else 0) + ByGroup(ps[1..], ws, g)
    decreases |ws| - g
  {
    if g < |ws| {
      ByGroupCons(ps, ws, g + 1);
      if ps[0].id == g {
        assert ws[g] * (ps[0].percent + GroupSum(ps[1..], g)) == ps[0].percent * ws[g] + ws[g] * GroupSum(ps[1..], g);
      }
    }
  }

  lemma {:induction false} ByGroupNone(ws: seq<nat>, g: nat)
    requires g <= |ws|
    ensures ByGroup([], ws, g) == 0
    decreases |ws| - g
  {
    if g < |ws| { ByGroupNone(ws, g + 1); }
  }

  lemma {:induction false} SharesByGroup(ps: seq<Path>, ws: seq<nat>)
    ensures Shares(ps, ws) == ByGroup(ps, ws, 0)
  {
    if ps == [] {
      ByGroupNone(ws, 0);
    } else {
      SharesByGroup(ps[1..], ws);
      ByGroupCons(ps, ws, 0);
    }
  }

  lemma {:induction false} ByGroupBound(ps: seq<Path>, ws: seq<nat>, g: nat)
    requires g <= |ws| <= GROUPS && forall h: nat | h < GROUPS :: GroupOk(ps, h)
    ensures ByGroup(ps, ws, g) <= FULL * Total(ws[g..])
    decreases |ws| - g
  {
    if g < |ws| {
      assert GroupOk(ps, g);
      assert ws[g..][0] == ws[g] && ws[g..][1..] == ws[g + 1..];
      ByGroupBound(ps, ws, g + 1);
    }
  }

  /** Link percentages before and after rounding up, and how many are rounded up. */
  function LinkSum(ps: seq<Path>, ws: seq<nat>): nat {
    if ps == [] then 0 else Share(ps[0], ws) / FULL + LinkSum(ps[1..], ws)
  }

  function LinkUpSum(ps: seq<Path>, ws: seq<nat>): nat {
    if ps == [] then 0
    else (if ps[0].id < |ws| then LinkUp(ps[0].percent, ws[ps[0].id]) else 0) + LinkUpSum(ps[1..], ws)
  }

  function Raised(ps: seq<Path>, ws: seq<nat>): nat {
    if ps == [] then 0
    else (if ps[0].id < |ws| && ps[0].percent > 0 && Link(ps[0].percent, ws[ps[0].id]) == 0 then 1 else 0)
         + Raised(ps[1..], ws)
  }

  lemma {:induction false} LinkSumBelow(ps: seq<Path>, ws: seq<nat>)
    ensures FULL * LinkSum(ps, ws) <= Shares(ps, ws)
    ensures LinkUpSum(ps, ws) == LinkSum(ps, ws) + Raised(ps, ws)
  {
    if ps != [] { LinkSumBelow(ps[1..], ws); }
  }

  /** An accepted configuration whose sums fit in 8 bits never promises more than the link,
      but for rounding up. */
  lemma Conserved(ps: seq<Path>, ws: seq<nat>)
    requires Rules8(ps, ws) && SumsFit(ps, ws) && |ws| == GROUPS
    ensures LinkSum(ps, ws) <= 100 && LinkUpSum(ps, ws) <= 100 + Raised(ps, ws)
  {
    RulesIff(ps, ws);
    SharesByGroup(ps, ws);
    ByGroupBound(ps, ws, 0);
    assert ws[0..] == ws;
    LinkSumBelow(ps, ws);
  }

  // ---- the checker ----

  lemma {:induction false} GroupSumSnoc(ps: seq<Path>, p: Path, g: nat)
    ensures GroupSum(ps + [p], g) == GroupSum(ps, g) + if p.id == g then p.percent else 0
  {
    if ps != [] {
      assert (ps + [p])[1..] == ps[1..] + [p];
      GroupSumSnoc(ps[1..], p, g);
    }
  }

  lemma GroupStrictSnoc(ps: seq<Path>, p: Path, g: nat)
    ensures GroupStrict(ps + [p], g) <==> GroupStrict(ps, g) || (p.id == g && p.strict)
  {
    if GroupStrict(ps, g) {
      var q :| q in ps && q.id == g && q.strict;
      assert q in ps + [p];
    }
    assert p in ps + [p];
  }

  lemma {:induction false} TotalSnoc(ws: seq<nat>, w: nat)
    ensures Total(ws + [w]) == Total(ws) + w
  {
    if ws != [] {
      assert (ws + [w])[1..] == ws[1..] + [w];
      TotalSnoc(ws[1..], w);
    }
  }

  /** bw_sum and link_strict after the classes `ps`. */
  predicate Kept(sums: seq<nat>, strict: seq<bool>, ps: seq<Path>) {
    |sums| == |strict| == GROUPS
    && forall g: nat | g < GROUPS :: sums[g] == GroupSum(ps, g) % 256 && strict[g] == GroupStrict(ps, g)
  }

  lemma KeptSnoc(sums: seq<nat>, strict: seq<bool>, ps: seq<Path>, p: Path)
    requires Kept(sums, strict, ps) && p.id < GROUPS
    ensures Kept(sums[p.id := (sums[p.id] + p.percent) % 256], strict[p.id := strict[p.id] || p.strict], ps + [p])
  {
    forall g: nat | g < GROUPS
      ensures GroupSum(ps + [p], g) == GroupSum(ps, g) + if p.id == g then p.percent else 0
      ensures GroupStrict(ps + [p], g) == (GroupStrict(ps, g) || (p.id == g && p.strict))
    {
      GroupSumSnoc(ps, p, g);
      GroupStrictSnoc(ps, p, g);
    }
  }

  method CheckClass(p: Path, sums: array<nat>, strict: array<bool>, ghost done: seq<Path>) returns (ok: bool)
    requires Kept(sums[..], strict[..], done)
    modifies sums, strict
    ensures ok == ClassOk(p) && (ok ==> Kept(sums[..], strict[..], done + [p]))
  {
    if p.id >= GROUPS { return false; }
    KeptSnoc(sums[..], strict[..], done, p);
    if p.strict {
      strict[p.id] := true;
      if p.percent != 0 { return false; }
    } else if p.percent == 0 {
      return false;
    }
    sums[p.id] := (sums[p.id] + p.percent) % 256;
    assert strict[..] == old(strict[..])[p.id := old(strict[p.id]) || p.strict];
    ok := true;
  }

  method CheckClasses(ps: seq<Path>) returns (ok: bool, sums: array<nat>, strict: array<bool>)
    ensures ok == (forall p <- ps :: ClassOk(p))
    ensures ok ==> Kept(sums[..], strict[..], ps)
  {
    sums, strict := new nat[GROUPS](_ => 0), new bool[GROUPS](_ => false);
    ok := true;
    for j := 0 to |ps|
      invariant forall p <- ps[..j] :: ClassOk(p)
      invariant Kept(sums[..], strict[..], ps[..j])
    {
      assert ps[j] in ps;
      ok := CheckClass(ps[j], sums, strict, ps[..j]);
      if !ok { return; }
      assert ps[..j + 1] == ps[..j] + [ps[j]];
    }
    ok := true;
    assert ps[..|ps|] == ps;
  }

  lemma TotalStep(ws: seq<nat>, j: nat, bw: nat)
    requires j < |ws| && bw == Total(ws[..j]) % 256
    ensures (bw + ws[j]) % 256 == Total(ws[..j + 1]) % 256
  {
    TotalSnoc(ws[..j], ws[j]);
    assert ws[..j + 1] == ws[..j] + [ws[j]];
  }

  lemma KeptGroup(sums: seq<nat>, strict: seq<bool>, ps: seq<Path>, g: nat)
    requires Kept(sums, strict, ps) && g < GROUPS
    ensures GroupOk8(ps, g) <==> if strict[g] then sums[g] == 0 else sums[g] == FULL || sums[g] == 0
  {
  }

  method CheckGroups(ws: seq<nat>, sums: seq<nat>, strict: seq<bool>, ghost ps: seq<Path>) returns (ok: bool)
    requires |ws| == GROUPS && Kept(sums, strict, ps)
    ensures ok == ((forall g: nat | g < GROUPS :: GroupOk8(ps, g)) && Total(ws) % 256 == FULL)
  {
    var bw := 0;
    for j := 0 to GROUPS
      invariant bw == Total(ws[..j]) % 256
      invariant forall g: nat | g < j :: GroupOk8(ps, g)
    {
      TotalStep(ws, j, bw);
      KeptGroup(sums, strict, ps, j);
      bw := (bw + ws[j]) % 256;
      if if strict[j] then sums[j] != 0 else sums[j] != FULL && sums[j] != 0 { return false; }
    }
    assert ws[..GROUPS] == ws;
    ok := bw == FULL;
  }

  /** One direction of ixgbe_dcb_check_config_cee. */
  method Check(ps: seq<Path>, ws: seq<nat>) returns (ok: bool)
    requires |ws| == GROUPS
    ensures ok == Rules8(ps, ws)
  {
    var sums, strict;
    ok, sums, strict := CheckClasses(ps);
    if ok { ok := CheckGroups(ws, sums[..], strict[..], ps); }
  }

  /** ixgbe_dcb_check_config_cee: first Tx, then Rx. */
  method CheckConfig(txPaths: seq<Path>, txGroups: seq<nat>, rxPaths: seq<Path>, rxGroups: seq<nat>) returns (ok: bool)
    requires |txGroups| == |rxGroups| == GROUPS
    ensures ok == (Rules8(txPaths, txGroups) && Rules8(rxPaths, rxGroups))
  {
    ok := Check(txPaths, txGroups);
    if ok { ok := Check(rxPaths, rxGroups); }
  }
}
