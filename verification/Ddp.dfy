/** The life of FCoE direct data placement contexts: DMA mappings made and undone,
    buffer-list blocks taken from a pool and given back.  Every such act is an
    event in a log; a mapping or block is named by the position of the event
    that created it. */
module Ddp {
  import opened DdpList
  import opened Options

  datatype Event =
    | Mapped(id: nat) | Unmapped(id: nat)
    | UnmappedNothing                     // dma_unmap_sg on no list
    | Allocated(pool: nat, id: nat) | Freed(pool: nat, id: nat)

  /** struct ixgbe_fcoe_ddp */
  datatype Context = Context(len: nat, err: bool, udl: Option<nat>, pool: Option<nat>, sgl: Option<nat>, sgc: nat)

  const EMPTY := Context(0, false, None, None, None, 0)

  /** ixgbe_fcoe_clear_ddp: everything but the pool. */
  function Clear(c: Context): Context {
    Context(0, true, None, c.pool, None, 0)
  }

  /** A setup call: its arguments, and what the kernel answers along the way. */
  datatype Request = Request(
    up: bool,              // arguments valid, adapter neither down nor resetting
    pool: Option<nat>,     // this CPU's pool
    mapOk: bool,           // dma_map_sg succeeds
    blockOk: bool,         // dma_pool_alloc succeeds
    sgc: nat,
    segs: seq<Segment>,    // the mapped segments
    extra: nat             // the spare buffer
  )

  datatype Outcome = Outcome(context: Context, events: seq<Event>)

  /** ixgbe_fcoe_ddp_setup, given whether the buffer list can be built; `now` is the
      position of the next event. */
  function SetupIf(c: Context, q: Request, fits: bool, now: nat): Outcome {
    if !q.up || c.sgl.Some? then Outcome(c, [])
    else if q.pool.None? || !q.mapOk then Outcome(Clear(c), [])
    else if !q.blockOk then Outcome(Clear(c), [Mapped(now), Unmapped(now)])
    else
      var p, block := q.pool.value, now + 1;
      var c1 := Clear(c).(udl := Some(block), pool := Some(p), sgl := Some(now), sgc := q.sgc);
      if fits then Outcome(c1, [Mapped(now), Allocated(p, block)])
      else Outcome(Clear(c1), [Mapped(now), Allocated(p, block), Freed(p, block), Unmapped(now)])
  }

  function Setup(c: Context, q: Request, now: nat): Outcome {
    SetupIf(c, q, BuildList(q.segs, q.extra).verdict == Fits, now)
  }

  const EINVAL: int := -22

  datatype Completion = DataPlaced | Response | NotPlaced | NoMatch

  function Unmap(c: Context): seq<Event> {
    if c.sgl.Some? then [Unmapped(c.sgl.value)] else []
  }

  /** A response undoes the mapping without asking whether there is one. */
  function Respond(c: Context): seq<Event> {
    if c.sgl.Some? then [Unmapped(c.sgl.value)] else [UnmappedNothing]
  }

  /** ixgbe_fcoe_ddp for a frame of this exchange; `len` is the length the hardware reports. */
  function Complete(c: Context, error: bool, kind: Completion, len: nat): Outcome {
    if c.udl.None? || error then Outcome(c, [])
    else match kind
      case DataPlaced => Outcome(c.(len := len), [])
      case Response => Outcome(c.(err := false, sgl := None, sgc := 0, len := len), Respond(c))
      case NotPlaced => Outcome(c.(len := len), [])
      case NoMatch => Outcome(c, [])
  }

  /** ixgbe_fcoe_ddp_put */
  function Put(c: Context): Outcome {
    if c.udl.None? then Outcome(c, [])
    else
      var free := if c.pool.Some? then [Freed(c.pool.value, c.udl.value)] else [];
      Outcome(Clear(c).(pool := None), Unmap(c) + free)
  }

  /** What put returns. */
  function PutLength(c: Context): nat {
    if c.udl.None? then 0 else c.len
  }

  /** Whether it invalidates the hardware's context. */
  predicate PutForces(c: Context) {
    c.udl.Some? && c.err
  }

  // ---- the ledger ----

  datatype State = State(ctxs: seq<Context>, log: seq<Event>)

  function Sgls(ctxs: seq<Context>): seq<Option<nat>> {
    seq(|ctxs|, i requires 0 <= i < |ctxs| => ctxs[i].sgl)
  }

  /** The block a context owns, with the pool it would go back to. */
  function Block(c: Context): Option<(nat, nat)> {
    if c.udl.Some? && c.pool.Some? then Some((c.pool.value, c.udl.value)) else None
  }

  function Blocks(ctxs: seq<Context>): seq<Option<(nat, nat)>> {
    seq(|ctxs|, i requires 0 <= i < |ctxs| => Block(ctxs[i]))
  }

  /** A context with a mapping has a block, and one with a block knows its pool. */
  predicate Formed(c: Context) {
    (c.sgl.Some? ==> c.udl.Some?) && (c.udl.Some? ==> c.pool.Some?)
  }

  /** A creating event is named by its position. */
  predicate Named(log: seq<Event>) {
    forall i :: 0 <= i < |log| && (log[i].Mapped? || log[i].Allocated?) ==> log[i].id == i
  }

  function Count(b: bool): nat {
    if b then 1 else 0
  }

  function Times(log: seq<Event>, e: Event): nat {
    multiset(log)[e]
  }

  /** Contexts that own mapping `m`, and block `b` of pool `p`. */
  function SglOwners(s: State, m: nat): nat {
    multiset(Sgls(s.ctxs))[Some(m)]
  }

  function BlockOwners(s: State, p: nat, b: nat): nat {
    multiset(Blocks(s.ctxs))[Some((p, b))]
  }

  /** Mapping `m` has been undone or has an owner as often as it was made, ... */
  predicate MapBalanced(s: State, m: nat) {
    Times(s.log, Unmapped(m)) + SglOwners(s, m) == Times(s.log, Mapped(m))
  }

  /** ... and block `b` has been freed, to its own pool `p`, or has an owner. */
  predicate BlockBalanced(s: State, p: nat, b: nat) {
    Times(s.log, Freed(p, b)) + BlockOwners(s, p, b) == Times(s.log, Allocated(p, b))
  }

  ghost predicate Balanced(s: State) {
    && (forall i :: 0 <= i < |s.ctxs| ==> Formed(s.ctxs[i]))
    && Named(s.log)
    && (forall m: nat :: MapBalanced(s, m))
    && (forall p: nat, b: nat :: BlockBalanced(s, p, b))
  }

  function After(s: State, xid: nat, o: Outcome): State
    requires xid < |s.ctxs|
  {
    State(s.ctxs[xid := o.context], s.log + o.events)
  }

  /** What one call makes it undoes or keeps; what it no longer keeps it undoes. */
  predicate MapEven(c: Context, o: Outcome, m: nat) {
    Times(o.events, Unmapped(m)) + Count(o.context.sgl == Some(m))
    == Times(o.events, Mapped(m)) + Count(c.sgl == Some(m))
  }

  predicate BlockEven(c: Context, o: Outcome, p: nat, b: nat) {
    Times(o.events, Freed(p, b)) + Count(Block(o.context) == Some((p, b)))
    == Times(o.events, Allocated(p, b)) + Count(Block(c) == Some((p, b)))
  }

  ghost predicate Even(c: Context, o: Outcome) {
    (forall m: nat :: MapEven(c, o, m)) && (forall p: nat, b: nat :: BlockEven(c, o, p, b))
  }

  lemma MapIff(s: State, xid: nat, o: Outcome, m: nat)
    requires xid < |s.ctxs| && MapBalanced(s, m)
    ensures MapBalanced(After(s, xid, o), m) <==> MapEven(s.ctxs[xid], o, m)
  {
    var ctxs, c := s.ctxs, o.context;
    assert Sgls(ctxs[xid := c]) == Sgls(ctxs)[xid := c.sgl];
    assert Sgls(ctxs)[xid] == ctxs[xid].sgl;
  }

  lemma BlockIff(s: State, xid: nat, o: Outcome, p: nat, b: nat)
    requires xid < |s.ctxs| && BlockBalanced(s, p, b)
    ensures BlockBalanced(After(s, xid, o), p, b) <==> BlockEven(s.ctxs[xid], o, p, b)
  {
    var ctxs, c := s.ctxs, o.context;
    assert Blocks(ctxs[xid := c]) == Blocks(ctxs)[xid := Block(c)];
    assert Blocks(ctxs)[xid] == Block(ctxs[xid]);
  }

  /** A call keeps the ledger balanced exactly when it is even by itself. */
  lemma BalancedIff(s: State, xid: nat, o: Outcome)
    requires Balanced(s) && xid < |s.ctxs| && Formed(o.context) && Named(s.log + o.events)
    ensures Balanced(After(s, xid, o)) <==> Even(s.ctxs[xid], o)
  {
    forall m: nat ensures MapBalanced(After(s, xid, o), m) <==> MapEven(s.ctxs[xid], o, m) { MapIff(s, xid, o, m); }
    forall p: nat, b: nat ensures BlockBalanced(After(s, xid, o), p, b) <==> BlockEven(s.ctxs[xid], o, p, b) {
      BlockIff(s, xid, o, p, b);
    }
  }

  lemma TimesConcat(s: seq<Event>, t: seq<Event>, e: Event)
    ensures Times(s + t, e) == Times(s, e) + Times(t, e)
  {
  }

  lemma Times1(a: Event, e: Event)
    ensures Times([], e) == 0 && Times([a], e) == Count(a == e)
  {
  }

  lemma Times2(a: Event, b: Event, e: Event)
    ensures Times([a, b], e) == Count(a == e) + Count(b == e)
  {
    Times1(a, e);
    Times1(b, e);
    TimesConcat([a], [b], e);
    assert [a] + [b] == [a, b];
  }

  lemma Times4(a: Event, b: Event, c: Event, d: Event, e: Event)
    ensures Times([a, b, c, d], e) == Count(a == e) + Count(b == e) + Count(c == e) + Count(d == e)
  {
    Times2(a, b, e);
    Times2(c, d, e);
    TimesConcat([a, b], [c, d], e);
    assert [a, b] + [c, d] == [a, b, c, d];
  }

  lemma PutEven(c: Context, m: nat, p: nat, b: nat)
    requires Formed(c)
    ensures MapEven(c, Put(c), m) && BlockEven(c, Put(c), p, b)
  {
    if c.udl.Some? {
      var free := Freed(c.pool.value, c.udl.value);
      forall e
        ensures Times(Unmap(c) + [free], e) == Count(c.sgl.Some? && Unmapped(c.sgl.value) == e) + Count(free == e)
      {
        if c.sgl.Some? {
          Times2(Unmapped(c.sgl.value), free, e);
          assert Unmap(c) + [free] == [Unmapped(c.sgl.value), free];
        }
        else { Times1(free, e); assert Unmap(c) + [free] == [free]; }
      }
    }
  }

  lemma PutBalanced(s: State, xid: nat)
    requires Balanced(s) && xid < |s.ctxs|
    ensures Balanced(After(s, xid, Put(s.ctxs[xid])))
  {
    var c := s.ctxs[xid];
    assert Even(c, Put(c)) by {
      forall m: nat, p: nat, b: nat ensures MapEven(c, Put(c), m) && BlockEven(c, Put(c), p, b) { PutEven(c, m, p, b); }
    }
    BalancedIff(s, xid, Put(c));
  }

  lemma CompleteEven(c: Context, error: bool, kind: Completion, len: nat, m: nat, p: nat, b: nat)
    ensures MapEven(c, Complete(c, error, kind, len), m) && BlockEven(c, Complete(c, error, kind, len), p, b)
  {
  }

  lemma CompleteBalanced(s: State, xid: nat, error: bool, kind: Completion, len: nat)
    requires Balanced(s) && xid < |s.ctxs|
    ensures Balanced(After(s, xid, Complete(s.ctxs[xid], error, kind, len)))
  {
    var c, o := s.ctxs[xid], Complete(s.ctxs[xid], error, kind, len);
    CompleteIsEven(c, error, kind, len);
    CompleteNamed(c, error, kind, len, s.log);
    BalancedIff(s, xid, o);
  }

  lemma CompleteIsEven(c: Context, error: bool, kind: Completion, len: nat)
    ensures Even(c, Complete(c, error, kind, len))
  {
    var o := Complete(c, error, kind, len);
    forall m: nat ensures MapEven(c, o, m) { CompleteEven(c, error, kind, len, m, 0, 0); }
    forall p: nat, b: nat ensures BlockEven(c, o, p, b) { CompleteEven(c, error, kind, len, 0, p, b); }
  }

  lemma CompleteNamed(c: Context, error: bool, kind: Completion, len: nat, log: seq<Event>)
    requires Formed(c) && Named(log)
    ensures var o := Complete(c, error, kind, len); Formed(o.context) && Named(log + o.events)
  {
  }

  /** The context still owns a block whose mapping is already gone: a response was
      completed and the exchange not yet put. */
  predicate Stale(c: Context) {
    c.udl.Some? && c.sgl.None?
  }

  /** An unmap of nothing happens exactly on a further response in that state. */
  lemma UnmapsNothingIff(c: Context, error: bool, kind: Completion, len: nat)
    requires Formed(c)
    ensures UnmappedNothing in Complete(c, error, kind, len).events <==> !error && kind == Response && Stale(c)
  {
  }

  /** The event lists setup may produce, counted. */
  lemma SetupTimes(pool: nat, now: nat, e: Event)
    ensures Times([], e) == 0
    ensures Times([Mapped(now), Unmapped(now)], e) == Count(Mapped(now) == e) + Count(Unmapped(now) == e)
    ensures Times([Mapped(now), Allocated(pool, now + 1)], e)
         == Count(Mapped(now) == e) + Count(Allocated(pool, now + 1) == e)
    ensures Times([Mapped(now), Allocated(pool, now + 1), Freed(pool, now + 1), Unmapped(now)], e)
         == Count(Mapped(now) == e) + Count(Allocated(pool, now + 1) == e)
            + Count(Freed(pool, now + 1) == e) + Count(Unmapped(now) == e)
  {
    Times2(Mapped(now), Unmapped(now), e);
    Times2(Mapped(now), Allocated(pool, now + 1), e);
    Times4(Mapped(now), Allocated(pool, now + 1), Freed(pool, now + 1), Unmapped(now), e);
  }

  lemma SetupEven(c: Context, q: Request, fits: bool, now: nat, m: nat, p: nat, b: nat)
    requires Formed(c) && !(q.up && Stale(c))
    ensures MapEven(c, SetupIf(c, q, fits, now), m) && BlockEven(c, SetupIf(c, q, fits, now), p, b)
  {
    var pool := if q.pool.Some? then q.pool.value else 0;
    SetupTimes(pool, now, Mapped(m));
    SetupTimes(pool, now, Unmapped(m));
    SetupTimes(pool, now, Allocated(p, b));
    SetupTimes(pool, now, Freed(p, b));
  }

  lemma SetupIsEven(c: Context, q: Request, fits: bool, now: nat)
    requires Formed(c) && !(q.up && Stale(c))
    ensures Even(c, SetupIf(c, q, fits, now))
  {
    var o := SetupIf(c, q, fits, now);
    forall m: nat ensures MapEven(c, o, m) { SetupEven(c, q, fits, now, m, 0, 0); }
    forall p: nat, b: nat ensures BlockEven(c, o, p, b) { SetupEven(c, q, fits, now, 0, p, b); }
  }

  /** A block in use was allocated earlier. */
  lemma OwnedBefore(s: State, xid: nat)
    requires Balanced(s) && xid < |s.ctxs| && s.ctxs[xid].udl.Some?
    ensures s.ctxs[xid].udl.value < |s.log|
  {
    var c := s.ctxs[xid];
    var p, b := c.pool.value, c.udl.value;
    assert Blocks(s.ctxs)[xid] == Some((p, b));
    assert BlockBalanced(s, p, b);
    assert Allocated(p, b) in s.log;
  }

  lemma StaleLost(c: Context, q: Request, fits: bool, now: nat)
    requires Formed(c) && q.up && Stale(c) && c.udl.value < now
    ensures !BlockEven(c, SetupIf(c, q, fits, now), c.pool.value, c.udl.value)
  {
    var pool := if q.pool.Some? then q.pool.value else 0;
    SetupTimes(pool, now, Freed(c.pool.value, c.udl.value));
    SetupTimes(pool, now, Allocated(c.pool.value, c.udl.value));
  }

  lemma SetupNamed(c: Context, q: Request, fits: bool, log: seq<Event>)
    requires Formed(c) && Named(log)
    ensures var o := SetupIf(c, q, fits, |log|); Formed(o.context) && Named(log + o.events)
  {
  }

  lemma SetupIfBalanced(s: State, xid: nat, q: Request, fits: bool)
    requires Balanced(s) && xid < |s.ctxs|
    ensures Balanced(After(s, xid, SetupIf(s.ctxs[xid], q, fits, |s.log|))) <==> !(q.up && Stale(s.ctxs[xid]))
  {
    var c, now := s.ctxs[xid], |s.log|;
    SetupNamed(c, q, fits, s.log);
    BalancedIff(s, xid, SetupIf(c, q, fits, now));
    if q.up && Stale(c) {
      OwnedBefore(s, xid);
      StaleLost(c, q, fits, now);
    } else {
      SetupIsEven(c, q, fits, now);
    }
  }

  /** Setup loses nothing, on all its success and error paths, exactly unless it gets as
      far as clearing a context that still owns a block. */
  lemma SetupBalanced(s: State, xid: nat, q: Request)
    requires Balanced(s) && xid < |s.ctxs|
    ensures Balanced(After(s, xid, Setup(s.ctxs[xid], q, |s.log|))) <==> !(q.up && Stale(s.ctxs[xid]))
  {
    SetupIfBalanced(s, xid, q, BuildList(q.segs, q.extra).verdict == Fits);
  }

  /** What a context owns was made before event `now`. */
  predicate Older(c: Context, now: nat) {
    (c.sgl.Some? ==> c.sgl.value < now) && (c.udl.Some? ==> c.udl.value < now)
  }

  /** Setup succeeds: the exchange has no mapping, nothing is missing and the list can be built. */
  predicate Succeeds(c: Context, q: Request) {
    q.up && c.sgl.None? && q.pool.Some? && q.mapOk && q.blockOk && BuildList(q.segs, q.extra).verdict == Fits
  }

  /** That is exactly when the exchange afterwards owns a mapping and a block it did not own. */
  lemma SetupOk(c: Context, q: Request, now: nat)
    requires Older(c, now)
    ensures var o := Setup(c, q, now);
            && (Succeeds(c, q) <==> o.context.sgl.Some? && o.context.sgl != c.sgl
                                    && o.context.udl.Some? && o.context.udl != c.udl)
            && (Succeeds(c, q) ==>
                  && Mapped(o.context.sgl.value) in o.events && o.context.sgc == q.sgc
                  && Allocated(q.pool.value, o.context.udl.value) in o.events && o.context.pool == q.pool)
  {
  }

  // ---- runs ----

  datatype Call =
    | DoSetup(xid: nat, request: Request)
    | DoComplete(xid: nat, error: bool, kind: Completion, len: nat)
    | DoPut(xid: nat)

  function Do(s: State, call: Call): State {
    if call.xid >= |s.ctxs| then s
    else
      var c := s.ctxs[call.xid];
      match call
      case DoSetup(_, q) => After(s, call.xid, Setup(c, q, |s.log|))
      case DoComplete(_, error, kind, len) => After(s, call.xid, Complete(c, error, kind, len))
      case DoPut(_) => After(s, call.xid, Put(c))
  }

  function Run(s: State, calls: seq<Call>): State
    decreases |calls|
  {
    if calls == [] then s else Run(Do(s, calls[0]), calls[1..])
  }

  /** No exchange is set up again between its response and its put. */
  predicate Orderly(s: State, calls: seq<Call>)
    decreases |calls|
  {
    calls != [] ==>
      && (calls[0].DoSetup? && calls[0].xid < |s.ctxs| && calls[0].request.up ==> !Stale(s.ctxs[calls[0].xid]))
      && Orderly(Do(s, calls[0]), calls[1..])
  }

  lemma {:induction false} RunBalanced(s: State, calls: seq<Call>)
    requires Balanced(s) && Orderly(s, calls)
    ensures Balanced(Run(s, calls))
    decreases |calls|
  {
    if calls != [] {
      var call := calls[0];
      if call.xid < |s.ctxs| {
        match call
        case DoSetup(_, q) => SetupBalanced(s, call.xid, q);
        case DoComplete(_, error, kind, len) => CompleteBalanced(s, call.xid, error, kind, len);
        case DoPut(_) => PutBalanced(s, call.xid);
      }
      RunBalanced(Do(s, call), calls[1..]);
    }
  }

  // ---- the length reported ----

  lemma {:induction false} RunSnoc(s: State, calls: seq<Call>)
    requires calls != []
    ensures var n := |calls| - 1; Run(s, calls) == Do(Run(s, calls[..n]), calls[n])
    decreases |calls|
  {
    var n := |calls| - 1;
    if n > 0 {
      assert calls[1..][..n - 1] == calls[..n][1..];
      RunSnoc(Do(s, calls[0]), calls[1..]);
    }
  }

  /** The last call is a setup of `xid` that is not refused. */
  predicate Begins(s: State, call: Call, xid: nat) {
    call.DoSetup? && call.xid == xid < |s.ctxs| && call.request.up && s.ctxs[xid].sgl.None?
  }

  /** The length in the last completion of `xid` with data or response and no error since
      its setup, and 0 if there was none. */
  function Reported(s: State, calls: seq<Call>, xid: nat): nat
    decreases |calls|
  {
    if calls == [] then 0
    else
      var n := |calls| - 1;
      var last := calls[n];
      if last.DoComplete? && last.xid == xid && !last.error && last.kind != NoMatch then last.len
      else if Begins(Run(s, calls[..n]), last, xid) then 0
      else Reported(s, calls[..n], xid)
  }

  /** There was a response of `xid` without error since its setup. */
  predicate Responded(s: State, calls: seq<Call>, xid: nat)
    decreases |calls|
  {
    if calls == [] then false
    else
      var n := |calls| - 1;
      var last := calls[n];
      (last.DoComplete? && last.xid == xid && !last.error && last.kind == Response)
      || (!Begins(Run(s, calls[..n]), last, xid) && Responded(s, calls[..n], xid))
  }

  lemma {:induction false} KeepsReported(s: State, calls: seq<Call>, xid: nat)
    requires xid < |s.ctxs| && s.ctxs[xid].udl.None?
    ensures var s' := Run(s, calls);
            && |s'.ctxs| == |s.ctxs|
            && (s'.ctxs[xid].udl.Some? ==>
                  && s'.ctxs[xid].len == Reported(s, calls, xid)
                  && s'.ctxs[xid].err == !Responded(s, calls, xid))
    decreases |calls|
  {
    if calls != [] {
      RunSnoc(s, calls);
      KeepsReported(s, calls[..|calls| - 1], xid);
    }
  }

  /** After any calls, put of an exchange that owns a block returns the length reported since
      its setup, and invalidates the hardware's context unless there was a response. */
  lemma PutReturns(n: nat, calls: seq<Call>, xid: nat)
    requires xid < n
    ensures var s0 := State(seq(n, _ => EMPTY), []);
            var s := Run(s0, calls);
            && |s.ctxs| == n
            && PutLength(s.ctxs[xid]) == (if s.ctxs[xid].udl.Some? then Reported(s0, calls, xid) else 0)
            && (PutForces(s.ctxs[xid]) <==> s.ctxs[xid].udl.Some? && !Responded(s0, calls, xid))
  {
    KeepsReported(State(seq(n, _ => EMPTY), []), calls, xid);
  }

  const REQUEST := Request(true, Some(0), true, true, 1, [Segment(0, 1)], 0)

  lemma RequestFits()
    ensures BuildList(REQUEST.segs, REQUEST.extra).verdict == Fits
  {
    var segs := REQUEST.segs;
    assert segs[1..] == [];
    BuildListFaithful(segs, REQUEST.extra);
  }

  lemma Run3(s: State, a: Call, b: Call, c: Call)
    ensures Run(s, [a, b]) == Do(Do(s, a), b) && Run(s, [a, b, c]) == Do(Do(Do(s, a), b), c)
  {
    var t, u := Do(s, a), Do(Do(s, a), b);
    assert [a, b, c][1..] == [b, c] && [b, c][1..] == [c] && [c][1..] == [];
    assert [a, b][1..] == [b] && [b][1..] == [];
    assert Run(s, [a, b]) == Run(t, [b]) == Run(u, []);
    assert Run(s, [a, b, c]) == Run(t, [b, c]) == Run(u, [c]) == Run(Do(u, c), []);
  }

  /** The loss is reached: set up, a response, set up again before the put. */
  lemma BlockLost(len: nat)
    ensures var s := State([EMPTY], []);
            var first := [DoSetup(0, REQUEST), DoComplete(0, false, Response, len)];
            && Orderly(s, first) && Balanced(Run(s, first))
            && !Balanced(Run(s, first + [DoSetup(0, REQUEST)]))
  {
    var s, setup, respond := State([EMPTY], []), DoSetup(0, REQUEST), DoComplete(0, false, Response, len);
    assert s == State(seq(1, _ => EMPTY), []);
    forall m: nat, p: nat, b: nat ensures MapBalanced(s, m) && BlockBalanced(s, p, b) { EmptyOwners(1, m, p, b); }
    RequestFits();
    Run3(s, setup, respond, setup);
    assert [setup, respond] + [setup] == [setup, respond, setup];
    assert [setup, respond][1..] == [respond] && [respond][1..] == [];
    RunBalanced(s, [setup, respond]);
    SetupBalanced(Do(Do(s, setup), respond), 0, REQUEST);
  }

  /** A creating event happens once. */
  lemma NamedOnce(log: seq<Event>, e: Event)
    requires Named(log) && (e.Mapped? || e.Allocated?)
    ensures Times(log, e) <= 1
  {
    if e in log {
      var i := e.id;
      assert log == log[..i] + [e] + log[i + 1..];
      assert e !in log[..i] && e !in log[i + 1..];
    }
  }

  /** From empty contexts, after any orderly run: no mapping is undone and no block freed
      more often than it was made, none twice, and once no context owns anything, every
      mapping made has been undone exactly once and every block taken has been freed
      exactly once, to the pool it came from. */
  lemma Conservation(n: nat, calls: seq<Call>, m: nat, p: nat, b: nat)
    requires Orderly(State(seq(n, _ => EMPTY), []), calls)
    ensures var s := Run(State(seq(n, _ => EMPTY), []), calls);
            && Times(s.log, Unmapped(m)) <= Times(s.log, Mapped(m)) <= 1
            && Times(s.log, Freed(p, b)) <= Times(s.log, Allocated(p, b)) <= 1
            && ((forall i :: 0 <= i < |s.ctxs| ==> s.ctxs[i].udl.None?) ==>
                  && Times(s.log, Unmapped(m)) == Times(s.log, Mapped(m))
                  && Times(s.log, Freed(p, b)) == Times(s.log, Allocated(p, b)))
  {
    var s0 := State(seq(n, _ => EMPTY), []);
    forall m: nat, p: nat, b: nat ensures MapBalanced(s0, m) && BlockBalanced(s0, p, b) {
      EmptyOwners(n, m, p, b);
    }
    RunBalanced(s0, calls);
    var s := Run(s0, calls);
    assert MapBalanced(s, m) && BlockBalanced(s, p, b);
    NamedOnce(s.log, Mapped(m));
    NamedOnce(s.log, Allocated(p, b));
    if forall i :: 0 <= i < |s.ctxs| ==> s.ctxs[i].udl.None? {
      assert forall i :: 0 <= i < |s.ctxs| ==> Formed(s.ctxs[i]);
      assert Some(m) !in Sgls(s.ctxs) && Some((p, b)) !in Blocks(s.ctxs);
    }
  }

  lemma EmptyOwners(n: nat, m: nat, p: nat, b: nat)
    ensures var s := State(seq(n, _ => EMPTY), []); MapBalanced(s, m) && BlockBalanced(s, p, b)
  {
    var s := State(seq(n, _ => EMPTY), []);
    assert Some(m) !in Sgls(s.ctxs) && Some((p, b)) !in Blocks(s.ctxs);
  }

  // ---- the driver's calls on the context table ----

  class Table {
    const ddp: array<Context>
    var log: seq<Event>

    constructor (n: nat)
      ensures fresh(ddp) && ddp.Length == n && log == [] && ddp[..] == seq(n, _ => EMPTY)
    {
      ddp := new Context[n](_ => EMPTY);
      log := [];
    }

    ghost function Now(): State
      reads this, ddp
    {
      State(ddp[..], log)
    }

    /** ixgbe_fcoe_ddp_setup, with `udl` the memory of the block it may allocate. */
    method SetupDdp(xid: nat, q: Request, udl: array<nat>) returns (ok: bool)
      requires xid < ddp.Length && udl.Length == BUFFCNT_MAX
      modifies this`log, ddp, udl
      ensures Now() == After(old(Now()), xid, Setup(old(ddp[xid]), q, |old(log)|))
      ensures ok <==> Succeeds(old(ddp[xid]), q)
      ensures ok ==> exists j :: 0 <= j <= BUFFCNT_MAX && udl[..j] == BuildList(q.segs, q.extra).udl
    {
      var now := |log|;
      if !q.up || ddp[xid].sgl.Some? {
        assert log + [] == log && ddp[..][xid := ddp[xid]] == ddp[..];
        return false;
      }
      ddp[xid] := Clear(ddp[xid]);
      if q.pool.None? || !q.mapOk {
        assert log + [] == log;
        return false;
      }
      log := log + [Mapped(now)];
      if !q.blockOk {
        log := log + [Unmapped(now)];
        return false;
      }
      log := log + [Allocated(q.pool.value, now + 1)];
      ddp[xid] := ddp[xid].(udl := Some(now + 1), pool := q.pool, sgl := Some(now), sgc := q.sgc);
      var verdict, j, firstoff, lastsize := Build(q.segs, udl, q.extra);
      if verdict != Fits {
        log := log + [Freed(q.pool.value, now + 1)];
        ddp[xid] := Clear(ddp[xid]);
        log := log + [Unmapped(now)];
        return false;
      }
      return true;
    }

    /** ixgbe_fcoe_ddp */
    method CompleteDdp(xid: nat, error: bool, kind: Completion, len: nat) returns (rc: int)
      requires xid < ddp.Length
      modifies this`log, ddp
      ensures Now() == After(old(Now()), xid, Complete(old(ddp[xid]), error, kind, len))
      ensures rc == 0 <==> old(ddp[xid]).udl.Some? && !error && kind == DataPlaced
      ensures rc > 0 <==> old(ddp[xid]).udl.Some? && !error && (kind == Response || kind == NotPlaced) && len > 0
      ensures rc != 0 ==> rc == if rc > 0 then len else EINVAL
    {
      var c := ddp[xid];
      rc := EINVAL;
      if c.udl.None? || error || kind == NoMatch {
        assert log + [] == log && ddp[..][xid := ddp[xid]] == ddp[..];
        return;
      }
      if kind == Response {
        log := log + Respond(c);
        ddp[xid] := ddp[xid].(err := false, sgl := None, sgc := 0);
      } else {
        assert log + [] == log;
      }
      ddp[xid] := ddp[xid].(len := len);
      if kind == DataPlaced { rc := 0; } else if len > 0 { rc := len; }
    }

    /** ixgbe_fcoe_ddp_put */
    method PutDdp(xid: nat) returns (len: nat, forced: bool)
      requires xid < ddp.Length
      modifies this`log, ddp
      ensures Now() == After(old(Now()), xid, Put(old(ddp[xid])))
      ensures len == PutLength(old(ddp[xid])) && forced == PutForces(old(ddp[xid]))
    {
      var c := ddp[xid];
      if c.udl.None? {
        assert log + [] == log && ddp[..][xid := ddp[xid]] == ddp[..];
        return 0, false;
      }
      len, forced := c.len, c.err;
      log := log + Unmap(c);
      if c.pool.Some? {
        log := log + [Freed(c.pool.value, c.udl.value)];
        ddp[xid] := ddp[xid].(pool := None);
      }
      ddp[xid] := Clear(ddp[xid]);
    }
  }
}
