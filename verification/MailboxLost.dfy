/** Messages from the PF to the VF that carry no CTS: the PF does not wait for the VF to read
    them and may overwrite one.  So delivery is guaranteed exactly to PFs that send none. */
module MailboxLost {
  import opened Mailbox
  import opened MailboxDown

  // ---- what always holds ----

  /** Announcements the VF has heard, is hearing or can still find. */
  function Known(s: State): nat {
    |s.core.heard| + Count(Getting(s.core.vf)) + Count(Told(s))
  }

  predicate Bounded(s: State) {
    Known(s) <= |s.core.told| && (s.core.vf.GetClear? ==> Told(s))
  }

  lemma VfBounded(s: State)
    requires Bounded(s)
    ensures Bounded(StepVf(s))
  {
    StsAfterVf(s.core.vf, s.bits);
    VfHears(s.core, s.bits.Visible(), s.bits.rsti);
  }

  /** A step of the VF hears at most what it was hearing or had found. */
  predicate Hears(c: Core, c': Core, sts: bool) {
    && c'.told == c.told
    && |c'.heard| + Count(Getting(c'.vf)) == |c.heard| + Count(Getting(c.vf) || c.vf.GetClear?)
    && (c'.vf.GetClear? ==> c.vf.GetCheck? && sts)
  }

  lemma LockingHears(c: Core, sts: bool)
    requires Locking(c.vf)
    ensures Hears(c, VfLock(c), sts)
  {
  }

  lemma FlushingHears(c: Core, sts: bool)
    requires Flushing(c.vf)
    ensures Hears(c, VfFlush(c), sts)
  {
  }

  lemma SendingHears(c: Core, sts: bool)
    requires Sending(c.vf)
    ensures Hears(c, VfSend(c), sts)
  {
  }

  lemma WaitingHears(c: Core, sts: bool, ack: bool)
    requires Waiting(c.vf)
    ensures Hears(c, VfWait(c, ack), sts)
  {
  }

  lemma UnlockingHears(c: Core, sts: bool)
    requires Unlocking(c.vf)
    ensures Hears(c, VfUnlock(c), sts)
  {
  }

  lemma TakingHears(c: Core, sts: bool)
    requires Taking(c.vf)
    ensures Hears(c, VfTake(c, sts), sts)
  {
  }

  lemma GettingHears(c: Core, sts: bool)
    requires Getting(c.vf)
    ensures Hears(c, VfGet(c), sts)
  {
  }

  lemma PollingHears(c: Core, sts: bool, seen: Status, rsti: bool)
    requires Polling(c.vf)
    ensures Hears(c, VfPoll(c, seen, rsti), sts)
  {
  }

  lemma VfHears(c: Core, seen: Status, rsti: bool)
    ensures Hears(c, VfControl(c, seen, rsti), seen.sts)
  {
    if Locking(c.vf) { LockingHears(c, seen.sts); }
    else if Flushing(c.vf) { FlushingHears(c, seen.sts); }
    else if Sending(c.vf) { SendingHears(c, seen.sts); }
    else if Waiting(c.vf) { WaitingHears(c, seen.sts, seen.ack); }
    else if Unlocking(c.vf) { UnlockingHears(c, seen.sts); }
    else if Taking(c.vf) { TakingHears(c, seen.sts); }
    else if Getting(c.vf) { GettingHears(c, seen.sts); }
    else if Polling(c.vf) { PollingHears(c, seen.sts, seen, rsti); }
  }

  /** A step of the PF leaves the VF alone, and announces `n` messages. */
  predicate Tells(c: Core, c': Core, n: nat) {
    c'.vf == c.vf && c'.heard == c.heard && |c'.told| == |c.told| + n
  }

  lemma RdTells(c: Core)
    ensures Tells(c, RdControl(c), 0)
  {
    if Seeking(c.rd) {
      assert Tells(c, RdTake(c), 0);
    } else if Reading(c.rd) {
      assert Tells(c, RdGet(c), 0);
    }
  }

  lemma WrLockTells(c: Core)
    ensures Tells(c, WrLock(c), 0) && Tells(c, WrUnlock(c), 0)
  {
  }

  lemma WrFlushTells(c: Core)
    ensures Tells(c, WrFlush(c), 0)
  {
  }

  lemma WrWaitTells(c: Core)
    ensures Tells(c, WrWait(c), 0)
  {
  }

  lemma WrSendTells(c: Core)
    requires PSending(c.wr)
    ensures Tells(c, WrSend(c), Count(c.wr.PStsWrite?))
  {
  }

  lemma WrTells(c: Core)
    ensures Tells(c, WrControl(c), Count(c.wr.PStsWrite?))
  {
    if PLocking(c.wr) || PUnlocking(c.wr) { WrLockTells(c); }
    else if PFlushing(c.wr) { WrFlushTells(c); }
    else if PSending(c.wr) { WrSendTells(c); }
    else if PWaiting(c.wr) { WrWaitTells(c); }
  }

  lemma RdKnown(s: State)
    requires Bounded(s)
    ensures Bounded(StepRd(s))
  {
    RdTells(s.core);
    StsAfterRaise(s.bits, Status(false, s.core.rd == PAckWrite, false));
  }

  lemma WrKnown(s: State)
    requires Bounded(s)
    ensures Bounded(StepWr(s))
  {
    var c := s.core;
    WrTells(c);
    StsAfterRaise(s.bits, Status(c.wr == PStsWrite, false, false));
  }

  lemma BeginBounded(s: State, a: Action)
    requires Bounded(s) && (a.BeginVf? || a.BeginRead? || a.BeginWrite?)
    ensures Bounded(Next(s, a))
  {
  }

  lemma NextBounded(s: State, a: Action)
    requires Bounded(s) && !a.Stray?
    ensures Bounded(Next(s, a))
  {
    match a
    case Vf => VfBounded(s);
    case Rd => RdKnown(s);
    case Wr => WrKnown(s);
    case Reset(i, d) => StsAfterRaise(s.bits.(rsti := i), Status(false, false, d));
    case _ => BeginBounded(s, a);
  }

  lemma {:induction false} RunBounded(s: State, acts: seq<Action>)
    requires Bounded(s) && forall a <- acts :: !a.Stray?
    ensures Bounded(Run(s, acts))
    decreases |acts|
  {
    if acts != [] {
      NextBounded(s, acts[0]);
      RunBounded(Next(s, acts[0]), acts[1..]);
    }
  }

  /** Whatever the PF sends, the VF never hears more messages than were announced. */
  lemma NoneTwice(acts: seq<Action>)
    requires forall a <- acts :: !a.Stray?
    ensures |Run(INIT, acts).core.heard| <= |Run(INIT, acts).core.told|
  {
    RunBounded(INIT, acts);
  }

  // ---- a PF that writes while the VF is away ----

  lemma {:induction false} RunConcat(s: State, a: seq<Action>, b: seq<Action>)
    ensures Run(s, a + b) == Run(Run(s, a), b)
    decreases |a|
  {
    if a == [] {
      assert a + b == b;
    } else {
      assert (a + b)[1..] == a[1..] + b;
      RunConcat(Next(s, a[0]), a[1..], b);
    }
  }

  /** Nobody owns the buffer and no write is under way. */
  predicate Quiet(c: Core) {
    c.wr == WIdle && c.vf == VIdle && !c.vfu && !c.pfu && |c.mem| == MBX_SIZE
  }

  predicate Announced(pc: WrPc) {
    PWaiting(pc) || PUnlocking(pc) || pc.WIdle?
  }

  /** The reader and what has passed between the two are as in `c0`. */
  predicate Same(c: Core, c0: Core) {
    c.rd == c0.rd && c.r == c0.r && c.sent == c0.sent && c.got == c0.got
  }

  /** The write of `m`, alone on the machine, begun at `c0`. */
  predicate Writing(c: Core, sts: bool, m: Msg, c0: Core) {
    && c.vf == VIdle && !c.vfu && |c.mem| == MBX_SIZE && c.w.msg == m && c.heard == c0.heard && Same(c, c0)
    && (c.pfu <==> !(c.wr.PLockRead? || c.wr.PLockWrite? || c.wr.WIdle?))
    && (c.wr.PCopyIn? ==> c.w.i <= |m| && Holds(c.mem, m[..c.w.i]))
    && (c.wr.PStsRead? || c.wr.PStsWrite? || Announced(c.wr) ==> Holds(c.mem, m))
    && (c.wr.PStsWrite? ==> c.w.own)
    && (PWaiting(c.wr) ==> Cts(m) && !c.vfack && c.wr.PAwaitAck?)
    && (c.wr.PCopyIn? || c.wr.PStsRead? || c.wr.PStsWrite? ==> !c.vfack)
    && (c.wr.PFlushAckRead? || c.wr.PFlushAck? || PSending(c.wr) || Announced(c.wr) ==> !c.vfreq)
    && (if Announced(c.wr) then sts && c.told == c0.told + [m] else c.told == c0.told)
  }

  /** More than the steps that are left. */
  function Left(pc: WrPc, copied: nat, m: Msg): int {
    match pc
    case PLockRead => |m| + 13
    case PLockWrite => |m| + 12
    case PLockVerify => |m| + 11
    case PFlushMsgRead => |m| + 10
    case PFlushMsg => |m| + 9
    case PFlushAckRead => |m| + 8
    case PFlushAck => |m| + 7
    case PCopyIn => |m| - copied + 6
    case PStsRead => 5
    case PStsWrite => 4
    case PUnlockRead => 3
    case PUnlockWrite => 2
    case _ => 1
  }

  predicate Stopped(pc: WrPc) {
    pc.WIdle? || PWaiting(pc)
  }

  lemma WriteCopies(c: Core, sts: bool, m: Msg, c0: Core)
    requires Writing(c, sts, m, c0) && |m| <= MBX_SIZE && c.wr.PCopyIn?
    ensures Writing(WrControl(c), sts, m, c0)
    ensures Left(WrControl(c).wr, WrControl(c).w.i, m) < Left(c.wr, c.w.i, m)
  {
    if c.w.i < |m| {
      var c' := WrControl(c);
      assert c'.mem[..c.w.i + 1] == m[..c.w.i + 1];
    } else {
      assert m[..c.w.i] == m;
    }
  }

  lemma WriteLocks(c: Core, sts: bool, m: Msg, c0: Core)
    requires Writing(c, sts, m, c0) && PLocking(c.wr)
    ensures Writing(WrControl(c), sts, m, c0)
    ensures Left(WrControl(c).wr, WrControl(c).w.i, m) < Left(c.wr, c.w.i, m)
  {
  }

  lemma WriteFlushes(c: Core, sts: bool, m: Msg, c0: Core)
    requires Writing(c, sts, m, c0) && PFlushing(c.wr)
    ensures Writing(WrControl(c), sts, m, c0)
    ensures Left(WrControl(c).wr, WrControl(c).w.i, m) < Left(c.wr, c.w.i, m)
  {
  }

  lemma WriteTells(c: Core, sts: bool, m: Msg, c0: Core)
    requires Writing(c, sts, m, c0) && (c.wr.PStsRead? || c.wr.PStsWrite?)
    ensures Writing(WrControl(c), sts || c.wr.PStsWrite?, m, c0)
    ensures Left(WrControl(c).wr, WrControl(c).w.i, m) < Left(c.wr, c.w.i, m)
  {
  }

  lemma WriteUnlocks(c: Core, sts: bool, m: Msg, c0: Core)
    requires Writing(c, sts, m, c0) && PUnlocking(c.wr)
    ensures Writing(WrControl(c), sts, m, c0)
    ensures Left(WrControl(c).wr, WrControl(c).w.i, m) < Left(c.wr, c.w.i, m)
  {
  }

  lemma WriteStep(c: Core, sts: bool, m: Msg, c0: Core)
    requires Writing(c, sts, m, c0) && |m| <= MBX_SIZE && !Stopped(c.wr)
    ensures Writing(WrControl(c), sts || c.wr.PStsWrite?, m, c0)
    ensures Left(WrControl(c).wr, WrControl(c).w.i, m) < Left(c.wr, c.w.i, m)
  {
    if PLocking(c.wr) { WriteLocks(c, sts, m, c0); }
    else if PFlushing(c.wr) { WriteFlushes(c, sts, m, c0); }
    else if c.wr.PCopyIn? { WriteCopies(c, sts, m, c0); }
    else if PUnlocking(c.wr) { WriteUnlocks(c, sts, m, c0); }
    else { WriteTells(c, sts, m, c0); }
  }

  lemma {:induction false} WriteAll(s: State, m: Msg, c0: Core) returns (acts: seq<Action>)
    requires Writing(s.core, Told(s), m, c0) && |m| <= MBX_SIZE
    ensures forall a <- acts :: a == Wr
    ensures var s' := Run(s, acts); Writing(s'.core, Told(s'), m, c0) && Stopped(s'.core.wr)
    decreases Left(s.core.wr, s.core.w.i, m)
  {
    acts := [];
    if !Stopped(s.core.wr) {
      StsAfterRaise(s.bits, Status(s.core.wr == PStsWrite, false, false));
      WriteStep(s.core, Told(s), m, c0);
      var rest := WriteAll(Next(s, Wr), m, c0);
      acts := [Wr] + rest;
      assert acts[1..] == rest;
    }
  }

  /** From a quiet machine the PF can write `m` and announce it with the VF away. */
  lemma Write(s: State, m: Msg) returns (acts: seq<Action>)
    requires Quiet(s.core) && |m| <= MBX_SIZE
    ensures forall a <- acts :: a == Wr || a == BeginWrite(m)
    ensures var s' := Run(s, acts);
            Writing(s'.core, Told(s'), m, s.core) && Stopped(s'.core.wr)
  {
    var s1 := Next(s, BeginWrite(m));
    var rest := WriteAll(s1, m, s.core);
    acts := [BeginWrite(m)] + rest;
    assert acts[1..] == rest;
  }

  /** Two in a row, if it does not wait on the first. */
  lemma WriteTwo(s: State, m1: Msg, m2: Msg) returns (acts: seq<Action>)
    requires Quiet(s.core) && |m1| <= MBX_SIZE && |m2| <= MBX_SIZE && !Cts(m1)
    ensures forall a <- acts :: a == Wr || a == BeginWrite(m1) || a == BeginWrite(m2)
    ensures var s' := Run(s, acts);
            && s'.core.told == s.core.told + [m1] + [m2] && s'.core.heard == s.core.heard
            && s'.core.vf == VIdle && !s'.core.vfu && Told(s') && Holds(s'.core.mem, m2)
  {
    var one := Write(s, m1);
    var two := Write(Run(s, one), m2);
    acts := one + two;
    RunConcat(s, one, two);
  }

  // ---- and the VF coming back ----

  /** A read of `n` words begun at `c0`, with nothing else moving. */
  predicate Hearing(c: Core, sts: bool, n: nat, c0: Core) {
    && c.mem == c0.mem && |c.mem| == MBX_SIZE && c.told == c0.told && c.h.asked == n && c.h.size == Limit(n)
    && !c.vfu && c.pfu == c0.pfu && c.wr == c0.wr && c.w == c0.w && c.vfreq == c0.vfreq && Same(c, c0)
    && (Taking(c.vf) ==> sts && c.heard == c0.heard)
    && (Getting(c.vf) ==> !sts && c.heard == c0.heard && Under(c.h, c.mem, c.vf.CopyOut?))
    && (c.vf.AckWrite? ==> !c.h.own)
    && (Taking(c.vf) || Getting(c.vf) || c.vf.VIdle?)
    && (c.vf.VIdle? ==> !sts && c.vfack && c.heard == c0.heard + [Received(n, c0.mem[..Limit(n)])])
  }

  function ToHear(pc: VfPc, have: nat, n: nat): int {
    match pc
    case GetCheck => Limit(n) + 5
    case GetClear => Limit(n) + 4
    case CopyOut => Limit(n) - have + 3
    case AckRead => 2
    case AckWrite => 1
    case _ => 0
  }

  /** A step of such a read that keeps it one, and is one less to go. */
  predicate HearsOn(c: Core, c': Core, sts: bool, n: nat, c0: Core) {
    Hearing(c', sts, n, c0) && ToHear(c'.vf, |c'.h.buf|, n) < ToHear(c.vf, |c.h.buf|, n)
  }

  lemma HearTakes(c: Core, n: nat, c0: Core)
    requires Hearing(c, true, n, c0) && Taking(c.vf)
    ensures HearsOn(c, VfTake(c, true), c.vf.GetCheck?, n, c0)
  {
  }

  lemma HearGets(c: Core, n: nat, c0: Core)
    requires Hearing(c, false, n, c0) && Getting(c.vf)
    ensures HearsOn(c, VfGet(c), false, n, c0)
  {
    if c.vf.CopyOut? && More(c.h, c.mem) {
      assert c.mem[..|c.h.buf| + 1] == c.h.buf + [c.mem[|c.h.buf|]];
    }
  }

  lemma HearStep(c: Core, seen: Status, rsti: bool, n: nat, c0: Core)
    requires Hearing(c, seen.sts, n, c0) && !c.vf.VIdle?
    ensures HearsOn(c, VfControl(c, seen, rsti), StillSts(c.vf, seen.sts), n, c0)
  {
    if Taking(c.vf) { HearTakes(c, n, c0); } else { HearGets(c, n, c0); }
  }

  lemma {:induction false} HearAll(s: State, n: nat, c0: Core)
    returns (acts: seq<Action>)
    requires Hearing(s.core, Told(s), n, c0)
    ensures forall a <- acts :: a == Vf
    ensures var s' := Run(s, acts); Hearing(s'.core, Told(s'), n, c0) && s'.core.vf == VIdle
    decreases ToHear(s.core.vf, |s.core.h.buf|, n)
  {
    acts := [];
    if !s.core.vf.VIdle? {
      StsAfterVf(s.core.vf, s.bits);
      HearStep(s.core, s.bits.Visible(), s.bits.rsti, n, c0);
      var rest := HearAll(Next(s, Vf), n, c0);
      acts := [Vf] + rest;
      assert acts[1..] == rest;
    }
  }

  /** The VF reads the message it was told of. */
  lemma Hear(s: State, m: Msg, n: nat) returns (acts: seq<Action>)
    requires s.core.vf == VIdle && !s.core.vfu && Told(s) && Holds(s.core.mem, m)
    ensures forall a <- acts :: a == Vf || a == BeginVf(ReadMsg(n))
    ensures Hearing(Run(s, acts).core, Told(Run(s, acts)), n, s.core) && Run(s, acts).core.vf == VIdle
    ensures Intact(Received(n, s.core.mem[..Limit(n)]), m)
  {
    var c, begin := s.core, BeginVf(ReadMsg(n));
    var rest := HearAll(Next(s, begin), n, c);
    acts := [begin] + rest;
    assert acts[1..] == rest;
    assert forall i :: 0 <= i < |m| ==> c.mem[i] == c.mem[..|m|][i];
  }

  /** The run `acts` announces both messages; then the VF's read of `n` words returns the
      second, and nothing tells it of another. */
  predicate Overwrites(s: State, acts: seq<Action>, m1: Msg, m2: Msg, n: nat) {
    var s' := Run(s, acts);
    && s'.core.told == s.core.told + [m1] + [m2] && !Told(s')
    && |s'.core.heard| == |s.core.heard| + 1
    && var r := s'.core.heard[|s.core.heard|]; r.asked == n && Intact(r, m2)
  }

  /** Any message without CTS can be lost to any other. */
  lemma Overwritten(m1: Msg, m2: Msg, n: nat)
    requires |m1| <= MBX_SIZE && |m2| <= MBX_SIZE && !Cts(m1)
    ensures exists acts :: Only(acts, iset{m1, m2}) && Overwrites(INIT, acts, m1, m2, n)
  {
    var one := WriteTwo(INIT, m1, m2);
    var two := Hear(Run(INIT, one), m2, n);
    RunConcat(INIT, one, two);
    assert Only(one + two, iset{m1, m2});
    assert Overwrites(INIT, one + two, m1, m2, n);
  }

  // ---- exactly when delivery is guaranteed ----

  /** A run in which the PF sends only messages of `ms`, and no status bit is raised outside
      the protocol. */
  ghost predicate Only(acts: seq<Action>, ms: iset<Msg>) {
    forall a <- acts :: !a.Stray? && (a.BeginWrite? ==> a.msg in ms)
  }

  ghost predicate AlwaysDelivered(s: State, ms: iset<Msg>) {
    forall acts | Only(acts, ms) :: Delivered(Run(s, acts).core)
  }

  /** The PF waits on every message of `ms` it does not refuse. */
  ghost predicate AllWait(ms: iset<Msg>) {
    forall m <- ms | |m| <= MBX_SIZE :: Cts(m)
  }

  /** A PF that sends messages of `ms` has them all heard, intact and in order, in every
      interleaving, if and only if all of them carry CTS. */
  lemma DeliveredIff(ms: iset<Msg>)
    ensures AlwaysDelivered(INIT, ms) <==> AllWait(ms)
  {
    if AllWait(ms) {
      forall acts | Only(acts, ms) ensures Delivered(Run(INIT, acts).core) {
        MessagesHeard(acts);
      }
    } else {
      var m :| m in ms && |m| <= MBX_SIZE && !Cts(m);
      var acts := WriteTwo(INIT, m, m);
      assert Only(acts, ms) && !Delivered(Run(INIT, acts).core);
    }
  }
}
