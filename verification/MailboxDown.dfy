/** Messages from the PF to the VF arrive intact, once and in order, when the PF waits for
    the VF's acknowledgement, which it does exactly for messages carrying CTS. */
module MailboxDown {
  import opened Mailbox
  import Up = MailboxUp

  predicate Unheard(c: Core) {
    c.wr.PAwaitAck? && !c.vfack
  }

  /** Where an announcement is: raised, being read, acknowledged or none. */
  predicate Phased(c: Core, sts: bool) {
    && (sts ==> Unheard(c) && !Getting(c.vf))
    && (Getting(c.vf) ==> Unheard(c))
    && (c.vf.GetClear? ==> sts)
    && (Unheard(c) ==> sts || Getting(c.vf))
    && (c.vfack ==> PWaiting(c.wr))
    && (c.wr.PTakeAckRead? || c.wr.PTakeAck? ==> c.vfack)
    && |c.told| == |c.heard| + Count(Unheard(c))
  }

  /** What the buffer holds while the PF sends, ... */
  predicate WrContent(c: Core) {
    && |c.w.msg| <= MBX_SIZE
    && (PLocking(c.wr) || PFlushing(c.wr) || PSending(c.wr) || PWaiting(c.wr) ==> Cts(c.w.msg))
    && (c.wr.PCopyIn? ==> c.w.i <= |c.w.msg| && Holds(c.mem, c.w.msg[..c.w.i]))
    && (c.wr.PStsRead? || c.wr.PStsWrite? || c.wr.PAwaitAck? ==> Holds(c.mem, c.w.msg))
    && (c.wr.PAwaitAck? ==> c.told != [] && c.told[|c.told| - 1] == c.w.msg)
  }

  /** ... and while the VF reads. */
  predicate VfContent(c: Core) {
    && (Taking(c.vf) || Getting(c.vf) ==> c.h.size == Limit(c.h.asked))
    && (Getting(c.vf) ==> Under(c.h, c.mem, c.vf.CopyOut?))
  }

  predicate InOrder(c: Core) {
    |c.heard| <= |c.told| && forall k :: 0 <= k < |c.heard| ==> Intact(c.heard[k], c.told[k])
  }

  predicate Inv(c: Core, sts: bool) {
    |c.mem| == MBX_SIZE && Phased(c, sts) && WrContent(c) && VfContent(c) && InOrder(c)
  }

  predicate StillSts(pc: VfPc, sts: bool) {
    sts && !(pc.FlushMsg? || pc.GetClear?)
  }

  lemma VfLockKeeps(c: Core, sts: bool)
    requires Owned(c) && Inv(c, sts) && Locking(c.vf)
    ensures Inv(VfLock(c), sts)
  {
  }

  lemma VfFlushKeeps(c: Core, sts: bool)
    requires Owned(c) && Inv(c, sts) && Flushing(c.vf)
    ensures Inv(VfFlush(c), StillSts(c.vf, sts))
  {
  }

  lemma VfCopyKeeps(c: Core, sts: bool)
    requires Owned(c) && Inv(c, sts) && c.vf == CopyIn
    ensures Inv(VfSend(c), sts)
  {
  }

  lemma VfRequestKeeps(c: Core, sts: bool)
    requires Owned(c) && Inv(c, sts) && (c.vf == ReqRead || c.vf == ReqWrite)
    ensures Inv(VfSend(c), sts)
  {
  }

  lemma VfWaitKeeps(c: Core, sts: bool, acked: bool)
    requires Owned(c) && Inv(c, sts) && Waiting(c.vf)
    ensures Inv(VfWait(c, acked), sts)
  {
  }

  lemma VfUnlockKeeps(c: Core, sts: bool)
    requires Owned(c) && Inv(c, sts) && Unlocking(c.vf)
    ensures Inv(VfUnlock(c), sts)
  {
  }

  lemma VfTakeKeeps(c: Core, sts: bool)
    requires Owned(c) && Inv(c, sts) && Taking(c.vf)
    ensures Inv(VfTake(c, sts), StillSts(c.vf, sts))
  {
  }

  lemma VfHearKeeps(c: Core, sts: bool)
    requires Owned(c) && Inv(c, sts) && (c.vf == CopyOut || c.vf == AckRead)
    ensures Inv(VfGet(c), sts)
  {
    if c.vf == CopyOut && More(c.h, c.mem) {
      assert Holds(c.mem, Copied(c.h, c.mem).buf);
    }
  }

  lemma VfAnswerKeeps(c: Core, sts: bool)
    requires Owned(c) && Inv(c, sts) && c.vf == AckWrite
    ensures Inv(VfGet(c), sts)
  {
    assert c.w.msg == c.told[|c.heard|] && Intact(Received(c.h.asked, c.h.buf), c.w.msg);
  }

  lemma VfPollKeeps(c: Core, seen: Status, rsti: bool)
    requires Owned(c) && Inv(c, seen.sts) && Polling(c.vf)
    ensures Inv(VfPoll(c, seen, rsti), seen.sts)
  {
  }

  /** The PF's reader leaves the other direction alone: while it reads the VF owns the buffer. */
  lemma RdKeeps(c: Core, sts: bool, acked: bool)
    requires Up.Inv(c, acked) && Inv(c, sts)
    ensures Inv(RdControl(c), sts)
  {
  }

  lemma WrLockKeeps(c: Core, sts: bool)
    requires Owned(c) && Inv(c, sts) && PLocking(c.wr)
    ensures Inv(WrLock(c), sts)
  {
  }

  lemma WrFlushKeeps(c: Core, sts: bool)
    requires Owned(c) && Inv(c, sts) && PFlushing(c.wr)
    ensures Inv(WrFlush(c), sts)
  {
  }

  lemma WrSendKeeps(c: Core, sts: bool)
    requires Owned(c) && Inv(c, sts) && PSending(c.wr)
    ensures Inv(WrSend(c), sts || c.wr.PStsWrite?)
  {
  }

  lemma WrWaitKeeps(c: Core, sts: bool)
    requires Owned(c) && Inv(c, sts) && PWaiting(c.wr)
    ensures Inv(WrWait(c), sts)
  {
  }

  lemma WrUnlockKeeps(c: Core, sts: bool)
    requires Owned(c) && Inv(c, sts) && PUnlocking(c.wr)
    ensures Inv(WrUnlock(c), sts)
  {
  }

  lemma VfKeeps(c: Core, seen: Status, rsti: bool)
    requires Owned(c) && Inv(c, seen.sts)
    ensures Inv(VfControl(c, seen, rsti), StillSts(c.vf, seen.sts))
  {
    if Locking(c.vf) { VfLockKeeps(c, seen.sts); }
    else if Flushing(c.vf) { VfFlushKeeps(c, seen.sts); }
    else if c.vf == CopyIn { VfCopyKeeps(c, seen.sts); }
    else if Sending(c.vf) { VfRequestKeeps(c, seen.sts); }
    else if Waiting(c.vf) { VfWaitKeeps(c, seen.sts, seen.ack); }
    else if Unlocking(c.vf) { VfUnlockKeeps(c, seen.sts); }
    else if Taking(c.vf) { VfTakeKeeps(c, seen.sts); }
    else if c.vf == AckWrite { VfAnswerKeeps(c, seen.sts); }
    else if Getting(c.vf) { VfHearKeeps(c, seen.sts); }
    else if Polling(c.vf) { VfPollKeeps(c, seen, rsti); }
  }

  lemma WrKeeps(c: Core, sts: bool)
    requires Owned(c) && Inv(c, sts)
    ensures Inv(WrControl(c), sts || c.wr.PStsWrite?)
  {
    if PLocking(c.wr) { WrLockKeeps(c, sts); }
    else if PFlushing(c.wr) { WrFlushKeeps(c, sts); }
    else if PSending(c.wr) { WrSendKeeps(c, sts); }
    else if PWaiting(c.wr) { WrWaitKeeps(c, sts); }
    else if PUnlocking(c.wr) { WrUnlockKeeps(c, sts); }
  }

  predicate Told(s: State) {
    s.bits.Visible().sts
  }

  lemma StsAfterVf(pc: VfPc, b: VfBits)
    ensures VfAccess(pc, b).Visible().sts == StillSts(pc, b.Visible().sts)
  {
  }

  lemma StsAfterRaise(b: VfBits, up: Status)
    ensures Raise(b, up).Visible().sts == (b.Visible().sts || up.sts)
  {
  }

  /** The PF sends only messages it waits on; an oversized one is refused. */
  predicate Waits(a: Action) {
    !a.Stray? && (a.BeginWrite? && |a.msg| <= MBX_SIZE ==> Cts(a.msg))
  }

  /** Every message announced, but at most the last, has been heard, intact and in order. */
  predicate Delivered(c: Core) {
    |c.told| <= |c.heard| + 1 && InOrder(c)
  }

  lemma StartVfKeeps(c: Core, sts: bool, op: VfOp)
    requires Inv(c, sts) && c.vf == VIdle
    ensures Inv(StartVf(c, op), sts)
  {
  }

  lemma StartPfKeeps(c: Core, sts: bool, n: nat, m: Msg)
    requires Inv(c, sts)
    ensures c.rd == RIdle ==> Inv(StartRead(c, n), sts)
    ensures c.wr == WIdle && (|m| <= MBX_SIZE ==> Cts(m)) ==> Inv(StartWrite(c, m), sts)
  {
  }

  lemma NextKeeps(s: State, a: Action)
    requires Up.Inv(s.core, Up.Acked(s)) && Inv(s.core, Told(s)) && Waits(a)
    ensures Inv(Next(s, a).core, Told(Next(s, a)))
  {
    var c, b := s.core, s.bits;
    match a
    case BeginVf(op) => if c.vf == VIdle { StartVfKeeps(c, Told(s), op); }
    case Vf => StsAfterVf(c.vf, b); VfKeeps(c, b.Visible(), b.rsti);
    case BeginRead(n) => StartPfKeeps(c, Told(s), n, []);
    case Rd => StsAfterRaise(b, Status(false, c.rd == PAckWrite, false)); RdKeeps(c, Told(s), Up.Acked(s));
    case BeginWrite(m) => StartPfKeeps(c, Told(s), 0, m);
    case Wr => StsAfterRaise(b, Status(c.wr == PStsWrite, false, false)); WrKeeps(c, Told(s));
    case Reset(i, d) => StsAfterRaise(b.(rsti := i), Status(false, false, d));
  }

  lemma {:induction false} RunKeeps(s: State, acts: seq<Action>)
    requires Up.Inv(s.core, Up.Acked(s)) && Inv(s.core, Told(s))
    requires forall a <- acts :: Waits(a)
    ensures Inv(Run(s, acts).core, Told(Run(s, acts)))
    decreases |acts|
  {
    if acts != [] {
      assert Waits(acts[0]);
      NextKeeps(s, acts[0]);
      Up.NextKeeps(s, acts[0]);
      RunKeeps(Next(s, acts[0]), acts[1..]);
    }
  }

  /** If every message the PF sends carries CTS, the VF's reads return them intact,
      once and in order, in every interleaving. */
  lemma MessagesHeard(acts: seq<Action>)
    requires forall a <- acts :: Waits(a)
    ensures var c := Run(INIT, acts).core;
            && Delivered(c)
            && (|c.told| == |c.heard| + 1 ==> c.wr.PAwaitAck?)
  {
    RunKeeps(INIT, acts);
  }
}
