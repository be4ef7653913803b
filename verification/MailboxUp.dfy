/** Messages from the VF to the PF arrive intact, once and in order. */
module MailboxUp {
  import opened Mailbox

  /** The VF waits for an acknowledgement the PF has not yet given. */
  predicate Unread(c: Core, acked: bool) {
    c.vf.AwaitAck? && !acked
  }

  /** Where a request is: raised, being read, acknowledged or none. */
  predicate Phased(c: Core, acked: bool) {
    && (c.vfreq ==> Unread(c, acked) && !Reading(c.rd))
    && (Reading(c.rd) ==> Unread(c, acked))
    && (c.rd.PGetRead? || c.rd.PGetClear? ==> c.vfreq)
    && (Unread(c, acked) ==> c.vfreq || Reading(c.rd))
    && (acked ==> c.vf.AwaitAck? || c.vf.TakeAck?)
    && (c.vf.TakeAck? ==> acked)
    && |c.sent| == |c.got| + Count(Unread(c, acked))
  }

  /** What the buffer holds while the VF sends, ... */
  predicate VfContent(c: Core) {
    && |c.v.msg| <= MBX_SIZE
    && (c.vf.CopyIn? ==> c.v.i <= |c.v.msg| && Holds(c.mem, c.v.msg[..c.v.i]))
    && (c.vf.ReqRead? || c.vf.ReqWrite? || c.vf.AwaitAck? ==> Holds(c.mem, c.v.msg))
    && (c.vf.AwaitAck? ==> c.sent != [] && c.sent[|c.sent| - 1] == c.v.msg)
  }

  /** ... and while the PF reads. */
  predicate RdContent(c: Core) {
    && (c.rd != RIdle ==> c.r.size == Limit(c.r.asked))
    && (Reading(c.rd) ==> Under(c.r, c.mem, c.rd.PCopyOut?))
  }

  /** The k-th read returned the k-th message. */
  predicate InOrder(c: Core) {
    |c.got| <= |c.sent| && forall k :: 0 <= k < |c.got| ==> Intact(c.got[k], c.sent[k])
  }

  predicate Inv(c: Core, acked: bool) {
    |c.mem| == MBX_SIZE && Owned(c) && Phased(c, acked) && VfContent(c) && RdContent(c) && InOrder(c)
  }

  /** The acknowledgement bit after the VF's next access. */
  predicate StillAcked(pc: VfPc, acked: bool) {
    acked && !(pc.FlushAck? || pc.TakeAck? || pc.PollAckClear?)
  }

  lemma VfLockKeeps(c: Core, acked: bool)
    requires Inv(c, acked) && Locking(c.vf)
    ensures Inv(VfLock(c), acked)
  {
  }

  lemma VfFlushKeeps(c: Core, acked: bool)
    requires Inv(c, acked) && Flushing(c.vf)
    ensures Inv(VfFlush(c), StillAcked(c.vf, acked))
  {
  }

  lemma VfCopyKeeps(c: Core, acked: bool)
    requires Inv(c, acked) && c.vf == CopyIn
    ensures Inv(VfSend(c), acked)
  {
  }

  lemma VfRequestKeeps(c: Core, acked: bool)
    requires Inv(c, acked) && (c.vf == ReqRead || c.vf == ReqWrite)
    ensures Inv(VfSend(c), acked)
  {
  }

  lemma VfWaitKeeps(c: Core, acked: bool)
    requires Inv(c, acked) && Waiting(c.vf)
    ensures Inv(VfWait(c, acked), StillAcked(c.vf, acked))
  {
  }

  lemma VfUnlockKeeps(c: Core, acked: bool)
    requires Inv(c, acked) && Unlocking(c.vf)
    ensures Inv(VfUnlock(c), acked)
  {
  }

  lemma VfTakeKeeps(c: Core, acked: bool, msg: bool)
    requires Inv(c, acked) && Taking(c.vf)
    ensures Inv(VfTake(c, msg), acked)
  {
  }

  lemma VfHearKeeps(c: Core, acked: bool)
    requires Inv(c, acked) && c.vf == CopyOut
    ensures Inv(VfGet(c), acked)
  {
  }

  lemma VfHeardKeeps(c: Core, acked: bool)
    requires Inv(c, acked) && c.vf == AckRead
    ensures Inv(VfGet(c), acked)
  {
  }

  lemma VfAnswerKeeps(c: Core, acked: bool)
    requires Inv(c, acked) && c.vf == AckWrite
    ensures Inv(VfGet(c), acked)
  {
  }

  lemma VfPollKeeps(c: Core, seen: Status, rsti: bool)
    requires Inv(c, seen.ack) && Polling(c.vf)
    ensures Inv(VfPoll(c, seen, rsti), StillAcked(c.vf, seen.ack))
  {
  }

  lemma RdTakeKeeps(c: Core, acked: bool)
    requires Inv(c, acked) && Seeking(c.rd)
    ensures Inv(RdTake(c), acked)
  {
  }

  lemma RdGetKeeps(c: Core, acked: bool)
    requires Inv(c, acked) && Reading(c.rd)
    ensures Inv(RdGet(c), acked || c.rd.PAckWrite?)
  {
    if c.rd == PAckWrite {
      assert c.v.msg == c.sent[|c.got|] && Intact(Received(c.r.asked, c.r.buf), c.v.msg);
    } else if c.rd == PCopyOut && More(c.r, c.mem) {
      assert Holds(c.mem, Copied(c.r, c.mem).buf);
    }
  }

  lemma WrLockKeeps(c: Core, acked: bool)
    requires Inv(c, acked) && PLocking(c.wr)
    ensures Inv(WrLock(c), acked)
  {
  }

  lemma WrFlushKeeps(c: Core, acked: bool)
    requires Inv(c, acked) && PFlushing(c.wr)
    ensures Inv(WrFlush(c), acked)
  {
  }

  lemma WrSendKeeps(c: Core, acked: bool)
    requires Inv(c, acked) && PSending(c.wr)
    ensures Inv(WrSend(c), acked)
  {
  }

  lemma WrWaitKeeps(c: Core, acked: bool)
    requires Inv(c, acked) && PWaiting(c.wr)
    ensures Inv(WrWait(c), acked)
  {
  }

  lemma WrUnlockKeeps(c: Core, acked: bool)
    requires Inv(c, acked) && PUnlocking(c.wr)
    ensures Inv(WrUnlock(c), acked)
  {
  }

  lemma VfKeeps(c: Core, seen: Status, rsti: bool)
    requires Inv(c, seen.ack)
    ensures Inv(VfControl(c, seen, rsti), StillAcked(c.vf, seen.ack))
  {
    if Locking(c.vf) { VfLockKeeps(c, seen.ack); }
    else if Flushing(c.vf) { VfFlushKeeps(c, seen.ack); }
    else if c.vf == CopyIn { VfCopyKeeps(c, seen.ack); }
    else if Sending(c.vf) { VfRequestKeeps(c, seen.ack); }
    else if Waiting(c.vf) { VfWaitKeeps(c, seen.ack); }
    else if Unlocking(c.vf) { VfUnlockKeeps(c, seen.ack); }
    else if Taking(c.vf) { VfTakeKeeps(c, seen.ack, seen.sts); }
    else if c.vf == AckWrite { VfAnswerKeeps(c, seen.ack); }
    else if c.vf == AckRead { VfHeardKeeps(c, seen.ack); }
    else if c.vf == CopyOut { VfHearKeeps(c, seen.ack); }
    else if Polling(c.vf) { VfPollKeeps(c, seen, rsti); }
  }

  lemma RdKeeps(c: Core, acked: bool)
    requires Inv(c, acked)
    ensures Inv(RdControl(c), acked || c.rd.PAckWrite?)
  {
    if Seeking(c.rd) { RdTakeKeeps(c, acked); }
    else if Reading(c.rd) { RdGetKeeps(c, acked); }
  }

  lemma WrKeeps(c: Core, acked: bool)
    requires Inv(c, acked)
    ensures Inv(WrControl(c), acked)
  {
    if PLocking(c.wr) { WrLockKeeps(c, acked); }
    else if PFlushing(c.wr) { WrFlushKeeps(c, acked); }
    else if PSending(c.wr) { WrSendKeeps(c, acked); }
    else if PWaiting(c.wr) { WrWaitKeeps(c, acked); }
    else if PUnlocking(c.wr) { WrUnlockKeeps(c, acked); }
  }

  predicate Acked(s: State) {
    s.bits.Visible().ack
  }

  lemma AckAfterVf(pc: VfPc, b: VfBits)
    ensures VfAccess(pc, b).Visible().ack == StillAcked(pc, b.Visible().ack)
  {
  }

  lemma AckAfterRaise(b: VfBits, up: Status)
    ensures Raise(b, up).Visible().ack == (b.Visible().ack || up.ack)
  {
  }

  lemma StartVfKeeps(c: Core, acked: bool, op: VfOp)
    requires Inv(c, acked) && c.vf == VIdle
    ensures Inv(StartVf(c, op), acked)
  {
  }

  lemma StartPfKeeps(c: Core, acked: bool, n: nat, m: Msg)
    requires Inv(c, acked)
    ensures c.rd == RIdle ==> Inv(StartRead(c, n), acked)
    ensures c.wr == WIdle ==> Inv(StartWrite(c, m), acked)
  {
  }

  lemma NextKeeps(s: State, a: Action)
    requires Inv(s.core, Acked(s)) && !a.Stray?
    ensures Inv(Next(s, a).core, Acked(Next(s, a)))
  {
    match a
    case BeginVf(op) => if s.core.vf == VIdle { StartVfKeeps(s.core, Acked(s), op); }
    case Vf => AckAfterVf(s.core.vf, s.bits); VfKeeps(s.core, s.bits.Visible(), s.bits.rsti);
    case BeginRead(n) => StartPfKeeps(s.core, Acked(s), n, []);
    case Rd => AckAfterRaise(s.bits, Status(false, s.core.rd == PAckWrite, false)); RdKeeps(s.core, Acked(s));
    case BeginWrite(m) => StartPfKeeps(s.core, Acked(s), 0, m);
    case Wr => AckAfterRaise(s.bits, Status(s.core.wr == PStsWrite, false, false)); WrKeeps(s.core, Acked(s));
    case Reset(i, d) => AckAfterRaise(s.bits.(rsti := i), Status(false, false, d));
  }

  lemma {:induction false} RunKeeps(s: State, acts: seq<Action>)
    requires Inv(s.core, Acked(s))
    requires forall a <- acts :: !a.Stray?
    ensures Inv(Run(s, acts).core, Acked(Run(s, acts)))
    decreases |acts|
  {
    if acts != [] {
      NextKeeps(s, acts[0]);
      RunKeeps(Next(s, acts[0]), acts[1..]);
    }
  }

  /** In every interleaving: the two sides never both own the buffer; the PF's reads
      return the VF's messages intact, once and in order; at most the message the VF
      is still waiting on is unread, so a send that has returned was read. */
  lemma MessagesArrive(acts: seq<Action>)
    requires forall a <- acts :: !a.Stray?
    ensures var c := Run(INIT, acts).core;
            && !(VfOwner(c.vf) && PfOwner(c.wr))
            && |c.got| <= |c.sent| <= |c.got| + 1
            && (|c.sent| == |c.got| + 1 ==> c.vf.AwaitAck?)
            && forall k :: 0 <= k < |c.got| ==> Intact(c.got[k], c.sent[k])
  {
    RunKeeps(INIT, acts);
  }
}
