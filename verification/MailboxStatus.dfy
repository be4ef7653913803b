/** No VF status bit is lost, whatever the other side does. */
module MailboxStatus {
  import opened Mailbox

  /** Every bit that became visible has been counted by a clear, or is still visible. */
  predicate Accounted(b: VfBits) {
    && b.stats.reqs + Count(b.Visible().sts) == b.raised.sts
    && b.stats.acks + Count(b.Visible().ack) == b.raised.ack
    && b.stats.rsts + Count(b.Visible().rstd) == b.raised.rstd + b.rstiOnly
  }

  lemma ReadAccounted(b: VfBits)
    requires Accounted(b)
    ensures Accounted(ReadVf(b)) && ReadVf(b).Visible() == ReadVf(b).cache == b.Visible()
  {
  }

  lemma MsgAccounted(b: VfBits)
    requires Accounted(b)
    ensures Accounted(ClearMsgVf(b))
  {
    ReadAccounted(b);
  }

  lemma AckAccounted(b: VfBits)
    requires Accounted(b)
    ensures Accounted(ClearAckVf(b))
  {
    ReadAccounted(b);
  }

  lemma RstAccounted(b: VfBits)
    requires Accounted(b)
    ensures Accounted(ClearRstVf(b))
  {
    ReadAccounted(b);
  }

  lemma VfAccounted(pc: VfPc, b: VfBits)
    requires Accounted(b)
    ensures Accounted(VfAccess(pc, b))
  {
    ReadAccounted(b);
    MsgAccounted(b);
    AckAccounted(b);
    RstAccounted(b);
  }

  lemma RaiseAccounted(b: VfBits, up: Status)
    requires Accounted(b)
    ensures Accounted(Raise(b, up))
  {
  }

  lemma NextAccounted(s: State, a: Action)
    requires Accounted(s.bits)
    ensures Accounted(Next(s, a).bits)
  {
    match a {
      case Vf => VfAccounted(s.core.vf, s.bits);
      case Rd => RaiseAccounted(s.bits, Status(false, s.core.rd == PAckWrite, false));
      case Wr => RaiseAccounted(s.bits, Status(s.core.wr == PStsWrite, false, false));
      case Reset(i, d) => RaiseAccounted(s.bits.(rsti := i), Status(false, false, d));
      case Stray(up) => RaiseAccounted(s.bits, up);
      case _ =>
    }
  }

  lemma {:induction false} RunAccounted(s: State, acts: seq<Action>)
    requires Accounted(s.bits)
    ensures Accounted(Run(s, acts).bits)
    decreases |acts|
  {
    if acts != [] {
      NextAccounted(s, acts[0]);
      RunAccounted(Next(s, acts[0]), acts[1..]);
    }
  }

  /** A visible bit goes only by the matching clear, and that clear counts it, once. */
  lemma StatusKept(s: State, a: Action)
    ensures var b, b' := s.bits, Next(s, a).bits;
            && (b.Visible().sts && !b'.Visible().sts ==> a == Vf && (s.core.vf.FlushMsg? || s.core.vf.GetClear?))
            && (b.Visible().ack && !b'.Visible().ack ==>
                  a == Vf && (s.core.vf.FlushAck? || s.core.vf.TakeAck? || s.core.vf.PollAckClear?))
            && (b.Visible().rstd && !b'.Visible().rstd ==> a == Vf && s.core.vf.PollRstClear?)
            && b'.stats.reqs == b.stats.reqs + Count(b.Visible().sts && !b'.Visible().sts)
            && b'.stats.acks == b.stats.acks + Count(b.Visible().ack && !b'.Visible().ack)
  {
  }

  /** The reset counter counts a cleared RSTD once, and nothing else, except exactly where
      the clear finds RSTI up and no RSTD. */
  lemma RstCountIff(s: State, a: Action)
    ensures var b, b' := s.bits, Next(s, a).bits;
            (b'.stats.rsts == b.stats.rsts + Count(b.Visible().rstd && !b'.Visible().rstd))
              <==> !(a == Vf && s.core.vf.PollRstClear? && b.rsti && !b.Visible().rstd)
  {
  }

  /** Every status bit a run raises is counted once or still visible, strays included;
      RSTI, which reading does not clear, is what the reset counter may add. */
  lemma StatusAccounted(acts: seq<Action>)
    ensures Accounted(Run(INIT, acts).bits)
  {
    RunAccounted(INIT, acts);
  }

  lemma RunThree(s: State, a: Action)
    ensures Run(s, [a, Vf, Vf]) == StepVf(StepVf(Next(s, a)))
  {
    var acts := [a, Vf, Vf];
    assert acts[1..] == [Vf, Vf] && [Vf, Vf][1..] == [Vf] && [Vf][1..] == [];
  }

  /** The first access of a check, and the one that clears. */
  lemma PollStep(s: State)
    requires s.core.vf.PollAck? || s.core.vf.PollRst? || s.core.vf.PollMsg?
    ensures var v, s' := s.bits.Visible(), StepVf(s);
            && s'.bits == ReadVf(s.bits)
            && s'.core.vf == (if s.core.vf.PollAck? && v.ack then PollAckClear
                              else if s.core.vf.PollRst? && (v.rstd || s.bits.rsti) then PollRstClear else VIdle)
  {
  }

  lemma AckClearStep(s: State)
    requires s.core.vf.PollAckClear?
    ensures StepVf(s).core.vf == VIdle && StepVf(s).bits == ClearAckVf(s.bits)
  {
  }

  lemma RstClearStep(s: State)
    requires s.core.vf.PollRstClear?
    ensures StepVf(s).core.vf == VIdle && StepVf(s).bits == ClearRstVf(s.bits)
  {
  }

  lemma IdleStep(s: State)
    requires s.core.vf.VIdle?
    ensures StepVf(s) == s
  {
  }

  lemma AckTaken(b: VfBits)
    ensures ReadVf(b).Visible() == b.Visible() && ReadVf(b).stats == b.stats
    ensures b.Visible().ack ==>
              && ClearAckVf(ReadVf(b)).Visible() == b.Visible().(ack := false)
              && ClearAckVf(ReadVf(b)).stats == b.stats.(acks := b.stats.acks + 1)
  {
  }

  lemma RstTaken(b: VfBits)
    ensures ReadVf(b).Visible() == b.Visible() && ReadVf(b).stats == b.stats
    ensures b.Visible().rstd || b.rsti ==>
              && ClearRstVf(ReadVf(b)).Visible() == b.Visible().(rstd := false)
              && ClearRstVf(ReadVf(b)).stats == b.stats.(rsts := b.stats.rsts + 1)
  {
  }

  /** A check for acknowledgements takes and counts the one there is; ... */
  lemma AckCheckCounts(s: State)
    requires s.core.vf == VIdle
    ensures var b, s' := s.bits, Run(s, [BeginVf(CheckAck), Vf, Vf]);
            && s'.core.vf == VIdle && s'.bits.Visible() == b.Visible().(ack := false)
            && s'.bits.stats == b.stats.(acks := b.stats.acks + Count(b.Visible().ack))
  {
    RunThree(s, BeginVf(CheckAck));
    var s1 := Next(s, BeginVf(CheckAck));
    PollStep(s1);
    if s.bits.Visible().ack { AckClearStep(StepVf(s1)); } else { IdleStep(StepVf(s1)); }
    AckTaken(s.bits);
  }

  /** ... a check for a reset takes RSTD and counts it or RSTI; ... */
  lemma RstCheckCounts(s: State)
    requires s.core.vf == VIdle
    ensures var b, s' := s.bits, Run(s, [BeginVf(CheckRst), Vf, Vf]);
            && s'.core.vf == VIdle && s'.bits.Visible() == b.Visible().(rstd := false)
            && s'.bits.stats == b.stats.(rsts := b.stats.rsts + Count(b.Visible().rstd || b.rsti))
  {
    RunThree(s, BeginVf(CheckRst));
    var s1 := Next(s, BeginVf(CheckRst));
    PollStep(s1);
    if s.bits.Visible().rstd || s.bits.rsti { RstClearStep(StepVf(s1)); } else { IdleStep(StepVf(s1)); }
    RstTaken(s.bits);
  }

  /** ... and a check for messages takes nothing. */
  lemma MsgCheckTakesNothing(s: State)
    requires s.core.vf == VIdle
    ensures var b, s' := s.bits, Run(s, [BeginVf(CheckMsg), Vf, Vf]);
            s'.core.vf == VIdle && s'.bits.Visible() == b.Visible() && s'.bits.stats == b.stats
  {
    RunThree(s, BeginVf(CheckMsg));
    PollStep(Next(s, BeginVf(CheckMsg)));
    IdleStep(StepVf(Next(s, BeginVf(CheckMsg))));
    AckTaken(s.bits);
  }

  /** So the reset counter is not "once per reset": from any idle state in which RSTI
      is up, each further check counts one more although nothing was raised. */
  lemma RstiCountsEachCheck(s: State)
    requires s.core.vf == VIdle && s.bits.rsti
    ensures var s' := Run(s, [BeginVf(CheckRst), Vf, Vf]);
            && s'.bits.stats.rsts == s.bits.stats.rsts + 1 && s'.bits.raised == s.bits.raised
            && s'.core.vf == VIdle && s'.bits.rsti
  {
    RunThree(s, BeginVf(CheckRst));
    PollStep(Next(s, BeginVf(CheckRst)));
    RstClearStep(StepVf(Next(s, BeginVf(CheckRst))));
  }
}
