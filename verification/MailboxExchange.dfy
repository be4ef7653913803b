/** That messages do pass: from any state in which everyone is idle, either side can send a
    message, the other read it, and everyone be idle again. */
module MailboxExchange {
  import opened Mailbox
  import opened MailboxDown
  import opened MailboxLost
  import Up = MailboxUp

  predicate AllIdle(c: Core) {
    Quiet(c) && c.rd == RIdle
  }

  /** In every state a run reaches, idle threads have left the buffer to nobody. */
  lemma IdleQuiet(acts: seq<Action>)
    requires forall a <- acts :: !a.Stray?
    requires var c := Run(INIT, acts).core; c.vf == VIdle && c.rd == RIdle && c.wr == WIdle
    ensures AllIdle(Run(INIT, acts).core)
  {
    Up.RunKeeps(INIT, acts);
  }

  // ---- from the PF to the VF ----

  /** The PF's end of a write that was acknowledged. */
  predicate Ending(c: Core, c0: Core) {
    && c.vf == VIdle && !c.vfu && !c.vfreq && |c.mem| == MBX_SIZE
    && c.told == c0.told && c.heard == c0.heard && Same(c, c0)
    && Announced(c.wr) && (c.pfu <==> !c.wr.WIdle?) && (c.wr.PAwaitAck? ==> c.vfack)
  }

  function ToEnd(pc: WrPc): nat {
    match pc
    case PAwaitAck => 5
    case PTakeAckRead => 4
    case PTakeAck => 3
    case PUnlockRead => 2
    case PUnlockWrite => 1
    case _ => 0
  }

  lemma EndStep(c: Core, c0: Core)
    requires Ending(c, c0) && !c.wr.WIdle?
    ensures Ending(WrControl(c), c0) && ToEnd(WrControl(c).wr) < ToEnd(c.wr)
  {
    if PWaiting(c.wr) {
      assert Ending(WrWait(c), c0);
    } else {
      assert Ending(WrUnlock(c), c0);
    }
  }

  lemma {:induction false} EndAll(s: State, c0: Core) returns (acts: seq<Action>)
    requires Ending(s.core, c0)
    ensures (forall a <- acts :: a == Wr) && Ending(Run(s, acts).core, c0) && Run(s, acts).core.wr == WIdle
    decreases ToEnd(s.core.wr)
  {
    acts := [];
    if !s.core.wr.WIdle? {
      EndStep(s.core, c0);
      var rest := EndAll(Next(s, Wr), c0);
      acts := [Wr] + rest;
      assert acts[1..] == rest;
    }
  }

  /** The run `acts` takes the message `m` from the PF to a read of `n` words by the VF. */
  predicate PassesDown(s: State, acts: seq<Action>, m: Msg, n: nat) {
    var c, c' := s.core, Run(s, acts).core;
    && AllIdle(c') && !c'.vfreq && c'.sent == c.sent && c'.got == c.got && c'.told == c.told + [m]
    && |c'.heard| == |c.heard| + 1 && c'.heard[..|c.heard|] == c.heard
    && var r := c'.heard[|c.heard|]; r.asked == n && Intact(r, m)
  }

  lemma PfToVf(s: State, m: Msg, n: nat)
    requires AllIdle(s.core) && |m| <= MBX_SIZE
    ensures exists acts :: Only(acts, iset{m}) && PassesDown(s, acts, m, n)
  {
    var one := Write(s, m);
    var s1 := Run(s, one);
    var two := Hear(s1, m, n);
    var s2 := Run(s1, two);
    var three := EndAll(s2, s2.core);
    RunConcat(s, one, two);
    RunConcat(s, one + two, three);
    var acts := one + two + three;
    assert Only(acts, iset{m}) && PassesDown(s, acts, m, n);
  }

  // ---- from the VF to the PF ----

  /** The VF's send of `m` begun at `c0`, with nothing else moving, up to its wait. */
  predicate Sends(c: Core, ack: bool, m: Msg, c0: Core) {
    && c.wr == WIdle && c.rd == RIdle && !c.pfu && |c.mem| == MBX_SIZE && c.v.msg == m
    && c.told == c0.told && c.heard == c0.heard && c.got == c0.got
    && (Locking(c.vf) || Flushing(c.vf) || Sending(c.vf) || c.vf.AwaitAck?)
    && (c.vfu <==> !(c.vf.LockRead? || c.vf.LockWrite?))
    && (c.vf.CopyIn? ==> c.v.i <= |m| && Holds(c.mem, m[..c.v.i]))
    && (c.vf.ReqRead? || c.vf.ReqWrite? || c.vf.AwaitAck? ==> Holds(c.mem, m))
    && (c.vf.ReqWrite? ==> c.v.own)
    && (Sending(c.vf) || c.vf.AwaitAck? ==> !ack)
    && (if c.vf.AwaitAck? then c.vfreq && c.sent == c0.sent + [m] else c.sent == c0.sent)
  }

  function ToSend(pc: VfPc, copied: nat, m: Msg): int {
    match pc
    case LockRead => |m| + 9
    case LockWrite => |m| + 8
    case LockVerify => |m| + 7
    case FlushMsg => |m| + 6
    case FlushAck => |m| + 5
    case CopyIn => |m| - copied + 4
    case ReqRead => 3
    case ReqWrite => 2
    case _ => 1
  }

  predicate SendsOn(c: Core, c': Core, ack: bool, m: Msg, c0: Core) {
    Sends(c', ack, m, c0) && ToSend(c'.vf, c'.v.i, m) < ToSend(c.vf, c.v.i, m)
  }

  lemma SendLocks(c: Core, ack: bool, m: Msg, c0: Core)
    requires Sends(c, ack, m, c0) && Locking(c.vf)
    ensures SendsOn(c, VfLock(c), ack, m, c0)
  {
  }

  lemma SendFlushes(c: Core, ack: bool, m: Msg, c0: Core)
    requires Sends(c, ack, m, c0) && Flushing(c.vf)
    ensures SendsOn(c, VfFlush(c), ack && c.vf.FlushMsg?, m, c0)
  {
  }

  lemma SendCopies(c: Core, m: Msg, c0: Core)
    requires Sends(c, false, m, c0) && |m| <= MBX_SIZE && c.vf.CopyIn?
    ensures SendsOn(c, VfSend(c), false, m, c0)
  {
    if c.v.i < |m| {
      assert VfSend(c).mem[..c.v.i + 1] == m[..c.v.i + 1];
    } else {
      assert m[..c.v.i] == m;
    }
  }

  lemma SendRequests(c: Core, m: Msg, c0: Core)
    requires Sends(c, false, m, c0) && (c.vf.ReqRead? || c.vf.ReqWrite?)
    ensures SendsOn(c, VfSend(c), false, m, c0)
  {
  }

  lemma SendStep(c: Core, seen: Status, rsti: bool, m: Msg, c0: Core)
    requires Sends(c, seen.ack, m, c0) && |m| <= MBX_SIZE && !c.vf.AwaitAck?
    ensures SendsOn(c, VfControl(c, seen, rsti), Up.StillAcked(c.vf, seen.ack), m, c0)
  {
    if Locking(c.vf) { SendLocks(c, seen.ack, m, c0); }
    else if Flushing(c.vf) { SendFlushes(c, seen.ack, m, c0); }
    else if c.vf.CopyIn? { SendCopies(c, m, c0); }
    else { SendRequests(c, m, c0); }
  }

  lemma {:induction false} SendAll(s: State, m: Msg, c0: Core) returns (acts: seq<Action>)
    requires Sends(s.core, Up.Acked(s), m, c0) && |m| <= MBX_SIZE
    ensures forall a <- acts :: a == Vf
    ensures var s' := Run(s, acts); Sends(s'.core, Up.Acked(s'), m, c0) && s'.core.vf == AwaitAck
    decreases ToSend(s.core.vf, s.core.v.i, m)
  {
    acts := [];
    if !s.core.vf.AwaitAck? {
      Up.AckAfterVf(s.core.vf, s.bits);
      SendStep(s.core, s.bits.Visible(), s.bits.rsti, m, c0);
      var rest := SendAll(Next(s, Vf), m, c0);
      acts := [Vf] + rest;
      assert acts[1..] == rest;
    }
  }

  /** The PF's read of `n` words begun at `c0`, where the VF waits. */
  predicate Reads(c: Core, ack: bool, n: nat, c0: Core) {
    && c.mem == c0.mem && |c.mem| == MBX_SIZE && c.r.asked == n && c.r.size == Limit(n)
    && c.vf == AwaitAck && c.vfu && !c.pfu && c.wr == WIdle && c.v == c0.v
    && c.sent == c0.sent && c.told == c0.told && c.heard == c0.heard
    && (Seeking(c.rd) ==> c.vfreq) && (c.rd.PAckWrite? ==> !c.r.own)
    && (Reading(c.rd) ==> Under(c.r, c.mem, c.rd.PCopyOut?))
    && (if c.rd.RIdle? then ack && c.got == c0.got + [Received(n, c0.mem[..Limit(n)])] else c.got == c0.got)
  }

  function ToRead(pc: RdPc, have: nat, n: nat): int {
    match pc
    case PGetCheck => Limit(n) + 6
    case PGetRead => Limit(n) + 5
    case PGetClear => Limit(n) + 4
    case PCopyOut => Limit(n) - have + 3
    case PAckRead => 2
    case PAckWrite => 1
    case RIdle => 0
  }

  predicate ReadsOn(c: Core, c': Core, ack: bool, n: nat, c0: Core) {
    Reads(c', ack, n, c0) && ToRead(c'.rd, |c'.r.buf|, n) < ToRead(c.rd, |c.r.buf|, n)
  }

  lemma ReadTakes(c: Core, ack: bool, n: nat, c0: Core)
    requires Reads(c, ack, n, c0) && Seeking(c.rd)
    ensures ReadsOn(c, RdTake(c), ack, n, c0)
  {
  }

  lemma ReadGets(c: Core, ack: bool, n: nat, c0: Core)
    requires Reads(c, ack, n, c0) && Reading(c.rd)
    ensures ReadsOn(c, RdGet(c), ack || c.rd.PAckWrite?, n, c0)
  {
    if c.rd.PCopyOut? && More(c.r, c.mem) {
      assert c.mem[..|c.r.buf| + 1] == c.r.buf + [c.mem[|c.r.buf|]];
    }
  }

  lemma {:induction false} ReadAll(s: State, n: nat, c0: Core) returns (acts: seq<Action>)
    requires Reads(s.core, Up.Acked(s), n, c0)
    ensures forall a <- acts :: a == Rd
    ensures var s' := Run(s, acts); Reads(s'.core, Up.Acked(s'), n, c0) && s'.core.rd == RIdle
    decreases ToRead(s.core.rd, |s.core.r.buf|, n)
  {
    acts := [];
    if !s.core.rd.RIdle? {
      var c := s.core;
      Up.AckAfterRaise(s.bits, Status(false, c.rd == PAckWrite, false));
      if Seeking(c.rd) { ReadTakes(c, Up.Acked(s), n, c0); } else { ReadGets(c, Up.Acked(s), n, c0); }
      var rest := ReadAll(Next(s, Rd), n, c0);
      acts := [Rd] + rest;
      assert acts[1..] == rest;
    }
  }

  /** The VF's end of a send that was acknowledged. */
  predicate Closing(c: Core, ack: bool, c0: Core) {
    && c.wr == WIdle && c.rd == RIdle && !c.pfu && |c.mem| == MBX_SIZE
    && c.told == c0.told && c.heard == c0.heard && c.got == c0.got && c.sent == c0.sent
    && (Waiting(c.vf) || Unlocking(c.vf) || c.vf.VIdle?) && (c.vf.AwaitAck? ==> ack)
    && (c.vfu <==> !c.vf.VIdle?)
  }

  function ToClose(pc: VfPc): nat {
    match pc
    case AwaitAck => 4
    case TakeAck => 3
    case UnlockRead => 2
    case UnlockWrite => 1
    case _ => 0
  }

  lemma CloseStep(c: Core, seen: Status, rsti: bool, c0: Core)
    requires Closing(c, seen.ack, c0) && !c.vf.VIdle?
    ensures var c' := VfControl(c, seen, rsti);
            Closing(c', Up.StillAcked(c.vf, seen.ack), c0) && ToClose(c'.vf) < ToClose(c.vf)
  {
    if Waiting(c.vf) {
      assert Closing(VfWait(c, seen.ack), Up.StillAcked(c.vf, seen.ack), c0);
    } else {
      assert Closing(VfUnlock(c), seen.ack, c0);
    }
  }

  lemma {:induction false} CloseAll(s: State, c0: Core) returns (acts: seq<Action>)
    requires Closing(s.core, Up.Acked(s), c0)
    ensures forall a <- acts :: a == Vf
    ensures var s' := Run(s, acts); Closing(s'.core, Up.Acked(s'), c0) && s'.core.vf == VIdle
    decreases ToClose(s.core.vf)
  {
    acts := [];
    if !s.core.vf.VIdle? {
      Up.AckAfterVf(s.core.vf, s.bits);
      CloseStep(s.core, s.bits.Visible(), s.bits.rsti, c0);
      var rest := CloseAll(Next(s, Vf), c0);
      acts := [Vf] + rest;
      assert acts[1..] == rest;
    }
  }

  /** The run `acts` takes the message `m` from the VF to a read of `n` words by the PF. */
  predicate PassesUp(s: State, acts: seq<Action>, m: Msg, n: nat) {
    var c, c' := s.core, Run(s, acts).core;
    && AllIdle(c') && c'.told == c.told && c'.heard == c.heard && c'.sent == c.sent + [m]
    && |c'.got| == |c.got| + 1 && c'.got[..|c.got|] == c.got
    && var r := c'.got[|c.got|]; r.asked == n && Intact(r, m)
  }

  lemma Send(s: State, m: Msg) returns (acts: seq<Action>)
    requires AllIdle(s.core) && |m| <= MBX_SIZE
    ensures var s' := Run(s, acts); Sends(s'.core, Up.Acked(s'), m, s.core) && s'.core.vf == AwaitAck
  {
    var begin := BeginVf(SendMsg(m));
    var rest := SendAll(Next(s, begin), m, s.core);
    acts := [begin] + rest;
    assert acts[1..] == rest;
  }

  lemma Read(s: State, m: Msg, n: nat, c0: Core) returns (acts: seq<Action>)
    requires Sends(s.core, Up.Acked(s), m, c0) && s.core.vf == AwaitAck
    ensures var s' := Run(s, acts); Reads(s'.core, Up.Acked(s'), n, s.core) && s'.core.rd == RIdle
    ensures Intact(Received(n, s.core.mem[..Limit(n)]), m)
  {
    var begin := BeginRead(n);
    var rest := ReadAll(Next(s, begin), n, s.core);
    acts := [begin] + rest;
    assert acts[1..] == rest;
    assert forall i :: 0 <= i < |m| ==> s.core.mem[i] == s.core.mem[..|m|][i];
  }

  lemma VfToPf(s: State, m: Msg, n: nat)
    requires AllIdle(s.core) && |m| <= MBX_SIZE
    ensures exists acts :: PassesUp(s, acts, m, n)
  {
    var one := Send(s, m);
    var s1 := Run(s, one);
    var two := Read(s1, m, n, s.core);
    var s2 := Run(s1, two);
    var three := CloseAll(s2, s2.core);
    RunConcat(s, one, two);
    RunConcat(s, one + two, three);
    assert PassesUp(s, one + two + three, m, n);
  }
}
