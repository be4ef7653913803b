/** The mailbox between the physical function (PF) and one virtual function (VF),
    upgraded operations on both sides.  The VF makes one call at a time; the PF reads
    in one thread and writes in another.  Every register access is one step, so the
    runs below are all interleavings of the three.  Waits for a lock or an
    acknowledgement last until they succeed.

    Hardware rules: reading VFMAILBOX clears PFSTS, PFACK and RSTD; a side's
    ownership bit is granted only while the other side's is clear; REQ and ACK
    written by the VF raise VFREQ and VFACK in PFMBICR, where the PF clears them
    by writing 1; STS and ACK written by the PF raise PFSTS and PFACK. */
module Mailbox {

  const MBX_SIZE: nat := 16
  const MSGTYPE_CTS: nat := 0x2000_0000

  type Msg = seq<nat>

  /** Whether the PF waits for the VF's acknowledgement of this message. */
  predicate Cts(m: Msg) {
    m != [] && (m[0] / MSGTYPE_CTS) % 2 == 1
  }

  // ---- program counters ----

  datatype VfPc =
    | VIdle
      // ixgbe_write_mbx_vf
    | LockRead | LockWrite | LockVerify | FlushMsg | FlushAck | CopyIn
    | ReqRead | ReqWrite | AwaitAck | TakeAck | UnlockRead | UnlockWrite
      // ixgbe_read_mbx_vf
    | GetCheck | GetClear | CopyOut | AckRead | AckWrite
      // the stand-alone checks
    | PollMsg | PollAck | PollAckClear | PollRst | PollRstClear

  /** The PF's reading thread: ixgbe_read_mbx_pf */
  datatype RdPc = RIdle | PGetCheck | PGetRead | PGetClear | PCopyOut | PAckRead | PAckWrite

  /** The PF's writing thread: ixgbe_write_mbx_pf */
  datatype WrPc =
    | WIdle
    | PLockRead | PLockWrite | PLockVerify | PFlushMsgRead | PFlushMsg | PFlushAckRead | PFlushAck
    | PCopyIn | PStsRead | PStsWrite | PAwaitAck | PTakeAckRead | PTakeAck | PUnlockRead | PUnlockWrite

  /** Local variables of a send. */
  datatype Sender = Sender(
    msg: Msg,     // the message
    i: nat,       // words of it copied so far
    own: bool     // the ownership bit as last read, written back with REQ or STS
  )

  /** Local variables of a read. */
  datatype Reader = Reader(
    asked: nat,   // words the caller asked for
    size: nat,    // the same, cut to the mailbox size
    buf: Msg,     // words read so far
    own: bool     // the ownership bit as last read, written back with ACK
  )

  /** What a read returned. */
  datatype Received = Received(asked: nat, words: Msg)

  /** The three bits a VF read of VFMAILBOX clears. */
  datatype Status = Status(sts: bool, ack: bool, rstd: bool) {
    function Or(o: Status): Status {
      Status(sts || o.sts, ack || o.ack, rstd || o.rstd)
    }
  }

  const NONE := Status(false, false, false)

  /** How often a bit, not visible to the VF, became visible. */
  datatype Raised = Raised(sts: nat, ack: nat, rstd: nat)

  datatype Stats = Stats(reqs: nat, acks: nat, rsts: nat)

  /** The status bits: in the register, in hw->mbx.vf_mailbox, and as counted. */
  datatype VfBits = VfBits(
    reg: Status, rsti: bool,       // VFMAILBOX
    cache: Status, stats: Stats,   // the VF driver's copy and counters
    raised: Raised,
    rstiOnly: nat                  // reset clears that saw RSTI without RSTD
  ) {
    /** What the VF can still find out about. */
    function Visible(): Status {
      reg.Or(cache)
    }
  }

  datatype Core = Core(
    vfu: bool, pfu: bool,          // ownership bits
    vfreq: bool, vfack: bool,      // PFMBICR
    mem: Msg,                      // the shared message buffer
    vf: VfPc, v: Sender, h: Reader,
    rd: RdPc, r: Reader,
    wr: WrPc, w: Sender,
    sent: seq<Msg>,                // requests the VF has raised
    got: seq<Received>,            // what the PF's reads have returned
    told: seq<Msg>,                // messages the PF has announced
    heard: seq<Received>           // what the VF's reads have returned
  )

  datatype State = State(core: Core, bits: VfBits)

  const NO_SEND := Sender([], 0, false)
  const NO_READ := Reader(0, 0, [], false)

  const INIT := State(
    Core(false, false, false, false, seq(MBX_SIZE, _ => 0),
         VIdle, NO_SEND, NO_READ, RIdle, NO_READ, WIdle, NO_SEND, [], [], [], []),
    VfBits(NONE, false, NONE, Stats(0, 0, 0), Raised(0, 0, 0), 0))

  // ---- register accesses ----

  /** ixgbe_read_mailbox_vf: the status bits move from the register to the cache. */
  function ReadVf(b: VfBits): VfBits {
    b.(cache := b.Visible(), reg := NONE)
  }

  /** ixgbe_clear_msg_vf, ixgbe_clear_ack_vf and ixgbe_clear_rst_vf. */
  function ClearMsgVf(b: VfBits): VfBits {
    var b := ReadVf(b);
    if b.cache.sts then b.(stats := b.stats.(reqs := b.stats.reqs + 1), cache := b.cache.(sts := false)) else b
  }

  function ClearAckVf(b: VfBits): VfBits {
    var b := ReadVf(b);
    if b.cache.ack then b.(stats := b.stats.(acks := b.stats.acks + 1), cache := b.cache.(ack := false)) else b
  }

  function ClearRstVf(b: VfBits): VfBits {
    var b := ReadVf(b);
    if b.cache.rstd || b.rsti then
      b.(stats := b.stats.(rsts := b.stats.rsts + 1), cache := b.cache.(rstd := false),
         rstiOnly := b.rstiOnly + if b.cache.rstd then 0 else 1)
    else b
  }

  /** The other side raises status bits. */
  function Raise(b: VfBits, up: Status): VfBits {
    var v := b.Visible();
    b.(reg := b.reg.Or(up),
       raised := Raised(b.raised.sts + Count(up.sts && !v.sts),
                        b.raised.ack + Count(up.ack && !v.ack),
                        b.raised.rstd + Count(up.rstd && !v.rstd)))
  }

  function Count(b: bool): nat {
    if b then 1 else 0
  }

  function WriteVf(c: Core, vfu: bool, req: bool, ack: bool): Core {
    c.(vfu := vfu && (c.vfu || !c.pfu), vfreq := c.vfreq || req, vfack := c.vfack || ack)
  }

  function WritePf(c: Core, pfu: bool): Core {
    c.(pfu := pfu && (c.pfu || !c.vfu))
  }

  // ---- steps ----

  datatype VfOp = SendMsg(msg: Msg) | ReadMsg(size: nat) | CheckMsg | CheckAck | CheckRst

  function Limit(size: nat): nat {
    if size > MBX_SIZE then MBX_SIZE else size
  }

  function Ask(r: Reader, n: nat): Reader {
    r.(asked := n, size := Limit(n))
  }

  /** An idle thread begins a call; oversized messages are refused, reads clipped. */
  function StartVf(c: Core, op: VfOp): Core {
    match op
    case SendMsg(m) => if |m| > MBX_SIZE then c else c.(vf := LockRead, v := c.v.(msg := m))
    case ReadMsg(n) => c.(vf := GetCheck, h := Ask(c.h, n))
    case CheckMsg => c.(vf := PollMsg)
    case CheckAck => c.(vf := PollAck)
    case CheckRst => c.(vf := PollRst)
  }

  function StartRead(c: Core, n: nat): Core {
    c.(rd := PGetCheck, r := Ask(c.r, n))
  }

  function StartWrite(c: Core, m: Msg): Core {
    if |m| > MBX_SIZE then c else c.(wr := PLockRead, w := c.w.(msg := m))
  }

  /** What the VF's next access does to the status bits. */
  function VfAccess(pc: VfPc, b: VfBits): VfBits {
    match pc
    case VIdle | LockWrite | CopyIn | ReqWrite | UnlockWrite | CopyOut | AckWrite => b
    case FlushMsg | GetClear => ClearMsgVf(b)
    case FlushAck | TakeAck | PollAckClear => ClearAckVf(b)
    case PollRstClear => ClearRstVf(b)
    case _ => ReadVf(b)
  }

  /** ixgbe_obtain_mbx_lock_vf */
  function VfLock(c: Core): Core {
    match c.vf
    case LockRead => c.(vf := LockWrite)
    case LockWrite => WriteVf(c, true, false, false).(vf := LockVerify)
    case _ => c.(vf := if c.vfu then FlushMsg else LockRead)
  }

  /** ixgbe_write_mbx_vf between taking and releasing the lock: the flush, ... */
  function VfFlush(c: Core): Core {
    if c.vf == FlushMsg then c.(vf := FlushAck) else c.(vf := CopyIn, v := c.v.(i := 0))
  }

  /** ... the copy and the request, ... */
  function VfSend(c: Core): Core {
    match c.vf
    case CopyIn =>
      if c.v.i < |c.v.msg| && c.v.i < |c.mem| then c.(mem := c.mem[c.v.i := c.v.msg[c.v.i]], v := c.v.(i := c.v.i + 1))
      else c.(vf := ReqRead)
    case ReqRead => c.(vf := ReqWrite, v := c.v.(own := c.vfu))
    case _ => WriteVf(c, c.v.own, true, false).(vf := AwaitAck, sent := c.sent + [c.v.msg])
  }

  /** ... and the wait. */
  function VfWait(c: Core, acked: bool): Core {
    if c.vf == AwaitAck then c.(vf := if acked then TakeAck else AwaitAck) else c.(vf := UnlockRead)
  }

  /** ixgbe_release_mbx_lock_vf */
  function VfUnlock(c: Core): Core {
    if c.vf == UnlockRead then c.(vf := UnlockWrite)
    else WriteVf(c, false, false, false).(vf := VIdle)
  }

  /** One more word for a read that is not done. */
  predicate More(r: Reader, mem: Msg) {
    |r.buf| < r.size && |r.buf| < |mem|
  }

  function Copied(r: Reader, mem: Msg): Reader
    requires More(r, mem)
  {
    r.(buf := r.buf + [mem[|r.buf|]])
  }

  /** ixgbe_read_mbx_vf: find and clear the message bit, ... */
  function VfTake(c: Core, msg: bool): Core {
    if c.vf == GetCheck then c.(vf := if msg then GetClear else VIdle)
    else c.(vf := CopyOut, h := c.h.(buf := []))
  }

  /** ... copy the message out and acknowledge it. */
  function VfGet(c: Core): Core {
    match c.vf
    case CopyOut => if More(c.h, c.mem) then c.(h := Copied(c.h, c.mem)) else c.(vf := AckRead)
    case AckRead => c.(vf := AckWrite, h := c.h.(own := c.vfu))
    case _ => WriteVf(c, c.h.own, false, true).(vf := VIdle, heard := c.heard + [Received(c.h.asked, c.h.buf)])
  }

  /** ixgbe_check_for_msg_vf, _ack_vf and _rst_vf */
  function VfPoll(c: Core, seen: Status, rsti: bool): Core {
    match c.vf
    case PollAck => c.(vf := if seen.ack then PollAckClear else VIdle)
    case PollRst => c.(vf := if seen.rstd || rsti then PollRstClear else VIdle)
    case _ => c.(vf := VIdle)
  }

  predicate Locking(pc: VfPc) { pc.LockRead? || pc.LockWrite? || pc.LockVerify? }
  predicate Flushing(pc: VfPc) { pc.FlushMsg? || pc.FlushAck? }
  predicate Sending(pc: VfPc) { pc.CopyIn? || pc.ReqRead? || pc.ReqWrite? }
  predicate Waiting(pc: VfPc) { pc.AwaitAck? || pc.TakeAck? }
  predicate Unlocking(pc: VfPc) { pc.UnlockRead? || pc.UnlockWrite? }
  predicate Taking(pc: VfPc) { pc.GetCheck? || pc.GetClear? }
  predicate Getting(pc: VfPc) { pc.CopyOut? || pc.AckRead? || pc.AckWrite? }
  predicate Polling(pc: VfPc) { pc.PollMsg? || pc.PollAck? || pc.PollAckClear? || pc.PollRst? || pc.PollRstClear? }

  function VfControl(c: Core, seen: Status, rsti: bool): Core {
    if Locking(c.vf) then VfLock(c)
    else if Flushing(c.vf) then VfFlush(c)
    else if Sending(c.vf) then VfSend(c)
    else if Waiting(c.vf) then VfWait(c, seen.ack)
    else if Unlocking(c.vf) then VfUnlock(c)
    else if Taking(c.vf) then VfTake(c, seen.sts)
    else if Getting(c.vf) then VfGet(c)
    else if Polling(c.vf) then VfPoll(c, seen, rsti)
    else c
  }

  /** One register access by the VF; branches test the value the access returned. */
  function StepVf(s: State): State {
    State(VfControl(s.core, s.bits.Visible(), s.bits.rsti), VfAccess(s.core.vf, s.bits))
  }

  /** ixgbe_read_mbx_pf: find and clear the request, ... */
  function RdTake(c: Core): Core {
    match c.rd
    case PGetCheck => c.(rd := if c.vfreq then PGetRead else RIdle)
    case PGetRead => c.(rd := PGetClear)
    case _ => c.(vfreq := false, rd := PCopyOut, r := c.r.(buf := []))
  }

  /** ... copy the message out and acknowledge it. */
  function RdGet(c: Core): Core {
    match c.rd
    case PCopyOut => if More(c.r, c.mem) then c.(r := Copied(c.r, c.mem)) else c.(rd := PAckRead)
    case PAckRead => c.(rd := PAckWrite, r := c.r.(own := c.pfu))
    case _ => WritePf(c, c.r.own).(rd := RIdle, got := c.got + [Received(c.r.asked, c.r.buf)])
  }

  predicate Seeking(pc: RdPc) { pc.PGetCheck? || pc.PGetRead? || pc.PGetClear? }
  predicate Reading(pc: RdPc) { pc.PCopyOut? || pc.PAckRead? || pc.PAckWrite? }

  function RdControl(c: Core): Core {
    if Seeking(c.rd) then RdTake(c) else if Reading(c.rd) then RdGet(c) else c
  }

  /** ixgbe_obtain_mbx_lock_pf */
  function WrLock(c: Core): Core {
    match c.wr
    case PLockRead => c.(wr := if c.pfu then PLockRead else PLockWrite)
    case PLockWrite => WritePf(c, true).(wr := PLockVerify)
    case _ => c.(wr := if c.pfu then PFlushMsgRead else PLockRead)
  }

  /** ixgbe_write_mbx_pf between taking and releasing the lock: the flush, ... */
  function WrFlush(c: Core): Core {
    match c.wr
    case PFlushMsgRead => c.(wr := PFlushMsg)
    case PFlushMsg => c.(vfreq := false, wr := PFlushAckRead)
    case PFlushAckRead => c.(wr := PFlushAck)
    case _ => c.(vfack := false, wr := PCopyIn, w := c.w.(i := 0))
  }

  /** ... the copy and the interrupt to the VF, ... */
  function WrSend(c: Core): Core {
    match c.wr
    case PCopyIn =>
      if c.w.i < |c.w.msg| && c.w.i < |c.mem| then c.(mem := c.mem[c.w.i := c.w.msg[c.w.i]], w := c.w.(i := c.w.i + 1))
      else c.(wr := PStsRead)
    case PStsRead => c.(wr := PStsWrite, w := c.w.(own := c.pfu))
    case _ => WritePf(c, c.w.own).(told := c.told + [c.w.msg], wr := if Cts(c.w.msg) then PAwaitAck else PUnlockRead)
  }

  /** ... and the wait. */
  function WrWait(c: Core): Core {
    match c.wr
    case PAwaitAck => c.(wr := if c.vfack then PTakeAckRead else PAwaitAck)
    case PTakeAckRead => c.(wr := PTakeAck)
    case _ => c.(vfack := false, wr := PUnlockRead)
  }

  /** ixgbe_release_mbx_lock_pf */
  function WrUnlock(c: Core): Core {
    if c.wr == PUnlockRead then c.(wr := PUnlockWrite)
    else WritePf(c, false).(wr := WIdle)
  }

  predicate PLocking(pc: WrPc) { pc.PLockRead? || pc.PLockWrite? || pc.PLockVerify? }
  predicate PFlushing(pc: WrPc) { pc.PFlushMsgRead? || pc.PFlushMsg? || pc.PFlushAckRead? || pc.PFlushAck? }
  predicate PSending(pc: WrPc) { pc.PCopyIn? || pc.PStsRead? || pc.PStsWrite? }
  predicate PWaiting(pc: WrPc) { pc.PAwaitAck? || pc.PTakeAckRead? || pc.PTakeAck? }
  predicate PUnlocking(pc: WrPc) { pc.PUnlockRead? || pc.PUnlockWrite? }

  function WrControl(c: Core): Core {
    if PLocking(c.wr) then WrLock(c)
    else if PFlushing(c.wr) then WrFlush(c)
    else if PSending(c.wr) then WrSend(c)
    else if PWaiting(c.wr) then WrWait(c)
    else if PUnlocking(c.wr) then WrUnlock(c)
    else c
  }

  /** One register access by a PF thread; acknowledging raises PFACK, announcing PFSTS. */
  function StepRd(s: State): State {
    State(RdControl(s.core), Raise(s.bits, Status(false, s.core.rd == PAckWrite, false)))
  }

  function StepWr(s: State): State {
    State(WrControl(s.core), Raise(s.bits, Status(s.core.wr == PStsWrite, false, false)))
  }

  datatype Action =
    | BeginVf(vfOp: VfOp) | Vf
    | BeginRead(size: nat) | Rd
    | BeginWrite(msg: Msg) | Wr
    | Reset(rsti: bool, done: bool)   // the PF's reset indication changes
    | Stray(status: Status)           // status bits raised outside the protocol

  function Next(s: State, a: Action): State {
    match a
    case BeginVf(op) => if s.core.vf == VIdle then s.(core := StartVf(s.core, op)) else s
    case Vf => StepVf(s)
    case BeginRead(n) => if s.core.rd == RIdle then s.(core := StartRead(s.core, n)) else s
    case Rd => StepRd(s)
    case BeginWrite(m) => if s.core.wr == WIdle then s.(core := StartWrite(s.core, m)) else s
    case Wr => StepWr(s)
    case Reset(i, d) => s.(bits := Raise(s.bits.(rsti := i), Status(false, false, d)))
    case Stray(b) => s.(bits := Raise(s.bits, b))
  }

  function Run(s: State, acts: seq<Action>): State
    decreases |acts|
  {
    if acts == [] then s else Run(Next(s, acts[0]), acts[1..])
  }

  // ---- vocabulary of the properties ----

  predicate VfOwner(pc: VfPc) {
    Flushing(pc) || Sending(pc) || Waiting(pc) || Unlocking(pc)
  }

  predicate PfOwner(pc: WrPc) {
    PFlushing(pc) || PSending(pc) || PWaiting(pc) || PUnlocking(pc)
  }

  /** Who owns the buffer. */
  predicate Owned(c: Core) {
    && !(c.vfu && c.pfu)
    && (VfOwner(c.vf) ==> c.vfu) && (c.vfu ==> VfOwner(c.vf) || c.vf.LockVerify?)
    && (PfOwner(c.wr) ==> c.pfu) && (c.pfu ==> PfOwner(c.wr) || c.wr.PLockVerify?)
    && (c.vf.ReqWrite? ==> c.v.own) && (c.vf.AckWrite? ==> !c.h.own)
    && (c.wr.PStsWrite? ==> c.w.own) && (c.rd.PAckWrite? ==> !c.r.own)
  }

  predicate Holds(mem: Msg, m: Msg) {
    |m| <= |mem| == MBX_SIZE && mem[..|m|] == m
  }

  /** A read under way: what it has is what the buffer holds, and all of it at the end. */
  predicate Under(r: Reader, mem: Msg, copying: bool) {
    r.size == Limit(r.asked) && Holds(mem, r.buf) && |r.buf| <= r.size && (copying || |r.buf| == r.size)
  }

  /** A read of `m` is intact: it has as many words as asked for, the mailbox size
      permitting, and they are the words of `m` as far as that goes. */
  predicate Intact(r: Received, m: Msg) {
    && |r.words| == (if r.asked > 16 then 16 else r.asked)
    && forall i :: 0 <= i < |r.words| && i < |m| ==> r.words[i] == m[i]
  }
}
