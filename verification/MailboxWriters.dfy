/** Two threads of the PF that write to one VF at the same time.  The lock tests the PF's
    ownership bit and then writes it, so both may find it clear; this is when both end as
    owners.  The VF is seen only claiming and giving up its own bit. */
module MailboxWriters {
  import opened Mailbox

  /** One writer's counter and variables are those of `c`, the other's stand beside it. */
  datatype Two = Two(c: Core, wr: WrPc, w: Sender)

  function Swap(t: Two): Two {
    Two(t.c.(wr := t.wr, w := t.w), t.c.wr, t.c.w)
  }

  datatype Move = Begin(first: bool, msg: Msg) | Step(first: bool) | VfWrites(vfu: bool)

  function StepFirst(t: Two): Two {
    t.(c := WrControl(t.c))
  }

  function BeginFirst(t: Two, m: Msg): Two {
    if t.c.wr == WIdle then t.(c := StartWrite(t.c, m)) else t
  }

  function After(t: Two, a: Move): Two {
    match a
    case Begin(first, m) => if first then BeginFirst(t, m) else Swap(BeginFirst(Swap(t), m))
    case Step(first) => if first then StepFirst(t) else Swap(StepFirst(Swap(t)))
    case VfWrites(vfu) => t.(c := WriteVf(t.c, vfu, false, false))
  }

  /** The writer has the lock, or will find that it has. */
  predicate Holder(pc: WrPc, pfu: bool) {
    PfOwner(pc) || (pc.PLockVerify? && pfu)
  }

  predicate Exclusive(t: Two) {
    !(Holder(t.c.wr, t.c.pfu) && Holder(t.wr, t.c.pfu))
  }

  /** The bit is set exactly while some writer holds the lock. */
  predicate Sound(t: Two) {
    && !(t.c.vfu && t.c.pfu)
    && (t.c.pfu <==> Holder(t.c.wr, t.c.pfu) || Holder(t.wr, t.c.pfu))
    && (t.c.wr.PStsWrite? ==> t.c.w.own) && (t.wr.PStsWrite? ==> t.w.own)
  }

  /** The first writer sets the bit after the other has set it, or while the other is about
      to look whether it has. */
  predicate FirstRaces(t: Two) {
    t.c.wr.PLockWrite? && (t.c.pfu || (!t.c.vfu && t.wr.PLockVerify?))
  }

  predicate Races(t: Two, a: Move) {
    a.Step? && FirstRaces(if a.first then t else Swap(t))
  }

  lemma FirstLocks(t: Two)
    requires Sound(t) && Exclusive(t) && PLocking(t.c.wr)
    ensures Exclusive(StepFirst(t)) <==> !FirstRaces(t)
    ensures Exclusive(StepFirst(t)) ==> Sound(StepFirst(t))
  {
  }

  lemma FirstOwns(t: Two)
    requires Sound(t) && Exclusive(t) && !PLocking(t.c.wr)
    ensures Exclusive(StepFirst(t)) && Sound(StepFirst(t))
  {
    var c := t.c;
    if PFlushing(c.wr) { assert PfOwner(WrFlush(c).wr); }
    else if PSending(c.wr) { assert PfOwner(WrSend(c).wr); }
    else if PWaiting(c.wr) { assert PfOwner(WrWait(c).wr); }
  }

  lemma FirstKeeps(t: Two)
    requires Sound(t) && Exclusive(t)
    ensures Exclusive(StepFirst(t)) <==> !FirstRaces(t)
    ensures Exclusive(StepFirst(t)) ==> Sound(StepFirst(t))
  {
    if PLocking(t.c.wr) { FirstLocks(t); } else { FirstOwns(t); }
  }

  lemma SwapSame(t: Two)
    ensures Sound(Swap(t)) == Sound(t) && Exclusive(Swap(t)) == Exclusive(t)
  {
  }

  /** A move leaves at most one holder if and only if it is not a race. */
  lemma MoveIff(t: Two, a: Move)
    requires Sound(t) && Exclusive(t)
    ensures Exclusive(After(t, a)) <==> !Races(t, a)
    ensures Exclusive(After(t, a)) ==> Sound(After(t, a))
  {
    match a
    case Step(first) =>
      if first {
        FirstKeeps(t);
      } else {
        SwapSame(t);
        FirstKeeps(Swap(t));
        SwapSame(StepFirst(Swap(t)));
      }
    case Begin(first, m) => BeginKeeps(t, first, m);
    case VfWrites(_) =>
  }

  lemma BeginKeeps(t: Two, first: bool, m: Msg)
    requires Sound(t) && Exclusive(t)
    ensures Exclusive(After(t, Begin(first, m))) && Sound(After(t, Begin(first, m)))
  {
  }

  // ---- whole runs ----

  /** At most one writer has the lock, now and after every move. */
  predicate Safe(t: Two, moves: seq<Move>)
    decreases |moves|
  {
    Exclusive(t) && (moves != [] ==> Safe(After(t, moves[0]), moves[1..]))
  }

  predicate RaceIn(t: Two, moves: seq<Move>)
    decreases |moves|
  {
    moves != [] && (Races(t, moves[0]) || RaceIn(After(t, moves[0]), moves[1..]))
  }

  /** In any run the lock excludes if and only if no move of it is a race. */
  lemma {:induction false} SafeIff(t: Two, moves: seq<Move>)
    requires Sound(t) && Exclusive(t)
    ensures Safe(t, moves) <==> !RaceIn(t, moves)
    decreases |moves|
  {
    if moves != [] {
      MoveIff(t, moves[0]);
      if !Races(t, moves[0]) { SafeIff(After(t, moves[0]), moves[1..]); }
    }
  }

  predicate OneIdle(t: Two) {
    t.c.wr.WIdle? || t.wr.WIdle?
  }

  /** A write begins only while the other writer is idle. */
  predicate Serial(t: Two, moves: seq<Move>)
    decreases |moves|
  {
    moves == [] || (OneIdle(After(t, moves[0])) && Serial(After(t, moves[0]), moves[1..]))
  }

  /** So one writer at a time is enough, ... */
  lemma {:induction false} SerialSafe(t: Two, moves: seq<Move>)
    requires Sound(t) && Exclusive(t) && OneIdle(t) && Serial(t, moves)
    ensures Safe(t, moves)
    decreases |moves|
  {
    if moves != [] {
      assert !Races(t, moves[0]);
      MoveIff(t, moves[0]);
      SerialSafe(After(t, moves[0]), moves[1..]);
    }
  }

  function Moves(t: Two, moves: seq<Move>): Two
    decreases |moves|
  {
    if moves == [] then t else Moves(After(t, moves[0]), moves[1..])
  }

  predicate BothOwn(t: Two) {
    PfOwner(t.c.wr) && PfOwner(t.wr)
  }

  lemma MovesTwo(t: Two, a: Move, b: Move, rest: seq<Move>)
    ensures Moves(t, [a, b] + rest) == Moves(After(After(t, a), b), rest)
  {
    var all := [a, b] + rest;
    assert all[1..][1..] == rest;
  }

  /** Both writers are at `pc`, and the VF is away. */
  predicate Both(t: Two, pc: WrPc, pfu: bool) {
    t.c.wr == t.wr == pc && t.c.pfu == pfu && !t.c.vfu
  }

  /** Each writer makes a step. */
  function Round(t: Two): Two {
    After(After(t, Step(true)), Step(false))
  }

  lemma RoundReads(t: Two)
    requires Both(t, PLockRead, false)
    ensures Both(Round(t), PLockWrite, false)
  {
  }

  lemma RoundWrites(t: Two)
    requires Both(t, PLockWrite, false)
    ensures Both(Round(t), PLockVerify, true)
  {
  }

  lemma RoundVerifies(t: Two)
    requires Both(t, PLockVerify, true)
    ensures Both(Round(t), PFlushMsgRead, true)
  {
  }

  lemma MovesRound(t: Two, rest: seq<Move>)
    ensures Moves(t, [Step(true), Step(false)] + rest) == Moves(Round(t), rest)
  {
    MovesTwo(t, Step(true), Step(false), rest);
  }

  lemma BothBegin(t: Two, m1: Msg, m2: Msg)
    requires Both(t, WIdle, false) && |m1| <= MBX_SIZE && |m2| <= MBX_SIZE
    ensures Both(After(After(t, Begin(true, m1)), Begin(false, m2)), PLockRead, false)
  {
  }

  lemma ThreeRounds(t: Two) returns (moves: seq<Move>)
    ensures Moves(t, moves) == Round(Round(Round(t)))
  {
    var round: seq<Move> := [Step(true), Step(false)];
    MovesRound(Round(Round(t)), []);
    MovesRound(Round(t), round + []);
    MovesRound(t, round + (round + []));
    moves := round + (round + (round + []));
  }

  /** ... and two are not: both read the bit, both set it, both find it set. */
  lemma BothOwners(t: Two, m1: Msg, m2: Msg)
    requires Both(t, WIdle, false) && |m1| <= MBX_SIZE && |m2| <= MBX_SIZE
    ensures exists moves :: BothOwn(Moves(t, moves))
  {
    var t1 := After(After(t, Begin(true, m1)), Begin(false, m2));
    assert Both(Round(Round(Round(t1))), PFlushMsgRead, true) by {
      BothBegin(t, m1, m2);
      RoundReads(t1);
      RoundWrites(Round(t1));
      RoundVerifies(Round(Round(t1)));
    }
    var rest := ThreeRounds(t1);
    MovesTwo(t, Begin(true, m1), Begin(false, m2), rest);
    assert BothOwn(Moves(t, [Begin(true, m1), Begin(false, m2)] + rest));
  }
}
