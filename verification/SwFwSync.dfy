/** The software/firmware semaphore.  Any number of driver instances take SMBI,
    then SWESMBI, then change the GSSR resource bits; firmware does the same
    under its own semaphore.  Every register access is one step and no wait
    times out.

    Hardware rules: reading SWSM sets SMBI after returning its old value;
    SWESMBI is granted only while firmware's semaphore is free, and the other way
    round.  A register is the set of positions of its 1 bits: software's
    resource `b` is bit `b`, firmware's is bit `b + 5`. */
module SwFwSync {

  const RESOURCES: nat := 5

  datatype Pc =
    | Idle
      // ixgbe_get_eeprom_semaphore
    | SmbiRead | SweRead | SweWrite | SweVerify
      // ixgbe_acquire_swfw_sync and ixgbe_release_swfw_sync
    | GssrRead | GssrWrite
      // ixgbe_release_eeprom_semaphore
    | UnlockRead | UnlockWrite

  datatype Agent = Agent(
    pc: Pc,
    releasing: bool,      // release rather than acquire
    mask: set<nat>,
    gssr: set<nat>,       // GSSR as last read
    won: bool,            // this round changed GSSR
    held: set<nat>        // resources acquired and not yet released
  )

  datatype FwPc = FwIdle | FwRead | FwWrite | FwDrop

  datatype State = State(
    smbi: bool, swe: bool, fwsm: bool,
    gssr: set<nat>,
    agents: seq<Agent>,
    fw: FwPc, fwMask: set<nat>, fwReleasing: bool, fwGssr: set<nat>, fwHeld: set<nat>
  )

  /** Firmware's copies of the resource bits: `mask << 5`. */
  function Shifted(mask: set<nat>): set<nat> {
    set b | b in mask :: b + RESOURCES
  }

  const ALL: set<nat> := {0, 1, 2, 3, 4}

  function Init(n: nat): State {
    State(false, false, false, {}, seq(n, _ => Agent(Idle, false, {}, {}, false, {})), FwIdle, {}, false, {}, {})
  }

  // ---- steps ----

  /** The agent's own next state. */
  function Advance(s: State, a: Agent): Agent {
    match a.pc
    case Idle => a
    case SmbiRead => a.(pc := if s.smbi then SmbiRead else SweRead)
    case SweRead => a.(pc := SweWrite)
    case SweWrite => a.(pc := SweVerify)
    case SweVerify => a.(pc := if s.swe then GssrRead else SweRead)
    case GssrRead =>
      var free := a.releasing || s.gssr !! a.mask + Shifted(a.mask);
      a.(gssr := s.gssr, won := free, pc := if free then GssrWrite else UnlockRead)
    case GssrWrite => a.(held := if a.releasing then a.held - a.mask else a.held + a.mask, pc := UnlockRead)
    case UnlockRead => a.(pc := UnlockWrite)
    case UnlockWrite => a.(pc := if a.won then Idle else SmbiRead)
  }

  function StepAgent(s: State, i: nat): State
    requires i < |s.agents|
  {
    var a := s.agents[i];
    var t := s.(agents := s.agents[i := Advance(s, a)]);
    match a.pc
    case SmbiRead => t.(smbi := true)
    case SweRead => t.(smbi := true)
    case SweWrite => t.(swe := !s.fwsm)
    case SweVerify => t.(smbi := true)
    case GssrWrite => t.(gssr := if a.releasing then a.gssr - a.mask else a.gssr + a.mask)
    case UnlockRead => t.(smbi := true)
    case UnlockWrite => t.(smbi := false, swe := false)
    case _ => t
  }

  /** Firmware, whose code is not the driver's: it follows the same rules. */
  function StepFw(s: State): State {
    match s.fw
    case FwIdle => s.(fwsm := !s.swe, fw := if s.swe then FwIdle else FwRead)
    case FwRead =>
      var free := s.fwReleasing || s.gssr !! s.fwMask + Shifted(s.fwMask);
      s.(fwGssr := s.gssr, fw := if free then FwWrite else FwDrop)
    case FwWrite =>
      if s.fwReleasing then s.(gssr := s.fwGssr - Shifted(s.fwMask), fwHeld := s.fwHeld - s.fwMask, fw := FwDrop)
      else s.(gssr := s.fwGssr + Shifted(s.fwMask), fwHeld := s.fwHeld + s.fwMask, fw := FwDrop)
    case FwDrop => s.(fwsm := false, fw := FwIdle, fwMask := {})
  }

  datatype Action =
    | Begin(i: nat, releasing: bool, mask: set<nat>)
    | Step(i: nat)
    | FwBegin(fwReleasing: bool, fwMask: set<nat>)
    | FwStep

  /** A call of acquire, or of release on resources the caller holds. */
  function Next(s: State, act: Action): State {
    match act
    case Begin(i, rel, mask) =>
      if i < |s.agents| && s.agents[i].pc == Idle && mask <= ALL && (rel ==> mask <= s.agents[i].held) then
        s.(agents := s.agents[i := s.agents[i].(pc := SmbiRead, releasing := rel, mask := mask)])
      else s
    case Step(i) => if i < |s.agents| then StepAgent(s, i) else s
    case FwBegin(rel, mask) =>
      if s.fw == FwIdle && mask <= ALL && (rel ==> mask <= s.fwHeld) then s.(fwReleasing := rel, fwMask := mask)
      else s
    case FwStep => StepFw(s)
  }

  function Run(s: State, acts: seq<Action>): State
    decreases |acts|
  {
    if acts == [] then s else Run(Next(s, acts[0]), acts[1..])
  }

  // ---- invariant ----

  /** The agent owns SMBI. */
  predicate Critical(a: Agent) {
    a.pc != Idle && a.pc != SmbiRead
  }

  /** The agent owns SWESMBI as well. */
  predicate Inside(a: Agent) {
    a.pc.GssrRead? || a.pc.GssrWrite? || a.pc.UnlockRead? || a.pc.UnlockWrite?
  }

  /** Agent `o`, or nobody if `o` is no index, owns SMBI. */
  predicate Locks(s: State, o: int) {
    && -1 <= o < |s.agents|
    && (forall i :: 0 <= i < |s.agents| ==> (Critical(s.agents[i]) <==> i == o))
    && (s.smbi <==> o >= 0)
    && (s.swe ==> o >= 0 && (s.agents[o].pc.SweVerify? || Inside(s.agents[o])))
    && (o >= 0 && Inside(s.agents[o]) ==> s.swe)
    && !(s.swe && s.fwsm)
    && (s.fwsm <==> s.fw != FwIdle)
  }

  /** A side about to write GSSR has its current value, and room for its bits. */
  predicate Ready(s: State) {
    && (forall i :: 0 <= i < |s.agents| ==> AgentReady(s, s.agents[i]))
    && s.fwMask <= ALL && s.fwHeld <= ALL
    && (s.fwReleasing && !s.fw.FwDrop? ==> s.fwMask <= s.fwHeld)
    && (s.fw.FwWrite? ==> s.fwGssr == s.gssr && (s.fwReleasing || s.gssr !! s.fwMask + Shifted(s.fwMask)))
  }

  predicate AgentReady(s: State, a: Agent) {
    && a.mask <= ALL && a.held <= ALL
    && (a.releasing ==> if a.pc.UnlockRead? || a.pc.UnlockWrite? then a.won else a.pc.Idle? || a.mask <= a.held)
    && (a.pc.GssrWrite? ==> a.won && a.gssr == s.gssr && (a.releasing || s.gssr !! a.mask + Shifted(a.mask)))
  }

  /** No resource has two holders. */
  predicate Disjoint(agents: seq<Agent>, fwHeld: set<nat>) {
    && (forall i, j :: 0 <= i < j < |agents| ==> agents[i].held !! agents[j].held)
    && (forall i :: 0 <= i < |agents| ==> agents[i].held !! fwHeld)
  }

  ghost predicate SomeHolds(agents: seq<Agent>, b: nat) {
    exists i :: 0 <= i < |agents| && b in agents[i].held
  }

  /** A resource bit is set exactly when held, and held by one party only. */
  ghost predicate Exclusive(s: State) {
    && Disjoint(s.agents, s.fwHeld)
    && (forall b: nat :: b < RESOURCES ==> (b in s.gssr <==> SomeHolds(s.agents, b)))
    && (forall b: nat :: b < RESOURCES ==> (b + RESOURCES in s.gssr <==> b in s.fwHeld))
  }

  ghost predicate Inv(s: State, o: int) {
    Locks(s, o) && Ready(s) && Exclusive(s)
  }

  function Owner(s: State, i: nat, o: int): int
    requires i < |s.agents|
  {
    if s.agents[i].pc.SmbiRead? && !s.smbi then i else if s.agents[i].pc.UnlockWrite? then -1 else o
  }

  lemma StepKeepsLocks(s: State, i: nat, o: int)
    requires Locks(s, o) && i < |s.agents|
    ensures Locks(StepAgent(s, i), Owner(s, i, o))
  {
  }

  lemma StepKeepsReady(s: State, i: nat, o: int)
    requires Locks(s, o) && Ready(s) && i < |s.agents|
    ensures Ready(StepAgent(s, i))
  {
  }

  /** Agents that hold the same resources are holders of the same bits. */
  lemma SameHolders(s: State, s': State)
    requires Exclusive(s) && s'.gssr == s.gssr && s'.fwHeld == s.fwHeld && |s'.agents| == |s.agents|
    requires forall k :: 0 <= k < |s.agents| ==> s'.agents[k].held == s.agents[k].held
    ensures Exclusive(s')
  {
    forall b: nat ensures SomeHolds(s'.agents, b) <==> SomeHolds(s.agents, b) {
      if k :| 0 <= k < |s.agents| && b in s.agents[k].held { assert b in s'.agents[k].held; }
      if k :| 0 <= k < |s.agents| && b in s'.agents[k].held { assert b in s.agents[k].held; }
    }
  }

  lemma StepKeepsExclusive(s: State, i: nat, o: int)
    requires Locks(s, o) && Ready(s) && Exclusive(s) && i < |s.agents|
    ensures Exclusive(StepAgent(s, i))
  {
    var a := s.agents[i];
    if !a.pc.GssrWrite? { SameHolders(s, StepAgent(s, i)); }
    else if a.releasing { ReleaseExclusive(s, i); }
    else { AcquireExclusive(s, i); }
  }

  lemma AcquireExclusive(s: State, i: nat)
    requires Ready(s) && Exclusive(s) && i < |s.agents| && s.agents[i].pc.GssrWrite? && !s.agents[i].releasing
    ensures Exclusive(StepAgent(s, i))
  {
    var a, s' := s.agents[i], StepAgent(s, i);
    assert AgentReady(s, a);
    FreeMask(s, a.mask);
    forall b: nat | b < RESOURCES ensures SomeHolds(s'.agents, b) <==> SomeHolds(s.agents, b) || b in a.mask {
      if b in a.mask { assert b in s'.agents[i].held; }
      if k :| 0 <= k < |s.agents| && b in s.agents[k].held { assert b in s'.agents[k].held; }
      if k :| 0 <= k < |s'.agents| && b in s'.agents[k].held && b !in a.mask { assert b in s.agents[k].held; }
    }
  }

  /** Bits found clear belong to nobody. */
  lemma FreeMask(s: State, mask: set<nat>)
    requires Exclusive(s) && mask <= ALL && s.gssr !! mask + Shifted(mask)
    ensures forall k :: 0 <= k < |s.agents| ==> s.agents[k].held !! mask
    ensures s.fwHeld !! mask
    ensures forall b <- mask :: b < RESOURCES
  {
    forall b | b in mask ensures b !in s.fwHeld && !SomeHolds(s.agents, b) {
      assert b + RESOURCES in Shifted(mask);
    }
    forall k | 0 <= k < |s.agents| ensures s.agents[k].held !! mask {
      if b :| b in s.agents[k].held && b in mask { assert SomeHolds(s.agents, b); }
    }
  }

  lemma ReleaseExclusive(s: State, i: nat)
    requires Ready(s) && Exclusive(s) && i < |s.agents| && s.agents[i].pc.GssrWrite? && s.agents[i].releasing
    ensures Exclusive(StepAgent(s, i))
  {
    var a, s' := s.agents[i], StepAgent(s, i);
    assert AgentReady(s, a);
    forall b: nat | b < RESOURCES ensures SomeHolds(s'.agents, b) <==> SomeHolds(s.agents, b) && b !in a.mask {
      if k :| 0 <= k < |s.agents| && b in s.agents[k].held && b !in a.mask { assert b in s'.agents[k].held; }
      if k :| 0 <= k < |s'.agents| && b in s'.agents[k].held { assert b in s.agents[k].held; }
    }
  }

  lemma FwKeepsLocks(s: State, o: int)
    requires Locks(s, o)
    ensures Locks(StepFw(s), o)
  {
  }

  lemma FwKeepsReady(s: State, o: int)
    requires Locks(s, o) && Ready(s)
    ensures Ready(StepFw(s))
  {
  }

  lemma ShiftedBits(mask: set<nat>)
    requires mask <= ALL
    ensures forall b: nat | b < RESOURCES :: b !in Shifted(mask) && (b + RESOURCES in Shifted(mask) <==> b in mask)
  {
  }

  lemma FwKeepsExclusive(s: State)
    requires Ready(s) && Exclusive(s)
    ensures Exclusive(StepFw(s))
  {
    if !s.fw.FwWrite? { SameHolders(s, StepFw(s)); } else { FwWrites(s, StepFw(s)); }
  }

  lemma FwWrites(s: State, s': State)
    requires Ready(s) && Exclusive(s) && s.fw.FwWrite? && s' == StepFw(s)
    ensures Exclusive(s')
  {
    ShiftedBits(s.fwMask);
    if !s.fwReleasing { FreeMask(s, s.fwMask); }
    assert s'.agents == s.agents;
    assert Disjoint(s'.agents, s'.fwHeld);
  }

  lemma FwKeeps(s: State, o: int)
    requires Inv(s, o)
    ensures Inv(StepFw(s), o)
  {
    FwKeepsLocks(s, o);
    FwKeepsReady(s, o);
    FwKeepsExclusive(s);
  }

  lemma BeginKeepsLocks(s: State, act: Action, o: int)
    requires Locks(s, o) && act.Begin?
    ensures Locks(Next(s, act), o)
  {
  }

  lemma BeginKeepsReady(s: State, act: Action)
    requires Ready(s) && act.Begin?
    ensures Ready(Next(s, act))
  {
  }

  lemma BeginKeeps(s: State, act: Action, o: int)
    requires Inv(s, o) && act.Begin?
    ensures Inv(Next(s, act), o)
  {
    BeginKeepsLocks(s, act, o);
    BeginKeepsReady(s, act);
    SameHolders(s, Next(s, act));
  }

  lemma NextKeeps(s: State, act: Action, o: int) returns (o': int)
    requires Inv(s, o)
    ensures Inv(Next(s, act), o')
  {
    o' := o;
    match act
    case Begin(_, _, _) => BeginKeeps(s, act, o);
    case Step(i) =>
      if i < |s.agents| {
        o' := Owner(s, i, o);
        StepKeepsLocks(s, i, o);
        StepKeepsReady(s, i, o);
        StepKeepsExclusive(s, i, o);
      }
    case FwBegin(_, _) =>
    case FwStep => FwKeeps(s, o);
  }

  lemma {:induction false} RunKeeps(s: State, acts: seq<Action>, o: int) returns (o': int)
    requires Inv(s, o)
    ensures Inv(Run(s, acts), o')
    decreases |acts|
  {
    o' := o;
    if acts != [] {
      o' := NextKeeps(s, acts[0], o);
      o' := RunKeeps(Next(s, acts[0]), acts[1..], o');
    }
  }

  /** With any number of agents and firmware, in every interleaving: each resource has
      at most one holder, its software bit is set exactly when an agent holds it and its
      firmware bit exactly when firmware does, never both.  SMBI is set exactly while some
      agent is between taking and releasing it, one agent at most, and SWESMBI only then:
      a return from acquire or release leaves the caller with neither. */
  lemma Exclusion(n: nat, acts: seq<Action>)
    ensures var s := Run(Init(n), acts);
            && Exclusive(s)
            && (forall b: nat :: b < RESOURCES ==> !(b in s.gssr && b + RESOURCES in s.gssr))
            && (forall i, j :: 0 <= i < j < |s.agents| ==> !(Critical(s.agents[i]) && Critical(s.agents[j])))
            && (s.smbi <==> exists i :: 0 <= i < |s.agents| && Critical(s.agents[i]))
            && (s.swe ==> exists i :: 0 <= i < |s.agents| && Critical(s.agents[i]) && !s.agents[i].pc.SweRead?)
  {
    var o := RunKeeps(Init(n), acts, -1);
    var s := Run(Init(n), acts);
    if o >= 0 { assert Critical(s.agents[o]); }
  }

  // ---- what a return means ----

  /** After its last call an agent holds what it acquired, or no longer what it released. */
  predicate Returned(a: Agent) {
    if a.releasing then a.held !! a.mask else a.mask <= a.held
  }

  predicate Done(a: Agent) {
    && (a.pc.Idle? || (a.won && (a.pc.UnlockRead? || a.pc.UnlockWrite?)) ==> Returned(a))
    && (a.pc.GssrWrite? ==> a.won)
  }

  lemma AdvanceDone(s: State, a: Agent)
    requires Done(a)
    ensures Done(Advance(s, a))
  {
  }

  lemma NextDone(s: State, act: Action)
    requires forall a <- s.agents :: Done(a)
    ensures forall a <- Next(s, act).agents :: Done(a)
  {
    if act.Step? && act.i < |s.agents| { AdvanceDone(s, s.agents[act.i]); }
  }

  lemma {:induction false} RunDone(s: State, acts: seq<Action>)
    requires forall a <- s.agents :: Done(a)
    ensures forall a <- Run(s, acts).agents :: Done(a)
    decreases |acts|
  {
    if acts != [] {
      NextDone(s, acts[0]);
      RunDone(Next(s, acts[0]), acts[1..]);
    }
  }

  /** In every interleaving a call that has returned has done what it was called for. */
  lemma ReturnMeans(n: nat, acts: seq<Action>)
    ensures forall a <- Run(Init(n), acts).agents :: a.pc.Idle? ==> Returned(a)
  {
    RunDone(Init(n), acts);
  }

  // ---- and that calls return ----

  /** How many accesses a call still makes if nothing stands in its way. */
  function ToGo(pc: Pc): nat {
    match pc
    case Idle => 0
    case UnlockWrite => 1
    case UnlockRead => 2
    case GssrWrite => 3
    case GssrRead => 4
    case SweVerify => 5
    case SweWrite => 6
    case SweRead => 7
    case SmbiRead => 8
  }

  /** Agent `i` makes the call it is in, and nothing stands in its way: no lock of another's,
      and what it acquires is free. */
  predicate Alone(s: State, i: nat, rel: bool, mask: set<nat>) {
    && i < |s.agents|
    && var a := s.agents[i];
       && !s.fwsm && a.releasing == rel && a.mask == mask
       && (a.pc.SmbiRead? ==> !s.smbi) && (a.pc.SweVerify? ==> s.swe)
       && (ToGo(a.pc) > 3 && !rel ==> s.gssr !! mask + Shifted(mask))
       && (a.pc.GssrWrite? || a.pc.UnlockRead? || a.pc.UnlockWrite? ==> a.won)
  }

  lemma AloneStep(s: State, i: nat, rel: bool, mask: set<nat>)
    requires Alone(s, i, rel, mask) && s.agents[i].pc != Idle
    ensures var s' := StepAgent(s, i); Alone(s', i, rel, mask) && ToGo(s'.agents[i].pc) == ToGo(s.agents[i].pc) - 1
  {
  }

  lemma {:induction false} AloneReturns(s: State, i: nat, rel: bool, mask: set<nat>) returns (acts: seq<Action>)
    requires Alone(s, i, rel, mask)
    ensures (forall a <- acts :: a == Step(i)) && |acts| == ToGo(s.agents[i].pc)
    ensures Alone(Run(s, acts), i, rel, mask) && Run(s, acts).agents[i].pc == Idle
    decreases ToGo(s.agents[i].pc)
  {
    acts := [];
    if s.agents[i].pc != Idle {
      AloneStep(s, i, rel, mask);
      var rest := AloneReturns(Next(s, Step(i)), i, rel, mask);
      acts := [Step(i)] + rest;
      assert acts[1..] == rest;
    }
  }

  /** The run `acts` is a call of agent `i` with eight accesses that returns as it should. */
  ghost predicate CallReturns(s: State, i: nat, rel: bool, mask: set<nat>, acts: seq<Action>) {
    && acts == [Begin(i, rel, mask)] + seq(8, _ => Step(i)) && i < |Run(s, acts).agents|
    && var a := Run(s, acts).agents[i]; a.pc == Idle && a.mask == mask && a.releasing == rel && Returned(a)
  }

  /** In every state runs reach with the locks free, an acquire of free resources, and any
      release, returns after eight accesses when no one else makes any. */
  lemma CallsReturn(n: nat, before: seq<Action>, i: nat, rel: bool, mask: set<nat>)
    requires i < n && mask <= ALL
    requires var s := Run(Init(n), before);
             && !s.smbi && !s.fwsm && i < |s.agents| && s.agents[i].pc == Idle
             && if rel then mask <= s.agents[i].held else s.gssr !! mask + Shifted(mask)
    ensures exists acts :: CallReturns(Run(Init(n), before), i, rel, mask, acts)
  {
    var s := Run(Init(n), before);
    RunDone(Init(n), before);
    var begin := Begin(i, rel, mask);
    var rest := AloneReturns(Next(s, begin), i, rel, mask);
    var acts := [begin] + rest;
    assert acts[1..] == rest;
    RunDone(s, acts);
    assert forall k | 0 <= k < |rest| :: rest[k] in rest;
    assert rest == seq(8, _ => Step(i));
    assert Run(s, acts).agents[i] in Run(s, acts).agents;
    assert CallReturns(s, i, rel, mask, acts);
  }
}
