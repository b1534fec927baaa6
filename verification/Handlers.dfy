/**
 Any number of message handlers feeding blocks into one trust store and one transaction log.
 A handler checks its block under the trust store's lock, tests the sequence, inserts the row,
 advances the counter, broadcasts, and applies the block under the lock again; between any two of
 these steps other handlers may run, subscribers may come and go, and a handler may stop for good.
 */
module Handlers {
  import opened Outcomes
  import opened TrustState
  import opened SecureChain
  import opened History

  /** How far a handler has come with its block, and the clock reading it was checked at. */
  datatype Phase =
    | Checked(block: Block, clock: nat)
    | Tested(block: Block, clock: nat)
    | Inserted(block: Block, clock: nat)
    | Counted(block: Block, clock: nat)
    | Broadcasted(block: Block, clock: nat)
  {
    /** The row of this handler is in the table and its block is not applied yet. */
    predicate Persisted() {
      Inserted? || Counted? || Broadcasted?
    }
  }

  /** `base` is the chain before the first row of `table`, `readings` the clock readings the rows were
      checked at, `sent` how many of them have been broadcast, `receivers` who is subscribed. */
  datatype Shared = Shared(
    base: ChainValue,
    memory: ChainValue,
    table: seq<Block>,
    readings: seq<nat>,
    current: nat,
    sent: nat,
    receivers: set<nat>)

  datatype System = System(shared: Shared, handlers: map<nat, Phase>)

  datatype Step =
    | Check(h: nat, block: Block, clock: nat)
    | Test(h: nat)
    | Insert(h: nat)
    | Count(h: nat)
    | Broadcast(h: nat)
    | FailBroadcast(h: nat)
    | Apply(h: nat)
    | Stop(h: nat)
    | Join(r: nat)
    | Leave(r: nat)
  {
    /** The step of a handler that has checked its block already. */
    predicate Continues() {
      !Check? && !Join? && !Leave?
    }
  }

  /** A run starts with no handler at work and with memory that has applied the whole log. */
  ghost predicate Init(s: System) {
    var u := s.shared;
    && KeyConsistent(u.base.state)
    && Accepted(u.base, u.table, u.readings)
    && u.memory == After(u.base, u.table)
    && u.current == Sequence(u.memory)
    && u.sent == |u.table|
    && s.handlers == map[]
  }

  /** The table's primary key is the sequence number. */
  predicate KeyTaken(table: seq<Block>, sequence: nat) {
    exists i :: 0 <= i < |table| && table[i].sequence == sequence
  }

  ghost predicate Enabled(s: System, step: Step) {
    match step
    case Check(h, block, clock) => h !in s.handlers && CheckSigned(s.shared.memory, block, clock).Pass?
    case Join(r) => r !in s.shared.receivers
    case Leave(r) => r in s.shared.receivers
    case _ => step.h in s.handlers && EnabledFor(s.shared, s.handlers[step.h], step)
  }

  /** A broadcast succeeds exactly when somebody is subscribed. */
  predicate EnabledFor(u: Shared, p: Phase, step: Step)
    requires step.Continues()
  {
    match step
    case Test(_) => p.Checked? && p.block.sequence == u.current + 1
    case Insert(_) => p.Tested? && !KeyTaken(u.table, p.block.sequence)
    case Count(_) => p.Inserted?
    case Broadcast(_) => p.Counted? && u.receivers != {}
    case FailBroadcast(_) => p.Counted? && u.receivers == {}
    case Apply(_) => p.Broadcasted?
    case Stop(_) => true
  }

  /** What a step does to the shared store and log. */
  function Effect(u: Shared, p: Phase, step: Step): Shared
    requires step.Continues()
  {
    match step
    case Insert(_) => u.(table := u.table + [p.block], readings := u.readings + [p.clock])
    case Count(_) => u.(current := p.block.sequence)
    case Broadcast(_) => u.(sent := u.sent + 1)
    case Apply(_) => u.(memory := ApplyBlock(u.memory, p.block))
    case _ => u
  }

  /** Where a step takes its handler, if anywhere. A failed test, a taken key, a broadcast without
      receivers and a dropped task all end it. */
  function Next(p: Phase, step: Step): Option<Phase>
    requires step.Continues()
  {
    match step
    case Test(_) => Some(Tested(p.block, p.clock))
    case Insert(_) => Some(Inserted(p.block, p.clock))
    case Count(_) => Some(Counted(p.block, p.clock))
    case Broadcast(_) => Some(Broadcasted(p.block, p.clock))
    case _ => None
  }

  ghost function Do(s: System, step: Step): System
    requires Enabled(s, step)
  {
    match step
    case Check(h, block, clock) => s.(handlers := s.handlers[h := Checked(block, clock)])
    case Join(r) => s.(shared := s.shared.(receivers := s.shared.receivers + {r}))
    case Leave(r) => s.(shared := s.shared.(receivers := s.shared.receivers - {r}))
    case _ =>
      var p := s.handlers[step.h];
      var next := Next(p, step);
      System(Effect(s.shared, p, step),
             if next.Some? then s.handlers[step.h := next.value] else s.handlers - {step.h})
  }

  ghost function Run(s: System, steps: seq<Step>): Option<System> {
    if steps == [] then Some(s)
    else
      match Run(s, steps[..|steps| - 1])
      case None => None
      case Some(t) => if Enabled(t, steps[|steps| - 1]) then Some(Do(t, steps[|steps| - 1])) else None
  }

  // ---------------------------------------------------------------------------------------
  // The invariant
  // ---------------------------------------------------------------------------------------

  ghost predicate InOrder(u: Shared) {
    forall i :: 0 <= i < |u.table| ==> u.table[i].sequence == Sequence(u.base) + 1 + i
  }

  ghost function Applied(u: Shared): int {
    Sequence(u.memory) - Sequence(u.base)
  }

  /** The whole table is an accepted history of the base, and memory has applied a prefix of it
      that lacks at most the last row. */
  ghost predicate LogAgrees(u: Shared) {
    && KeyConsistent(u.base.state)
    && InOrder(u)
    && Accepted(u.base, u.table, u.readings)
    && 0 <= Applied(u) <= |u.table| <= Applied(u) + 1
    && u.memory == After(u.base, u.table[..Applied(u)])
    && Sequence(u.memory) <= u.current <= Sequence(u.base) + |u.table|
    && Applied(u) <= u.sent <= |u.table|
  }

  ghost predicate HandlerOk(u: Shared, p: Phase) {
    && Sequence(u.base) < p.block.sequence <= Sequence(u.memory) + 1
    && (p.block.sequence == Sequence(u.memory) + 1 ==> CheckSigned(u.memory, p.block, p.clock).Pass?)
    && (p.Persisted() ==> |u.table| == Applied(u) + 1 && p.block == u.table[|u.table| - 1])
    && (p.Counted? || p.Broadcasted? ==> u.current == Sequence(u.base) + |u.table|)
    && (p.Inserted? || p.Counted? ==> u.sent == |u.table| - 1)
    && (p.Broadcasted? ==> u.sent == |u.table|)
  }

  ghost predicate OneOwner(handlers: map<nat, Phase>) {
    forall g, h :: g in handlers && h in handlers && handlers[g].Persisted() && handlers[h].Persisted() ==> g == h
  }

  ghost predicate Inv(s: System) {
    && LogAgrees(s.shared)
    && OneOwner(s.handlers)
    && forall h :: h in s.handlers ==> HandlerOk(s.shared, s.handlers[h])
  }

  lemma {:induction false} AcceptedInOrder(c: ChainValue, blocks: seq<Block>, clocks: seq<nat>, i: nat)
    requires Accepted(c, blocks, clocks) && KeyConsistent(c.state) && i < |blocks|
    ensures blocks[i].sequence == Sequence(c) + 1 + i
  {
    hide CheckSigned;
    AcceptedPrefix(c, blocks, clocks, i);
    AcceptedAt(c, blocks, clocks, i);
    RunKeeps(c, blocks[..i], clocks[..i]);
    hide Accepted;
    hide After;
    CheckedHeader(After(c, blocks[..i]), blocks[i], clocks[i]);
  }

  lemma InitInv(s: System)
    requires Init(s)
    ensures Inv(s)
  {
    hide CheckSigned;
    var u := s.shared;
    forall i: nat | i < |u.table| ensures u.table[i].sequence == Sequence(u.base) + 1 + i {
      AcceptedInOrder(u.base, u.table, u.readings, i);
    }
    RunKeeps(u.base, u.table, u.readings);
    hide Accepted;
    hide After;
    assert u.table[..Applied(u)] == u.table;
  }

  lemma KeysTaken(u: Shared, n: nat)
    requires InOrder(u)
    ensures KeyTaken(u.table, n) <==> Sequence(u.base) < n <= Sequence(u.base) + |u.table|
  {
    if Sequence(u.base) < n <= Sequence(u.base) + |u.table| {
      assert u.table[n - Sequence(u.base) - 1].sequence == n;
    }
  }

  /** A row can only be inserted when memory has caught up with the table. */
  lemma InsertMeansCaughtUp(u: Shared, p: Phase, h: nat)
    requires LogAgrees(u) && HandlerOk(u, p) && EnabledFor(u, p, Insert(h))
    ensures |u.table| == Applied(u)
    ensures p.block.sequence == Sequence(u.memory) + 1
    ensures CheckSigned(u.memory, p.block, p.clock).Pass?
  {
    KeysTaken(u, p.block.sequence);
    hide CheckSigned;
    hide Accepted;
    hide After;
  }

  lemma InsertKeepsLog(u: Shared, p: Phase, h: nat)
    requires LogAgrees(u) && HandlerOk(u, p) && EnabledFor(u, p, Insert(h))
    ensures LogAgrees(Effect(u, p, Insert(h)))
  {
    hide CheckSigned;
    InsertMeansCaughtUp(u, p, h);
    hide KeyTaken;
    assert u.table[..Applied(u)] == u.table;
    AcceptedStep(u.base, u.table, u.readings, p.block, p.clock);
    hide Accepted;
    hide After;
    var v := Effect(u, p, Insert(h));
    assert v.table[..Applied(v)] == u.table;
  }

  /** The block a handler is about to apply was checked against exactly the chain in memory. */
  lemma ApplyIsSafe(u: Shared, p: Phase)
    requires LogAgrees(u) && HandlerOk(u, p) && p.Broadcasted?
    ensures p.block.sequence == Sequence(u.memory) + 1
    ensures CheckSigned(u.memory, p.block, p.clock).Pass?
    ensures KeyConsistent(u.memory.state)
    ensures CanApplyBlock(u.memory, p.block)
  {
    var n := Applied(u);
    AcceptedPrefix(u.base, u.table, u.readings, n);
    RunKeeps(u.base, u.table[..n], u.readings[..n]);
    CheckedBlockApplies(u.memory, p.block, u.memory.state.certificates[p.block.signer], p.clock);
  }

  lemma ApplyKeepsLog(u: Shared, p: Phase, h: nat)
    requires LogAgrees(u) && HandlerOk(u, p) && p.Broadcasted?
    ensures LogAgrees(Effect(u, p, Apply(h)))
    ensures Applied(Effect(u, p, Apply(h))) == Applied(u) + 1 == |u.table|
  {
    ApplyIsSafe(u, p);
    AfterStep(u.base, u.table, Applied(u));
    hide CheckSigned;
    hide Accepted;
    hide After;
    hide CanApplyBlock;
    hide ApplyTransaction;
    assert u.table[..Applied(u) + 1] == u.table;
  }

  lemma CountersKeepLog(u: Shared, p: Phase, step: Step)
    requires step.Continues() && LogAgrees(u) && HandlerOk(u, p) && EnabledFor(u, p, step)
    requires !step.Insert? && !step.Apply?
    ensures LogAgrees(Effect(u, p, step))
  {
    hide CheckSigned;
    hide Accepted;
    hide After;
  }

  lemma EffectKeepsLog(u: Shared, p: Phase, step: Step)
    requires step.Continues() && LogAgrees(u) && HandlerOk(u, p) && EnabledFor(u, p, step)
    ensures LogAgrees(Effect(u, p, step))
  {
    hide LogAgrees;
    hide HandlerOk;
    hide Effect;
    if step.Insert? {
      InsertKeepsLog(u, p, step.h);
    } else if step.Apply? {
      ApplyKeepsLog(u, p, step.h);
    } else {
      CountersKeepLog(u, p, step);
    }
  }

  lemma OwnStep(u: Shared, p: Phase, step: Step)
    requires step.Continues() && LogAgrees(u) && HandlerOk(u, p) && EnabledFor(u, p, step)
    ensures Next(p, step).Some? ==> HandlerOk(Effect(u, p, step), Next(p, step).value)
  {
    hide CheckSigned;
    hide Accepted;
    hide After;
    hide KeyTaken;
    if step.Insert? {
      InsertMeansCaughtUp(u, p, step.h);
    }
  }

  /** A step of one handler keeps what is known of another one; the two never both own the
      last row. */
  lemma OtherStep(u: Shared, p: Phase, step: Step, q: Phase)
    requires step.Continues() && LogAgrees(u) && HandlerOk(u, p) && EnabledFor(u, p, step)
    requires HandlerOk(u, q)
    requires p.Persisted() ==> !q.Persisted()
    ensures HandlerOk(Effect(u, p, step), q)
    ensures step.Insert? ==> !q.Persisted()
  {
    hide CheckSigned;
    hide Accepted;
    hide After;
    hide ApplyTransaction;
    hide InOrder;
    hide KeyTaken;
    if step.Insert? {
      InsertMeansCaughtUp(u, p, step.h);
    } else if step.Apply? {
      ApplyKeepsLog(u, p, step.h);
    }
  }

  lemma CheckKeeps(s: System, h: nat, b: Block, clock: nat)
    requires Inv(s) && Enabled(s, Check(h, b, clock))
    ensures Inv(Do(s, Check(h, b, clock)))
  {
    hide CheckSigned;
    hide HandlerOk;
    hide LogAgrees;
    NewHandlerOk(s.shared, b, clock);
  }

  lemma NewHandlerOk(u: Shared, b: Block, clock: nat)
    requires LogAgrees(u) && CheckSigned(u.memory, b, clock).Pass?
    ensures HandlerOk(u, Checked(b, clock))
  {
    hide CheckSigned;
    hide Accepted;
    hide After;
    hide InOrder;
    CheckedHeader(u.memory, b, clock);
  }

  lemma HandlerStepKeeps(s: System, step: Step)
    requires Inv(s) && Enabled(s, step) && step.Continues()
    ensures Inv(Do(s, step))
  {
    hide HandlerOk;
    hide LogAgrees;
    hide CheckSigned;
    hide Effect;
    hide KeyTaken;
    var u, p, t := s.shared, s.handlers[step.h], Do(s, step);
    EffectKeepsLog(u, p, step);
    OwnStep(u, p, step);
    forall g | g in t.handlers && g != step.h
      ensures HandlerOk(t.shared, t.handlers[g]) && (step.Insert? ==> !t.handlers[g].Persisted())
    {
      OtherStep(u, p, step, s.handlers[g]);
    }
  }

  /** Neither the log nor any handler depends on who is subscribed. */
  lemma ReceiversKeep(s: System, receivers: set<nat>)
    requires Inv(s)
    ensures Inv(s.(shared := s.shared.(receivers := receivers)))
  {
    hide CheckSigned;
    hide Accepted;
    hide After;
    var t := s.(shared := s.shared.(receivers := receivers));
    assert Applied(t.shared) == Applied(s.shared);
    assert InOrder(t.shared);
    forall h | h in t.handlers ensures HandlerOk(t.shared, t.handlers[h]) {
      assert HandlerOk(s.shared, s.handlers[h]);
    }
  }

  lemma StepKeepsInv(s: System, step: Step)
    requires Inv(s) && Enabled(s, step)
    ensures Inv(Do(s, step))
  {
    hide Inv;
    if step.Join? {
      ReceiversKeep(s, s.shared.receivers + {step.r});
    } else if step.Leave? {
      ReceiversKeep(s, s.shared.receivers - {step.r});
    }
    hide Enabled;
    hide Do;
    if step.Check? {
      CheckKeeps(s, step.h, step.block, step.clock);
    } else if step.Continues() {
      HandlerStepKeeps(s, step);
    }
  }

  /** What holds of memory and log in every reachable state: the log is at most one block ahead,
      that block passed its check against exactly the current memory, every pending apply is
      panic-free, and replaying the log from the base gives memory back. */
  ghost predicate Safe(s: System) {
    var u := s.shared;
    && Sequence(u.base) <= Sequence(u.memory) <= Sequence(u.base) + |u.table| <= Sequence(u.memory) + 1
    && Sequence(u.memory) <= u.current <= Sequence(u.base) + |u.table|
    && Accepted(u.base, u.table, u.readings)
    && u.memory == After(u.base, u.table[..Applied(u)])
    && (|u.table| == Applied(u) + 1 ==> CheckSigned(u.memory, u.table[Applied(u)], u.readings[Applied(u)]).Pass?)
    && (forall h :: h in s.handlers && s.handlers[h].Broadcasted? ==> CanApplyBlock(u.memory, s.handlers[h].block))
  }

  lemma InvSafe(s: System)
    requires Inv(s)
    ensures Safe(s)
  {
    var u := s.shared;
    hide CheckSigned;
    if |u.table| == Applied(u) + 1 {
      AcceptedAt(u.base, u.table, u.readings, Applied(u));
    }
    forall h | h in s.handlers && s.handlers[h].Broadcasted? ensures CanApplyBlock(u.memory, s.handlers[h].block) {
      ApplyIsSafe(u, s.handlers[h]);
    }
    hide Accepted;
    hide After;
    hide CanApplyBlock;
  }

  lemma {:induction false} RunKeepsInv(s: System, steps: seq<Step>)
    requires Init(s) && Run(s, steps).Some?
    ensures Inv(Run(s, steps).value)
  {
    hide Inv;
    hide Enabled;
    hide Do;
    if steps == [] {
      InitInv(s);
    } else {
      var n := |steps| - 1;
      RunKeepsInv(s, steps[..n]);
      StepKeepsInv(Run(s, steps[..n]).value, steps[n]);
    }
  }

  /** Safety over all interleavings of all handlers. */
  lemma HandlersAreSafe(s: System, steps: seq<Step>)
    requires Init(s) && Run(s, steps).Some?
    ensures Safe(Run(s, steps).value)
  {
    hide Inv;
    hide Safe;
    RunKeepsInv(s, steps);
    InvSafe(Run(s, steps).value);
  }

  lemma RunOne(s: System, steps: seq<Step>, step: Step, t: System)
    requires Run(s, steps) == Some(t) && Enabled(t, step)
    ensures Run(s, steps + [step]) == Some(Do(t, step))
  {
    assert (steps + [step])[..|steps|] == steps;
  }

  /** A system in which one more handler stands beside the given ones. */
  function Beside(s: System, h: nat, u: Shared, p: Phase): System {
    System(u, s.handlers[h := p])
  }

  lemma StepBeside(s: System, h: nat, u: Shared, p: Phase, step: Step)
    requires h !in s.handlers && step.Continues() && step.h == h && EnabledFor(u, p, step)
    ensures Enabled(Beside(s, h, u, p), step)
    ensures Next(p, step).Some? ==> Do(Beside(s, h, u, p), step) == Beside(s, h, Effect(u, p, step), Next(p, step).value)
    ensures Next(p, step).None? ==> Do(Beside(s, h, u, p), step) == System(Effect(u, p, step), s.handlers)
  {
    hide EnabledFor;
    hide Effect;
    assert s.handlers[h := p] - {h} == s.handlers;
  }

  lemma NoStepBeside(s: System, h: nat, u: Shared, p: Phase, step: Step)
    requires step.Continues() && step.h == h && !EnabledFor(u, p, step)
    ensures !Enabled(Beside(s, h, u, p), step)
  {
    hide EnabledFor;
    hide CheckSigned;
  }

  lemma StepsBeside(s: System, t: System, steps: seq<Step>, h: nat, u: Shared, p: Phase, step: Step)
    requires Run(s, steps) == Some(Beside(t, h, u, p))
    requires h !in t.handlers && step.Continues() && step.h == h && EnabledFor(u, p, step)
    ensures Next(p, step).Some? ==> Run(s, steps + [step]) == Some(Beside(t, h, Effect(u, p, step), Next(p, step).value))
    ensures Next(p, step).None? ==> Run(s, steps + [step]) == Some(System(Effect(u, p, step), t.handlers))
  {
    StepBeside(t, h, u, p, step);
    RunOne(s, steps, step, Beside(t, h, u, p));
  }

  function UpToBroadcast(h: nat, block: Block, clock: nat): seq<Step> {
    [Check(h, block, clock)] + [Test(h)] + [Insert(h)] + [Count(h)]
  }

  /** A row that is in the log, counted, and neither broadcast nor applied. */
  function Logged(u: Shared, block: Block, clock: nat): Shared {
    u.(table := u.table + [block], readings := u.readings + [clock], current := block.sequence)
  }

  /** What a whole round of one handler does to memory and log. */
  function Handled(u: Shared, block: Block, clock: nat): Shared {
    Logged(u, block, clock).(memory := ApplyBlock(u.memory, block), sent := u.sent + 1)
  }

  lemma CaughtUp(u: Shared, block: Block, clock: nat)
    requires LogAgrees(u) && |u.table| == Applied(u)
    requires CheckSigned(u.memory, block, clock).Pass?
    ensures block.sequence == u.current + 1 && !KeyTaken(u.table, block.sequence)
  {
    CheckedHeader(u.memory, block, clock);
    KeysTaken(u, block.sequence);
    hide CheckSigned;
    hide Accepted;
    hide After;
    hide KeyTaken;
    hide InOrder;
  }

  lemma RoundBegins(s: System, h: nat, block: Block, clock: nat)
    requires h !in s.handlers && CheckSigned(s.shared.memory, block, clock).Pass?
    ensures Run(s, [Check(h, block, clock)]) == Some(Beside(s, h, s.shared, Checked(block, clock)))
  {
    hide CheckSigned;
    assert Run(s, []) == Some(s);
    RunOne(s, [], Check(h, block, clock), s);
    assert [] + [Check(h, block, clock)] == [Check(h, block, clock)];
  }

  lemma RoundReachesBroadcast(s: System, h: nat, block: Block, clock: nat)
    requires Inv(s) && |s.shared.table| == Applied(s.shared)
    requires h !in s.handlers && CheckSigned(s.shared.memory, block, clock).Pass?
    ensures Run(s, UpToBroadcast(h, block, clock)) ==
      Some(Beside(s, h, Logged(s.shared, block, clock), Counted(block, clock)))
  {
    hide LogAgrees;
    hide HandlerOk;
    hide CheckSigned;
    hide KeyTaken;
    hide Run;
    hide Applied;
    var u := s.shared;
    CaughtUp(u, block, clock);
    RoundBegins(s, h, block, clock);
    hide Inv;
    hide Beside;
    var r1 := [Check(h, block, clock)];
    StepsBeside(s, s, r1, h, u, Checked(block, clock), Test(h));
    var r2 := r1 + [Test(h)];
    StepsBeside(s, s, r2, h, u, Tested(block, clock), Insert(h));
    var r3, u3 := r2 + [Insert(h)], Effect(u, Tested(block, clock), Insert(h));
    StepsBeside(s, s, r3, h, u3, Inserted(block, clock), Count(h));
  }

  lemma RunStops(s: System, steps: seq<Step>, step: Step, t: System)
    requires Run(s, steps) == Some(t) && !Enabled(t, step)
    ensures Run(s, steps + [step]) == None
  {
    assert (steps + [step])[..|steps|] == steps;
  }

  lemma RoundReachesApply(s: System, h: nat, block: Block, clock: nat)
    requires Inv(s) && |s.shared.table| == Applied(s.shared)
    requires h !in s.handlers && CheckSigned(s.shared.memory, block, clock).Pass?
    requires s.shared.receivers != {}
    ensures Run(s, UpToBroadcast(h, block, clock) + [Broadcast(h)]) ==
      Some(Beside(s, h, Logged(s.shared, block, clock).(sent := s.shared.sent + 1), Broadcasted(block, clock)))
    ensures Run(s, UpToBroadcast(h, block, clock) + [FailBroadcast(h)]) == None
  {
    hide CheckSigned;
    hide Inv;
    hide Run;
    hide UpToBroadcast;
    hide Applied;
    hide Enabled;
    hide Beside;
    RoundReachesBroadcast(s, h, block, clock);
    var r, u, p := UpToBroadcast(h, block, clock), Logged(s.shared, block, clock), Counted(block, clock);
    NoStepBeside(s, h, u, p, FailBroadcast(h));
    RunStops(s, r, FailBroadcast(h), Beside(s, h, u, p));
    StepsBeside(s, s, r, h, u, p, Broadcast(h));
  }

  lemma RoundWithReceivers(s: System, h: nat, block: Block, clock: nat)
    requires Inv(s) && |s.shared.table| == Applied(s.shared)
    requires h !in s.handlers && CheckSigned(s.shared.memory, block, clock).Pass?
    requires s.shared.receivers != {}
    ensures Run(s, UpToBroadcast(h, block, clock) + [Broadcast(h)] + [Apply(h)]) ==
      Some(System(Handled(s.shared, block, clock), s.handlers))
    ensures Run(s, UpToBroadcast(h, block, clock) + [FailBroadcast(h)]) == None
  {
    hide CheckSigned;
    hide Inv;
    hide Run;
    hide UpToBroadcast;
    hide ApplyBlock;
    hide Applied;
    hide Beside;
    RoundReachesApply(s, h, block, clock);
    var r, u := UpToBroadcast(h, block, clock) + [Broadcast(h)], Logged(s.shared, block, clock).(sent := s.shared.sent + 1);
    StepsBeside(s, s, r, h, u, Broadcasted(block, clock), Apply(h));
  }

  lemma LoggedIsWedged(s: System, block: Block, clock: nat)
    requires Inv(s) && |s.shared.table| == Applied(s.shared)
    ensures Wedged(System(Logged(s.shared, block, clock), s.handlers))
  {
    hide CheckSigned;
    hide Inv;
    NobodyPersists(s);
  }

  lemma RoundWithoutReceivers(s: System, h: nat, block: Block, clock: nat)
    requires Inv(s) && |s.shared.table| == Applied(s.shared)
    requires h !in s.handlers && CheckSigned(s.shared.memory, block, clock).Pass?
    requires s.shared.receivers == {}
    ensures Run(s, UpToBroadcast(h, block, clock) + [Broadcast(h)] + [Apply(h)]) == None
    ensures Run(s, UpToBroadcast(h, block, clock) + [FailBroadcast(h)]) ==
      Some(System(Logged(s.shared, block, clock), s.handlers))
    ensures Wedged(System(Logged(s.shared, block, clock), s.handlers))
  {
    hide CheckSigned;
    hide Inv;
    hide Run;
    hide UpToBroadcast;
    hide Applied;
    hide Enabled;
    hide Beside;
    hide Wedged;
    LoggedIsWedged(s, block, clock);
    RoundReachesBroadcast(s, h, block, clock);
    var r, u, p := UpToBroadcast(h, block, clock), Logged(s.shared, block, clock), Counted(block, clock);
    NoStepBeside(s, h, u, p, Broadcast(h));
    StepsBeside(s, s, r, h, u, p, FailBroadcast(h));
    RunStops(s, r, Broadcast(h), Beside(s, h, u, p));
    RunStaysStopped(s, r + [Broadcast(h)], Apply(h));
  }

  /** What a handler that is left alone comes to with a block that passes, from every reachable state in
      which memory has applied the log: it goes all the way from its check to its apply exactly when
      somebody is subscribed at its broadcast. Otherwise the row stays behind, in the log and not in
      memory, and nobody will apply it. */
  lemma UndisturbedHandlerCompletes(s: System, h: nat, block: Block, clock: nat)
    requires Inv(s) && |s.shared.table| == Applied(s.shared)
    requires h !in s.handlers && CheckSigned(s.shared.memory, block, clock).Pass?
    ensures
      var sent := Run(s, UpToBroadcast(h, block, clock) + [Broadcast(h)] + [Apply(h)]);
      var failed := Run(s, UpToBroadcast(h, block, clock) + [FailBroadcast(h)]);
      && (sent.Some? <==> s.shared.receivers != {})
      && (failed.Some? <==> s.shared.receivers == {})
      && (sent.Some? ==> sent.value == System(Handled(s.shared, block, clock), s.handlers))
      && (failed.Some? ==> failed.value == System(Logged(s.shared, block, clock), s.handlers) && Wedged(failed.value))
  {
    hide *;
    if s.shared.receivers != {} {
      RoundWithReceivers(s, h, block, clock);
    } else {
      RoundWithoutReceivers(s, h, block, clock);
    }
  }

  lemma RunStaysStopped(s: System, steps: seq<Step>, step: Step)
    requires Run(s, steps) == None
    ensures Run(s, steps + [step]) == None
  {
    assert (steps + [step])[..|steps|] == steps;
  }

  lemma NobodyPersists(s: System)
    requires Inv(s) && |s.shared.table| == Applied(s.shared)
    ensures forall h :: h in s.handlers ==> !s.handlers[h].Persisted()
  {
    hide CheckSigned;
    hide LogAgrees;
    forall h | h in s.handlers ensures !s.handlers[h].Persisted() {
      assert HandlerOk(s.shared, s.handlers[h]);
    }
  }

  // ---------------------------------------------------------------------------------------
  // What a handler that stops half-way leaves behind
  // ---------------------------------------------------------------------------------------

  /** A row is in the log that memory has not applied, and no running handler will apply it. */
  ghost predicate Wedged(s: System) {
    |s.shared.table| == Applied(s.shared) + 1 && forall h :: h in s.handlers ==> !s.handlers[h].Persisted()
  }

  /** A handler that ends between its insert and its apply leaves such a row behind; no handler that
      ends anywhere else does. */
  lemma StopWedges(s: System, h: nat)
    requires Inv(s) && h in s.handlers
    ensures Wedged(Do(s, Stop(h))) <==> Wedged(s) || s.handlers[h].Persisted()
  {
    hide CheckSigned;
    hide LogAgrees;
    assert HandlerOk(s.shared, s.handlers[h]);
    var t := Do(s, Stop(h));
    forall g | g in t.handlers && s.handlers[h].Persisted() ensures !t.handlers[g].Persisted() {
      assert t.handlers[g] == s.handlers[g];
    }
    if Wedged(t) && !s.handlers[h].Persisted() {
      forall g | g in s.handlers ensures !s.handlers[g].Persisted() {
        assert g != h ==> t.handlers[g] == s.handlers[g];
      }
    }
  }

  /** A broadcast that finds no receiver always does. */
  lemma FailedBroadcastWedges(s: System, h: nat)
    requires Inv(s) && Enabled(s, FailBroadcast(h))
    ensures Wedged(Do(s, FailBroadcast(h)))
  {
    hide CheckSigned;
    hide Inv;
    StopWedges(s, h);
    assert Do(s, FailBroadcast(h)) == Do(s, Stop(h));
    hide Do;
  }

  lemma WedgedStep(s: System, step: Step)
    requires Inv(s) && Wedged(s) && Enabled(s, step)
    ensures Wedged(Do(s, step))
    ensures Do(s, step).shared == s.shared.(receivers := Do(s, step).shared.receivers)
  {
    hide CheckSigned;
    hide LogAgrees;
    hide KeyTaken;
    if step.Continues() {
      var p := s.handlers[step.h];
      assert HandlerOk(s.shared, p) && !p.Persisted();
      hide HandlerOk;
      if step.Insert? {
        InsertMeansCaughtUp(s.shared, p, step.h);
      }
    }
  }

  /** From then on no step of any handler, and no subscription, ever changes the log or memory again. */
  lemma {:induction false} WedgedForever(s: System, steps: seq<Step>)
    requires Inv(s) && Wedged(s) && Run(s, steps).Some?
    ensures Inv(Run(s, steps).value) && Wedged(Run(s, steps).value)
    ensures Run(s, steps).value.shared == s.shared.(receivers := Run(s, steps).value.shared.receivers)
  {
    hide Inv;
    hide Wedged;
    hide Enabled;
    hide Do;
    if steps != [] {
      var n := |steps| - 1;
      WedgedForever(s, steps[..n]);
      var t := Run(s, steps[..n]).value;
      StepKeepsInv(t, steps[n]);
      WedgedStep(t, steps[n]);
    }
  }

  // ---------------------------------------------------------------------------------------
  // Restarting the server
  // ---------------------------------------------------------------------------------------

  /** A server that starts again imports its snapshot, which is written when the server is set up and
      not after, counts from the highest key in the table, and replays nothing. The rows are in
      ascending order, so the last one has the highest key. */
  function Restarted(s: System): System {
    var u := s.shared;
    System(
      u.(memory := u.base,
         current := if u.table == [] then 1 else u.table[|u.table| - 1].sequence,
         sent := |u.table|,
         receivers := {}),
      map[])
  }

  lemma HighestKey(u: Shared)
    requires LogAgrees(u) && u.table != []
    ensures u.table[|u.table| - 1].sequence == Sequence(u.base) + |u.table|
    ensures forall i :: 0 <= i < |u.table| ==> u.table[i].sequence <= u.table[|u.table| - 1].sequence
  {
    hide CheckSigned;
    hide Accepted;
    hide After;
  }

  /** A restart at any time leads to a proper start exactly when nothing was ever logged. */
  lemma RestartExact(s: System)
    requires Inv(s) && Sequence(s.shared.base) == 1
    ensures Init(Restarted(s)) <==> s.shared.table == []
  {
    hide CheckSigned;
    var u := s.shared;
    if u.table == [] {
      hide Accepted;
      assert After(u.base, u.table) == u.base;
    } else {
      RunKeeps(u.base, u.table, u.readings);
      hide Accepted;
      hide After;
    }
  }

  /** Memory is behind the counter, and every handler's block comes right after memory. */
  ghost predicate Stuck(s: System) {
    && Sequence(s.shared.memory) < s.shared.current
    && forall h :: h in s.handlers ==> s.handlers[h].Checked? && s.handlers[h].block.sequence == Sequence(s.shared.memory) + 1
  }

  lemma StuckStep(s: System, step: Step)
    requires Stuck(s) && Enabled(s, step)
    ensures Stuck(Do(s, step))
    ensures Do(s, step).shared == s.shared.(receivers := Do(s, step).shared.receivers)
  {
    if step.Check? {
      CheckedHeader(s.shared.memory, step.block, step.clock);
    }
    hide CheckSigned;
    hide KeyTaken;
    hide ApplyBlock;
    if step.Continues() {
      assert s.handlers[step.h].Checked?;
    }
  }

  lemma {:induction false} StuckForever(s: System, steps: seq<Step>)
    requires Stuck(s) && Run(s, steps).Some?
    ensures Stuck(Run(s, steps).value)
    ensures Run(s, steps).value.shared == s.shared.(receivers := Run(s, steps).value.shared.receivers)
  {
    hide Stuck;
    hide Enabled;
    hide Do;
    if steps != [] {
      var n := |steps| - 1;
      StuckForever(s, steps[..n]);
      StuckStep(Run(s, steps[..n]).value, steps[n]);
    }
  }

  /** Once something has been logged, a server that starts again, from any reachable state, never changes
      its log or its memory again, whatever its handlers and subscribers do; and starting it once more
      changes nothing either. */
  lemma RestartedServerIsStuck(s: System, steps: seq<Step>)
    requires Inv(s) && s.shared.table != []
    requires Run(Restarted(s), steps).Some?
    ensures
      var end := Run(Restarted(s), steps).value;
      && end.shared == Restarted(s).shared.(receivers := end.shared.receivers)
      && Restarted(end) == Restarted(s)
  {
    HighestKey(s.shared);
    hide Inv;
    hide LogAgrees;
    assert Stuck(Restarted(s));
    hide Stuck;
    StuckForever(Restarted(s), steps);
    hide Run;
  }
}
