/**
 A replica catching up with the log while the handlers keep feeding it: subscribe to the
 broadcast, read the rows, drain what was broadcast meanwhile. Each of these, and each step of each
 handler, may interleave with all the others.
 */
module CatchUp {
  import opened Outcomes
  import opened SecureChain
  import opened History
  import H = Handlers

  /** The rows with a larger sequence number. Rows are kept in the order they were inserted,
      which the handlers keep equal to the order of their sequence numbers. */
  function RowsAfter(table: seq<Block>, after: nat): seq<Block> {
    if table == [] then []
    else
      var rest := RowsAfter(table[..|table| - 1], after);
      if table[|table| - 1].sequence > after then rest + [table[|table| - 1]] else rest
  }

  function LastSequence(rows: seq<Block>, after: nat): nat {
    if rows == [] then after else rows[|rows| - 1].sequence
  }

  /** `first` counts the broadcasts that came before the head of the receiver's queue. */
  datatype Loader =
    | Idle
    | Subscribed(queue: seq<Block>, first: nat)
    | Draining(rows: seq<Block>, queue: seq<Block>, first: nat)
    | Done(rows: seq<Block>, queue: seq<Block>, first: nat)

  /** One `try_recv`: the drain keeps the first block that is newer than the rows, and stops
      there or when the queue is empty. */
  function TryReceive(rows: seq<Block>, queue: seq<Block>, first: nat, after: nat): Loader {
    if queue == [] then Done(rows, queue, first)
    else if queue[0].sequence > LastSequence(rows, after) then Done(rows + [queue[0]], queue[1..], first + 1)
    else Draining(rows, queue[1..], first + 1)
  }

  /** The drain when nothing is broadcast in between. */
  function Drain(rows: seq<Block>, queue: seq<Block>, first: nat, after: nat): Loader
    decreases |queue|
  {
    match TryReceive(rows, queue, first, after)
    case Draining(r, q, f) => Drain(r, q, f, after)
    case done => done
  }

  /** The receive loop of `load_all_after`. */
  method DrainReceiver(rows: seq<Block>, queue: seq<Block>, after: nat) returns (transactions: seq<Block>, left: seq<Block>)
    ensures |left| <= |queue|
    ensures forall first: nat :: Drain(rows, queue, first, after) == Done(transactions, left, first + (|queue| - |left|))
  {
    transactions, left := rows, queue;
    while left != []
      invariant transactions == rows && |left| <= |queue|
      invariant forall first: nat :: Drain(rows, queue, first, after) == Drain(rows, left, first + (|queue| - |left|), after)
      decreases |left|
    {
      var block := left[0];
      left := left[1..];
      if block.sequence > LastSequence(transactions, after) {
        transactions := transactions + [block];
        break;
      }
    }
  }

  /** The replica among the subscribers. */
  const ME: nat := 0

  datatype World = World(system: H.System, loader: Loader)

  datatype Action = Handle(step: H.Step) | Subscribe | Query | Receive

  ghost predicate Enabled(w: World, action: Action) {
    match action
    case Handle(step) => step != H.Join(ME) && step != H.Leave(ME) && H.Enabled(w.system, step)
    case Subscribe => w.loader.Idle? && H.Enabled(w.system, H.Join(ME))
    case Query => w.loader.Subscribed?
    case Receive => w.loader.Draining?
  }

  /** A broadcast reaches the receiver once it exists. */
  function Deliver(l: Loader, b: Block): Loader {
    if l.Idle? then l else l.(queue := l.queue + [b])
  }

  ghost function Do(w: World, action: Action, after: nat): World
    requires Enabled(w, action)
  {
    match action
    case Handle(step) =>
      World(H.Do(w.system, step),
            if step.Broadcast? then Deliver(w.loader, w.system.handlers[step.h].block) else w.loader)
    case Subscribe => World(H.Do(w.system, H.Join(ME)), Subscribed([], w.system.shared.sent))
    case Query => w.(loader := Draining(RowsAfter(w.system.shared.table, after), w.loader.queue, w.loader.first))
    case Receive => w.(loader := TryReceive(w.loader.rows, w.loader.queue, w.loader.first, after))
  }

  ghost function Run(w: World, actions: seq<Action>, after: nat): Option<World> {
    if actions == [] then Some(w)
    else
      match Run(w, actions[..|actions| - 1], after)
      case None => None
      case Some(v) => if Enabled(v, actions[|actions| - 1]) then Some(Do(v, actions[|actions| - 1], after)) else None
  }

  // ---------------------------------------------------------------------------------------
  // The invariant
  // ---------------------------------------------------------------------------------------

  lemma SliceGrows<T>(t: seq<T>, a: nat, n: nat)
    requires 0 < n <= |t|
    ensures a < n ==> t[a..n] == t[a..n - 1] + [t[n - 1]]
    ensures a == n ==> t[a..n] == []
  {
  }

  lemma {:induction false} RowsFrom(table: seq<Block>, first: nat, n: nat, after: nat)
    requires forall i :: 0 <= i < |table| ==> table[i].sequence == first + 1 + i
    requires first <= after && n <= |table|
    ensures RowsAfter(table[..n], after) == if after - first <= n then table[after - first..n] else []
  {
    if n > 0 {
      hide RowsAfter;
      RowsFrom(table, first, n - 1, after);
      OneMoreRow(table, n, after);
      assert table[n - 1].sequence == first + n;
      SliceGrows(table, after - first, n);
    }
  }

  lemma RowsAreASuffix(u: H.Shared, n: nat, after: nat)
    requires H.InOrder(u) && Sequence(u.base) <= after
    requires n <= |u.table|
    ensures RowsAfter(u.table[..n], after) ==
      if after - Sequence(u.base) <= n then u.table[after - Sequence(u.base)..n] else []
  {
    hide RowsAfter;
    RowsFrom(u.table, Sequence(u.base), n, after);
  }

  lemma OneMoreRow(table: seq<Block>, n: nat, after: nat)
    requires 0 < n <= |table|
    ensures RowsAfter(table[..n], after) ==
      RowsAfter(table[..n - 1], after) + if table[n - 1].sequence > after then [table[n - 1]] else []
  {
    assert table[..n][..n - 1] == table[..n - 1];
  }

  /** The index of the first row the replica does not have. */
  ghost function Missing(u: H.Shared, after: nat): int {
    after - Sequence(u.base)
  }

  ghost predicate QueueOk(u: H.Shared, queue: seq<Block>, first: nat) {
    && first <= u.sent <= |u.table|
    && queue == u.table[first..u.sent]
  }

  ghost predicate RowsOk(u: H.Shared, rows: seq<Block>, after: nat) {
    && 0 <= Missing(u, after)
    && Missing(u, after) + |rows| <= |u.table|
    && rows == u.table[Missing(u, after)..Missing(u, after) + |rows|]
  }

  ghost predicate LoaderOk(u: H.Shared, l: Loader, after: nat) {
    && Sequence(u.base) <= after
    && |u.table| <= u.sent + 1
    && match l
       case Idle => true
       case Subscribed(queue, first) => after <= Sequence(u.base) + |u.table| && QueueOk(u, queue, first)
       case Draining(rows, queue, first) =>
         QueueOk(u, queue, first) && RowsOk(u, rows, after) && first <= Missing(u, after) + |rows|
       case Done(rows, queue, first) =>
         QueueOk(u, queue, first) && RowsOk(u, rows, after)
         && first <= Missing(u, after) + |rows| <= first + 1
  }

  ghost predicate Inv(w: World, after: nat) {
    && H.Inv(w.system)
    && LoaderOk(w.system.shared, w.loader, after)
    && (w.loader.Idle? <==> ME !in w.system.shared.receivers)
  }

  /** What one step of a handler can do to the log, as far as a reader can tell. */
  ghost predicate LogStep(u: H.Shared, v: H.Shared, step: H.Step) {
    && v.base == u.base
    && (step.Insert? ==> u.sent == |u.table| && v.sent == u.sent && |v.table| == |u.table| + 1 && v.table[..|u.table|] == u.table)
    && (step.Broadcast? ==> v.table == u.table && u.sent + 1 == |u.table| && v.sent == |u.table|)
    && (!step.Insert? && !step.Broadcast? ==> v.table == u.table && v.sent == u.sent)
  }

  /** The handlers never insert a row before the previous one was broadcast, and always
      broadcast the last row. */
  lemma HandlersDriveLog(s: H.System, step: H.Step)
    requires H.Inv(s) && H.Enabled(s, step)
    ensures LogStep(s.shared, H.Do(s, step).shared, step)
    ensures step.Broadcast? ==> s.handlers[step.h].block == s.shared.table[s.shared.sent]
  {
    hide CheckSigned;
    hide Accepted;
    hide After;
    hide ApplyBlock;
    if step.Insert? {
      H.InsertMeansCaughtUp(s.shared, s.handlers[step.h], step.h);
    }
    hide H.KeyTaken;
    hide H.InOrder;
    if step.Continues() {
      assert H.HandlerOk(s.shared, s.handlers[step.h]);
    }
  }

  lemma SliceOfPrefix<T>(t: seq<T>, n: nat, a: nat, b: nat)
    requires a <= b <= n <= |t|
    ensures t[a..b] == t[..n][a..b]
  {
  }

  lemma QueueKeeps(u: H.Shared, v: H.Shared, step: H.Step, queue: seq<Block>, first: nat)
    requires LogStep(u, v, step) && QueueOk(u, queue, first)
    ensures QueueOk(v, if step.Broadcast? then queue + [u.table[u.sent]] else queue, first)
  {
    if step.Insert? {
      SliceOfPrefix(v.table, |u.table|, first, u.sent);
    }
    if step.Broadcast? {
      assert v.table[first..v.sent] == u.table[first..u.sent] + [u.table[u.sent]];
    }
  }

  lemma RowsKeep(u: H.Shared, v: H.Shared, step: H.Step, rows: seq<Block>, after: nat)
    requires LogStep(u, v, step) && RowsOk(u, rows, after)
    ensures RowsOk(v, rows, after)
  {
    var k := Missing(u, after);
    if step.Insert? {
      SliceOfPrefix(v.table, |u.table|, k, k + |rows|);
    }
  }

  lemma DeliverKeeps(u: H.Shared, v: H.Shared, step: H.Step, l: Loader, after: nat)
    requires LogStep(u, v, step) && LoaderOk(u, l, after)
    ensures LoaderOk(v, if step.Broadcast? then Deliver(l, u.table[u.sent]) else l, after)
  {
    if !l.Idle? {
      QueueKeeps(u, v, step, l.queue, l.first);
    }
    if l.Draining? || l.Done? {
      RowsKeep(u, v, step, l.rows, after);
    }
    hide QueueOk;
    hide RowsOk;
  }

  lemma LastOfRows(u: H.Shared, rows: seq<Block>, after: nat)
    requires H.InOrder(u) && RowsOk(u, rows, after)
    ensures LastSequence(rows, after) == Sequence(u.base) + Missing(u, after) + |rows|
  {
    if rows != [] {
      assert rows[|rows| - 1] == u.table[Missing(u, after) + |rows| - 1];
    }
  }

  lemma HeadOfQueue(u: H.Shared, queue: seq<Block>, first: nat)
    requires H.InOrder(u) && QueueOk(u, queue, first) && queue != []
    ensures queue[0] == u.table[first] && queue[0].sequence == Sequence(u.base) + 1 + first
    ensures QueueOk(u, queue[1..], first + 1)
  {
  }

  lemma ReceiveKeeps(u: H.Shared, l: Loader, after: nat)
    requires H.InOrder(u) && LoaderOk(u, l, after) && l.Draining?
    ensures LoaderOk(u, TryReceive(l.rows, l.queue, l.first, after), after)
  {
    LastOfRows(u, l.rows, after);
    if l.queue != [] {
      HeadOfQueue(u, l.queue, l.first);
      hide QueueOk;
      var k, end := Missing(u, after), Missing(u, after) + |l.rows|;
      if l.first == end {
        assert u.table[k..end + 1] == u.table[k..end] + [u.table[end]];
        assert RowsOk(u, l.rows + [l.queue[0]], after);
      }
    }
  }

  ghost predicate Start(w: World, after: nat) {
    && H.Init(w.system)
    && w.loader.Idle? && ME !in w.system.shared.receivers
    && Sequence(w.system.shared.base) <= after
  }

  /** The replica never asks for more than the log holds when it subscribes. */
  ghost predicate Known(w: World, action: Action, after: nat) {
    action.Subscribe? ==> after <= Sequence(w.system.shared.base) + |w.system.shared.table|
  }

  lemma ActionKeepsInv(w: World, action: Action, after: nat)
    requires Inv(w, after) && Enabled(w, action) && Known(w, action, after)
    ensures Inv(Do(w, action, after), after)
  {
    hide H.Do;
    hide H.Enabled;
    hide H.Inv;
    if action.Handle? {
      hide LoaderOk;
      HandleKeepsInv(w, action.step, after);
    } else {
      LoadKeeps(w, action, after);
    }
  }

  lemma SubscribeKeeps(u: H.Shared, after: nat)
    requires LoaderOk(u, Idle, after) && after <= Sequence(u.base) + |u.table| && u.sent <= |u.table|
    ensures LoaderOk(u, Subscribed([], u.sent), after)
  {
  }

  lemma SameLoader(u: H.Shared, receivers: set<nat>, l: Loader, after: nat)
    requires LoaderOk(u, l, after)
    ensures LoaderOk(u.(receivers := receivers), l, after)
  {
  }

  lemma QueryKeeps(u: H.Shared, l: Loader, after: nat)
    requires H.InOrder(u) && LoaderOk(u, l, after) && l.Subscribed?
    ensures LoaderOk(u, Draining(RowsAfter(u.table, after), l.queue, l.first), after)
  {
    RowsAreASuffix(u, |u.table|, after);
    assert u.table[..|u.table|] == u.table;
  }

  lemma LoadKeeps(w: World, action: Action, after: nat)
    requires Inv(w, after) && Enabled(w, action) && Known(w, action, after) && !action.Handle?
    ensures Inv(Do(w, action, after), after)
  {
    LogFacts(w.system);
    H.ReceiversKeep(w.system, w.system.shared.receivers + {ME});
    hide H.Inv;
    hide H.Do;
    hide H.Enabled;
    hide H.InOrder;
    hide LoaderOk;
    var u := w.system.shared;
    match action
    case Subscribe =>
      SubscribeKeeps(u, after);
      SameLoader(u, u.receivers + {ME}, Subscribed([], u.sent), after);
    case Query => QueryKeeps(u, w.loader, after);
    case Receive => ReceiveKeeps(u, w.loader, after);
  }

  lemma LogFacts(s: H.System)
    requires H.Inv(s)
    ensures H.InOrder(s.shared) && s.shared.sent <= |s.shared.table|
  {
    hide CheckSigned;
    hide Accepted;
    hide After;
    hide H.HandlerOk;
    hide H.OneOwner;
    hide H.InOrder;
  }

  /** The replica stays subscribed through the steps of others. */
  lemma SameSubscription(s: H.System, step: H.Step)
    requires H.Enabled(s, step) && step != H.Join(ME) && step != H.Leave(ME)
    ensures ME in H.Do(s, step).shared.receivers <==> ME in s.shared.receivers
  {
    hide CheckSigned;
    hide H.KeyTaken;
  }

  lemma HandleKeepsInv(w: World, step: H.Step, after: nat)
    requires Inv(w, after) && Enabled(w, Handle(step))
    ensures Inv(Do(w, Handle(step), after), after)
  {
    hide H.Inv;
    hide H.Do;
    hide H.Enabled;
    hide LoaderOk;
    SameSubscription(w.system, step);
    H.StepKeepsInv(w.system, step);
    HandlersDriveLog(w.system, step);
    DeliverKeeps(w.system.shared, H.Do(w.system, step).shared, step, w.loader, after);
  }

  /** A run in which the replica subscribes with a sequence number the log has reached. */
  ghost predicate Follows(w: World, actions: seq<Action>, after: nat) {
    && Run(w, actions, after).Some?
    && forall i :: 0 <= i < |actions| && Run(w, actions[..i], after).Some? ==>
      Known(Run(w, actions[..i], after).value, actions[i], after)
  }

  lemma {:induction false} RunKeepsInv(w: World, actions: seq<Action>, after: nat)
    requires Start(w, after) && Follows(w, actions, after)
    ensures Inv(Run(w, actions, after).value, after)
  {
    if actions == [] {
      H.InitInv(w.system);
      hide H.Inv;
    } else {
      hide Inv;
      hide Enabled;
      hide Do;
      hide Known;
      var n := |actions| - 1;
      assert actions[..n] == actions[..|actions| - 1];
      forall i | 0 <= i < n && Run(w, actions[..n][..i], after).Some?
        ensures Known(Run(w, actions[..n][..i], after).value, actions[..n][i], after)
      {
        assert actions[..n][..i] == actions[..i];
      }
      RunKeepsInv(w, actions[..n], after);
      ActionKeepsInv(Run(w, actions[..n], after).value, actions[n], after);
    }
  }

  /** The rows and the broadcasts, in the order in which the replica will see them. */
  function Stream(l: Loader): seq<Block>
    requires l.Done?
  {
    l.rows + l.queue
  }

  /** Sequence numbers n + 1, n + 2, ... */
  predicate ConsecutiveFrom(blocks: seq<Block>, n: nat) {
    forall i :: 0 <= i < |blocks| ==> blocks[i].sequence == n + 1 + i
  }

  /** The next broadcast is the block the replica already has as its last one. */
  predicate RepeatsHead(l: Loader, after: nat)
    requires l.Done?
  {
    l.queue != [] && l.queue[0].sequence == LastSequence(l.rows, after)
  }

  /** What a finished catch-up has delivered: the rows of the log from the first missing one, in order, up
      to the last one broadcast or beyond; except that the block the replica got last may come again. */
  ghost predicate DeliveredAll(u: H.Shared, l: Loader, after: nat)
    requires l.Done?
  {
    var k := Missing(u, after);
    && 0 <= k <= |u.table| && u.sent <= |u.table|
    && if RepeatsHead(l, after) then
         k <= u.sent && l.rows + l.queue[1..] == u.table[k..u.sent]
       else
         u.sent <= k + |Stream(l)| <= |u.table| && Stream(l) == u.table[k..k + |Stream(l)|]
  }

  lemma StreamOf(u: H.Shared, l: Loader, after: nat)
    requires LoaderOk(u, l, after) && l.Done?
    requires l.first == Missing(u, after) + |l.rows|
    ensures Missing(u, after) <= u.sent && Stream(l) == u.table[Missing(u, after)..u.sent]
  {
    var k := Missing(u, after);
    var end := k + |l.rows|;
    assert u.table[k..u.sent] == u.table[k..end] + u.table[end..u.sent];
  }

  lemma StreamWithRepeat(u: H.Shared, l: Loader, after: nat)
    requires LoaderOk(u, l, after) && l.Done? && l.queue != []
    requires l.first != Missing(u, after) + |l.rows|
    ensures Missing(u, after) <= u.sent && l.rows + l.queue[1..] == u.table[Missing(u, after)..u.sent]
  {
    var k := Missing(u, after);
    var end := k + |l.rows|;
    assert l.queue[1..] == u.table[end..u.sent];
    assert u.table[k..u.sent] == u.table[k..end] + u.table[end..u.sent];
  }

  /** A repeat is due exactly when the queue starts before the end of the rows. */
  lemma RepeatMeansOverlap(u: H.Shared, l: Loader, after: nat)
    requires H.InOrder(u) && LoaderOk(u, l, after) && l.Done?
    ensures RepeatsHead(l, after) <==> l.queue != [] && l.first != Missing(u, after) + |l.rows|
  {
    LastOfRows(u, l.rows, after);
    if l.queue != [] {
      HeadOfQueue(u, l.queue, l.first);
    }
  }

  lemma LoaderDelivered(u: H.Shared, l: Loader, after: nat)
    requires H.InOrder(u) && LoaderOk(u, l, after) && l.Done?
    ensures DeliveredAll(u, l, after)
  {
    RepeatMeansOverlap(u, l, after);
    hide H.InOrder;
    if l.first == Missing(u, after) + |l.rows| {
      StreamOf(u, l, after);
    } else if l.queue != [] {
      StreamWithRepeat(u, l, after);
    } else {
      assert Stream(l) == l.rows;
    }
  }

  /** However the steps interleave, a finished catch-up has delivered the log after the requested
      sequence number, up to at least the last broadcast, in order, without a gap, and without a repeat
      except that its first broadcast may be the block the replica got as its last one. */
  lemma CatchUpHasNoGap(w: World, actions: seq<Action>, after: nat)
    requires Start(w, after) && Follows(w, actions, after)
    requires Run(w, actions, after).value.loader.Done?
    ensures
      var v := Run(w, actions, after).value;
      && DeliveredAll(v.system.shared, v.loader, after)
      && ConsecutiveFrom(if RepeatsHead(v.loader, after) then v.loader.rows + v.loader.queue[1..] else Stream(v.loader), after)
  {
    RunKeepsInv(w, actions, after);
    var v := Run(w, actions, after).value;
    hide Run;
    LogFacts(v.system);
    hide H.Inv;
    LoaderDelivered(v.system.shared, v.loader, after);
    hide LoaderOk;
    var n := if RepeatsHead(v.loader, after) then v.system.shared.sent else Missing(v.system.shared, after) + |Stream(v.loader)|;
    StretchIsConsecutive(v.system.shared, after, n);
  }

  lemma StretchIsConsecutive(u: H.Shared, after: nat, n: nat)
    requires H.InOrder(u) && 0 <= Missing(u, after) <= n <= |u.table|
    ensures ConsecutiveFrom(u.table[Missing(u, after)..n], after)
  {
    var k := Missing(u, after);
    assert forall i :: 0 <= i < n - k ==> u.table[k..n][i] == u.table[k + i];
  }

  /** Once the drain has ended, rows and start of the queue stay as they are. */
  lemma {:induction false} DoneStays(w: World, later: seq<Action>, after: nat)
    requires Inv(w, after) && w.loader.Done? && Run(w, later, after).Some?
    ensures
      var v := Run(w, later, after).value;
      && Inv(v, after)
      && v.loader.Done? && v.loader.rows == w.loader.rows && v.loader.first == w.loader.first
      && v.system.shared.base == w.system.shared.base
  {
    hide Inv;
    hide Enabled;
    hide Do;
    if later != [] {
      var n := |later| - 1;
      DoneStays(w, later[..n], after);
      DoneStep(Run(w, later[..n], after).value, later[n], after);
    }
  }

  lemma DoneStep(w: World, action: Action, after: nat)
    requires Inv(w, after) && w.loader.Done? && Enabled(w, action)
    ensures
      var v := Do(w, action, after);
      && Inv(v, after)
      && v.loader.Done? && v.loader.rows == w.loader.rows && v.loader.first == w.loader.first
      && v.system.shared.base == w.system.shared.base
  {
    hide LoaderOk;
    hide H.Inv;
    hide H.Do;
    hide H.Enabled;
    HandleKeepsInv(w, action.step, after);
    HandlersDriveLog(w.system, action.step);
  }

  /** The step that ends the drain decides for good: in every state after it, a repeat is due exactly
      when that step found the queue empty, the last row had not been broadcast by then, and it
      has been broadcast since and not been taken yet. */
  lemma RepeatDecidedAtTheEnd(w: World, later: seq<Action>, after: nat)
    requires Inv(w, after) && Enabled(w, Receive) && Do(w, Receive, after).loader.Done?
    requires Run(Do(w, Receive, after), later, after).Some?
    ensures
      var u, l := w.system.shared, Run(Do(w, Receive, after), later, after).value.loader;
      && l.Done?
      && (RepeatsHead(l, after) <==>
        w.loader.queue == [] && u.sent < Missing(u, after) + |w.loader.rows| && l.queue != [])
  {
    EndOfDrain(w, after);
    var w1 := Do(w, Receive, after);
    hide Do;
    hide Enabled;
    DoneStays(w1, later, after);
    var v := Run(w1, later, after).value;
    hide Run;
    LogFacts(v.system);
    hide H.Inv;
    RepeatMeansOverlap(v.system.shared, v.loader, after);
    hide LoaderOk;
    hide RepeatsHead;
    hide H.InOrder;
  }

  lemma EndOfDrain(w: World, after: nat)
    requires Inv(w, after) && Enabled(w, Receive) && Do(w, Receive, after).loader.Done?
    ensures Inv(Do(w, Receive, after), after)
    ensures Do(w, Receive, after).system == w.system
    ensures
      var u, l := w.system.shared, Do(w, Receive, after).loader;
      l.first != Missing(u, after) + |l.rows| <==>
        w.loader.queue == [] && u.sent < Missing(u, after) + |w.loader.rows|
  {
    LogFacts(w.system);
    hide H.Inv;
    ReceiveKeeps(w.system.shared, w.loader, after);
  }

  /** If no handler is between inserting and broadcasting when the drain ends, then from there on the
      stream is at all times exactly the log after the requested sequence number, up to the last
      broadcast. */
  lemma SettledCatchUpIsExact(w: World, later: seq<Action>, after: nat)
    requires Inv(w, after) && Enabled(w, Receive) && Do(w, Receive, after).loader.Done?
    requires w.system.shared.sent == |w.system.shared.table|
    requires Run(Do(w, Receive, after), later, after).Some?
    ensures
      var v := Run(Do(w, Receive, after), later, after).value;
      var u := v.system.shared;
      && v.loader.Done?
      && 0 <= Missing(u, after) <= u.sent <= |u.table|
      && Stream(v.loader) == u.table[Missing(u, after)..u.sent]
      && ConsecutiveFrom(Stream(v.loader), after)
  {
    EndOfDrain(w, after);
    var w1 := Do(w, Receive, after);
    assert Missing(w.system.shared, after) + |w.loader.rows| <= |w.system.shared.table|;
    hide Do;
    hide Enabled;
    DoneStays(w1, later, after);
    var v := Run(w1, later, after).value;
    hide Run;
    LogFacts(v.system);
    hide H.Inv;
    StreamOf(v.system.shared, v.loader, after);
    hide LoaderOk;
    StretchIsConsecutive(v.system.shared, after, v.system.shared.sent);
  }

  /** Otherwise the repeat does happen: from every reachable state in which a handler has inserted
      its row and not yet broadcast it, this interleaving makes the replica see that row twice. */
  lemma UnsentRowIsRepeated(w: World, after: nat, h: nat)
    requires Inv(w, after) && w.loader.Idle?
    requires h in w.system.handlers && w.system.handlers[h].Inserted?
    requires after < Sequence(w.system.shared.base) + |w.system.shared.table|
    ensures
      var run := Run(w, [Subscribe, Query, Receive, Handle(H.Count(h)), Handle(H.Broadcast(h))], after);
      && run.Some?
      && run.value.loader.Done?
      && run.value.loader.rows != []
      && run.value.loader.queue == [run.value.loader.rows[|run.value.loader.rows| - 1]]
  {
    hide H.Inv;
    hide H.Enabled;
    hide H.Do;
    var w3 := ReadUnsentRow(w, after, h);
    BroadcastUnsentRow(w3, after, h);
    var first := [Subscribe, Query, Receive];
    RunOne(w, first, Handle(H.Count(h)), w3, after);
    var w4 := Do(w3, Handle(H.Count(h)), after);
    RunOne(w, first + [Handle(H.Count(h))], Handle(H.Broadcast(h)), w4, after);
    hide Run;
    hide Do;
    assert first + [Handle(H.Count(h))] + [Handle(H.Broadcast(h))]
        == [Subscribe, Query, Receive, Handle(H.Count(h)), Handle(H.Broadcast(h))];
  }

  lemma RunOne(w: World, actions: seq<Action>, action: Action, v: World, after: nat)
    requires Run(w, actions, after) == Some(v) && Enabled(v, action)
    ensures Run(w, actions + [action], after) == Some(Do(v, action, after))
  {
    assert (actions + [action])[..|actions|] == actions;
  }

  /** Subscribing, reading and draining while nothing else happens. */
  lemma ReadUndisturbed(w: World, after: nat)
    requires w.loader.Idle? && ME !in w.system.shared.receivers
    ensures Run(w, [Subscribe, Query, Receive], after) ==
      Some(World(H.Do(w.system, H.Join(ME)), Done(RowsAfter(w.system.shared.table, after), [], w.system.shared.sent)))
  {
    hide RowsAfter;
    assert Run(w, [], after) == Some(w);
    RunOne(w, [], Subscribe, w, after);
    var w1 := Do(w, Subscribe, after);
    hide Run;
    assert [] + [Subscribe] == [Subscribe];
    RunOne(w, [Subscribe], Query, w1, after);
    var w2 := Do(w1, Query, after);
    assert [Subscribe] + [Query] == [Subscribe, Query];
    RunOne(w, [Subscribe, Query], Receive, w2, after);
    assert [Subscribe, Query] + [Receive] == [Subscribe, Query, Receive];
  }

  lemma LastRowIsOwners(s: H.System, after: nat, h: nat)
    requires H.Inv(s) && Sequence(s.shared.base) <= after < Sequence(s.shared.base) + |s.shared.table|
    requires h in s.handlers && s.handlers[h].Inserted?
    ensures
      var rows := RowsAfter(s.shared.table, after);
      rows != [] && rows[|rows| - 1] == s.handlers[h].block
  {
    hide CheckSigned;
    hide Accepted;
    hide After;
    assert H.HandlerOk(s.shared, s.handlers[h]);
    RowsAreASuffix(s.shared, |s.shared.table|, after);
    assert s.shared.table[..|s.shared.table|] == s.shared.table;
    hide RowsAfter;
    hide H.HandlerOk;
  }

  lemma ReadUnsentRow(w: World, after: nat, h: nat) returns (v: World)
    requires Inv(w, after) && w.loader.Idle?
    requires h in w.system.handlers && w.system.handlers[h].Inserted?
    requires after < Sequence(w.system.shared.base) + |w.system.shared.table|
    ensures Run(w, [Subscribe, Query, Receive], after) == Some(v)
    ensures v.loader.Done? && v.loader.queue == []
    ensures v.system.handlers == w.system.handlers && ME in v.system.shared.receivers
    ensures v.loader.rows != [] && v.loader.rows[|v.loader.rows| - 1] == w.system.handlers[h].block
  {
    hide H.Inv;
    hide RowsAfter;
    hide Run;
    LastRowIsOwners(w.system, after, h);
    ReadUndisturbed(w, after);
    v := World(H.Do(w.system, H.Join(ME)), Done(RowsAfter(w.system.shared.table, after), [], w.system.shared.sent));
  }

  lemma BroadcastUnsentRow(w: World, after: nat, h: nat)
    requires h in w.system.handlers && w.system.handlers[h].Inserted?
    requires w.loader.Done? && w.loader.queue == [] && ME in w.system.shared.receivers
    ensures Enabled(w, Handle(H.Count(h)))
    ensures
      var v := Do(w, Handle(H.Count(h)), after);
      && Enabled(v, Handle(H.Broadcast(h)))
      && Do(v, Handle(H.Broadcast(h)), after).loader == w.loader.(queue := [w.system.handlers[h].block])
  {
  }
}
