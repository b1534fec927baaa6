/**
 The mailbox: messages, and one row per receiver that has not acknowledged yet. An acknowledgement
 is two separate statements, first dropping the receiver's rows, then the message if nobody is left.
 */
module Mailbox {
  import Encoding
  import opened Outcomes

  type Id = nat
  type Receiver = nat

  datatype Stored<Data> = Stored(data: Data, receivedAt: nat)

  /** Receiver rows have no unique key, so a receiver can be listed twice for one message. */
  datatype Tables<Data> = Tables(messages: map<Id, Stored<Data>>, rows: multiset<(Id, Receiver)>)

  predicate Awaited<Data>(t: Tables<Data>, id: Id) {
    exists row :: row in t.rows && row.0 == id
  }

  function RowsFor(id: Id, receivers: seq<Receiver>): (rows: seq<(Id, Receiver)>)
    ensures |rows| == |receivers|
    ensures forall i :: 0 <= i < |rows| ==> rows[i] == (id, receivers[i])
  {
    seq(|receivers|, i requires 0 <= i < |receivers| => (id, receivers[i]))
  }

  /** The transaction of `add_message`. */
  function AddMessage<Data>(t: Tables<Data>, id: Id, message: Stored<Data>, receivers: seq<Receiver>): Tables<Data> {
    Tables(t.messages[id := message], t.rows + multiset(RowsFor(id, receivers)))
  }

  /** First statement: delete the receiver's rows. */
  function DropRows<Data>(t: Tables<Data>, id: Id, receiver: Receiver): Tables<Data> {
    t.(rows := t.rows[(id, receiver) := 0])
  }

  /** Second statement: delete the message unless a row still refers to it. */
  function DropMessage<Data>(t: Tables<Data>, id: Id): Tables<Data> {
    if Awaited(t, id) then t else t.(messages := t.messages - {id})
  }

  function AcknowledgeOne<Data>(t: Tables<Data>, receiver: Receiver, id: Id): Tables<Data> {
    DropMessage(DropRows(t, id, receiver), id)
  }

  /** As many rows for a receiver as it is listed. */
  lemma {:induction false} RowCount(id: Id, receivers: seq<Receiver>, row: (Id, Receiver))
    ensures multiset(RowsFor(id, receivers))[row] == if row.0 == id then multiset(receivers)[row.1] else 0
  {
    if receivers == [] {
      assert RowsFor(id, receivers) == [];
    } else {
      var n := |receivers| - 1;
      RowCount(id, receivers[..n], row);
      assert receivers == receivers[..n] + [receivers[n]];
      assert RowsFor(id, receivers) == RowsFor(id, receivers[..n]) + [(id, receivers[n])];
    }
  }

  // ---------------------------------------------------------------------------------------
  // Concurrent acknowledgements
  // ---------------------------------------------------------------------------------------

  /** `pending`: acknowledgements between their two statements. `sent` and `acked` record who
      every message was ever addressed to and who has acknowledged what. */
  datatype System<Data> = System(
    tables: Tables<Data>,
    pending: map<nat, Id>,
    sent: map<Id, multiset<Receiver>>,
    acked: set<(Id, Receiver)>)

  datatype Step<Data> =
    | Add(id: Id, message: Stored<Data>, receivers: seq<Receiver>)
    | AckFirst(task: nat, id: Id, receiver: Receiver)
    | AckSecond(task: nat)

  /** Message ids are fresh random numbers: never used before, not even in an acknowledgement. */
  ghost predicate Enabled<Data>(s: System<Data>, step: Step<Data>) {
    match step
    case Add(id, _, _) => id !in s.sent && id !in s.tables.messages && forall a :: a in s.acked ==> a.0 != id
    case AckFirst(task, _, _) => task !in s.pending
    case AckSecond(task) => task in s.pending
  }

  function Do<Data>(s: System<Data>, step: Step<Data>): System<Data>
    requires step.AckSecond? ==> step.task in s.pending
  {
    match step
    case Add(id, message, receivers) =>
      s.(tables := AddMessage(s.tables, id, message, receivers),
         sent := s.sent[id := multiset(receivers)])
    case AckFirst(task, id, receiver) =>
      s.(tables := DropRows(s.tables, id, receiver),
         pending := s.pending[task := id],
         acked := s.acked + {(id, receiver)})
    case AckSecond(task) =>
      s.(tables := DropMessage(s.tables, s.pending[task]), pending := s.pending - {task})
  }

  ghost function Run<Data>(s: System<Data>, steps: seq<Step<Data>>): Option<System<Data>> {
    if steps == [] then Some(s)
    else
      match Run(s, steps[..|steps| - 1])
      case None => None
      case Some(t) => if Enabled(t, steps[|steps| - 1]) then Some(Do(t, steps[|steps| - 1])) else None
  }

  ghost predicate AllAcked<Data>(s: System<Data>, id: Id)
    requires id in s.sent
  {
    forall r :: r in s.sent[id] ==> (id, r) in s.acked
  }

  /** How often a message is still waiting for a receiver: as often as it was listed, until it
      acknowledges. */
  ghost function Outstanding<Data>(s: System<Data>, id: Id, r: Receiver): nat {
    if id in s.sent && (id, r) !in s.acked then s.sent[id][r] else 0
  }

  /** The rows are exactly the outstanding acknowledgements. */
  ghost predicate RowsOutstanding<Data>(s: System<Data>) {
    forall id: Id, r: Receiver :: s.tables.rows[(id, r)] == Outstanding(s, id, r)
  }

  ghost predicate MessagesKnown<Data>(s: System<Data>) {
    forall id :: id in s.tables.messages ==> id in s.sent
  }

  /** A message leaves only once every receiver has acknowledged it. */
  ghost predicate DeletedWhenAcked<Data>(s: System<Data>) {
    forall id :: id in s.sent && id !in s.tables.messages ==> AllAcked(s, id)
  }

  /** A message that everybody acknowledged is on its way out. */
  ghost predicate AckedIsLeaving<Data>(s: System<Data>) {
    forall id :: id in s.tables.messages && id in s.sent && s.sent[id] != multiset{} && AllAcked(s, id) ==>
      exists task :: task in s.pending && s.pending[task] == id
  }

  ghost predicate Inv<Data>(s: System<Data>) {
    RowsOutstanding(s) && MessagesKnown(s) && DeletedWhenAcked(s) && AckedIsLeaving(s)
  }

  ghost function Empty<Data>(): System<Data> {
    System(Tables(map[], multiset{}), map[], map[], {})
  }

  lemma AddKeeps<Data>(s: System<Data>, id: Id, message: Stored<Data>, receivers: seq<Receiver>)
    requires Inv(s) && Enabled(s, Add(id, message, receivers))
    ensures Inv(Do(s, Add(id, message, receivers)))
  {
    var t := Do(s, Add(id, message, receivers));
    forall i: Id, r: Receiver ensures t.tables.rows[(i, r)] == Outstanding(t, i, r) {
      RowCount(id, receivers, (i, r));
      assert s.tables.rows[(i, r)] == Outstanding(s, i, r);
    }
    forall i | i in t.sent && i !in t.tables.messages ensures AllAcked(t, i) {
      assert AllAcked(s, i);
    }
    assert t.sent[id] != multiset{} ==> !AllAcked(t, id) by {
      if t.sent[id] != multiset{} {
        var r :| r in t.sent[id];
        assert (id, r) !in t.acked;
      }
    }
    forall i | i in t.tables.messages && t.sent[i] != multiset{} && AllAcked(t, i)
      ensures exists task :: task in t.pending && t.pending[task] == i
    {
      assert i != id;
      assert AllAcked(s, i);
    }
  }

  lemma AckFirstKeeps<Data>(s: System<Data>, task: nat, id: Id, receiver: Receiver)
    requires Inv(s) && Enabled(s, AckFirst(task, id, receiver))
    ensures Inv(Do(s, AckFirst(task, id, receiver)))
  {
    var t := Do(s, AckFirst(task, id, receiver));
    forall i | i in t.sent && i !in t.tables.messages ensures AllAcked(t, i) {
      assert AllAcked(s, i);
    }
    forall i | i in t.tables.messages && i in t.sent && t.sent[i] != multiset{} && AllAcked(t, i)
      ensures exists w :: w in t.pending && t.pending[w] == i
    {
      if i == id {
        assert t.pending[task] == id;
      } else {
        assert AllAcked(s, i);
        var w :| w in s.pending && s.pending[w] == i;
        assert t.pending[w] == i;
      }
    }
  }

  lemma AwaitedMeansUnacked<Data>(s: System<Data>, id: Id)
    requires RowsOutstanding(s) && id in s.sent
    ensures Awaited(s.tables, id) <==> !AllAcked(s, id)
  {
    if Awaited(s.tables, id) {
      var row :| row in s.tables.rows && row.0 == id;
      assert (id, row.1) in s.tables.rows;
    }
    if !AllAcked(s, id) {
      var r :| r in s.sent[id] && (id, r) !in s.acked;
      assert (id, r) in s.tables.rows;
    }
  }

  lemma AckSecondKeeps<Data>(s: System<Data>, task: nat)
    requires Inv(s) && Enabled(s, AckSecond(task))
    ensures Inv(Do(s, AckSecond(task)))
  {
    var id := s.pending[task];
    var t := Do(s, AckSecond(task));
    forall i | i in s.sent ensures AllAcked(t, i) <==> AllAcked(s, i) {
    }
    forall i | i in t.sent && i !in t.tables.messages ensures AllAcked(t, i) {
      if i in s.tables.messages {
        AwaitedMeansUnacked(s, i);
      }
    }
    forall i | i in t.tables.messages && i in t.sent && t.sent[i] != multiset{} && AllAcked(t, i)
      ensures exists w :: w in t.pending && t.pending[w] == i
    {
      AwaitedMeansUnacked(s, i);
      var w :| w in s.pending && s.pending[w] == i;
      assert w != task;
      assert t.pending[w] == i;
    }
  }

  lemma StepKeepsInv<Data>(s: System<Data>, step: Step<Data>)
    requires Inv(s) && Enabled(s, step)
    ensures Inv(Do(s, step))
  {
    hide Inv;
    hide Enabled;
    hide Do;
    match step
    case Add(id, message, receivers) => AddKeeps(s, id, message, receivers);
    case AckFirst(task, id, receiver) => AckFirstKeeps(s, task, id, receiver);
    case AckSecond(task) => AckSecondKeeps(s, task);
  }

  lemma {:induction false} RunKeepsInv<Data>(steps: seq<Step<Data>>)
    requires Run(Empty(), steps).Some?
    ensures Inv(Run(Empty(), steps).value)
  {
    hide Enabled;
    hide Do;
    if steps != [] {
      hide Inv;
      var n := |steps| - 1;
      RunKeepsInv(steps[..n]);
      StepKeepsInv(Run(Empty(), steps[..n]).value, steps[n]);
    }
  }

  /** Conservation over every interleaving: each row refers to a stored message; a message is gone
      only after all its receivers acknowledged; and if it had receivers, all acknowledged and
      no acknowledgement of it is between its statements, it is gone. */
  lemma MailboxConservation<Data>(steps: seq<Step<Data>>, id: Id)
    requires Run(Empty<Data>(), steps).Some?
    requires id in Run(Empty<Data>(), steps).value.sent
    ensures
      var s := Run(Empty<Data>(), steps).value;
      && (forall row :: row in s.tables.rows ==> row.0 in s.tables.messages)
      && (id !in s.tables.messages ==> AllAcked(s, id))
      && (s.sent[id] != multiset{} && AllAcked(s, id) && (forall task :: task in s.pending ==> s.pending[task] != id) ==>
        id !in s.tables.messages)
  {
    RunKeepsInv(steps);
    var s := Run(Empty<Data>(), steps).value;
    hide Run;
    forall row | row in s.tables.rows ensures row.0 in s.tables.messages {
      assert row == (row.0, row.1);
      assert !AllAcked(s, row.0);
    }
  }

  /** The step stored this message, addressed to these receivers. */
  predicate Stores<Data(==)>(step: Step<Data>, id: Id, message: Stored<Data>, receivers: multiset<Receiver>) {
    step.Add? && step.id == id && step.message == message && multiset(step.receivers) == receivers
  }

  lemma {:induction false} SentByAdd<Data>(steps: seq<Step<Data>>, id: Id)
    requires Run(Empty<Data>(), steps).Some?
    requires id in Run(Empty<Data>(), steps).value.tables.messages
    ensures
      var s := Run(Empty<Data>(), steps).value;
      id in s.sent && exists i :: 0 <= i < |steps| && Stores(steps[i], id, s.tables.messages[id], s.sent[id])
  {
    if steps != [] {
      var n := |steps| - 1;
      var before := Run(Empty<Data>(), steps[..n]).value;
      if steps[n].Add? && steps[n].id == id {
        assert Stores(steps[n], id, steps[n].message, multiset(steps[n].receivers));
      } else {
        SentByAdd(steps[..n], id);
        var i :| 0 <= i < n && Stores(steps[..n][i], id, before.tables.messages[id], before.sent[id]);
        assert steps[..n][i] == steps[i];
      }
    }
  }

  /** Over every interleaving a stored message is, with its data and its time of receipt, the one that was
      added under its id, and it was added only once. */
  lemma StoredAsAdded<Data>(steps: seq<Step<Data>>, id: Id, i: nat)
    requires Run(Empty<Data>(), steps).Some?
    requires id in Run(Empty<Data>(), steps).value.tables.messages
    requires i < |steps| && steps[i].Add? && steps[i].id == id
    ensures
      var s := Run(Empty<Data>(), steps).value;
      && s.tables.messages[id] == steps[i].message
      && id in s.sent && s.sent[id] == multiset(steps[i].receivers)
  {
    SentByAdd(steps, id);
    var s := Run(Empty<Data>(), steps).value;
    var j :| 0 <= j < |steps| && Stores(steps[j], id, s.tables.messages[id], s.sent[id]);
    if i < j {
      AddedOnce(steps, i, j);
    } else if j < i {
      AddedOnce(steps, j, i);
    }
  }

  lemma {:induction false} StaysSent<Data>(steps: seq<Step<Data>>, i: nat)
    requires Run(Empty<Data>(), steps).Some? && i < |steps| && steps[i].Add?
    ensures steps[i].id in Run(Empty<Data>(), steps).value.sent
  {
    var n := |steps| - 1;
    if i < n {
      StaysSent(steps[..n], i);
    }
  }

  lemma {:induction false} AddedOnce<Data>(steps: seq<Step<Data>>, i: nat, j: nat)
    requires Run(Empty<Data>(), steps).Some? && i < j < |steps| && steps[i].Add? && steps[j].Add?
    ensures steps[i].id != steps[j].id
  {
    var n := |steps| - 1;
    if j < n {
      AddedOnce(steps[..n], i, j);
    } else {
      StaysSent(steps[..n], i);
    }
  }

  // ---------------------------------------------------------------------------------------
  // Loading a receiver's messages
  // ---------------------------------------------------------------------------------------

  predicate ByTime<Data>(messages: map<Id, Stored<Data>>, list: seq<Id>) {
    && (forall id :: id in list ==> id in messages)
    && (forall i, j :: 0 <= i < j < |list| ==> messages[list[i]].receivedAt <= messages[list[j]].receivedAt)
  }

  /** The join of a receiver's rows with the messages, oldest first: a message comes as often as there
      are rows for it. */
  ghost predicate Loads<Data>(t: Tables<Data>, receiver: Receiver, list: seq<Id>) {
    && ByTime(t.messages, list)
    && (forall id: Id :: multiset(list)[id] == if id in t.messages then t.rows[(id, receiver)] else 0)
  }

  /** Over every interleaving a receiver is shown exactly what was addressed to it and it has not
      acknowledged, as often as it was listed. */
  lemma InboxExact<Data>(steps: seq<Step<Data>>, receiver: Receiver, list: seq<Id>)
    requires Run(Empty<Data>(), steps).Some?
    requires Loads(Run(Empty<Data>(), steps).value.tables, receiver, list)
    ensures forall id: Id :: multiset(list)[id] == Outstanding(Run(Empty<Data>(), steps).value, id, receiver)
  {
    RunKeepsInv(steps);
    var s := Run(Empty<Data>(), steps).value;
    hide Run;
    forall id: Id ensures multiset(list)[id] == Outstanding(s, id, receiver) {
      assert s.tables.rows[(id, receiver)] == Outstanding(s, id, receiver);
      if Outstanding(s, id, receiver) > 0 {
        assert receiver in s.sent[id];
        assert !AllAcked(s, id);
      }
    }
  }

  function InsertByTime<Data>(messages: map<Id, Stored<Data>>, id: Id, list: seq<Id>): (r: seq<Id>)
    requires id in messages && forall x :: x in list ==> x in messages
    ensures multiset(r) == multiset(list) + multiset{id}
  {
    if list == [] then [id]
    else
      var n := |list| - 1;
      assert list == list[..n] + [list[n]];
      if messages[list[n]].receivedAt <= messages[id].receivedAt then list + [id]
      else InsertByTime(messages, id, list[..n]) + [list[n]]
  }

  lemma SnocByTime<Data>(messages: map<Id, Stored<Data>>, list: seq<Id>, last: Id)
    requires ByTime(messages, list) && last in messages
    requires forall x :: x in list ==> messages[x].receivedAt <= messages[last].receivedAt
    ensures ByTime(messages, list + [last])
  {
  }

  lemma SameElements(a: seq<Id>, b: seq<Id>, id: Id)
    requires multiset(a) == multiset(b) + multiset{id}
    ensures forall x :: x in a <==> x in b || x == id
  {
    forall x ensures x in a <==> x in b || x == id {
      assert x in a <==> x in multiset(a);
      assert x in b <==> x in multiset(b);
    }
  }

  lemma FrontByTime<Data>(messages: map<Id, Stored<Data>>, list: seq<Id>)
    requires ByTime(messages, list) && list != []
    ensures ByTime(messages, list[..|list| - 1])
    ensures forall x :: x in list ==> messages[x].receivedAt <= messages[list[|list| - 1]].receivedAt
  {
  }

  lemma {:induction false} InsertKeepsOrder<Data>(messages: map<Id, Stored<Data>>, id: Id, list: seq<Id>)
    requires id in messages && ByTime(messages, list)
    ensures ByTime(messages, InsertByTime(messages, id, list))
  {
    if list != [] {
      var n := |list| - 1;
      FrontByTime(messages, list);
      if messages[list[n]].receivedAt <= messages[id].receivedAt {
        hide ByTime;
        SnocByTime(messages, list, id);
      } else {
        hide ByTime;
        InsertKeepsOrder(messages, id, list[..n]);
        var front := InsertByTime(messages, id, list[..n]);
        SameElements(front, list[..n], id);
        SnocByTime(messages, front, list[n]);
      }
    }
  }

  // ---------------------------------------------------------------------------------------
  // The batch form
  // ---------------------------------------------------------------------------------------

  function AcknowledgeAll<Data>(t: Tables<Data>, receiver: Receiver, ids: seq<Id>): Tables<Data> {
    if ids == [] then t
    else AcknowledgeOne(AcknowledgeAll(t, receiver, ids[..|ids| - 1]), receiver, ids[|ids| - 1])
  }

  ghost predicate RowsAcknowledged<Data>(t: Tables<Data>, u: Tables<Data>, receiver: Receiver, ids: set<Id>) {
    forall row: (Id, Receiver) :: u.rows[row] == if row.0 in ids && row.1 == receiver then 0 else t.rows[row]
  }

  /** What acknowledging a set of messages leaves: the rows of others, the messages that were not
      named, and those of the named ones that somebody else still awaits. */
  ghost predicate Acknowledged<Data>(t: Tables<Data>, u: Tables<Data>, receiver: Receiver, ids: set<Id>) {
    && RowsAcknowledged(t, u, receiver, ids)
    && (forall id :: id in u.messages <==> id in t.messages && (id in ids ==> Awaited(u, id)))
    && (forall id :: id in u.messages ==> u.messages[id] == t.messages[id])
  }

  lemma OthersStillAwaited<Data>(t: Tables<Data>, id: Id, receiver: Receiver, other: Id)
    ensures Awaited(DropRows(t, id, receiver), other) ==> Awaited(t, other)
    ensures other != id && Awaited(t, other) ==> Awaited(DropRows(t, id, receiver), other)
  {
    var u := DropRows(t, id, receiver);
    if other != id && Awaited(t, other) {
      var row :| row in t.rows && row.0 == other;
      assert row in u.rows;
    }
    if Awaited(u, other) {
      var row :| row in u.rows && row.0 == other;
      assert row in t.rows;
    }
  }

  lemma OneMore<Data>(t: Tables<Data>, u: Tables<Data>, receiver: Receiver, ids: set<Id>, id: Id)
    requires Acknowledged(t, u, receiver, ids)
    ensures Acknowledged(t, AcknowledgeOne(u, receiver, id), receiver, ids + {id})
  {
    var v := AcknowledgeOne(u, receiver, id);
    hide Awaited;
    assert v.rows == DropRows(u, id, receiver).rows;
    SameRowsSameAwaited(v, DropRows(u, id, receiver));
    forall i ensures i in v.messages <==> i in t.messages && (i in ids + {id} ==> Awaited(v, i)) {
      OthersStillAwaited(u, id, receiver, i);
    }
  }

  lemma SameRowsSameAwaited<Data>(t: Tables<Data>, u: Tables<Data>)
    requires t.rows == u.rows
    ensures forall id :: Awaited(t, id) <==> Awaited(u, id)
  {
  }

  function IdSet(ids: seq<Id>): set<Id> {
    set id | id in ids
  }

  lemma {:induction false} BatchExact<Data>(t: Tables<Data>, receiver: Receiver, ids: seq<Id>)
    ensures Acknowledged(t, AcknowledgeAll(t, receiver, ids), receiver, IdSet(ids))
  {
    hide Acknowledged;
    hide AcknowledgeOne;
    if ids == [] {
      NothingAcknowledged(t, receiver);
      assert IdSet(ids) == {};
    } else {
      var front, last := ids[..|ids| - 1], ids[|ids| - 1];
      BatchExact(t, receiver, front);
      OneMore(t, AcknowledgeAll(t, receiver, front), receiver, IdSet(front), last);
      assert IdSet(ids) == IdSet(front) + {last};
    }
  }

  lemma NothingAcknowledged<Data>(t: Tables<Data>, receiver: Receiver)
    ensures Acknowledged(t, t, receiver, {})
  {
  }

  lemma AcknowledgedUnique<Data>(t: Tables<Data>, u: Tables<Data>, v: Tables<Data>, receiver: Receiver, ids: set<Id>)
    requires Acknowledged(t, u, receiver, ids) && Acknowledged(t, v, receiver, ids)
    ensures u == v
  {
    assert forall row :: u.rows[row] == v.rows[row];
    assert u.rows == v.rows;
    SameRowsSameAwaited(u, v);
    hide Awaited;
    assert u.messages == v.messages;
  }

  /** The batch form equals folding the single form over the same messages in any order, with or
      without naming some of them twice. */
  lemma BatchIsOrderFree<Data>(t: Tables<Data>, receiver: Receiver, ids: seq<Id>, others: seq<Id>)
    requires IdSet(ids) == IdSet(others)
    ensures AcknowledgeAll(t, receiver, ids) == AcknowledgeAll(t, receiver, others)
  {
    BatchExact(t, receiver, ids);
    BatchExact(t, receiver, others);
    AcknowledgedUnique(t, AcknowledgeAll(t, receiver, ids), AcknowledgeAll(t, receiver, others), receiver, IdSet(ids));
  }

  class MessageStore<Data> {
    var tables: Tables<Data>

    constructor ()
      ensures tables == Tables(map[], multiset{})
    {
      tables := Tables(map[], multiset{});
    }

    /** One transaction: the message row, then a row for each receiver. */
    method Add(id: Id, message: Stored<Data>, receivers: seq<Receiver>)
      modifies this
      ensures tables == AddMessage(old(tables), id, message, receivers)
    {
      var rows := tables.rows;
      ghost var added := RowsFor(id, receivers);
      for i := 0 to |receivers|
        invariant rows == tables.rows + multiset(added[..i])
      {
        assert added[..i + 1] == added[..i] + [added[i]];
        rows := rows + multiset{(id, receivers[i])};
      }
      assert added[..|receivers|] == added;
      tables := Tables(tables.messages[id := message], rows);
    }

    method LoadAllFor(receiver: Receiver) returns (list: seq<Id>)
      ensures Loads(tables, receiver, list)
    {
      var ids := Encoding.Enumerate(tables.messages.Keys);
      list := [];
      for i := 0 to |ids|
        invariant ByTime(tables.messages, list)
        invariant forall id: Id :: multiset(list)[id] == if id in ids[..i] then tables.rows[(id, receiver)] else 0
      {
        assert ids[i] !in ids[..i] && ids[..i + 1] == ids[..i] + [ids[i]] && ids[i] in ids;
        ghost var before: multiset<Id> := multiset(list);
        for n := 0 to tables.rows[(ids[i], receiver)]
          invariant ByTime(tables.messages, list)
          invariant forall id: Id :: multiset(list)[id] == before[id] + (if id == ids[i] then n else 0)
        {
          InsertKeepsOrder(tables.messages, ids[i], list);
          list := InsertByTime(tables.messages, ids[i], list);
        }
      }
      assert ids[..|ids|] == ids;
    }

    /** One transaction over all the named messages. */
    method AcknowledgeMessages(receiver: Receiver, ids: seq<Id>)
      modifies this
      ensures tables == AcknowledgeAll(old(tables), receiver, ids)
      ensures Acknowledged(old(tables), tables, receiver, IdSet(ids))
    {
      hide Acknowledged;
      for i := 0 to |ids|
        invariant tables == AcknowledgeAll(old(tables), receiver, ids[..i])
      {
        assert ids[..i + 1][..i] == ids[..i];
        tables := DropRows(tables, ids[i], receiver);
        tables := DropMessage(tables, ids[i]);
      }
      assert ids[..|ids|] == ids;
      BatchExact(old(tables), receiver, ids);
    }
  }
}
