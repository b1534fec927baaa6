/**
 The server's transaction log as an object: rows keyed by sequence number, the running sequence
 number, and one broadcast queue for each subscriber. Used by one caller at a time; the modules
 Handlers and CatchUp take the same operations apart into their separate steps.
 */
module TransactionLog {
  import opened Outcomes
  import opened SecureChain
  import opened History
  import CatchUp
  import Encoding

  datatype StoreError = WrongSequence(expected: nat, actual: nat) | KeyTaken | BroadcastError

  /** The rows with sequence numbers from + 1, ..., to. */
  function RowsBetween(table: map<nat, Block>, from: nat, to: nat): (rows: seq<Block>)
    requires from <= to && forall n :: from < n <= to ==> n in table
    ensures |rows| == to - from
    ensures forall i :: 0 <= i < |rows| ==> rows[i] == table[from + 1 + i]
  {
    seq(to - from, i requires 0 <= i < to - from => table[from + 1 + i])
  }

  ghost predicate Contiguous(table: map<nat, Block>, base: nat, last: nat) {
    && base <= last
    && (forall n: nat :: n in table <==> base < n <= last)
    && (forall n :: n in table ==> table[n].sequence == n)
  }

  /** The rows whose key comes after a given one, in the order of their keys. */
  ghost function Selected(table: map<nat, Block>, after: nat): seq<Block> {
    Encoding.SortedKeysSorted(set k | k in table && k > after);
    RowsAt(table, Encoding.SortedKeys(set k | k in table && k > after))
  }

  function RowsAt(table: map<nat, Block>, keys: seq<nat>): (rows: seq<Block>)
    requires forall k :: k in keys ==> k in table
    ensures |rows| == |keys|
    ensures forall i :: 0 <= i < |rows| ==> rows[i] == table[keys[i]]
  {
    seq(|keys|, i requires 0 <= i < |keys| => assert keys[i] in keys; table[keys[i]])
  }

  method Select(table: map<nat, Block>, after: nat) returns (rows: seq<Block>)
    ensures rows == Selected(table, after)
  {
    Encoding.SortedKeysSorted(set k | k in table && k > after);
    hide Encoding.Sort;
    hide Encoding.SortedKeys;
    var order := Encoding.Enumerate(set k | k in table && k > after);
    var keys := Encoding.Sort(order);
    Encoding.AscendingUnique(keys, Encoding.SortedKeys(set k | k in table && k > after));
    rows := RowsAt(table, keys);
  }

  /** In a log without gaps the selected rows are the consecutive ones. */
  lemma SelectedAreConsecutive(table: map<nat, Block>, base: nat, last: nat, after: nat)
    requires Contiguous(table, base, last) && base <= after
    ensures Selected(table, after) == if after <= last then RowsBetween(table, after, last) else []
  {
    Encoding.SortedKeysSorted(set k | k in table && k > after);
    var keys := Encoding.SortedKeys(set k | k in table && k > after);
    var n := if after <= last then last - after else 0;
    var run: seq<nat> := seq(n, i requires 0 <= i < n => after + 1 + i);
    forall k: nat ensures k in keys <==> k in run {
      if after < k <= last {
        assert run[k - after - 1] == k;
      }
    }
    Encoding.AscendingUnique(keys, run);
  }

  /** A broadcast block joins every subscriber's queue. */
  function Delivered(receivers: map<nat, seq<Block>>, block: Block): map<nat, seq<Block>> {
    map r | r in receivers :: receivers[r] + [block]
  }

  /** A queue holds every row after the ones its subscriber has been served. */
  ghost predicate QueueComplete(table: map<nat, Block>, base: nat, last: nat, queue: seq<Block>, from: nat)
    requires Contiguous(table, base, last)
  {
    base <= from <= last && queue == RowsBetween(table, from, last)
  }

  lemma AppendKeepsLog(table: map<nat, Block>, base: nat, last: nat, block: Block)
    requires Contiguous(table, base, last) && block.sequence == last + 1
    ensures Contiguous(table[block.sequence := block], base, block.sequence)
  {
  }

  lemma AppendKeepsQueue(table: map<nat, Block>, base: nat, last: nat, queue: seq<Block>, from: nat, block: Block)
    requires Contiguous(table, base, last) && block.sequence == last + 1
    requires Contiguous(table[block.sequence := block], base, block.sequence)
    requires QueueComplete(table, base, last, queue, from)
    ensures QueueComplete(table[block.sequence := block], base, block.sequence, queue + [block], from)
  {
  }

  lemma HeadIsNext(table: map<nat, Block>, base: nat, last: nat, queue: seq<Block>, from: nat)
    requires Contiguous(table, base, last) && QueueComplete(table, base, last, queue, from)
    ensures queue == [] <==> from == last
    ensures queue != [] ==>
      && from + 1 in table && queue[0] == table[from + 1] && queue[0].sequence == from + 1
      && QueueComplete(table, base, last, queue[1..], from + 1)
  {
  }

  /** Draining a queue that holds every row after `from` into rows that reach to `m` takes what is new
      and leaves what comes next. */
  lemma {:induction false} DrainTakesNext(
    table: map<nat, Block>, base: nat, last: nat, after: nat, m: nat, rows: seq<Block>, queue: seq<Block>, from: nat, first: nat)
    requires Contiguous(table, base, last) && QueueComplete(table, base, last, queue, from)
    requires base <= after <= m <= last && from <= m && rows == RowsBetween(table, after, m)
    ensures
      var end := if m < last then m + 1 else m;
      var drained := CatchUp.Drain(rows, queue, first, after);
      && drained.Done?
      && drained.rows == RowsBetween(table, after, end)
      && drained.queue == RowsBetween(table, end, last)
    decreases |queue|
  {
    HeadIsNext(table, base, last, queue, from);
    assert CatchUp.LastSequence(rows, after) == m;
    if from < m {
      DrainTakesNext(table, base, last, after, m, rows, queue[1..], from + 1, first + 1);
    } else if from < last {
      assert rows + [queue[0]] == RowsBetween(table, after, m + 1);
    }
  }

  class TransactionStore {
    var table: map<nat, Block>
    var currentSequence: nat
    var receivers: map<nat, seq<Block>>
    var subscriptions: nat
    ghost var base: nat
    /** The sequence number up to which each subscriber has been served. */
    ghost var served: map<nat, nat>

    /** The log has no gap, and every subscriber's queue is exactly what it has not been served. */
    ghost predicate Valid()
      reads this
    {
      && Contiguous(table, base, currentSequence)
      && served.Keys == receivers.Keys
      && (forall r :: r in receivers ==> r < subscriptions)
      && forall r :: r in receivers ==> QueueComplete(table, base, currentSequence, receivers[r], served[r])
    }

    /** An empty table counts as sequence 1: the block that sets the trust store up is not logged. */
    constructor Open(table: map<nat, Block>, ghost base: nat)
      ensures table == map[] || (exists last :: last in table && Contiguous(table, base, last)) ==> Valid()
      ensures this.table == table && receivers == map[]
      ensures table == map[] ==> currentSequence == 1
      ensures table != map[] ==> currentSequence in table && forall n :: n in table ==> n <= currentSequence
    {
      var highest := 1;
      if table != map[] {
        highest := Highest(table);
        assert forall last :: last in table && Contiguous(table, base, last) ==> highest == last;
      }
      this.table := table;
      currentSequence := highest;
      receivers, subscriptions := map[], 0;
      served := map[];
      this.base := if table == map[] then 1 else base;
    }

    /** The row is written before the broadcast, so a failed broadcast leaves it behind. */
    method AddAndBroadcast(block: Block) returns (r: Outcome<StoreError>)
      modifies this
      ensures r ==
        if block.sequence != old(currentSequence) + 1 then Fail(WrongSequence(old(currentSequence) + 1, block.sequence))
        else if block.sequence in old(table) then Fail(KeyTaken)
        else if old(receivers) == map[] then Fail(BroadcastError)
        else Pass
      ensures r.Pass? || r == Fail(BroadcastError) ==>
        && table == old(table)[block.sequence := block]
        && currentSequence == block.sequence
        && receivers == Delivered(old(receivers), block)
        && subscriptions == old(subscriptions) && base == old(base)
        && served == old(served)
      ensures r.Fail? && r.error != BroadcastError ==> unchanged(this)
      ensures old(Valid()) ==> Valid() && r != Fail(KeyTaken)
    {
      if block.sequence != currentSequence + 1 {
        return Fail(WrongSequence(currentSequence + 1, block.sequence));
      }
      if block.sequence in table {
        return Fail(KeyTaken);
      }
      if Valid() {
        AppendKeepsLog(table, base, currentSequence, block);
        forall r | r in receivers
          ensures QueueComplete(table[block.sequence := block], base, block.sequence, receivers[r] + [block], served[r])
        {
          AppendKeepsQueue(table, base, currentSequence, receivers[r], served[r], block);
        }
      }
      hide Contiguous;
      hide QueueComplete;
      table := table[block.sequence := block];
      currentSequence := block.sequence;
      var nobody := receivers == map[];
      receivers := Delivered(receivers, block);
      if nobody {
        return Fail(BroadcastError);
      }
      return Pass;
    }

    method Subscribe() returns (receiver: nat)
      requires Valid()
      modifies this
      ensures Valid()
      ensures receiver !in old(receivers) && receivers == old(receivers)[receiver := []]
      ensures served[receiver] == currentSequence
      ensures table == old(table) && currentSequence == old(currentSequence) && base == old(base)
    {
      assert QueueComplete(table, base, currentSequence, [], currentSequence);
      hide Contiguous;
      hide QueueComplete;
      receiver := subscriptions;
      subscriptions := subscriptions + 1;
      receivers := receivers[receiver := []];
      served := served[receiver := currentSequence];
    }

    /** The rows that a subscriber has read reach from a sequence number to another one that it had
        subscribed before. */
    ghost predicate HasRead(receiver: nat, rows: seq<Block>, after: nat, read: nat)
      requires Valid() && receiver in receivers
      reads this
    {
      base <= after <= read <= currentSequence && served[receiver] <= read && rows == RowsBetween(table, after, read)
    }

    /** Drains what was broadcast since subscribing into the rows that were read, which other calls may
        have added to in between. What is returned and what stays queued is then the log after the
        requested sequence number, without gap or repeat. */
    method DrainInto(receiver: nat, rows: seq<Block>, after: nat, ghost read: nat) returns (transactions: seq<Block>)
      requires Valid() && receiver in receivers
      requires HasRead(receiver, rows, after, read) || receivers[receiver] == []
      modifies this
      ensures Valid()
      ensures table == old(table) && currentSequence == old(currentSequence) && base == old(base)
      ensures receivers.Keys == old(receivers.Keys)
      ensures old(receivers[receiver]) == [] ==> transactions == rows && receivers == old(receivers) && served == old(served)
      ensures old(HasRead(receiver, rows, after, read)) ==>
        && served[receiver] == (if read < currentSequence then read + 1 else read)
        && transactions == RowsBetween(table, after, served[receiver])
        && receivers[receiver] == RowsBetween(table, served[receiver], currentSequence)
    {
      ghost var queue := receivers[receiver];
      ghost var end := served[receiver];
      if HasRead(receiver, rows, after, read) {
        DrainTakesNext(table, base, currentSequence, after, read, rows, queue, served[receiver], 0);
        end := if read < currentSequence then read + 1 else read;
      }
      var left;
      transactions, left := CatchUp.DrainReceiver(rows, receivers[receiver], after);
      assert CatchUp.Drain(rows, queue, 0, after) == CatchUp.Done(transactions, left, 0 + (|queue| - |left|));
      assert QueueComplete(table, base, currentSequence, left, end);
      assert queue == [] ==> end == served[receiver] by {
        HeadIsNext(table, base, currentSequence, queue, served[receiver]);
      }
      hide Contiguous;
      hide QueueComplete;
      hide CatchUp.Drain;
      receivers := receivers[receiver := left];
      served := served[receiver := end];
    }

    /** Subscribes first, then reads the rows, then drains what was broadcast meanwhile. */
    method LoadAllAfter(after: nat) returns (transactions: seq<Block>, receiver: nat)
      requires Valid()
      modifies this
      ensures Valid()
      ensures table == old(table) && currentSequence == old(currentSequence) && base == old(base)
      ensures transactions == Selected(table, after)
      ensures base <= after <= currentSequence ==> transactions == RowsBetween(table, after, currentSequence)
      ensures receiver !in old(receivers) && receivers == old(receivers)[receiver := []]
      ensures served[receiver] == currentSequence
    {
      receiver := Subscribe();
      if base <= after {
        SelectedAreConsecutive(table, base, currentSequence, after);
      }
      hide Selected;
      var rows := Select(table, after);
      transactions := DrainInto(receiver, rows, after, currentSequence);
    }

    /** A subscriber takes the next block: the one right after what it was served so far. */
    method Receive(receiver: nat) returns (block: Option<Block>)
      requires Valid() && receiver in receivers
      modifies this
      ensures Valid()
      ensures block.None? <==> old(served)[receiver] == currentSequence
      ensures block.Some? ==>
        && served == old(served)[receiver := old(served)[receiver] + 1]
        && served[receiver] in table
        && block.value == table[served[receiver]]
        && block.value.sequence == served[receiver]
      ensures block.None? ==> unchanged(this)
      ensures table == old(table) && currentSequence == old(currentSequence)
    {
      var queue := receivers[receiver];
      HeadIsNext(table, base, currentSequence, queue, served[receiver]);
      hide Contiguous;
      hide QueueComplete;
      if queue == [] {
        return None;
      }
      receivers := receivers[receiver := queue[1..]];
      served := served[receiver := served[receiver] + 1];
      return Some(queue[0]);
    }
  }

  /** The largest key of a table. */
  method Highest(table: map<nat, Block>) returns (highest: nat)
    requires table != map[]
    ensures highest in table && forall n :: n in table ==> n <= highest
  {
    var rest := table.Keys;
    highest :| highest in rest;
    rest := rest - {highest};
    while rest != {}
      invariant rest <= table.Keys && highest in table
      invariant forall n :: n in table ==> n in rest || n <= highest
      decreases |rest|
    {
      var n :| n in rest;
      if n > highest {
        highest := n;
      }
      rest := rest - {n};
    }
  }

  // ---------------------------------------------------------------------------------------
  // The message handler
  // ---------------------------------------------------------------------------------------

  datatype HandleError = Refused(check: CheckError) | NotStored(store: StoreError)

  /** Memory has applied the whole log, or all of it but the last row. */
  ghost predicate Following(chain: Chain, store: TransactionStore)
    reads chain, chain.state, store
  {
    && chain.Valid() && store.Valid()
    && Sequence(chain.Value()) <= store.currentSequence <= Sequence(chain.Value()) + 1
  }

  /** Check, then persist and broadcast, then apply. A block is applied only after it is in the log.
      When nobody is subscribed the row is written but never applied, and from then on every block
      is refused. */
  method HandleBlock(chain: Chain, store: TransactionStore, block: Block, now: nat) returns (r: Outcome<HandleError>)
    requires Following(chain, store)
    modifies chain, chain.state, store
    ensures Following(chain, store)
    ensures
      var checked := CheckSigned(old(chain.Value()), block, now);
      r ==
        if checked.Fail? then Fail(Refused(checked.error))
        else if old(store.currentSequence) != Sequence(old(chain.Value())) then
          Fail(NotStored(WrongSequence(old(store.currentSequence) + 1, block.sequence)))
        else if old(store.receivers) == map[] then Fail(NotStored(BroadcastError))
        else Pass
    ensures chain.Value() == if r.Pass? then ApplyBlock(old(chain.Value()), block) else old(chain.Value())
    ensures r.Pass? || r == Fail(NotStored(BroadcastError)) ==>
      store.table == old(store.table)[block.sequence := block] && store.currentSequence == block.sequence
    ensures r.Fail? && r != Fail(NotStored(BroadcastError)) ==> unchanged(store)
    ensures r == Fail(NotStored(BroadcastError)) ==> store.currentSequence == Sequence(chain.Value()) + 1
  {
    hide CheckSigned;
    hide CanApplyBlock;
    var checked := chain.CheckFromStore(block, now);
    if checked.Err? {
      return Fail(Refused(checked.error));
    }
    CheckedHeader(chain.Value(), block, now);
    var stored := store.AddAndBroadcast(block);
    if stored.Fail? {
      return Fail(NotStored(stored.error));
    }
    chain.Apply(block);
    return Pass;
  }
}
