/**
 A replica at work: it asks the server for everything after its own last block, and checks and
 applies what the catch-up stream delivers.
 */
module Replication {
  import opened SecureChain
  import opened History
  import opened CatchUp
  import H = Handlers

  /** The replica is the server's chain as it was after some prefix of the log. */
  ghost predicate Behind(replica: ChainValue, u: H.Shared) {
    && Sequence(u.base) <= Sequence(replica) <= Sequence(u.base) + |u.table|
    && replica == After(u.base, u.table[..Missing(u, Sequence(replica))])
  }

  /** The replica's clock readings are not behind the server's blocks. */
  ghost predicate ClocksFollow(blocks: seq<Block>, clocks: seq<nat>) {
    |clocks| == |blocks| && forall i :: 0 <= i < |blocks| ==> blocks[i].time <= clocks[i]
  }

  /** A stretch of the log that starts right after the replica's last block is accepted whole. */
  lemma StretchAccepted(u: H.Shared, replica: ChainValue, n: nat, clocks: seq<nat>)
    requires Accepted(u.base, u.table, u.readings) && Behind(replica, u)
    requires Missing(u, Sequence(replica)) <= n <= |u.table|
    requires ClocksFollow(u.table[Missing(u, Sequence(replica))..n], clocks)
    ensures Accepted(replica, u.table[Missing(u, Sequence(replica))..n], clocks)
    ensures After(replica, u.table[Missing(u, Sequence(replica))..n]) == After(u.base, u.table[..n])
  {
    var k := Missing(u, Sequence(replica));
    hide CheckSigned;
    AcceptedPrefix(u.base, u.table, u.readings, n);
    hide Accepted;
    hide After;
    assert u.table[..n][..k] == u.table[..k] && u.table[..n][k..] == u.table[k..n];
    forall i | 0 <= i < |clocks| ensures u.table[..n][k + i].time <= clocks[i] {
      assert u.table[k..n][i] == u.table[k + i];
    }
    ReplayFrom(u.base, u.table[..n], u.readings[..n], k, clocks);
  }

  /** What a replica makes of a finished catch-up: it accepts the whole stream exactly when that does
      not repeat its last row, and then holds the server's chain at a point of the log that lies at
      or beyond the last broadcast. Otherwise it has applied all rows by then and refuses the
      repeat, whatever its clock reads. */
  ghost predicate ReplicaOutcome(u: H.Shared, replica: ChainValue, l: Loader, clocks: seq<nat>)
    requires l.Done?
  {
    && |clocks| == |Stream(l)|
    && (RepeatsHead(l, Sequence(replica)) ==>
      var n := Missing(u, Sequence(replica)) + |l.rows|;
      && 0 <= n <= |u.table|
      && Accepted(replica, l.rows, clocks[..|l.rows|])
      && (forall now: nat :: CheckSigned(After(replica, l.rows), l.queue[0], now).Fail?)
      && After(replica, l.rows) == After(u.base, u.table[..n]))
    && (Accepted(replica, Stream(l), clocks) <==> !RepeatsHead(l, Sequence(replica)))
    && (Accepted(replica, Stream(l), clocks) ==>
      var n := Missing(u, Sequence(replica)) + |Stream(l)|;
      u.sent <= n <= |u.table| && After(replica, Stream(l)) == After(u.base, u.table[..n]))
  }

  /** A chain refuses every block that does not carry the next sequence number, at any reading; so a
      replica that is handed a block again ends its update session there. */
  lemma RepeatIsRefused(c: ChainValue, b: Block)
    requires b.sequence != Sequence(c) + 1
    ensures forall now: nat :: CheckSigned(c, b, now).Fail?
  {
    forall now: nat ensures CheckSigned(c, b, now).Fail? {
      if CheckSigned(c, b, now).Pass? {
        CheckedHeader(c, b, now);
      }
    }
  }

  lemma SequenceAfterRows(c: ChainValue, rows: seq<Block>)
    ensures Sequence(After(c, rows)) == LastSequence(rows, Sequence(c))
  {
  }

  lemma RepeatRefused(replica: ChainValue, l: Loader, clocks: seq<nat>)
    requires l.Done? && RepeatsHead(l, Sequence(replica)) && |clocks| == |Stream(l)|
    ensures forall now: nat :: CheckSigned(After(replica, l.rows), l.queue[0], now).Fail?
    ensures !Accepted(replica, Stream(l), clocks)
  {
    hide CheckSigned;
    SequenceAfterRows(replica, l.rows);
    RepeatIsRefused(After(replica, l.rows), l.queue[0]);
    var n := |l.rows|;
    assert Stream(l)[..n] == l.rows && Stream(l)[n] == l.queue[0];
    if Accepted(replica, Stream(l), clocks) {
      AcceptedAt(replica, Stream(l), clocks, n);
    }
  }

  /** With a repeat due, the rows are accepted and the repeat is not. */
  lemma OutcomeOfRepeat(u: H.Shared, replica: ChainValue, l: Loader, clocks: seq<nat>)
    requires Accepted(u.base, u.table, u.readings) && Behind(replica, u)
    requires l.Done? && RepeatsHead(l, Sequence(replica)) && RowsOk(u, l.rows, Sequence(replica))
    requires ClocksFollow(Stream(l), clocks)
    ensures ReplicaOutcome(u, replica, l, clocks)
  {
    hide CheckSigned;
    hide Accepted;
    hide After;
    RepeatRefused(replica, l, clocks);
    hide RepeatsHead;
    assert forall i :: 0 <= i < |l.rows| ==> l.rows[i] == Stream(l)[i];
    StretchAccepted(u, replica, Missing(u, Sequence(replica)) + |l.rows|, clocks[..|l.rows|]);
  }

  lemma OutcomeWithoutRepeat(u: H.Shared, replica: ChainValue, l: Loader, clocks: seq<nat>)
    requires Accepted(u.base, u.table, u.readings) && Behind(replica, u)
    requires l.Done? && !RepeatsHead(l, Sequence(replica)) && DeliveredAll(u, l, Sequence(replica))
    requires ClocksFollow(Stream(l), clocks)
    ensures ReplicaOutcome(u, replica, l, clocks)
  {
    hide CheckSigned;
    hide Accepted;
    hide After;
    hide RepeatsHead;
    hide Stream;
    StretchAccepted(u, replica, Missing(u, Sequence(replica)) + |Stream(l)|, clocks);
  }

  lemma OutcomeOf(u: H.Shared, replica: ChainValue, l: Loader, clocks: seq<nat>)
    requires H.InOrder(u) && Accepted(u.base, u.table, u.readings)
    requires Behind(replica, u) && LoaderOk(u, l, Sequence(replica)) && l.Done?
    requires ClocksFollow(Stream(l), clocks)
    ensures ReplicaOutcome(u, replica, l, clocks)
  {
    hide Accepted;
    hide After;
    LoaderDelivered(u, l, Sequence(replica));
    hide ReplicaOutcome;
    hide DeliveredAll;
    hide Behind;
    hide ClocksFollow;
    hide Stream;
    hide H.InOrder;
    if RepeatsHead(l, Sequence(replica)) {
      OutcomeOfRepeat(u, replica, l, clocks);
    } else {
      OutcomeWithoutRepeat(u, replica, l, clocks);
    }
  }

  /** However the handlers and the catch-up interleave: if the replica asked from its own sequence
      number, it accepts all it is sent exactly when no row was repeated, and then it holds the server's
      chain at a point of the log that nothing broadcast so far lies beyond. */
  lemma ReplicaFollowsServer(w: World, actions: seq<Action>, replica: ChainValue, clocks: seq<nat>)
    requires CatchUp.Start(w, Sequence(replica)) && Follows(w, actions, Sequence(replica))
    requires Run(w, actions, Sequence(replica)).value.loader.Done?
    requires Behind(replica, Run(w, actions, Sequence(replica)).value.system.shared)
    requires ClocksFollow(Stream(Run(w, actions, Sequence(replica)).value.loader), clocks)
    ensures
      var end := Run(w, actions, Sequence(replica)).value;
      ReplicaOutcome(end.system.shared, replica, end.loader, clocks)
  {
    RunKeepsInv(w, actions, Sequence(replica));
    var end := Run(w, actions, Sequence(replica)).value;
    hide Run;
    LogFacts(end.system);
    assert Accepted(end.system.shared.base, end.system.shared.table, end.system.shared.readings);
    hide H.Inv;
    OutcomeOf(end.system.shared, replica, end.loader, clocks);
  }
}
