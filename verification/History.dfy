/**
 Whole runs of the ledger: what a history of accepted blocks fixes, keeps and forgets.
 Each block was checked at some clock reading of its own; nothing relates the readings.
 */
module History {
  import opened Outcomes
  import opened Certificates
  import opened TrustState
  import Encoding
  import opened SecureChain

  /** The chain after applying a list of blocks. */
  function After(c: ChainValue, blocks: seq<Block>): ChainValue {
    if blocks == [] then c
    else ApplyBlock(After(c, blocks[..|blocks| - 1]), blocks[|blocks| - 1])
  }

  /** Every block passed the check against the chain its predecessors left behind. */
  ghost predicate Accepted(c: ChainValue, blocks: seq<Block>, clocks: seq<nat>) {
    && |clocks| == |blocks|
    && (blocks != [] ==>
      var n := |blocks| - 1;
      Accepted(c, blocks[..n], clocks[..n]) && CheckSigned(After(c, blocks[..n]), blocks[n], clocks[n]).Pass?)
  }

  lemma AfterStep(c: ChainValue, blocks: seq<Block>, i: nat)
    requires i < |blocks|
    ensures After(c, blocks[..i + 1]) == ApplyBlock(After(c, blocks[..i]), blocks[i])
  {
    assert blocks[..i + 1][..i] == blocks[..i];
  }

  lemma {:induction false} AcceptedPrefix(c: ChainValue, blocks: seq<Block>, clocks: seq<nat>, n: nat)
    requires Accepted(c, blocks, clocks) && n <= |blocks|
    ensures Accepted(c, blocks[..n], clocks[..n])
  {
    hide CheckSigned;
    if n == |blocks| {
      assert blocks[..n] == blocks && clocks[..n] == clocks;
    } else {
      var m := |blocks| - 1;
      AcceptedPrefix(c, blocks[..m], clocks[..m], n);
      assert blocks[..m][..n] == blocks[..n] && clocks[..m][..n] == clocks[..n];
    }
  }

  lemma AcceptedAt(c: ChainValue, blocks: seq<Block>, clocks: seq<nat>, i: nat)
    requires Accepted(c, blocks, clocks) && i < |blocks|
    ensures CheckSigned(After(c, blocks[..i]), blocks[i], clocks[i]).Pass?
  {
    hide CheckSigned;
    AcceptedPrefix(c, blocks, clocks, i + 1);
    assert blocks[..i + 1][..i] == blocks[..i] && clocks[..i + 1][..i] == clocks[..i];
  }

  lemma AcceptedStep(c: ChainValue, blocks: seq<Block>, clocks: seq<nat>, b: Block, clock: nat)
    requires Accepted(c, blocks, clocks)
    ensures Accepted(c, blocks + [b], clocks + [clock]) <==> CheckSigned(After(c, blocks), b, clock).Pass?
    ensures After(c, blocks + [b]) == ApplyBlock(After(c, blocks), b)
  {
    hide CheckSigned;
    var bs, ks := blocks + [b], clocks + [clock];
    assert bs[..|blocks|] == blocks && ks[..|blocks|] == clocks;
  }

  /** What a passing check says about the block's header. */
  lemma CheckedHeader(c: ChainValue, b: Block, clock: nat)
    requires CheckSigned(c, b, clock).Pass?
    ensures b.sequence == Sequence(c) + 1
    ensures b.previous == LastDigest(c)
    ensures LastTime(c) <= b.time <= clock
  {
    hide BlockDigest;
    hide StateDigest;
  }

  /** What every accepted block keeps, on a chain that starts anywhere. */
  lemma RunKeeps(c: ChainValue, blocks: seq<Block>, clocks: seq<nat>)
    requires KeyConsistent(c.state) && Accepted(c, blocks, clocks)
    ensures KeyConsistent(After(c, blocks).state)
    ensures blocks != [] ==> Committed(After(c, blocks))
    ensures Sequence(After(c, blocks)) == Sequence(c) + |blocks|
    ensures LastTime(c) <= LastTime(After(c, blocks))
    ensures After(c, blocks).state.root == c.state.root
  {
    if blocks != [] {
      var n := |blocks| - 1;
      AcceptedPrefix(c, blocks, clocks, n);
      RunKeeps(c, blocks[..n], clocks[..n]);
      var before := After(c, blocks[..n]);
      CheckedBlockApplies(before, blocks[n], before.state.certificates[blocks[n].signer], clocks[n]);
    }
  }

  lemma RunFromStart(root: RootCertificate, blocks: seq<Block>, clocks: seq<nat>)
    requires Accepted(Start(root), blocks, clocks)
    ensures KeyConsistent(After(Start(root), blocks).state)
    ensures Committed(After(Start(root), blocks))
    ensures Sequence(After(Start(root), blocks)) == |blocks|
    ensures After(Start(root), blocks).state.root == root
    ensures After(Start(root), blocks).last == if blocks == [] then None else Some(blocks[|blocks| - 1])
  {
    hide CheckSigned;
    RunKeeps(Start(root), blocks, clocks);
  }

  /** Block times never decrease along an accepted run. */
  lemma {:induction false} TimesOrdered(c: ChainValue, blocks: seq<Block>, clocks: seq<nat>, i: nat, j: nat)
    requires KeyConsistent(c.state) && Accepted(c, blocks, clocks)
    requires i <= j < |blocks|
    ensures blocks[i].time <= blocks[j].time <= clocks[j]
  {
    hide CheckSigned;
    AcceptedAt(c, blocks, clocks, j);
    CheckedHeader(After(c, blocks[..j]), blocks[j], clocks[j]);
    if i < j {
      TimesOrdered(c, blocks, clocks, i, j - 1);
      AfterStep(c, blocks, j - 1);
    }
  }

  // ---------------------------------------------------------------------------------------
  // The digest fixes the history
  // ---------------------------------------------------------------------------------------

  ghost predicate SameHistory(xs: seq<Block>, ys: seq<Block>) {
    |xs| == |ys| && forall i :: 0 <= i < |xs| ==> Unsigned(xs[i]) == Unsigned(ys[i])
  }

  lemma SameHistorySnoc(xs: seq<Block>, ys: seq<Block>)
    requires xs != [] && ys != []
    ensures SameHistory(xs, ys) <==>
      SameHistory(xs[..|xs| - 1], ys[..|ys| - 1]) && Unsigned(xs[|xs| - 1]) == Unsigned(ys[|ys| - 1])
  {
    var m, n := |xs| - 1, |ys| - 1;
    if SameHistory(xs[..m], ys[..n]) && Unsigned(xs[m]) == Unsigned(ys[n]) {
      forall i | 0 <= i < |xs| ensures Unsigned(xs[i]) == Unsigned(ys[i]) {
        if i < m {
          assert xs[..m][i] == xs[i] && ys[..n][i] == ys[i];
        }
      }
    }
  }

  /** Equal digests of the last block mean equal histories: each block carries its predecessor's
      digest, and only the first one carries the empty digest. */
  lemma {:induction false} LastDigestBinding(
    r: RootCertificate, xs: seq<Block>, kx: seq<nat>, q: RootCertificate, ys: seq<Block>, ky: seq<nat>)
    requires Accepted(Start(r), xs, kx) && Accepted(Start(q), ys, ky)
    requires LastDigest(After(Start(r), xs)) == LastDigest(After(Start(q), ys))
    ensures SameHistory(xs, ys)
    decreases |xs|
  {
    hide CheckSigned;
    hide SameHistory;
    RunFromStart(r, xs, kx);
    RunFromStart(q, ys, ky);
    if xs != [] {
      var m, n := |xs| - 1, |ys| - 1;
      BlockDigestBinding(xs[m], ys[n]);
      hide BlockDigest;
      hide StateDigest;
      CheckedHeader(After(Start(r), xs[..m]), xs[m], kx[m]);
      CheckedHeader(After(Start(q), ys[..n]), ys[n], ky[n]);
      LastDigestBinding(r, xs[..m], kx[..m], q, ys[..n], ky[..n]);
      SameHistorySnoc(xs, ys);
    } else {
      EmptyHistories(xs, ys);
    }
  }

  lemma EmptyHistories(xs: seq<Block>, ys: seq<Block>)
    requires xs == ys == []
    ensures SameHistory(xs, ys)
  {
  }

  lemma {:induction false} SameHistorySameState(c: ChainValue, xs: seq<Block>, ys: seq<Block>)
    requires SameHistory(xs, ys)
    ensures After(c, xs).state == After(c, ys).state
    ensures LastDigest(After(c, xs)) == LastDigest(After(c, ys))
  {
    if xs != [] {
      var n := |xs| - 1;
      SameHistorySnoc(xs, ys);
      SameHistorySameState(c, xs[..n], ys[..n]);
      BlockDigestBinding(xs[n], ys[n]);
    }
  }

  /** Two states of which one has another root, stored under the same key. */
  ghost predicate UpToRoot(s: StateValue, t: StateValue) {
    var k := s.root.spkiHash;
    && t.root.spkiHash == k
    && s.certificates.Keys == t.certificates.Keys
    && k in s.certificates && s.certificates[k] == s.root && t.certificates[k] == t.root
    && forall j :: j in s.certificates && j != k ==> s.certificates[j] == t.certificates[j]
  }

  lemma SameTransactionUpToRoot(s: StateValue, t: StateValue, signer: SpkiHash, time: nat, tx: Transaction)
    requires UpToRoot(s, t) && KeyConsistent(s)
    requires CheckTransaction(s, signer, time, tx).Pass? && CheckTransaction(t, signer, time, tx).Pass?
    ensures s.root == t.root || UpToRoot(ApplyTransaction(s, tx), ApplyTransaction(t, tx))
  {
    StoredBytesCompared(s, tx.certificate);
    StoredBytesCompared(t, tx.certificate);
    hide Der;
  }

  /** Replicas that accepted the same first block have roots with the same key, and after the same
      history their states differ in the root alone, if at all. */
  lemma {:induction false} SameHistoryUpToRoot(
    r: RootCertificate, xs: seq<Block>, kx: seq<nat>, q: RootCertificate, ys: seq<Block>, ky: seq<nat>)
    requires Accepted(Start(r), xs, kx) && Accepted(Start(q), ys, ky)
    requires SameHistory(xs, ys) && xs != []
    ensures r == q || UpToRoot(After(Start(r), xs).state, After(Start(q), ys).state)
    decreases |xs|
  {
    hide CheckSigned;
    var n := |xs| - 1;
    SameHistorySnoc(xs, ys);
    var c, d := After(Start(r), xs[..n]), After(Start(q), ys[..n]);
    RunFromStart(r, xs[..n], kx[..n]);
    RunFromStart(q, ys[..n], ky[..n]);
    CheckedTransaction(c, xs[n], kx[n]);
    CheckedTransaction(d, ys[n], ky[n]);
    assert Unsigned(xs[n]) == Unsigned(ys[n]);
    if n > 0 {
      SameHistoryUpToRoot(r, xs[..n], kx[..n], q, ys[..n], ky[..n]);
    } else {
      FirstSigner(r, xs[0]);
      FirstSigner(q, ys[0]);
    }
    hide Accepted;
    hide SameHistory;
    if r != q {
      SameTransactionUpToRoot(c.state, d.state, xs[n].signer, xs[n].time, xs[n].transaction);
    }
    hide CheckTransaction;
  }

  /** Only the root can sign the first block. */
  lemma FirstSigner(r: RootCertificate, b: Block)
    requires CheckTransaction(Start(r).state, b.signer, b.time, b.transaction).Pass?
    ensures b.signer == r.spkiHash
  {
  }

  lemma ListingsUpToRoot(s: StateValue, t: StateValue) returns (p: nat)
    requires UpToRoot(s, t)
    ensures |Listing(s)| == |Listing(t)| && p < |Listing(s)|
    ensures Listing(s)[p] == s.root && Listing(t)[p] == t.root
    ensures forall i :: 0 <= i < |Listing(s)| && i != p ==> Listing(s)[i] == Listing(t)[i]
  {
    var keys := Encoding.SortedKeys(s.certificates.Keys);
    Encoding.SortedKeysSorted(s.certificates.Keys);
    hide Encoding.SortedKeys;
    p :| 0 <= p < |keys| && keys[p] == s.root.spkiHash;
    forall i | 0 <= i < |keys|
      ensures Listing(s)[i] == s.certificates[keys[i]] && Listing(t)[i] == t.certificates[keys[i]]
    {
      assert keys[i] in keys;
    }
    hide Listing;
    forall i | 0 <= i < |keys| && i != p ensures Listing(s)[i] == Listing(t)[i] {
      assert keys[i] in keys;
    }
  }

  /** If states differ in the root alone, their hashed bytes differ: the root counts twice. */
  lemma BytesTellRoots(s: StateValue, t: StateValue)
    requires UpToRoot(s, t) && StateBytes(s) == StateBytes(t)
    ensures s.root == t.root
  {
    var p := ListingsUpToRoot(s, t);
    hide Listing;
    hide Der;
    hide UpToRoot;
    Encoding.LengthOfExchange(Der, Listing(s), Listing(t), p);
    SameLengthSameRoot(s.root, Listing(s), t.root, Listing(t));
  }

  lemma SameLengthSameRoot(r: RootCertificate, xs: seq<Certificate>, q: RootCertificate, ys: seq<Certificate>)
    requires Encoding.Concat(Der, [r] + xs) == Encoding.Concat(Der, [q] + ys)
    requires |Encoding.Concat(Der, xs)| - |Encoding.Concat(Der, ys)| == |Der(r)| - |Der(q)|
    ensures r == q
  {
    hide Der;
    Encoding.ConcatCons(Der, r, xs);
    Encoding.ConcatCons(Der, q, ys);
    Encoding.ShorterIsPrefix(Der(r), Encoding.Concat(Der, xs), Der(q), Encoding.Concat(Der, ys));
    DerInjective(r, q);
  }

  lemma StartBytes(r: RootCertificate)
    ensures StateBytes(Start(r).state) == Der(r) + Der(r)
  {
    var one: seq<Certificate> := [r];
    PairListing(r, r, Certificate(Root, r.spkiHash + 1, 0, 0, 0, 0, [], []));
    assert Listing(Start(r).state) == one;
    hide Listing;
    Encoding.ConcatCons(Der, r, one);
    Encoding.ConcatCons(Der, r, []);
    assert one + [] == one;
  }

  /** The same for replicas that have accepted nothing yet. */
  lemma BytesTellStarts(r: RootCertificate, q: RootCertificate)
    requires StateBytes(Start(r).state) == StateBytes(Start(q).state)
    ensures r == q
  {
    StartBytes(r);
    StartBytes(q);
    Encoding.ShorterIsPrefix(Der(r), Der(r), Der(q), Der(q));
    DerInjective(r, q);
  }

  lemma ChainDigestParts(c: ChainValue, d: ChainValue)
    ensures ChainDigest(c) == ChainDigest(d) <==> LastDigest(c) == LastDigest(d) && StateBytes(c.state) == StateBytes(d.state)
  {
    var x, y := [Nested(LastDigest(c))] + StateBytes(c.state), [Nested(LastDigest(d))] + StateBytes(d.state);
    hide StateBytes;
    hide LastDigest;
    if x == y {
      assert x[0] == y[0];
      assert x[1..] == StateBytes(c.state) && y[1..] == StateBytes(d.state);
    }
  }

  /** Two replicas compare equal exactly when they started from the same root and accepted the
      same blocks, up to signatures; and then they hold the same certificates. This needs nothing of
      trailing bytes: the history is hashed as well, and it settles what the state's bytes leave open. */
  lemma ChainDigestBinding(
    r: RootCertificate, xs: seq<Block>, kx: seq<nat>, q: RootCertificate, ys: seq<Block>, ky: seq<nat>)
    requires Accepted(Start(r), xs, kx) && Accepted(Start(q), ys, ky)
    ensures ChainDigest(After(Start(r), xs)) == ChainDigest(After(Start(q), ys)) <==> r == q && SameHistory(xs, ys)
    ensures ChainDigest(After(Start(r), xs)) == ChainDigest(After(Start(q), ys)) ==>
      After(Start(r), xs).state == After(Start(q), ys).state
  {
    hide CheckSigned;
    hide StateBytes;
    hide SameHistory;
    var c, d := After(Start(r), xs), After(Start(q), ys);
    ChainDigestParts(c, d);
    hide ChainDigest;
    RunFromStart(r, xs, kx);
    RunFromStart(q, ys, ky);
    if ChainDigest(c) == ChainDigest(d) {
      LastDigestBinding(r, xs, kx, q, ys, ky);
      RootsAgree(r, xs, kx, q, ys, ky);
    }
    hide Accepted;
    if r == q && SameHistory(xs, ys) {
      SameHistorySameState(Start(r), xs, ys);
    }
  }

  lemma RootsAgree(
    r: RootCertificate, xs: seq<Block>, kx: seq<nat>, q: RootCertificate, ys: seq<Block>, ky: seq<nat>)
    requires Accepted(Start(r), xs, kx) && Accepted(Start(q), ys, ky)
    requires SameHistory(xs, ys)
    requires StateBytes(After(Start(r), xs).state) == StateBytes(After(Start(q), ys).state)
    ensures r == q
  {
    hide CheckSigned;
    hide StateBytes;
    if xs == [] {
      BytesTellStarts(r, q);
    } else if r != q {
      RunFromStart(r, xs, kx);
      RunFromStart(q, ys, ky);
      SameHistoryUpToRoot(r, xs, kx, q, ys, ky);
      hide Accepted;
      hide After;
      BytesTellRoots(After(Start(r), xs).state, After(Start(q), ys).state);
    }
  }

  // ---------------------------------------------------------------------------------------
  // Why certificates arrive and leave
  // ---------------------------------------------------------------------------------------

  ghost predicate AddedBy(c: Certificate, b: Block) {
    b.transaction == Add(c) && c.ValidAt(b.time) && c.issuer == b.signer && c.signedBy == b.signer
  }

  lemma CheckedTransaction(c: ChainValue, b: Block, clock: nat)
    requires CheckSigned(c, b, clock).Pass?
    ensures CheckTransaction(c.state, b.signer, b.time, b.transaction).Pass?
  {
    hide BlockDigest;
    hide StateDigest;
    hide CheckTransaction;
  }

  /** Every stored certificate but the initial root was added by a block, signed by its issuer,
      inside its validity window. */
  lemma {:induction false} Provenance(root: RootCertificate, blocks: seq<Block>, clocks: seq<nat>, k: SpkiHash)
    requires Accepted(Start(root), blocks, clocks)
    requires k in After(Start(root), blocks).state.certificates
    requires After(Start(root), blocks).state.certificates[k] != root
    ensures exists j :: 0 <= j < |blocks| && AddedBy(After(Start(root), blocks).state.certificates[k], blocks[j])
  {
    hide CheckSigned;
    if blocks != [] {
      var n := |blocks| - 1;
      var before := After(Start(root), blocks[..n]);
      var c := After(Start(root), blocks).state.certificates[k];
      RunFromStart(root, blocks[..n], clocks[..n]);
      CheckedTransaction(before, blocks[n], clocks[n]);
      TransactionEffect(before.state, blocks[n].signer, blocks[n].time, blocks[n].transaction, k);
      if k !in before.state.certificates {
        assert AddedBy(c, blocks[n]);
      } else {
        Provenance(root, blocks[..n], clocks[..n], k);
        var j :| 0 <= j < n && AddedBy(c, blocks[..n][j]);
        assert AddedBy(c, blocks[j]);
      }
    }
  }

  /** No stored certificate but the initial root is ever too young for the ledger's time. */
  lemma {:induction false} NeverTooEarly(root: RootCertificate, blocks: seq<Block>, clocks: seq<nat>, k: SpkiHash)
    requires Accepted(Start(root), blocks, clocks)
    requires k in After(Start(root), blocks).state.certificates
    requires After(Start(root), blocks).state.certificates[k] != root
    ensures After(Start(root), blocks).state.certificates[k].notBefore <= LastTime(After(Start(root), blocks))
  {
    hide CheckSigned;
    hide ApplyTransaction;
    if blocks != [] {
      var n := |blocks| - 1;
      var before := After(Start(root), blocks[..n]);
      RunFromStart(root, blocks[..n], clocks[..n]);
      CheckedHeader(before, blocks[n], clocks[n]);
      CheckedTransaction(before, blocks[n], clocks[n]);
      hide CheckTransaction;
      TransactionEffect(before.state, blocks[n].signer, blocks[n].time, blocks[n].transaction, k);
      if k in before.state.certificates {
        NeverTooEarly(root, blocks[..n], clocks[..n], k);
      }
    }
  }

  /** A stored certificate is never replaced, and it leaves only through a removal block dated
      outside its validity window. Unless it is the initial root, that is after its end. */
  lemma RemovalSoundness(root: RootCertificate, blocks: seq<Block>, clocks: seq<nat>, i: nat, k: SpkiHash)
    requires Accepted(Start(root), blocks, clocks) && i < |blocks|
    requires k in After(Start(root), blocks[..i]).state.certificates
    ensures
      var before := After(Start(root), blocks[..i]).state.certificates;
      var after := After(Start(root), blocks[..i + 1]).state.certificates;
      && (k in after ==> after[k] == before[k])
      && (k !in after ==>
        && blocks[i].transaction == RemoveExpired(before[k])
        && !before[k].ValidAt(blocks[i].time)
        && (before[k] != root ==> before[k].notAfter < blocks[i].time))
  {
    hide CheckSigned;
    hide ApplyTransaction;
    var before := After(Start(root), blocks[..i]);
    AcceptedPrefix(Start(root), blocks, clocks, i);
    RunFromStart(root, blocks[..i], clocks[..i]);
    if before.state.certificates[k] != root {
      NeverTooEarly(root, blocks[..i], clocks[..i], k);
    }
    AfterStep(Start(root), blocks, i);
    AcceptedAt(Start(root), blocks, clocks, i);
    hide Accepted;
    hide After;
    CheckedHeader(before, blocks[i], clocks[i]);
    CheckedTransaction(before, blocks[i], clocks[i]);
    hide CheckTransaction;
    TransactionEffect(before.state, blocks[i].signer, blocks[i].time, blocks[i].transaction, k);
  }

  /** A block that a replica accepts and that removes a certificate before its time. */
  ghost predicate RemovesEarly(c: ChainValue, r: Certificate, b: Block, now: nat) {
    b.transaction == RemoveExpired(r) && b.time < r.notBefore && CheckSigned(c, b, now).Pass?
  }

  /** On any chain, such a block exists exactly as long as the ledger's time is before the
      certificate's. */
  lemma EarlyRemoval(c: ChainValue, k: SpkiHash)
    requires KeyConsistent(c.state) && k in c.state.certificates
    ensures (exists b: Block, now: nat :: RemovesEarly(c, c.state.certificates[k], b, now)) <==>
      LastTime(c) < c.state.certificates[k].notBefore
  {
    var r := c.state.certificates[k];
    hide StateDigest;
    hide BlockDigest;
    hide Der;
    if LastTime(c) < r.notBefore {
      assert CheckTransaction(c.state, k, LastTime(c), RemoveExpired(r)).Pass?;
      PackagedBlockAccepted(c, RemoveExpired(r), k, LastTime(c), LastTime(c));
      hide CheckSigned;
      var b := PackageBlock(c, RemoveExpired(r), k, LastTime(c)).value;
      assert RemovesEarly(c, r, b, LastTime(c));
    }
    if b: Block, now: nat :| RemovesEarly(c, r, b, now) {
      CheckedHeader(c, b, now);
    }
  }

  /** The initial root is the exception, and the only one: it is stored without a validity check, so
      after any history that still stores it, it can be removed for being not yet valid exactly
      while the ledger's time is before its window; no other certificate ever can. */
  lemma RootLeavesBeforeItsTime(root: RootCertificate, blocks: seq<Block>, clocks: seq<nat>, k: SpkiHash)
    requires Accepted(Start(root), blocks, clocks)
    requires k in After(Start(root), blocks).state.certificates
    ensures
      var c := After(Start(root), blocks);
      var r := c.state.certificates[k];
      (exists b: Block, now: nat :: RemovesEarly(c, r, b, now)) <==> r == root && LastTime(c) < root.notBefore
  {
    hide CheckSigned;
    hide RemovesEarly;
    RunFromStart(root, blocks, clocks);
    if After(Start(root), blocks).state.certificates[k] != root {
      NeverTooEarly(root, blocks, clocks, k);
    }
    hide Accepted;
    hide After;
    EarlyRemoval(After(Start(root), blocks), k);
  }

  // ---------------------------------------------------------------------------------------
  // Producers and validators
  // ---------------------------------------------------------------------------------------

  /** Whatever a replica packages with a clock that has not run backwards is accepted by every
      replica with the same history, at any later reading, and leaves both in the same chain. */
  lemma ProducerValidatorAgreement(
    root: RootCertificate, xs: seq<Block>, kx: seq<nat>, ys: seq<Block>, ky: seq<nat>,
    tx: Transaction, signer: SpkiHash, now: nat, later: nat)
    requires Accepted(Start(root), xs, kx) && Accepted(Start(root), ys, ky)
    requires ChainDigest(After(Start(root), xs)) == ChainDigest(After(Start(root), ys))
    requires forall i :: 0 <= i < |kx| ==> kx[i] <= now
    requires now <= later
    requires PackageBlock(After(Start(root), xs), tx, signer, now).Ok?
    ensures
      var b := PackageBlock(After(Start(root), xs), tx, signer, now).value;
      && CanApplyBlock(After(Start(root), xs), b)
      && CheckSigned(After(Start(root), ys), b, later).Pass?
      && ApplyBlock(After(Start(root), xs), b) == ApplyBlock(After(Start(root), ys), b)
  {
    hide CheckSigned;
    var c, d := After(Start(root), xs), After(Start(root), ys);
    RunFromStart(root, xs, kx);
    RunFromStart(root, ys, ky);
    ChainDigestBinding(root, xs, kx, root, ys, ky);
    SameHistorySameState(Start(root), xs, ys);
    if xs != [] {
      var n := |xs| - 1;
      TimesOrdered(Start(root), xs, kx, n, n);
      assert kx[n] <= now;
      assert Unsigned(xs[n]) == Unsigned(ys[n]);
    }
    hide BlockDigest;
    hide StateDigest;
    hide CheckTransaction;
    assert PackageBlock(d, tx, signer, now) == PackageBlock(c, tx, signer, now);
    PackagedBlockApplies(c, tx, signer, now);
    PackagedBlockAccepted(d, tx, signer, now, later);
  }

  // ---------------------------------------------------------------------------------------
  // Snapshots
  // ---------------------------------------------------------------------------------------

  /** The clock readings only matter through "not in the future". */
  lemma {:induction false} OtherClocks(c: ChainValue, blocks: seq<Block>, clocks: seq<nat>, others: seq<nat>)
    requires Accepted(c, blocks, clocks) && |others| == |blocks|
    ensures Accepted(c, blocks, others) <==> forall i :: 0 <= i < |blocks| ==> blocks[i].time <= others[i]
  {
    hide CheckSigned;
    if blocks != [] {
      var n := |blocks| - 1;
      OtherClocks(c, blocks[..n], clocks[..n], others[..n]);
      OneOtherClock(After(c, blocks[..n]), blocks[n], clocks[n], others[n]);
      assert forall i :: 0 <= i < n ==> blocks[..n][i] == blocks[i] && others[..n][i] == others[i];
    }
  }

  lemma OneOtherClock(c: ChainValue, b: Block, clock: nat, other: nat)
    requires CheckSigned(c, b, clock).Pass?
    ensures CheckSigned(c, b, other).Pass? <==> b.time <= other
  {
    hide BlockDigest;
    hide StateDigest;
  }

  lemma {:induction false} AcceptedSuffix(c: ChainValue, blocks: seq<Block>, clocks: seq<nat>, m: nat)
    requires Accepted(c, blocks, clocks) && m <= |blocks|
    ensures Accepted(After(c, blocks[..m]), blocks[m..], clocks[m..])
    ensures After(After(c, blocks[..m]), blocks[m..]) == After(c, blocks)
  {
    hide CheckSigned;
    if m < |blocks| {
      var n := |blocks| - 1;
      AcceptedSuffix(c, blocks[..n], clocks[..n], m);
      assert blocks[..n][..m] == blocks[..m];
      assert blocks[..n][m..] == blocks[m..][..n - m] && clocks[..n][m..] == clocks[m..][..n - m];
    } else {
      assert blocks[..m] == blocks;
    }
  }

  lemma ReplayFrom(c: ChainValue, blocks: seq<Block>, clocks: seq<nat>, m: nat, others: seq<nat>)
    requires Accepted(c, blocks, clocks) && m <= |blocks|
    requires |others| == |blocks| - m
    requires forall i :: 0 <= i < |others| ==> blocks[m + i].time <= others[i]
    ensures Accepted(After(c, blocks[..m]), blocks[m..], others)
    ensures After(After(c, blocks[..m]), blocks[m..]) == After(c, blocks)
  {
    hide CheckSigned;
    AcceptedSuffix(c, blocks, clocks, m);
    OtherClocks(After(c, blocks[..m]), blocks[m..], clocks[m..], others);
  }

  /** A snapshot taken after any m blocks can be imported exactly when every issuer is still
      stored; replaying the remaining blocks then accepts each of them, at any readings that are
      not behind the block times, and ends in exactly the chain of the full replay. */
  lemma SnapshotIndependence(
    root: RootCertificate, blocks: seq<Block>, clocks: seq<nat>, m: nat, list: seq<Certificate>, others: seq<nat>)
    requires Accepted(Start(root), blocks, clocks) && m <= |blocks|
    requires Lists(After(Start(root), blocks[..m]).state.certificates, list)
    requires |others| == |blocks| - m
    requires forall i :: 0 <= i < |others| ==> blocks[m + i].time <= others[i]
    ensures
      var at := After(Start(root), blocks[..m]);
      var imported := ImportChain(Snapshot(at, list));
      && (imported.Ok? <==> IssuerClosed(at.state))
      && (imported.Ok? ==>
        && Accepted(imported.value, blocks[m..], others)
        && After(imported.value, blocks[m..]) == After(Start(root), blocks))
  {
    hide CheckSigned;
    var at := After(Start(root), blocks[..m]);
    ReplayFrom(Start(root), blocks, clocks, m, others);
    AcceptedPrefix(Start(root), blocks, clocks, m);
    RunFromStart(root, blocks[..m], clocks[..m]);
    hide Accepted;
    hide After;
    hide StateDigest;
    SnapshotRoundTrip(at, list);
    hide *;
  }

  /** One block from the server: check it, write it to the local log, apply it. `written` says whether
      the write succeeds; a block that is not written is not applied. */
  method FollowBlock(chain: Chain, block: Block, clock: nat, written: bool) returns (applied: bool)
    requires chain.Valid()
    modifies chain, chain.state
    ensures chain.Valid()
    ensures applied <==> CheckSigned(old(chain.Value()), block, clock).Pass? && written
    ensures chain.Value() == if applied then ApplyBlock(old(chain.Value()), block) else old(chain.Value())
  {
    hide CheckSigned;
    var checked := chain.CheckFromStore(block, clock);
    if checked.Err? || !written {
      return false;
    }
    chain.Apply(block);
    return true;
  }

  /** The update loop: follows block after block and ends at the first one that is refused or cannot
      be written. */
  method ApplyBlocks(chain: Chain, blocks: seq<Block>, clocks: seq<nat>, written: seq<bool>)
    returns (all: bool, ghost applied: nat)
    requires chain.Valid() && |clocks| == |blocks| == |written|
    modifies chain, chain.state
    ensures chain.Valid() && applied <= |blocks|
    ensures Accepted(old(chain.Value()), blocks[..applied], clocks[..applied])
    ensures forall i :: 0 <= i < applied ==> written[i]
    ensures chain.Value() == After(old(chain.Value()), blocks[..applied])
    ensures applied < |blocks| ==> CheckSigned(chain.Value(), blocks[applied], clocks[applied]).Fail? || !written[applied]
    ensures all <==> applied == |blocks|
    ensures all <==> Accepted(old(chain.Value()), blocks, clocks) && forall i :: 0 <= i < |written| ==> written[i]
  {
    hide CheckSigned;
    ghost var start := chain.Value();
    applied := 0;
    for i := 0 to |blocks|
      invariant chain.Valid() && applied == i
      invariant Accepted(start, blocks[..i], clocks[..i])
      invariant forall j :: 0 <= j < i ==> written[j]
      invariant chain.Value() == After(start, blocks[..i])
    {
      var followed := FollowBlock(chain, blocks[i], clocks[i], written[i]);
      if !followed {
        if Accepted(start, blocks, clocks) {
          AcceptedAt(start, blocks, clocks, i);
        }
        return false, i;
      }
      AcceptedStep(start, blocks[..i], clocks[..i], blocks[i], clocks[i]);
      assert blocks[..i + 1] == blocks[..i] + [blocks[i]] && clocks[..i + 1] == clocks[..i] + [clocks[i]];
      applied := i + 1;
    }
    assert blocks[..|blocks|] == blocks && clocks[..|blocks|] == clocks;
    return true, |blocks|;
  }

  // ---------------------------------------------------------------------------------------
  // Which histories have importable snapshots
  // ---------------------------------------------------------------------------------------

  /** The i-th block adds, or removes a certificate that issued no other stored one. */
  ghost predicate KeepsIssuers(root: RootCertificate, blocks: seq<Block>, i: nat)
    requires i < |blocks|
  {
    blocks[i].transaction.Add? || Childless(After(Start(root), blocks[..i]).state, blocks[i].transaction.certificate)
  }

  /** After m blocks a snapshot can be imported, as `SnapshotIndependence` says. */
  ghost predicate ImportableAt(root: RootCertificate, blocks: seq<Block>, m: nat)
    requires m <= |blocks|
  {
    IssuerClosed(After(Start(root), blocks[..m]).state)
  }

  lemma StepKeepsIssuers(root: RootCertificate, blocks: seq<Block>, clocks: seq<nat>, i: nat)
    requires Accepted(Start(root), blocks, clocks) && i < |blocks|
    requires ImportableAt(root, blocks, i)
    ensures ImportableAt(root, blocks, i + 1) <==> KeepsIssuers(root, blocks, i)
  {
    hide CheckSigned;
    hide IssuerClosed;
    hide Childless;
    var before := After(Start(root), blocks[..i]);
    AcceptedPrefix(Start(root), blocks, clocks, i);
    RunFromStart(root, blocks[..i], clocks[..i]);
    AfterStep(Start(root), blocks, i);
    AcceptedAt(Start(root), blocks, clocks, i);
    hide Accepted;
    hide After;
    CheckedTransaction(before, blocks[i], clocks[i]);
    hide CheckTransaction;
    hide ApplyTransaction;
    StepOnIssuerClosed(before.state, blocks[i].signer, blocks[i].time, blocks[i].transaction);
  }

  lemma StartIsImportable(root: RootCertificate, blocks: seq<Block>)
    requires root.issuer == root.spkiHash
    ensures ImportableAt(root, blocks, 0)
  {
    assert blocks[..0] == [];
  }

  /** With a self-issued root, a history can be imported from a snapshot at each of its points exactly
      when none of its blocks removes a certificate that issued another stored one. */
  lemma {:induction false} SnapshotsImportThroughout(root: RootCertificate, blocks: seq<Block>, clocks: seq<nat>, n: nat)
    requires Accepted(Start(root), blocks, clocks) && n <= |blocks|
    requires root.issuer == root.spkiHash
    ensures (forall m :: 0 <= m <= n ==> ImportableAt(root, blocks, m)) <==>
      forall i :: 0 <= i < n ==> KeepsIssuers(root, blocks, i)
  {
    hide Accepted;
    hide ImportableAt;
    hide KeepsIssuers;
    if n == 0 {
      StartIsImportable(root, blocks);
    } else {
      SnapshotsImportThroughout(root, blocks, clocks, n - 1);
      if ImportableAt(root, blocks, n - 1) {
        StepKeepsIssuers(root, blocks, clocks, n - 1);
      }
    }
  }

  /** The next block, packaged at a clock reading and checked at the same one. */
  ghost predicate PackagedNext(c: ChainValue, tx: Transaction, signer: SpkiHash, now: nat, b: Block) {
    PackageBlock(c, tx, signer, now) == Ok(b) && CheckSigned(c, b, now).Pass?
  }

  lemma PackageNext(c: ChainValue, tx: Transaction, signer: SpkiHash, now: nat) returns (b: Block)
    requires KeyConsistent(c.state) && CheckTransaction(c.state, signer, now, tx).Pass? && LastTime(c) <= now
    ensures PackagedNext(c, tx, signer, now, b)
    ensures b.transaction == tx && b.time == now
    ensures KeyConsistent(ApplyBlock(c, b).state)
  {
    hide StateDigest;
    hide BlockDigest;
    hide Der;
    PackagedBlockAccepted(c, tx, signer, now, now);
    RevertUndoesApply(c.state, signer, now, tx);
    b := PackageBlock(c, tx, signer, now).value;
  }

  const DAY: nat := 86400

  /** The validity periods are those the program demands of each type. */
  function SampleRoot(): RootCertificate {
    Certificate(Root, 0, 0, 0, 3650 * DAY, 0, [], [])
  }

  function SampleUser(k: SpkiHash, from: nat): Certificate {
    Certificate(User, k, 0, from, from + 365 * DAY, 0, [], [])
  }

  function SampleAgent(): Certificate {
    Certificate(Agent, 2, 1, 0, 365 * DAY, 1, [], [])
  }

  /** Such a removal is accepted: a user, an agent under it, and the expired user's removal leave a
      ledger whose snapshot no listing can bring back. */
  lemma UnreadableSnapshot() returns (blocks: seq<Block>, clocks: seq<nat>)
    ensures SampleRoot().issuer == SampleRoot().spkiHash
    ensures Accepted(Start(SampleRoot()), blocks, clocks)
    ensures forall list :: Lists(After(Start(SampleRoot()), blocks).state.certificates, list) ==>
      ImportChain(Snapshot(After(Start(SampleRoot()), blocks), list)).Err?
  {
    hide CheckSigned;
    hide StateDigest;
    hide BlockDigest;
    hide Der;
    var root, user, agent := SampleRoot(), SampleUser(1, 0), SampleAgent();
    var c0 := Start(root);
    var b1 := PackageNext(c0, Add(user), 0, 0);
    var c1 := ApplyBlock(c0, b1);
    var b2 := PackageNext(c1, Add(agent), 1, 0);
    var c2 := ApplyBlock(c1, b2);
    StoredBytesCompared(c2.state, user);
    var b3 := PackageNext(c2, RemoveExpired(user), 0, 365 * DAY + 1);
    var c3 := ApplyBlock(c2, b3);
    assert c3.state.certificates[2].issuer == 1 && 1 !in c3.state.certificates;
    blocks, clocks := [] + [b1] + [b2] + [b3], [] + [0] + [0] + [365 * DAY + 1];
    AcceptedStep(c0, [], [], b1, 0);
    AcceptedStep(c0, [] + [b1], [] + [0], b2, 0);
    AcceptedStep(c0, [] + [b1] + [b2], [] + [0] + [0], b3, 365 * DAY + 1);
    assert After(c0, blocks) == c3;
    RunFromStart(root, blocks, clocks);
    assert !IssuerClosed(c3.state);
    hide After;
    hide Accepted;
    hide ImportChain;
    hide Lists;
    hide IssuerClosed;
    forall list | Lists(c3.state.certificates, list) ensures ImportChain(Snapshot(c3, list)).Err? {
      SnapshotRoundTrip(c3, list);
    }
  }

  /** A replica whose clock has run back packages a block that every replica refuses. */
  lemma PackagedBehindIsRefused() returns (blocks: seq<Block>, clocks: seq<nat>)
    ensures Accepted(Start(SampleRoot()), blocks, clocks)
    ensures
      var c := After(Start(SampleRoot()), blocks);
      var packaged := PackageBlock(c, Add(SampleUser(2, 0)), 0, 3);
      packaged.Ok? && forall later: nat :: 3 <= later ==> CheckSigned(c, packaged.value, later) == Fail(TimeTooEarly(3, 5))
  {
    hide StateDigest;
    hide Der;
    var c0 := Start(SampleRoot());
    var b := PackageNext(c0, Add(SampleUser(1, 0)), 0, 5);
    blocks, clocks := [] + [b], [] + [5];
    AcceptedStep(c0, [], [], b, 5);
    hide BlockDigest;
    hide Accepted;
    var c := After(c0, blocks);
    assert c == ApplyBlock(c0, b);
    hide After;
    assert CheckTransaction(c.state, 0, 3, Add(SampleUser(2, 0))).Pass?;
  }

  /** Loading a trust store: import the snapshot, then check and apply each logged block in
      turn, giving up at the first one that is refused. */
  method LoadTrustStore(exported: ExportedChain, log: seq<Block>, clocks: seq<nat>)
    returns (loaded: Option<Chain>)
    requires |clocks| == |log|
    ensures loaded.Some? <==> ImportChain(exported).Ok? && Accepted(ImportChain(exported).value, log, clocks)
    ensures loaded.Some? ==> loaded.value.Valid() && loaded.value.Value() == After(ImportChain(exported).value, log)
  {
    hide Accepted;
    hide After;
    hide CheckSigned;
    hide ImportChain;
    var imported := ImportFrom(exported);
    if imported.Err? {
      return None;
    }
    var chain := imported.value;
    var all, applied := ApplyBlocks(chain, log, clocks, seq(|log|, _ => true));  // loading writes nothing
    assert log[..|log|] == log;
    return if all then Some(chain) else None;
  }
}
