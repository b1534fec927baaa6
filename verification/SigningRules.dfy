/**
 Who may sign whom, written out type by type: over whole runs, for single additions, and for the
 order in which tests fail.
 */
module SigningRules {
  import opened Outcomes
  import opened Certificates
  import opened TrustState
  import opened SecureChain
  import opened History
  import opened CertificateChain

  /** The whole table of signers: a root signs servers, users, sessions and agents, a user signs users,
      sessions and agents, and nobody else signs anything. */
  lemma WhoSignsWhom(parent: CertificateType, child: CertificateType)
    ensures parent.MayBeParentOf(child) <==>
      || (parent == Root && child in {Server, User, UserSession, Agent})
      || (parent == User && child in {User, UserSession, Agent})
  {
  }

  /** Exactly which certificates a signer can add. */
  lemma AdditionAccepted(s: StateValue, signer: SpkiHash, time: nat, c: Certificate)
    requires KeyConsistent(s)
    ensures CheckTransaction(s, signer, time, Add(c)).Pass? <==>
      && signer in s.certificates && c.spkiHash !in s.certificates
      && c.issuer == c.signedBy == signer
      && c.notBefore <= time <= c.notAfter
      && (if s.certificates[signer].kind == Root then c.kind in {Server, User, UserSession, Agent}
          else s.certificates[signer].kind == User && c.kind in {User, UserSession, Agent})
  {
    TransactionAccepted(s, signer, time, Add(c));
    if signer in s.certificates {
      WhoSignsWhom(s.certificates[signer].kind, c.kind);
    }
    hide CheckTransaction;
  }

  /** The i-th block added the certificate, under a signer that was stored then: the initial root for a
      server, the initial root or a user for a user, a session or an agent. */
  ghost predicate AddedUnderSigner(root: RootCertificate, blocks: seq<Block>, i: nat, c: Certificate)
    requires i < |blocks|
  {
    var stored := After(Start(root), blocks[..i]).state.certificates;
    && blocks[i].transaction == Add(c)
    && c.signedBy in stored
    && (match c.kind
        case Server => stored[c.signedBy] == root
        case User => stored[c.signedBy] == root || stored[c.signedBy].kind == User
        case UserSession => stored[c.signedBy] == root || stored[c.signedBy].kind == User
        case Agent => stored[c.signedBy] == root || stored[c.signedBy].kind == User
        case Root => false
        case Temporary => false)
  }

  lemma AddedUnderSignerPrefix(root: RootCertificate, blocks: seq<Block>, n: nat, i: nat, c: Certificate)
    requires i < n <= |blocks|
    ensures AddedUnderSigner(root, blocks[..n], i, c) <==> AddedUnderSigner(root, blocks, i, c)
  {
    assert blocks[..n][..i] == blocks[..i];
    hide After;
  }

  /** Over every accepted run, every stored certificate is the initial root or was added under such a
      signer. So no other root and no temporary certificate is ever stored. */
  lemma {:induction false} EverySignerIsEntitled(root: RootCertificate, blocks: seq<Block>, clocks: seq<nat>, k: SpkiHash)
    requires Accepted(Start(root), blocks, clocks)
    requires k in After(Start(root), blocks).state.certificates
    ensures var c := After(Start(root), blocks).state.certificates[k];
      c == root || exists i :: 0 <= i < |blocks| && AddedUnderSigner(root, blocks, i, c)
  {
    hide CheckSigned;
    if blocks != [] {
      var n := |blocks| - 1;
      var before, b := After(Start(root), blocks[..n]), blocks[n];
      var c := After(Start(root), blocks).state.certificates[k];
      RunFromStart(root, blocks[..n], clocks[..n]);
      CheckedTransaction(before, b, clocks[n]);
      if k in before.state.certificates && before.state.certificates[k] == c {
        EverySignerIsEntitled(root, blocks[..n], clocks[..n], k);
        if i :| 0 <= i < n && AddedUnderSigner(root, blocks[..n], i, c) {
          AddedUnderSignerPrefix(root, blocks, n, i, c);
        }
      } else {
        TransactionEffect(before.state, b.signer, b.time, b.transaction, k);
        AdditionAccepted(before.state, b.signer, b.time, c);
        EverySignerIsEntitled(root, blocks[..n], clocks[..n], b.signer);
        assert AddedUnderSigner(root, blocks, n, c);
      }
    }
  }

  /** What that comes to for the stored certificates themselves. */
  lemma StoredKinds(root: RootCertificate, blocks: seq<Block>, clocks: seq<nat>, k: SpkiHash)
    requires Accepted(Start(root), blocks, clocks)
    requires k in After(Start(root), blocks).state.certificates
    requires After(Start(root), blocks).state.certificates[k] != root
    ensures After(Start(root), blocks).state.certificates[k].kind in {User, UserSession, Agent, Server}
    ensures After(Start(root), blocks).state.certificates[k].kind == Server ==>
      After(Start(root), blocks).state.certificates[k].signedBy == root.spkiHash
  {
    hide CheckSigned;
    EverySignerIsEntitled(root, blocks, clocks, k);
    var c := After(Start(root), blocks).state.certificates[k];
    var i :| 0 <= i < |blocks| && AddedUnderSigner(root, blocks, i, c);
    AcceptedPrefix(Start(root), blocks, clocks, i);
    RunFromStart(root, blocks[..i], clocks[..i]);
    hide Accepted;
  }

  /** On every chain that accepted blocks lead to, an entitled signer's certificate goes all the way: its
      block is packaged, and accepted by every replica with the same chain. */
  lemma EntitledAdditionIsAccepted(
    root: RootCertificate, blocks: seq<Block>, clocks: seq<nat>, signer: SpkiHash, c: Certificate, now: nat, later: nat)
    requires Accepted(Start(root), blocks, clocks)
    requires LastTime(After(Start(root), blocks)) <= now <= later
    requires var stored := After(Start(root), blocks).state.certificates;
      && signer in stored && c.spkiHash !in stored
      && (if stored[signer].kind == Root then c.kind in {Server, User, UserSession, Agent}
          else stored[signer].kind == User && c.kind in {User, UserSession, Agent})
    requires c.issuer == c.signedBy == signer && c.notBefore <= now <= c.notAfter
    ensures PackageBlock(After(Start(root), blocks), Add(c), signer, now).Ok?
    ensures CheckSigned(After(Start(root), blocks), PackageBlock(After(Start(root), blocks), Add(c), signer, now).value, later).Pass?
  {
    hide CheckSigned;
    RunFromStart(root, blocks, clocks);
    hide Accepted;
    hide After;
    AdditionAccepted(After(Start(root), blocks).state, signer, now, Add(c).certificate);
    hide CheckTransaction;
    PackagedBlockAccepted(After(Start(root), blocks), Add(c), signer, now, later);
  }

  // ---------------------------------------------------------------------------------------
  // Which error a failing test gives
  // ---------------------------------------------------------------------------------------

  lemma SignatureErrors(c: Certificate, parent: Certificate, time: nat)
    ensures
      var r := c.VerifySignature(parent, time);
      var entitled := (parent.kind == Root && c.kind in {Server, User, UserSession, Agent})
        || (parent.kind == User && c.kind in {User, UserSession, Agent});
      && (r == Fail(InvalidCertificateType(parent.kind, c.kind)) <==> !entitled)
      && (r == Fail(BadSignature) <==> entitled && c.signedBy != parent.spkiHash)
      && (r == Fail(Validity(NotYetValid)) <==> entitled && c.signedBy == parent.spkiHash && time < c.notBefore)
      && (r == Fail(Validity(Expired)) <==>
        entitled && c.signedBy == parent.spkiHash && c.notBefore <= time && c.notAfter < time)
  {
    WhoSignsWhom(parent.kind, c.kind);
  }

  lemma TransactionErrors(s: StateValue, signer: SpkiHash, time: nat, tx: Transaction)
    requires KeyConsistent(s)
    ensures
      var r, c := CheckTransaction(s, signer, time, tx), tx.certificate;
      var known, stored := signer in s.certificates, c.spkiHash in s.certificates;
      && (r == Fail(SignerNotKnown) <==> !known)
      && (r == Fail(CertificateAlreadyExists) <==> known && tx.Add? && stored)
      && (r == Fail(IssuerIsNotSigner) <==> known && tx.Add? && !stored && c.issuer != signer)
      && (r.Fail? && r.error.CertificateInvalid? <==>
        && known && tx.Add? && !stored && c.issuer == signer
        && c.VerifySignature(s.certificates[signer], time).Fail?)
      && (r.Fail? && r.error.CertificateInvalid? ==>
        c.VerifySignature(s.certificates[signer], time) == Fail(r.error.reason))
      && (r == Fail(CertificateNotFound) <==> known && tx.RemoveExpired? && !stored)
      && (r == Fail(CertificateDoesNotMatch) <==>
        known && tx.RemoveExpired? && stored && s.certificates[c.spkiHash] != c)
      && (r == Fail(CertificateNotExpired) <==>
        && known && tx.RemoveExpired? && stored && s.certificates[c.spkiHash] == c
        && c.notBefore <= time <= c.notAfter)
  {
    StoredBytesCompared(s, tx.certificate);
    hide Der;
  }

  /** The tests of a block in their order, the same for the first block and for later ones. */
  lemma BlockErrors(c: ChainValue, b: Block, certificate: Certificate, now: nat)
    ensures
      var r := CheckBlock(c, b, certificate, now);
      var next := b.sequence == (if c.last.None? then 1 else c.last.value.sequence + 1);
      var linked := next && b.previous == (if c.last.None? then Empty else BlockDigest(c.last.value));
      var ordered := linked && (c.last.Some? ==> c.last.value.time <= b.time);
      var past := ordered && b.time <= now;
      var named := past && b.signer == certificate.spkiHash;
      var signed := named && b.signature == SignedBy(certificate.spkiHash, BlockDigest(b));
      var checked := CheckTransaction(c.state, b.signer, b.time, b.transaction);
      && (r == Fail(SequenceMismatch) <==> !next)
      && (r == Fail(PreviousBlockHashMismatch) <==> next && !linked)
      && (r == Fail(TimeTooEarly(b.time, LastTime(c))) <==> linked && !ordered)
      && (r == Fail(TimeInFuture) <==> ordered && !past)
      && (r == Fail(IncorrectCertificate) <==> past && !named)
      && (r == Fail(CheckError.SignatureVerificationFailed) <==> named && !signed)
      && (checked.Fail? ==> (r == Fail(InvalidTransaction(checked.error)) <==> signed))
      && (r == Fail(ResultingStateMismatch) <==>
        signed && checked.Pass? && b.resulting != StateDigest(ApplyTransaction(c.state, b.transaction)))
  {
    hide BlockDigest;
    hide StateDigest;
    hide CheckTransaction;
    hide ApplyTransaction;
  }

  lemma PushErrors(certificates: seq<Certificate>, parent: Certificate)
    requires certificates != []
    ensures
      var r, last := PushResult(certificates, parent), certificates[|certificates| - 1];
      var known := exists i :: 0 <= i < |certificates| && certificates[i].spkiHash == parent.spkiHash;
      && (r == Fail(AlreadyFinished) <==> last.kind == Root)
      && (r == Fail(WrongParent(last.spkiHash, parent.spkiHash)) <==> last.kind != Root && last.issuer != parent.spkiHash)
      && (r == Fail(SignatureLoop(certificates + [parent])) <==> last.kind != Root && last.issuer == parent.spkiHash && known)
      && (r == Pass <==> last.kind != Root && last.issuer == parent.spkiHash && !known)
  {
    forall i | 0 <= i < |certificates| ensures certificates[i].spkiHash in Keys(certificates) {
      assert certificates[i] in certificates;
    }
  }

  lemma ChainErrors(chain: seq<Certificate>, root: RootCertificate, time: nat)
    ensures
      var r := VerifyChain(chain, root, time);
      && (r == Err(EmptyChain) <==> chain == [])
      && (chain != [] ==> (r == Err(WrongRoot(root, chain[0])) <==> chain[0] != root))
      && (chain != [] && chain[0] == root && r.Err? ==>
        exists i :: 0 < i < |chain|
          && (forall j :: 0 < j < i ==> LinkHolds(chain, j, time))
          && chain[i].VerifySignature(chain[i - 1], time).Fail?
          && r == Err(VerifyChainError.SignatureVerificationFailed(chain[i].VerifySignature(chain[i - 1], time).error)))
  {
    if chain != [] {
      DerInjective(chain[0], root);
      FirstBadLinkIsFirst(chain, 1, time);
    }
    hide Der;
  }

  predicate LinkHolds(chain: seq<Certificate>, j: nat, time: nat)
    requires 0 < j < |chain|
  {
    chain[j].VerifySignature(chain[j - 1], time).Pass?
  }

  lemma {:induction false} FirstBadLinkIsFirst(chain: seq<Certificate>, i: nat, time: nat)
    requires 0 < i <= |chain|
    ensures FirstBadLink(chain, i, time).Some? ==>
      exists n :: i <= n < |chain|
        && (forall j :: i <= j < n ==> LinkHolds(chain, j, time))
        && chain[n].VerifySignature(chain[n - 1], time) == Fail(FirstBadLink(chain, i, time).value)
    decreases |chain| - i
  {
    if i < |chain| {
      if LinkHolds(chain, i, time) {
        FirstBadLinkIsFirst(chain, i + 1, time);
      }
    }
  }

  /** Import refuses a file whose root is of another type, and else names exactly the listed issuers that
      are not listed themselves. */
  lemma ImportErrors(e: ExportedState)
    ensures
      var r := ImportState(e);
      && (r == Err(NotARoot) <==> e.root.kind != Root)
      && (r.Err? && r.error.MissingIssuers? ==>
        && e.root.kind == Root
        && forall k :: k in r.error.missing <==>
          (exists c :: c in e.certificates && c.issuer == k) && !(exists c :: c in e.certificates && c.spkiHash == k))
      && (r.Err? && e.root.kind == Root ==> r.error.MissingIssuers? && r.error.missing != {})
  {
  }
}
