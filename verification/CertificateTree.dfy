/**
 The certificate tree of a ledger that only ever added certificates, and the two verifiers that
 sit on it: one walks the chain to the root, the other looks the certificate up.
 */
module CertificateTree {
  import opened Outcomes
  import opened Certificates
  import opened TrustState
  import opened SecureChain
  import opened History
  import opened CertificateChain

  ghost predicate AddOnly(blocks: seq<Block>) {
    forall i :: 0 <= i < |blocks| ==> blocks[i].transaction.Add?
  }

  /** The stored certificates form a tree below the root: everything else has a stored issuer of
      smaller rank that may and did sign it. */
  ghost predicate Grounded(s: StateValue, rank: map<SpkiHash, nat>) {
    && KeyConsistent(s)
    && rank.Keys == s.certificates.Keys
    && s.root.spkiHash in s.certificates
    && s.certificates[s.root.spkiHash] == s.root
    && forall k {:trigger BelowIssuer(s, rank, k)} :: k in s.certificates && k != s.root.spkiHash ==> BelowIssuer(s, rank, k)
  }

  ghost predicate BelowIssuer(s: StateValue, rank: map<SpkiHash, nat>, k: SpkiHash)
    requires k in s.certificates && rank.Keys == s.certificates.Keys
  {
    var c := s.certificates[k];
    && c.issuer in s.certificates
    && rank[c.issuer] < rank[k]
    && SignedUnder(c, s.certificates[c.issuer])
    && !c.kind.Root?
  }

  /** Adding one more certificate under its issuer keeps the tree. */
  lemma AddKeepsGrounded(s: StateValue, rank: map<SpkiHash, nat>, signer: SpkiHash, time: nat, c: Certificate, high: nat)
    requires Grounded(s, rank)
    requires forall k :: k in rank ==> rank[k] < high
    requires CheckTransaction(s, signer, time, Add(c)).Pass?
    ensures Grounded(ApplyTransaction(s, Add(c)), rank[c.spkiHash := high])
  {
    VerifyMeaning(c, s.certificates[signer], time);
    var t, more := ApplyTransaction(s, Add(c)), rank[c.spkiHash := high];
    assert more.Keys == t.certificates.Keys;
    forall k | k in t.certificates && k != s.root.spkiHash ensures BelowIssuer(t, more, k) {
      if k != c.spkiHash {
        assert BelowIssuer(s, rank, k);
      }
    }
  }

  /** Every state reached by additions alone is such a tree. */
  lemma {:induction false} AddOnlyGrounded(root: RootCertificate, blocks: seq<Block>, clocks: seq<nat>)
    returns (rank: map<SpkiHash, nat>)
    requires Accepted(Start(root), blocks, clocks) && AddOnly(blocks)
    ensures Grounded(After(Start(root), blocks).state, rank)
    ensures forall k :: k in rank ==> rank[k] <= |blocks|
  {
    hide CheckSigned;
    if blocks == [] {
      rank := map[root.spkiHash := 0];
    } else {
      var n := |blocks| - 1;
      var b := blocks[n];
      var before := After(Start(root), blocks[..n]);
      var smaller := AddOnlyGrounded(root, blocks[..n], clocks[..n]);
      CheckedTransaction(before, b, clocks[n]);
      hide CheckTransaction;
      AddKeepsGrounded(before.state, smaller, b.signer, b.time, b.transaction.certificate, |blocks|);
      rank := smaller[b.transaction.certificate.spkiHash := |blocks|];
    }
  }

  lemma SoleRoot(s: StateValue, rank: map<SpkiHash, nat>, k: SpkiHash)
    requires Grounded(s, rank) && k in s.certificates
    ensures s.certificates[k].kind.Root? <==> s.certificates[k] == s.root
  {
    if k != s.root.spkiHash {
      assert BelowIssuer(s, rank, k);
    }
  }

  // ---------------------------------------------------------------------------------------
  // Paths to the root
  // ---------------------------------------------------------------------------------------

  /** The certificates from the root down to a stored key. */
  ghost function PathTo(s: StateValue, rank: map<SpkiHash, nat>, k: SpkiHash): (path: seq<Certificate>)
    requires Grounded(s, rank) && k in s.certificates
    ensures path != [] && path[|path| - 1] == s.certificates[k]
    decreases rank[k]
  {
    if k == s.root.spkiHash then [s.root]
    else
      assert BelowIssuer(s, rank, k);
      PathTo(s, rank, s.certificates[k].issuer) + [s.certificates[k]]
  }

  lemma {:induction false} PathShape(s: StateValue, rank: map<SpkiHash, nat>, k: SpkiHash)
    requires Grounded(s, rank) && k in s.certificates
    ensures var path := PathTo(s, rank, k);
      && path[0] == s.root
      && (forall i :: 0 <= i < |path| ==> path[i].spkiHash in rank && rank[path[i].spkiHash] <= rank[k])
      && (forall i, j :: 0 <= i < j < |path| ==> path[i].spkiHash != path[j].spkiHash)
      && (forall i :: 0 < i < |path| ==> LinkedUp(s.certificates, path, i) && SignedUnder(path[i], path[i - 1]))
    decreases rank[k]
  {
    if k != s.root.spkiHash {
      assert BelowIssuer(s, rank, k);
      var c := s.certificates[k];
      PathShape(s, rank, c.issuer);
      var up, path := PathTo(s, rank, c.issuer), PathTo(s, rank, k);
      forall i | 0 < i < |path| ensures LinkedUp(s.certificates, path, i) && SignedUnder(path[i], path[i - 1]) {
        if i < |up| {
          assert LinkedUp(s.certificates, up, i);
          assert path[i] == up[i] && path[i - 1] == up[i - 1];
        }
      }
    }
  }

  lemma PathIsCompletion(s: StateValue, rank: map<SpkiHash, nat>, k: SpkiHash)
    requires Grounded(s, rank) && k in s.certificates
    ensures Complete(s.certificates, [s.certificates[k]]) == Ok(PathTo(s, rank, k))
  {
    PathShape(s, rank, k);
    CompletionExact(s.certificates, s.certificates[k], PathTo(s, rank, k));
  }

  lemma PathVerifies(s: StateValue, rank: map<SpkiHash, nat>, k: SpkiHash, time: nat)
    requires Grounded(s, rank) && k in s.certificates
    ensures VerifyChain(PathTo(s, rank, k), s.root, time).Ok? <==> LinksValid(PathTo(s, rank, k), time)
    ensures LinksValid(PathTo(s, rank, k), time) ==> VerifyChain(PathTo(s, rank, k), s.root, time) == Ok(PathTo(s, rank, k))
  {
    PathShape(s, rank, k);
    VerifyExact(PathTo(s, rank, k), s.root, time);
  }

  /** Every certificate of a chain but the first is inside its validity window. */
  ghost predicate LinksValid(chain: seq<Certificate>, time: nat) {
    forall i :: 0 < i < |chain| ==> chain[i].ValidAt(time)
  }

  /** What completing and verifying a stored certificate's chain gives in a tree. */
  ghost predicate CompletesToRoot(s: StateValue, k: SpkiHash)
    requires k in s.certificates
  {
    var completed := Complete(s.certificates, [s.certificates[k]]);
    && completed.Ok?
    && completed.value != []
    && completed.value[0] == s.root
    && completed.value[|completed.value| - 1] == s.certificates[k]
    && forall time :: VerifyChain(completed.value, s.root, time).Ok? <==> LinksValid(completed.value, time)
  }

  lemma GroundedCompletes(s: StateValue, rank: map<SpkiHash, nat>, k: SpkiHash)
    requires Grounded(s, rank) && k in s.certificates
    ensures CompletesToRoot(s, k)
  {
    PathIsCompletion(s, rank, k);
    PathShape(s, rank, k);
    hide Complete;
    hide VerifyChain;
    forall time ensures VerifyChain(PathTo(s, rank, k), s.root, time).Ok? <==> LinksValid(PathTo(s, rank, k), time) {
      PathVerifies(s, rank, k, time);
    }
  }

  /** After any accepted run of additions the initial root is the only root-type certificate,
      completing a stored certificate's chain always succeeds and leads to that root, and the
      result verifies at a time exactly when every certificate below the root is valid then. */
  lemma TreeTheorem(root: RootCertificate, blocks: seq<Block>, clocks: seq<nat>, k: SpkiHash)
    requires Accepted(Start(root), blocks, clocks) && AddOnly(blocks)
    requires k in After(Start(root), blocks).state.certificates
    ensures After(Start(root), blocks).state.root == root
    ensures After(Start(root), blocks).state.certificates[k].kind.Root? <==> After(Start(root), blocks).state.certificates[k] == root
    ensures CompletesToRoot(After(Start(root), blocks).state, k)
  {
    hide CheckSigned;
    hide CompletesToRoot;
    RunFromStart(root, blocks, clocks);
    var rank := AddOnlyGrounded(root, blocks, clocks);
    hide Accepted;
    hide After;
    SoleRoot(After(Start(root), blocks).state, rank, k);
    GroundedCompletes(After(Start(root), blocks).state, rank, k);
  }

  /** With a self-issued root, a run of additions never loses an issuer, so its snapshots can
      always be imported. */
  lemma AddOnlyIssuerClosed(root: RootCertificate, blocks: seq<Block>, clocks: seq<nat>)
    requires Accepted(Start(root), blocks, clocks) && AddOnly(blocks)
    requires root.issuer == root.spkiHash
    ensures IssuerClosed(After(Start(root), blocks).state)
  {
    RunFromStart(root, blocks, clocks);
    var rank := AddOnlyGrounded(root, blocks, clocks);
    hide Accepted;
    hide After;
    var s := After(Start(root), blocks).state;
    forall k | k in s.certificates ensures s.certificates[k].issuer in s.certificates {
      if k != root.spkiHash {
        assert BelowIssuer(s, rank, k);
      }
    }
  }

  lemma RemovalFromStore(store: map<SpkiHash, Certificate>, x: SpkiHash, leaf: Certificate)
    ensures
      var was, rest := Complete(store, [leaf]), Complete(store - {x}, [leaf]);
      && (rest.Ok? ==> rest == was)
      && (was.Ok? ==> was.value != [] && (rest.Ok? <==> x !in Keys(was.value[..|was.value| - 1])))
  {
    var was, rest := Complete(store, [leaf]), Complete(store - {x}, [leaf]);
    if was.Ok? {
      CompletionExact(store, leaf, was.value);
      hide Complete;
      RemovalBreaksExactly(store, x, leaf, was.value);
    }
    if rest.Ok? {
      CompletionExact(store - {x}, leaf, rest.value);
      hide Complete;
      RemovalBreaksExactly(store, x, leaf, rest.value);
    }
  }

  /** In any accepted run, a removal breaks the chains of exactly those certificates that stand below the
      removed one; all others complete to the chain they had. */
  lemma RemovalBreaksBelow(root: RootCertificate, blocks: seq<Block>, clocks: seq<nat>, i: nat, k: SpkiHash)
    requires Accepted(Start(root), blocks, clocks) && i < |blocks| && blocks[i].transaction.RemoveExpired?
    requires k in After(Start(root), blocks[..i + 1]).state.certificates
    ensures k in After(Start(root), blocks[..i]).state.certificates
    ensures
      var before, after := After(Start(root), blocks[..i]).state.certificates, After(Start(root), blocks[..i + 1]).state.certificates;
      var was, rest := Complete(before, [before[k]]), Complete(after, [after[k]]);
      && (rest.Ok? ==> rest == was)
      && (was.Ok? ==>
        && was.value != []
        && (rest.Ok? <==> blocks[i].transaction.certificate.spkiHash !in Keys(was.value[..|was.value| - 1])))
  {
    AfterStep(Start(root), blocks, i);
    hide Accepted;
    hide After;
    var before, after := After(Start(root), blocks[..i]).state.certificates, After(Start(root), blocks[..i + 1]).state.certificates;
    assert after == ApplyTransaction(After(Start(root), blocks[..i]).state, blocks[i].transaction).certificates;
    assert after[k] == before[k];
    hide Complete;
    RemovalFromStore(before, blocks[i].transaction.certificate.spkiHash, before[k]);
  }

  // ---------------------------------------------------------------------------------------
  // The two verifiers
  // ---------------------------------------------------------------------------------------

  datatype VerifyError =
    | UnknownCertificate
    | TimerangeError(window: ValidityError)
    | ChainIncomplete(incomplete: CompleteError)
    | ChainError(chain: VerifyChainError)
    | WrongCertificate

  /** Direct lookup in the store. */
  function LookUp(s: StateValue, k: SpkiHash, time: nat): Result<Certificate, VerifyError> {
    if k !in s.certificates then Err(UnknownCertificate)
    else
      match s.certificates[k].CheckValidityAt(time)
      case Fail(e) => Err(TimerangeError(e))
      case Pass => Ok(s.certificates[k])
  }

  /** The chain loader: a session entry comes before the trust store. */
  function LoadChain(s: StateValue, sessions: map<SpkiHash, Certificate>, k: SpkiHash)
    : Result<Option<seq<Certificate>>, CompleteError>
  {
    if k !in sessions && k !in s.certificates then Ok(None)
    else
      var leaf := if k in sessions then sessions[k] else s.certificates[k];
      match Complete(s.certificates, [leaf])
      case Err(e) => Err(e)
      case Ok(chain) => Ok(Some(chain))
  }

  /** Verification by walking the chain to the root. */
  function Walk(s: StateValue, sessions: map<SpkiHash, Certificate>, k: SpkiHash, time: nat): Result<Certificate, VerifyError> {
    match LoadChain(s, sessions, k)
    case Err(e) => Err(ChainIncomplete(e))
    case Ok(None) => Err(UnknownCertificate)
    case Ok(Some(chain)) =>
      match VerifyChain(chain, s.root, time)
      case Err(e) => Err(ChainError(e))
      case Ok(verified) =>
        if verified == [] then Err(WrongCertificate)
        else if verified[|verified| - 1].spkiHash != k then Err(WrongCertificate)
        else Ok(verified[|verified| - 1])
  }

  /** In a tree, the walk accepts a stored key without a session exactly when every certificate on
      its path below the root is valid, and then answers with the stored certificate. */
  lemma WalkExact(s: StateValue, rank: map<SpkiHash, nat>, sessions: map<SpkiHash, Certificate>, k: SpkiHash, time: nat)
    requires Grounded(s, rank) && k in s.certificates && k !in sessions
    ensures Walk(s, sessions, k, time).Ok? <==> LinksValid(PathTo(s, rank, k), time)
    ensures Walk(s, sessions, k, time).Ok? ==> Walk(s, sessions, k, time).value == s.certificates[k]
  {
    PathIsCompletion(s, rank, k);
    PathVerifies(s, rank, k, time);
    hide VerifyChain;
    hide Complete;
  }

  /** Below a stored issuer a certificate completes exactly if its key is not on the issuer's path. */
  lemma CompletionBelow(s: StateValue, rank: map<SpkiHash, nat>, c: Certificate)
    requires Grounded(s, rank) && !c.kind.Root? && c.issuer in s.certificates
    ensures
      var above := PathTo(s, rank, c.issuer);
      && (Complete(s.certificates, [c]).Ok? <==> c.spkiHash !in Keys(above))
      && (Complete(s.certificates, [c]).Ok? ==> Complete(s.certificates, [c]).value == above + [c])
  {
    var above := PathTo(s, rank, c.issuer);
    PathIsCompletion(s, rank, c.issuer);
    CompletionExact(s.certificates, s.certificates[c.issuer], above);
    hide PathTo;
    if c.spkiHash !in Keys(above) {
      PathExtends(s.certificates, above, c);
      CompletionExact(s.certificates, c, above + [c]);
    }
    if Complete(s.certificates, [c]).Ok? {
      var chain := Complete(s.certificates, [c]).value;
      CompletionExact(s.certificates, c, chain);
      var n := |chain| - 1;
      assert n > 0;
      assert LinkedUp(s.certificates, chain, n);
      UpperPath(s.certificates, chain, c, n);
      CompletionExact(s.certificates, s.certificates[c.issuer], chain[..n]);
      DisjointKeys(chain, n);
      assert chain[n..] == [c] && chain == chain[..n] + [c];
      assert c in chain[n..];
    }
  }

  lemma PathExtends(store: map<SpkiHash, Certificate>, above: seq<Certificate>, c: Certificate)
    requires !c.kind.Root? && c.issuer in store && c.issuer == store[c.issuer].spkiHash
    requires IssuerPath(store, above, store[c.issuer]) && c.spkiHash !in Keys(above)
    ensures IssuerPath(store, above + [c], c)
  {
    var chain := above + [c];
    forall i | 0 < i < |chain| ensures LinkedUp(store, chain, i) {
      if i < |above| {
        assert LinkedUp(store, above, i);
      }
    }
    forall i | 0 <= i < |above| ensures above[i].spkiHash != c.spkiHash {
      assert above[i] in above;
    }
  }

  /** A key with a session entry: the walk goes by that entry, whatever the store holds under the key. It
      accepts exactly an entry that stands under its own key and either is the root itself, or has a stored
      issuer whose path does not lead through the key again, is signed under it, and is valid, as are all
      certificates on that path below the root. Then it answers with the entry. */
  lemma WalkOfSession(s: StateValue, rank: map<SpkiHash, nat>, sessions: map<SpkiHash, Certificate>, k: SpkiHash, time: nat)
    requires Grounded(s, rank) && k in sessions
    ensures
      var z := sessions[k];
      && (Walk(s, sessions, k, time).Ok? <==>
        && z.spkiHash == k
        && if z.kind.Root? then z == s.root
           else
             && z.issuer in s.certificates
             && k !in Keys(PathTo(s, rank, z.issuer))
             && SignedUnder(z, s.certificates[z.issuer])
             && z.ValidAt(time)
             && LinksValid(PathTo(s, rank, z.issuer), time))
      && (Walk(s, sessions, k, time).Ok? ==> Walk(s, sessions, k, time).value == z)
  {
    var z := sessions[k];
    var alone: seq<Certificate> := [z];
    if z.kind.Root? {
      assert Reverse(alone) == alone;
      assert Complete(s.certificates, alone) == Ok(alone);
      VerifyExact(alone, s.root, time);
    } else if z.issuer !in s.certificates {
      assert Complete(s.certificates, alone) == Err(NotFound(z.issuer));
    } else {
      var above := PathTo(s, rank, z.issuer);
      CompletionBelow(s, rank, z);
      PathShape(s, rank, z.issuer);
      hide PathTo;
      hide Complete;
      if z.spkiHash !in Keys(above) {
        ExtendedChain(above, z, s.root, time);
      }
    }
    hide VerifyChain;
  }

  /** The same after every accepted run of additions. */
  lemma SessionsAreWalked(
    root: RootCertificate, blocks: seq<Block>, clocks: seq<nat>,
    sessions: map<SpkiHash, Certificate>, k: SpkiHash, time: nat)
    requires Accepted(Start(root), blocks, clocks) && AddOnly(blocks)
    requires k in sessions && !sessions[k].kind.Root?
    ensures
      var s, z := After(Start(root), blocks).state, sessions[k];
      && (z.issuer in s.certificates ==> Complete(s.certificates, [s.certificates[z.issuer]]).Ok?)
      && (Walk(s, sessions, k, time).Ok? <==>
        && z.spkiHash == k
        && z.issuer in s.certificates
        && var above := Complete(s.certificates, [s.certificates[z.issuer]]).value;
          k !in Keys(above) && SignedUnder(z, s.certificates[z.issuer]) && z.ValidAt(time) && LinksValid(above, time))
      && (Walk(s, sessions, k, time).Ok? ==> Walk(s, sessions, k, time).value == z)
  {
    hide CheckSigned;
    var rank := AddOnlyGrounded(root, blocks, clocks);
    hide Accepted;
    hide After;
    var s := After(Start(root), blocks).state;
    hide AddOnly;
    if sessions[k].issuer in s.certificates {
      PathIsCompletion(s, rank, sessions[k].issuer);
    }
    WalkOfSession(s, rank, sessions, k, time);
    hide Walk;
    hide Complete;
    hide PathTo;
  }

  /** Verifying a signed path with one more certificate at its end. */
  lemma ExtendedChain(above: seq<Certificate>, z: Certificate, root: RootCertificate, time: nat)
    requires above != [] && above[0] == root
    requires forall i :: 0 < i < |above| ==> SignedUnder(above[i], above[i - 1])
    ensures VerifyChain(above + [z], root, time).Ok? <==>
      SignedUnder(z, above[|above| - 1]) && z.ValidAt(time) && LinksValid(above, time)
    ensures VerifyChain(above + [z], root, time).Ok? ==> VerifyChain(above + [z], root, time).value == above + [z]
  {
    var chain := above + [z];
    VerifyExact(chain, root, time);
    hide VerifyChain;
    assert chain[|above|] == z && chain[|above| - 1] == above[|above| - 1];
    assert forall i :: 0 <= i < |above| ==> chain[i] == above[i];
    if SignedUnder(z, above[|above| - 1]) && z.ValidAt(time) && LinksValid(above, time) {
      forall i | 0 < i < |chain| ensures SignedUnder(chain[i], chain[i - 1]) && chain[i].ValidAt(time) {
        if i < |above| {
          assert above[i].ValidAt(time);
        }
      }
    }
    if VerifyChain(chain, root, time).Ok? {
      forall i | 0 < i < |above| ensures above[i].ValidAt(time) {
        assert chain[i].ValidAt(time);
      }
    }
  }

  /** Whatever the walk accepts the lookup accepts, with the same certificate; and when the
      lookup accepts, the walk does exactly if all intermediate certificates are valid as well. */
  ghost predicate VerifiersAgree(s: StateValue, sessions: map<SpkiHash, Certificate>, k: SpkiHash, time: nat)
    requires k in s.certificates
  {
    var chain := Complete(s.certificates, [s.certificates[k]]);
    && (Walk(s, sessions, k, time).Ok? ==> LookUp(s, k, time) == Walk(s, sessions, k, time))
    && chain.Ok?
    && chain.value != []
    && (LookUp(s, k, time).Ok? ==>
      (Walk(s, sessions, k, time).Ok? <==> LinksValid(chain.value[..|chain.value| - 1], time)))
  }

  lemma GroundedVerifiersAgree(
    s: StateValue, rank: map<SpkiHash, nat>, sessions: map<SpkiHash, Certificate>, k: SpkiHash, time: nat)
    requires Grounded(s, rank) && k in s.certificates && k != s.root.spkiHash && k !in sessions
    ensures VerifiersAgree(s, sessions, k, time)
  {
    WalkExact(s, rank, sessions, k, time);
    PathIsCompletion(s, rank, k);
    hide Walk;
    hide Complete;
    var path := PathTo(s, rank, k);
    assert |path| > 1 by { assert BelowIssuer(s, rank, k); }
    LastLink(path, time);
    hide LinksValid;
  }

  /** The verifiers agree in this sense after every accepted run of additions, for each stored
      key that is neither the root's nor a session's. */
  lemma LookupAgreesWithWalk(
    root: RootCertificate, blocks: seq<Block>, clocks: seq<nat>,
    sessions: map<SpkiHash, Certificate>, k: SpkiHash, time: nat)
    requires Accepted(Start(root), blocks, clocks) && AddOnly(blocks)
    requires k in After(Start(root), blocks).state.certificates && k != root.spkiHash && k !in sessions
    ensures VerifiersAgree(After(Start(root), blocks).state, sessions, k, time)
  {
    hide CheckSigned;
    hide VerifiersAgree;
    RunFromStart(root, blocks, clocks);
    var rank := AddOnlyGrounded(root, blocks, clocks);
    hide Accepted;
    hide After;
    GroundedVerifiersAgree(After(Start(root), blocks).state, rank, sessions, k, time);
  }

  lemma LastLink(chain: seq<Certificate>, time: nat)
    requires |chain| > 0
    ensures LinksValid(chain, time) <==>
      LinksValid(chain[..|chain| - 1], time) && (|chain| > 1 ==> chain[|chain| - 1].ValidAt(time))
  {
    var front := chain[..|chain| - 1];
    if LinksValid(front, time) && (|chain| > 1 ==> chain[|chain| - 1].ValidAt(time)) {
      forall i | 0 < i < |chain| ensures chain[i].ValidAt(time) {
        if i < |front| {
          assert front[i] == chain[i];
        }
      }
    }
  }

  /** The root is the exception: as long as it is stored, the walk accepts it at any time, the
      lookup only inside its validity window. */
  lemma RootIsNeverRejectedByTheWalk(
    root: RootCertificate, blocks: seq<Block>, clocks: seq<nat>, sessions: map<SpkiHash, Certificate>, time: nat)
    requires Accepted(Start(root), blocks, clocks)
    requires var certificates := After(Start(root), blocks).state.certificates;
      root.spkiHash in certificates && certificates[root.spkiHash] == root
    requires root.spkiHash !in sessions
    ensures Walk(After(Start(root), blocks).state, sessions, root.spkiHash, time) == Ok(root)
    ensures LookUp(After(Start(root), blocks).state, root.spkiHash, time).Ok? <==> root.ValidAt(time)
  {
    hide CheckSigned;
    RunFromStart(root, blocks, clocks);
    hide Accepted;
    hide After;
    var alone: seq<Certificate> := [root];
    assert Reverse(alone) == alone;
    assert Complete(After(Start(root), blocks).state.certificates, alone) == Ok(alone);
    VerifyExact(alone, root, time);
  }
}
