/**
 Certificate chains: the builder that grows from a leaf towards a root, the walk that completes
 it from the trust store, and the verification of a complete chain.
 */
module CertificateChain {
  import opened Outcomes
  import opened Certificates

  function Reverse<T>(s: seq<T>): (r: seq<T>)
    ensures |r| == |s|
    ensures forall i :: 0 <= i < |s| ==> r[i] == s[|s| - 1 - i]
  {
    seq(|s|, i requires 0 <= i < |s| => s[|s| - 1 - i])
  }

  datatype AddError =
    | SignatureLoop(order: seq<Certificate>)
    | WrongParent(expected: SpkiHash, got: SpkiHash)
    | AlreadyFinished

  datatype CompleteError = NotFound(issuer: SpkiHash) | AddCertificate(reason: AddError)

  /** The certificates are kept leaf first. */
  class CertificateChainBuilder {
    var certificates: seq<Certificate>
    var knownSpkiHashes: set<SpkiHash>

    ghost predicate Valid()
      reads this
    {
      certificates != [] && knownSpkiHashes == Keys(certificates)
    }

    constructor (leaf: Certificate)
      ensures Valid() && certificates == [leaf]
    {
      certificates := [leaf];
      knownSpkiHashes := {leaf.spkiHash};
    }

    method PushParent(parent: Certificate) returns (r: Outcome<AddError>)
      requires Valid()
      modifies this
      ensures r == PushResult(old(certificates), parent)
      ensures certificates == if r.Pass? then old(certificates) + [parent] else old(certificates)
      ensures Valid()
    {
      var last := certificates[|certificates| - 1];
      if last.kind.Root? {
        return Fail(AlreadyFinished);
      }
      if last.issuer != parent.spkiHash {
        return Fail(WrongParent(last.spkiHash, parent.spkiHash));
      }
      if parent.spkiHash in knownSpkiHashes {
        return Fail(SignatureLoop(certificates + [parent]));
      }
      knownSpkiHashes := knownSpkiHashes + {parent.spkiHash};
      certificates := certificates + [parent];
      return Pass;
    }

    method RequestedIssuer() returns (issuer: Option<SpkiHash>)
      requires Valid()
      ensures issuer == RequestedBy(certificates[|certificates| - 1])
    {
      var last := certificates[|certificates| - 1];
      issuer := if last.kind.Root? then None else Some(last.issuer);
    }

    /** Root first, or nothing when the builder has not reached a root. */
    method Finish() returns (r: Option<seq<Certificate>>)
      requires Valid()
      ensures r == if certificates[|certificates| - 1].kind.Root? then Some(Reverse(certificates)) else None
    {
      r := if certificates[|certificates| - 1].kind.Root? then Some(Reverse(certificates)) else None;
    }
  }

  function RequestedBy(c: Certificate): Option<SpkiHash> {
    if c.kind.Root? then None else Some(c.issuer)
  }

  function PushResult(certificates: seq<Certificate>, parent: Certificate): Outcome<AddError>
    requires certificates != []
  {
    var last := certificates[|certificates| - 1];
    if last.kind.Root? then Fail(AlreadyFinished)
    else if last.issuer != parent.spkiHash then Fail(WrongParent(last.spkiHash, parent.spkiHash))
    else if parent.spkiHash in Keys(certificates) then Fail(SignatureLoop(certificates + [parent]))
    else Pass
  }

  // ---------------------------------------------------------------------------------------
  // Completing a chain from a store
  // ---------------------------------------------------------------------------------------

  /** What is left to be pushed: the stored keys that are not on the chain yet. */
  function Remaining(store: map<SpkiHash, Certificate>, certificates: seq<Certificate>): set<SpkiHash> {
    store.Keys - Keys(certificates)
  }

  lemma PushShrinks(store: map<SpkiHash, Certificate>, certificates: seq<Certificate>, parent: Certificate)
    requires parent.spkiHash in store && parent.spkiHash !in Keys(certificates)
    ensures Keys(certificates + [parent]) == Keys(certificates) + {parent.spkiHash}
    ensures |Remaining(store, certificates + [parent])| == |Remaining(store, certificates)| - 1
  {
    var left := Remaining(store, certificates);
    assert Keys(certificates + [parent]) == Keys(certificates) + {parent.spkiHash} by {
      assert parent in certificates + [parent];
      assert forall c :: c in certificates + [parent] <==> c in certificates || c == parent;
    }
    assert Remaining(store, certificates + [parent]) == left - {parent.spkiHash};
    assert parent.spkiHash in left;
  }

  /** The walk up the issuers, from a partial chain kept leaf first. */
  function Complete(store: map<SpkiHash, Certificate>, certificates: seq<Certificate>): Result<seq<Certificate>, CompleteError>
    requires certificates != []
    decreases |Remaining(store, certificates)|
  {
    var last := certificates[|certificates| - 1];
    if last.kind.Root? then Ok(Reverse(certificates))
    else if last.issuer !in store then Err(NotFound(last.issuer))
    else
      var parent := store[last.issuer];
      var pushed := PushResult(certificates, parent);
      if pushed.Fail? then Err(AddCertificate(pushed.error))
      else
        PushShrinks(store, certificates, parent);
        Complete(store, certificates + [parent])
  }

  /** One turn of the walk. */
  lemma CompleteStep(store: map<SpkiHash, Certificate>, certificates: seq<Certificate>)
    requires certificates != []
    ensures
      var last := certificates[|certificates| - 1];
      if last.kind.Root? then Complete(store, certificates) == Ok(Reverse(certificates))
      else if last.issuer !in store then Complete(store, certificates) == Err(NotFound(last.issuer))
      else
        var parent := store[last.issuer];
        var pushed := PushResult(certificates, parent);
        if pushed.Fail? then Complete(store, certificates) == Err(AddCertificate(pushed.error))
        else
          && parent.spkiHash in store && parent.spkiHash !in Keys(certificates)
          && Complete(store, certificates) == Complete(store, certificates + [parent])
  {
  }

  /** The loop terminates on every store, issuer cycles included, after at most one push for
      each stored key, and the builder is always finished when it ends without an error. */
  method CompleteCertificateChain(store: map<SpkiHash, Certificate>, leaf: Certificate)
    returns (r: Result<seq<Certificate>, CompleteError>, ghost pushes: nat)
    ensures r == Complete(store, [leaf])
    ensures pushes <= |store|
    ensures r.Ok? ==> |r.value| == pushes + 1
  {
    var builder := new CertificateChainBuilder(leaf);
    pushes := 0;
    RemainingBound(store, [leaf]);
    hide Keys;
    hide Remaining;
    hide Complete;
    hide PushResult;
    while true
      invariant builder.Valid() && fresh(builder)
      invariant Complete(store, builder.certificates) == Complete(store, [leaf])
      invariant pushes + |Remaining(store, builder.certificates)| <= |store|
      invariant |builder.certificates| == pushes + 1
      decreases |Remaining(store, builder.certificates)|
    {
      CompleteStep(store, builder.certificates);
      var issuer := builder.RequestedIssuer();
      if issuer.None? {
        break;
      }
      if issuer.value !in store {
        return Err(NotFound(issuer.value)), pushes;
      }
      var parent := store[issuer.value];
      ghost var before := builder.certificates;
      var pushed := builder.PushParent(parent);
      if pushed.Fail? {
        return Err(AddCertificate(pushed.error)), pushes;
      }
      PushShrinks(store, before, parent);
      pushes := pushes + 1;
    }
    var finished := builder.Finish();
    r := Ok(finished.value);  // the program's `expect`: the builder is finished here
  }

  lemma RemainingBound(store: map<SpkiHash, Certificate>, certificates: seq<Certificate>)
    ensures |Remaining(store, certificates)| <= |store|
  {
    CardinalityOfDifference(store.Keys, Keys(certificates));
    assert |store.Keys| == |store|;
  }

  lemma CardinalityOfDifference(a: set<SpkiHash>, b: set<SpkiHash>)
    ensures |a - b| <= |a|
  {
    assert (a - b) + (a * b) == a;
    assert |a - b| + |a * b| == |a|;
  }

  /** An issuer path inside a store: root first, leaf last, each step going through the store,
      no key twice, and no root-type certificate but the first. */
  ghost predicate IssuerPath(store: map<SpkiHash, Certificate>, chain: seq<Certificate>, leaf: Certificate) {
    && chain != []
    && chain[0].kind.Root?
    && chain[|chain| - 1] == leaf
    && (forall i :: 0 < i < |chain| ==> LinkedUp(store, chain, i))
    && (forall i, j :: 0 <= i < j < |chain| ==> chain[i].spkiHash != chain[j].spkiHash)
  }

  ghost predicate LinkedUp(store: map<SpkiHash, Certificate>, chain: seq<Certificate>, i: nat)
    requires 0 < i < |chain|
  {
    FoundIn(store, chain[i], chain[i - 1])
  }

  ghost predicate FoundIn(store: map<SpkiHash, Certificate>, child: Certificate, parent: Certificate) {
    !child.kind.Root? && child.issuer in store && store[child.issuer] == parent && child.issuer == parent.spkiHash
  }

  /** A partial chain the walk can be in: leaf first, linked, without repeated keys. */
  ghost predicate Partial(store: map<SpkiHash, Certificate>, certificates: seq<Certificate>) {
    && certificates != []
    && (forall i :: 0 <= i < |certificates| - 1 ==> FoundIn(store, certificates[i], certificates[i + 1]))
    && (forall i, j :: 0 <= i < j < |certificates| ==> certificates[i].spkiHash != certificates[j].spkiHash)
  }

  lemma PartialPush(store: map<SpkiHash, Certificate>, certificates: seq<Certificate>)
    requires Partial(store, certificates)
    requires var last := certificates[|certificates| - 1];
      !last.kind.Root? && last.issuer in store && PushResult(certificates, store[last.issuer]).Pass?
    ensures Partial(store, certificates + [store[certificates[|certificates| - 1].issuer]])
  {
    var parent := store[certificates[|certificates| - 1].issuer];
    forall i | 0 <= i < |certificates| ensures certificates[i].spkiHash != parent.spkiHash {
      assert certificates[i].spkiHash in Keys(certificates);
    }
  }

  lemma PartialToPath(store: map<SpkiHash, Certificate>, certificates: seq<Certificate>)
    requires Partial(store, certificates)
    requires certificates[|certificates| - 1].kind.Root?
    ensures IssuerPath(store, Reverse(certificates), certificates[0])
  {
    var chain := Reverse(certificates);
    forall i | 0 < i < |chain| ensures LinkedUp(store, chain, i) {
      var j := |certificates| - i;
      assert chain[i] == certificates[j - 1] && chain[i - 1] == certificates[j];
    }
  }

  /** Whatever the walk returns is an issuer path of its leaf. */
  lemma {:induction false} CompletionIsPath(store: map<SpkiHash, Certificate>, certificates: seq<Certificate>)
    requires Partial(store, certificates)
    requires Complete(store, certificates).Ok?
    ensures IssuerPath(store, Complete(store, certificates).value, certificates[0])
    decreases |Remaining(store, certificates)|
  {
    var last := certificates[|certificates| - 1];
    if last.kind.Root? {
      PartialToPath(store, certificates);
    } else {
      var parent := store[last.issuer];
      PushShrinks(store, certificates, parent);
      PartialPush(store, certificates);
      CompletionIsPath(store, certificates + [parent]);
    }
  }

  /** If the leaf has an issuer path, the walk follows it to its end. */
  lemma {:induction false} WalkFollowsPath(store: map<SpkiHash, Certificate>, chain: seq<Certificate>, leaf: Certificate, n: nat)
    requires IssuerPath(store, chain, leaf) && 0 < n <= |chain|
    ensures Complete(store, Reverse(chain)[..n]) == Ok(chain)
    decreases |chain| - n
  {
    var up := Reverse(chain);
    var certificates := up[..n];
    if n == |chain| {
      assert certificates == up && Reverse(up) == chain;
    } else {
      var i := |chain| - n;
      assert LinkedUp(store, chain, i);
      assert certificates[n - 1] == chain[i];
      var parent := store[chain[i].issuer];
      assert parent == up[n];
      forall c | c in certificates ensures c.spkiHash != parent.spkiHash {
        var j :| 0 <= j < n && certificates[j] == c;
        assert c == chain[|chain| - 1 - j];
      }
      assert certificates + [parent] == up[..n + 1];
      WalkFollowsPath(store, chain, leaf, n + 1);
    }
  }

  /** Completion succeeds exactly on the certificates that have an issuer path in the store, and
      then returns that path, which is therefore unique. */
  lemma CompletionExact(store: map<SpkiHash, Certificate>, leaf: Certificate, chain: seq<Certificate>)
    ensures Complete(store, [leaf]) == Ok(chain) <==> IssuerPath(store, chain, leaf)
  {
    if Complete(store, [leaf]) == Ok(chain) {
      CompletionIsPath(store, [leaf]);
    }
    if IssuerPath(store, chain, leaf) {
      WalkFollowsPath(store, chain, leaf, 1);
      assert Reverse(chain)[..1] == [leaf];
    }
  }

  /** Adding certificates under new keys never changes a completed chain. */
  lemma CompletionStable(store: map<SpkiHash, Certificate>, more: map<SpkiHash, Certificate>, leaf: Certificate)
    requires store.Keys <= more.Keys && forall k :: k in store ==> more[k] == store[k]
    requires Complete(store, [leaf]).Ok?
    ensures Complete(more, [leaf]) == Complete(store, [leaf])
  {
    var chain := Complete(store, [leaf]).value;
    CompletionExact(store, leaf, chain);
    forall i | 0 < i < |chain| ensures LinkedUp(more, chain, i) {
      assert LinkedUp(store, chain, i);
    }
    CompletionExact(more, leaf, chain);
  }

  // ---------------------------------------------------------------------------------------
  // What removing a certificate, or putting another one under its key, does to a path
  // ---------------------------------------------------------------------------------------

  /** After a key is removed, exactly those chains still complete, unchanged, on which the key does not
      stand above the leaf; and no new ones do. */
  lemma RemovalBreaksExactly(store: map<SpkiHash, Certificate>, x: SpkiHash, leaf: Certificate, chain: seq<Certificate>)
    requires chain != []
    ensures Complete(store - {x}, [leaf]) == Ok(chain) <==>
      Complete(store, [leaf]) == Ok(chain) && x !in Keys(chain[..|chain| - 1])
  {
    CompletionExact(store, leaf, chain);
    CompletionExact(store - {x}, leaf, chain);
    hide Complete;
    var front := chain[..|chain| - 1];
    if IssuerPath(store, chain, leaf) && x !in Keys(front) {
      forall i | 0 < i < |chain| ensures LinkedUp(store - {x}, chain, i) {
        assert LinkedUp(store, chain, i) && front[i - 1] in front;
      }
    }
    if IssuerPath(store - {x}, chain, leaf) {
      forall i | 0 < i < |chain| ensures LinkedUp(store, chain, i) {
        assert LinkedUp(store - {x}, chain, i);
      }
      forall k | 0 <= k < |front| ensures front[k].spkiHash != x {
        assert LinkedUp(store - {x}, chain, k + 1);
      }
    }
  }

  /** Two paths of one leaf, in stores that differ only under x, agree below x. */
  lemma {:induction false} SameBelow(
    store: map<SpkiHash, Certificate>, chain: seq<Certificate>, i: nat,
    more: map<SpkiHash, Certificate>, path: seq<Certificate>, leaf: Certificate, j: nat)
    requires IssuerPath(store, chain, leaf) && IssuerPath(more, path, leaf)
    requires i + j < |chain|
    requires forall k :: k in store && k != chain[i].spkiHash ==> k in more && more[k] == store[k]
    ensures j < |path|
    ensures i + j < |chain| - 1 ==> path[|path| - 1 - j] == chain[|chain| - 1 - j]
    ensures j > 0 && i + j == |chain| - 1 ==>
      chain[i].spkiHash in more && path[|path| - 1 - j] == more[chain[i].spkiHash]
  {
    if j > 0 {
      SameBelow(store, chain, i, more, path, leaf, j - 1);
      var m, n := |path| - j, |chain| - j;
      assert path[m] == chain[n] && LinkedUp(store, chain, n);
      assert m > 0;
      assert LinkedUp(more, path, m);
    }
  }

  /** Other keys on a path than one of its own are left as they were by a change under that one. */
  lemma Grafted(
    store: map<SpkiHash, Certificate>, chain: seq<Certificate>, leaf: Certificate, i: nat,
    c: Certificate, up: seq<Certificate>)
    requires IssuerPath(store, chain, leaf) && i < |chain| - 1 && c.spkiHash == chain[i].spkiHash
    requires IssuerPath(store[c.spkiHash := c], up, c)
    requires Keys(up) !! Keys(chain[i + 1..])
    ensures IssuerPath(store[c.spkiHash := c], up + chain[i + 1..], leaf)
  {
    var more, below := store[c.spkiHash := c], chain[i + 1..];
    var path := up + below;
    forall j | 0 < j < |path| ensures LinkedUp(more, path, j) {
      if j < |up| {
        assert LinkedUp(more, up, j);
      } else {
        assert LinkedUp(store, chain, j - |up| + i + 1);
      }
    }
    forall a, b | 0 <= a < b < |path| ensures path[a].spkiHash != path[b].spkiHash {
      if a < |up| <= b {
        assert up[a] in up && below[b - |up|] in below;
        assert path[a].spkiHash in Keys(up) && path[b].spkiHash in Keys(below);
      }
    }
  }

  lemma DisjointKeys(path: seq<Certificate>, m: nat)
    requires m <= |path|
    requires forall i, j :: 0 <= i < j < |path| ==> path[i].spkiHash != path[j].spkiHash
    ensures Keys(path[..m]) !! Keys(path[m..])
  {
    var up, below := path[..m], path[m..];
    forall a, b | a in up && b in below ensures a.spkiHash != b.spkiHash {
      var i :| 0 <= i < |up| && up[i] == a;
      var j :| 0 <= j < |below| && below[j] == b;
      assert path[i] == a && path[m + j] == b;
    }
  }

  lemma UpperPath(store: map<SpkiHash, Certificate>, path: seq<Certificate>, leaf: Certificate, m: nat)
    requires IssuerPath(store, path, leaf) && 0 < m <= |path|
    ensures IssuerPath(store, path[..m], path[m - 1])
  {
    forall j | 0 < j < m ensures LinkedUp(store, path[..m], j) {
      assert LinkedUp(store, path, j);
    }
  }

  lemma PathSplits(
    store: map<SpkiHash, Certificate>, chain: seq<Certificate>, leaf: Certificate, i: nat,
    c: Certificate, path: seq<Certificate>) returns (m: nat)
    requires IssuerPath(store, chain, leaf) && i < |chain| - 1 && c.spkiHash == chain[i].spkiHash
    requires IssuerPath(store[c.spkiHash := c], path, leaf)
    ensures 0 < m <= |path| && path[m - 1] == c && path[m..] == chain[i + 1..]
  {
    var more, below := store[c.spkiHash := c], chain[i + 1..];
    SameBelow(store, chain, i, more, path, leaf, |below|);
    m := |path| - |below|;
    forall j | 0 <= j < |below| ensures path[m + j] == below[j] {
      SameBelow(store, chain, i, more, path, leaf, |below| - 1 - j);
    }
  }

  lemma Ungrafted(
    store: map<SpkiHash, Certificate>, chain: seq<Certificate>, leaf: Certificate, i: nat,
    c: Certificate, path: seq<Certificate>) returns (up: seq<Certificate>)
    requires IssuerPath(store, chain, leaf) && i < |chain| - 1 && c.spkiHash == chain[i].spkiHash
    requires IssuerPath(store[c.spkiHash := c], path, leaf)
    ensures IssuerPath(store[c.spkiHash := c], up, c)
    ensures Keys(up) !! Keys(chain[i + 1..])
    ensures path == up + chain[i + 1..]
  {
    var m := PathSplits(store, chain, leaf, i, c, path);
    up := path[..m];
    DisjointKeys(path, m);
    UpperPath(store[c.spkiHash := c], path, leaf, m);
    hide Keys;
  }

  /** Putting another certificate under the key of one that stands above a leaf, as a later addition under
      a removed key does: the leaf's chain completes exactly when the new certificate's own chain
      completes and holds nobody from below; it is then the new chain with the old lower part. */
  lemma ReplacementGrafts(store: map<SpkiHash, Certificate>, chain: seq<Certificate>, leaf: Certificate, i: nat, c: Certificate)
    requires Complete(store, [leaf]) == Ok(chain)
    requires i < |chain| - 1 && c.spkiHash == chain[i].spkiHash
    ensures
      var more := store[c.spkiHash := c];
      var above, whole := Complete(more, [c]), Complete(more, [leaf]);
      && (whole.Ok? <==> above.Ok? && Keys(above.value) !! Keys(chain[i + 1..]))
      && (whole.Ok? ==> whole.value == above.value + chain[i + 1..])
  {
    var more := store[c.spkiHash := c];
    var above, whole := Complete(more, [c]), Complete(more, [leaf]);
    CompletionExact(store, leaf, chain);
    if above.Ok? && Keys(above.value) !! Keys(chain[i + 1..]) {
      CompletionExact(more, c, above.value);
      Grafted(store, chain, leaf, i, c, above.value);
      CompletionExact(more, leaf, above.value + chain[i + 1..]);
    }
    if whole.Ok? {
      CompletionExact(more, leaf, whole.value);
      var up := Ungrafted(store, chain, leaf, i, c, whole.value);
      CompletionExact(more, c, up);
    }
  }

  // ---------------------------------------------------------------------------------------
  // Verifying a complete chain
  // ---------------------------------------------------------------------------------------

  datatype VerifyChainError =
    | EmptyChain
    | WrongRoot(expected: Certificate, found: Certificate)
    | SignatureVerificationFailed(reason: SignatureError)

  /** The first link that fails, from position i on. */
  function FirstBadLink(chain: seq<Certificate>, i: nat, time: nat): Option<SignatureError>
    requires 0 < i <= |chain|
    decreases |chain| - i
  {
    if i == |chain| then None
    else
      match chain[i].VerifySignature(chain[i - 1], time)
      case Fail(e) => Some(e)
      case Pass => FirstBadLink(chain, i + 1, time)
  }

  function VerifyChain(chain: seq<Certificate>, root: RootCertificate, time: nat): Result<seq<Certificate>, VerifyChainError> {
    if chain == [] then Err(EmptyChain)
    else if Der(chain[0]) != Der(root) then Err(WrongRoot(root, chain[0]))
    else
      match FirstBadLink(chain, 1, time)
      case Some(e) => Err(SignatureVerificationFailed(e))
      case None => Ok(chain)
  }

  method Verify(chain: seq<Certificate>, root: RootCertificate, time: nat) returns (r: Result<seq<Certificate>, VerifyChainError>)
    ensures r == VerifyChain(chain, root, time)
  {
    if chain == [] {
      return Err(EmptyChain);
    }
    if Der(chain[0]) != Der(root) {
      return Err(WrongRoot(root, chain[0]));
    }
    DerInjective(chain[0], root);
    hide Der;
    var verified: seq<Certificate> := [root];
    for i := 1 to |chain|
      invariant verified == chain[..i]
      invariant FirstBadLink(chain, 1, time) == FirstBadLink(chain, i, time)
    {
      var parent := verified[|verified| - 1];
      var link := chain[i].VerifySignature(parent, time);
      if link.Fail? {
        return Err(SignatureVerificationFailed(link.error));
      }
      verified := verified + [chain[i]];
    }
    assert chain[..|chain|] == chain;
    return Ok(verified);
  }

  lemma {:induction false} NoBadLink(chain: seq<Certificate>, i: nat, time: nat)
    requires 0 < i <= |chain|
    ensures FirstBadLink(chain, i, time).None? <==>
      forall j :: i <= j < |chain| ==> SignedUnder(chain[j], chain[j - 1]) && chain[j].ValidAt(time)
    decreases |chain| - i
  {
    if i < |chain| {
      VerifyMeaning(chain[i], chain[i - 1], time);
      NoBadLink(chain, i + 1, time);
    }
  }

  /** A chain verifies exactly when it starts at the given root and every other certificate is
      signed by the one before it, may be, and is valid now. The root's own window is not read. */
  lemma VerifyExact(chain: seq<Certificate>, root: RootCertificate, time: nat)
    ensures VerifyChain(chain, root, time).Ok? <==>
      && chain != []
      && chain[0] == root
      && forall i :: 0 < i < |chain| ==> SignedUnder(chain[i], chain[i - 1]) && chain[i].ValidAt(time)
    ensures VerifyChain(chain, root, time).Ok? ==> VerifyChain(chain, root, time).value == chain
  {
    if chain != [] {
      DerInjective(chain[0], root);
      NoBadLink(chain, 1, time);
    }
  }
}
