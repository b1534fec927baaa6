/**
 The replicated state: certificates keyed by public key hash, and the two transactions on it.
 The functions say what each operation does to the state's value; the class updates the map in
 place the way the program does and is proved against them.
 */
module TrustState {
  import opened Outcomes
  import opened Certificates
  import Encoding

  datatype Transaction = Add(certificate: Certificate) | RemoveExpired(certificate: Certificate)

  datatype Error =
    | SignerNotKnown
    | IssuerIsNotSigner
    | CertificateAlreadyExists
    | CertificateInvalid(reason: SignatureError)
    | CertificateNotExpired
    | CertificateNotFound
    | CertificateDoesNotMatch

  datatype ImportError = NotARoot | MissingIssuers(missing: set<SpkiHash>) | IncorrectStateDigest

  datatype StateValue = StateValue(root: RootCertificate, certificates: map<SpkiHash, Certificate>)

  datatype ExportedState = ExportedState(root: Certificate, certificates: seq<Certificate>)

  function InitialState(root: RootCertificate): StateValue {
    StateValue(root, map[root.spkiHash := root])
  }

  /** Every certificate is stored under its own key hash. */
  predicate KeyConsistent(s: StateValue) {
    forall k :: k in s.certificates ==> s.certificates[k].spkiHash == k
  }

  /** Every stored certificate's issuer is stored as well. */
  predicate IssuerClosed(s: StateValue) {
    forall k {:trigger s.certificates[k]} :: k in s.certificates ==> s.certificates[k].issuer in s.certificates
  }

  function CheckTransaction(s: StateValue, signer: SpkiHash, time: nat, tx: Transaction): Outcome<Error> {
    if signer !in s.certificates then Fail(SignerNotKnown)
    else
      match tx
      case Add(c) =>
        if c.spkiHash in s.certificates then Fail(CertificateAlreadyExists)
        else if s.certificates[signer].spkiHash != c.issuer then Fail(IssuerIsNotSigner)
        else (
          match c.VerifySignature(s.certificates[signer], time)
          case Fail(e) => Fail(CertificateInvalid(e))
          case Pass => Pass)
      case RemoveExpired(c) =>
        if c.spkiHash !in s.certificates then Fail(CertificateNotFound)
        else if Der(s.certificates[c.spkiHash]) != Der(c) then Fail(CertificateDoesNotMatch)
        else if c.CheckValidityAt(time).Pass? then Fail(CertificateNotExpired)
        else Pass
  }

  /** What `apply` relies on: without it one of its two `expect` calls panics. */
  predicate CanApply(s: StateValue, time: nat, tx: Transaction) {
    tx.Add? ==>
      && tx.certificate.issuer in s.certificates
      && tx.certificate.VerifySignature(s.certificates[tx.certificate.issuer], time).Pass?
  }

  function ApplyTransaction(s: StateValue, tx: Transaction): StateValue {
    match tx
    case Add(c) => s.(certificates := s.certificates[c.spkiHash := c])
    case RemoveExpired(c) => s.(certificates := s.certificates - {c.spkiHash})
  }

  function RevertTransaction(s: StateValue, tx: Transaction): StateValue {
    match tx
    case Add(c) => s.(certificates := s.certificates - {c.spkiHash})
    case RemoveExpired(c) => s.(certificates := s.certificates[c.spkiHash := c])
  }

  /** Comparing stored bytes is comparing certificates. */
  lemma StoredBytesCompared(s: StateValue, c: Certificate)
    ensures c.spkiHash in s.certificates ==> (Der(s.certificates[c.spkiHash]) == Der(c) <==> s.certificates[c.spkiHash] == c)
  {
    if c.spkiHash in s.certificates {
      DerInjective(s.certificates[c.spkiHash], c);
    }
  }

  /** A passing check makes `apply` safe and `revert` exact. */
  lemma RevertUndoesApply(s: StateValue, signer: SpkiHash, time: nat, tx: Transaction)
    requires KeyConsistent(s)
    requires CheckTransaction(s, signer, time, tx).Pass?
    ensures CanApply(s, time, tx)
    ensures RevertTransaction(ApplyTransaction(s, tx), tx) == s
    ensures KeyConsistent(ApplyTransaction(s, tx))
  {
    StoredBytesCompared(s, tx.certificate);
    hide Der;
    var back := RevertTransaction(ApplyTransaction(s, tx), tx);
    assert back.certificates.Keys == s.certificates.Keys;
    assert tx.RemoveExpired? ==> s.certificates[tx.certificate.spkiHash] == tx.certificate;
    assert back.certificates == s.certificates;
  }

  /** What a passing check lets a transaction do to one key: keep it, add it inside its validity
      window under its issuer's signature, or remove it outside that window. */
  lemma TransactionEffect(s: StateValue, signer: SpkiHash, time: nat, tx: Transaction, k: SpkiHash)
    requires KeyConsistent(s)
    requires CheckTransaction(s, signer, time, tx).Pass?
    ensures
      var before, after := s.certificates, ApplyTransaction(s, tx).certificates;
      && (k in before && k in after ==> after[k] == before[k])
      && (k !in before && k in after ==>
        && tx == Add(after[k])
        && after[k].ValidAt(time)
        && after[k].issuer == after[k].signedBy == signer)
      && (k in before && k !in after ==> tx == RemoveExpired(before[k]) && !before[k].ValidAt(time))
  {
    StoredBytesCompared(s, tx.certificate);
    hide Der;
  }

  /** A transaction passes exactly when a stored key signs it and it adds, under a fresh key, a
      currently valid certificate which that signer issued, signed and may sign, or removes a
      stored certificate that is not currently valid. */
  lemma TransactionAccepted(s: StateValue, signer: SpkiHash, time: nat, tx: Transaction)
    requires KeyConsistent(s)
    ensures CheckTransaction(s, signer, time, tx).Pass? <==>
      && signer in s.certificates
      && var c := tx.certificate;
        if tx.Add? then
          c.spkiHash !in s.certificates && c.issuer == signer && SignedUnder(c, s.certificates[signer]) && c.ValidAt(time)
        else
          c in s.certificates.Values && !c.ValidAt(time)
  {
    StoredBytesCompared(s, tx.certificate);
    hide Der;
    if signer in s.certificates {
      VerifyMeaning(tx.certificate, s.certificates[signer], time);
    }
    if tx.certificate in s.certificates.Values {
      var k :| k in s.certificates && s.certificates[k] == tx.certificate;
      assert k == tx.certificate.spkiHash;
    }
  }

  /** No other stored certificate was issued by this one. */
  predicate Childless(s: StateValue, c: Certificate) {
    forall k {:trigger s.certificates[k]} :: k in s.certificates && k != c.spkiHash ==> s.certificates[k].issuer != c.spkiHash
  }

  /** While every issuer is stored, an addition keeps it so, and a removal does exactly when the removed
      certificate issued no other one. */
  lemma StepOnIssuerClosed(s: StateValue, signer: SpkiHash, time: nat, tx: Transaction)
    requires KeyConsistent(s) && IssuerClosed(s)
    requires CheckTransaction(s, signer, time, tx).Pass?
    ensures IssuerClosed(ApplyTransaction(s, tx)) <==> tx.Add? || Childless(s, tx.certificate)
  {
    TransactionAccepted(s, signer, time, tx);
    hide CheckTransaction;
    var t := ApplyTransaction(s, tx);
    if tx.Add? {
      forall k | k in t.certificates ensures t.certificates[k].issuer in t.certificates {
        assert k in s.certificates ==> s.certificates[k].issuer in s.certificates;
      }
    } else if IssuerClosed(t) {
      forall k | k in s.certificates && k != tx.certificate.spkiHash ensures s.certificates[k].issuer != tx.certificate.spkiHash {
        assert t.certificates[k].issuer in t.certificates;
      }
    }
  }

  // ---------------------------------------------------------------------------------------
  // The hashed form of a state
  // ---------------------------------------------------------------------------------------

  function CertificatesAt(certificates: map<SpkiHash, Certificate>, keys: seq<SpkiHash>): seq<Certificate>
    requires forall k :: k in keys ==> k in certificates
  {
    seq(|keys|, i requires 0 <= i < |keys| => assert keys[i] in keys; certificates[keys[i]])
  }

  /** The stored certificates in the order of their keys. */
  ghost function Listing(s: StateValue): seq<Certificate> {
    CertificatesAt(s.certificates, Encoding.SortedKeys(s.certificates.Keys))
  }

  /** The bytes that are hashed: the root, then the certificates. */
  ghost function StateBytes(s: StateValue): seq<Piece> {
    Encoding.Concat(Der, [s.root] + Listing(s))
  }

  ghost function StateDigest(s: StateValue): Digest {
    Sha512(StateBytes(s))
  }

  /** A key and its certificate sit at the same place in two states with the same list. */
  lemma EntryOfList(s: StateValue, t: StateValue, k: SpkiHash)
    requires KeyConsistent(s) && KeyConsistent(t)
    requires Listing(s) == Listing(t)
    requires k in s.certificates
    ensures k in t.certificates && t.certificates[k] == s.certificates[k]
  {
    hide Der;
    Encoding.SortedKeysSorted(s.certificates.Keys);
    Encoding.SortedKeysSorted(t.certificates.Keys);
    hide Encoding.SortedKeys;
    var ks, kt := Encoding.SortedKeys(s.certificates.Keys), Encoding.SortedKeys(t.certificates.Keys);
    var cs, ct := CertificatesAt(s.certificates, ks), CertificatesAt(t.certificates, kt);
    assert k in ks;
    var i :| 0 <= i < |ks| && ks[i] == k;
    assert cs[i] == s.certificates[k];
    assert ct[i] == t.certificates[kt[i]];
    assert kt[i] in kt;
  }

  lemma ListingDeterminesMap(s: StateValue, t: StateValue)
    requires KeyConsistent(s) && KeyConsistent(t) && Listing(s) == Listing(t)
    ensures s.certificates == t.certificates
  {
    hide Listing;
    forall k | k in s.certificates ensures k in t.certificates && t.certificates[k] == s.certificates[k] {
      EntryOfList(s, t, k);
    }
    forall k | k in t.certificates ensures k in s.certificates {
      EntryOfList(t, s, k);
    }
  }

  /** No stored certificate, nor the root, has bytes behind it. */
  ghost predicate CleanState(s: StateValue) {
    Clean(s.root) && forall k :: k in s.certificates ==> Clean(s.certificates[k])
  }

  lemma ListedCertificate(s: StateValue, c: Certificate)
    requires c in Listing(s)
    ensures exists k :: k in s.certificates && s.certificates[k] == c
  {
    Encoding.SortedKeysSorted(s.certificates.Keys);
    hide Encoding.SortedKeys;
    var keys := Encoding.SortedKeys(s.certificates.Keys);
    var i :| 0 <= i < |Listing(s)| && Listing(s)[i] == c;
    assert keys[i] in keys && s.certificates[keys[i]] == c;
  }

  /** Between states without trailing bytes the hashed bytes determine the root and the whole
      certificate map. */
  lemma CleanBytesDetermine(s: StateValue, t: StateValue)
    requires KeyConsistent(s) && KeyConsistent(t)
    requires CleanState(s) && CleanState(t)
    requires StateBytes(s) == StateBytes(t)
    ensures s == t
  {
    DerPrefixFree();
    var xs, ys := [s.root] + Listing(s), [t.root] + Listing(t);
    forall c | c in Listing(s) ensures Clean(c) {
      ListedCertificate(s, c);
    }
    forall c | c in Listing(t) ensures Clean(c) {
      ListedCertificate(t, c);
    }
    hide Der;
    hide Listing;
    Encoding.UniqueDecoding(Der, Clean, xs, ys);
    assert xs[0] == ys[0] && xs[1..] == ys[1..];
    ListingDeterminesMap(s, t);
  }

  /** A state without trailing bytes shares its hashed bytes with no other such state; and whatever
      state has the same bytes is the same exactly when it has no trailing bytes either. */
  lemma StateBytesCanonical(s: StateValue, t: StateValue)
    requires KeyConsistent(s) && KeyConsistent(t) && CleanState(s)
    ensures CleanState(t) ==> (StateBytes(s) == StateBytes(t) <==> s == t)
    ensures StateBytes(s) == StateBytes(t) ==> (s == t <==> CleanState(t))
  {
    if CleanState(t) && StateBytes(s) == StateBytes(t) {
      CleanBytesDetermine(s, t);
    }
  }

  lemma EmptyListing(s: StateValue)
    requires s.certificates == map[]
    ensures Listing(s) == []
  {
    Encoding.SortedKeysSorted(s.certificates.Keys);
    hide Encoding.SortedKeys;
    assert s.certificates.Keys == {};
    Encoding.AscendingUnique(Encoding.SortedKeys(s.certificates.Keys), []);
  }

  /** The guard cannot be dropped: every state that stores something shares its hashed bytes with a
      different one, in which they trail the root. */
  lemma BytesAreShared(s: StateValue) returns (t: StateValue)
    requires KeyConsistent(s) && s.certificates != map[]
    ensures KeyConsistent(t) && t != s && StateBytes(t) == StateBytes(s)
  {
    var listed := Encoding.Concat(Der, Listing(s));
    var root := s.root.(trailing := s.root.trailing + listed);
    t := StateValue(root, map[]);
    EmptyListing(t);
    hide Listing;
    Encoding.ConcatCons(Der, s.root, Listing(s));
    Encoding.ConcatCons(Der, root, []);
    assert [t.root] + Listing(t) == [root] + [];
    assert Content(root) == Content(s.root);
    assert Der(root) == Element(s.root) + (s.root.trailing + listed) == Der(s.root) + listed;
  }

  /** And padding a certificate does not keep it out: it passes exactly when the bare one does. */
  lemma PaddingIsAccepted(s: StateValue, signer: SpkiHash, time: nat, c: Certificate, x: seq<Piece>)
    ensures CheckTransaction(s, signer, time, Add(c.(trailing := x))) == CheckTransaction(s, signer, time, Add(c))
  {
    if signer in s.certificates {
      TrailingBytesUnchecked(c, s.certificates[signer], time, x);
    }
  }

  lemma PairListing(root: RootCertificate, a: Certificate, b: Certificate)
    requires a.spkiHash < b.spkiHash
    ensures Listing(StateValue(root, map[a.spkiHash := a, b.spkiHash := b])) == [a, b]
    ensures Listing(StateValue(root, map[a.spkiHash := a])) == [a]
  {
    var s, t := StateValue(root, map[a.spkiHash := a, b.spkiHash := b]), StateValue(root, map[a.spkiHash := a]);
    Encoding.SortedKeysSorted(s.certificates.Keys);
    Encoding.SortedKeysSorted(t.certificates.Keys);
    hide Encoding.SortedKeys;
    Encoding.AscendingUnique(Encoding.SortedKeys(s.certificates.Keys), [a.spkiHash, b.spkiHash]);
    Encoding.AscendingUnique(Encoding.SortedKeys(t.certificates.Keys), [a.spkiHash]);
  }

  /** A certificate that trails its neighbour hashes as if it were stored. */
  lemma AbsorbedCertificate(root: RootCertificate, a: Certificate, b: Certificate)
    requires a.spkiHash < b.spkiHash
    ensures
      var padded := a.(trailing := a.trailing + Der(b));
      StateBytes(StateValue(root, map[a.spkiHash := padded])) ==
      StateBytes(StateValue(root, map[a.spkiHash := a, b.spkiHash := b]))
  {
    var padded := a.(trailing := a.trailing + Der(b));
    PairListing(root, a, b);
    PairListing(root, padded, b);
    TrailingBytesBreakPrefixFreedom(a, b);
    hide Der;
    hide Listing;
    Encoding.ConcatCons(Der, root, [a, b]);
    Encoding.ConcatCons(Der, a, [b]);
    Encoding.ConcatCons(Der, b, []);
    Encoding.ConcatCons(Der, root, [padded]);
    Encoding.ConcatCons(Der, padded, []);
    assert [a] + [b] == [a, b] && [b] + [] == [b] && [padded] + [] == [padded];
    assert Encoding.Concat(Der, [b]) == Der(b) + [] == Der(b);
    assert Encoding.Concat(Der, [padded]) == Der(padded) + [] == Der(padded);
  }

  // ---------------------------------------------------------------------------------------
  // Export and import
  // ---------------------------------------------------------------------------------------

  ghost predicate Lists(certificates: map<SpkiHash, Certificate>, list: seq<Certificate>) {
    && (forall c :: c in list ==> c.spkiHash in certificates && certificates[c.spkiHash] == c)
    && (forall k :: k in certificates ==> certificates[k] in list)
  }

  function Issuers(list: seq<Certificate>): set<SpkiHash> {
    set c | c in list :: c.issuer
  }

  lemma EmptyKeys()
    ensures Keys([]) == {} && Issuers([]) == {}
  {
  }

  lemma KeysSnoc(list: seq<Certificate>, i: nat)
    requires i < |list|
    ensures Keys(list[..i + 1]) == Keys(list[..i]) + {list[i].spkiHash}
    ensures Issuers(list[..i + 1]) == Issuers(list[..i]) + {list[i].issuer}
  {
    assert list[..i + 1] == list[..i] + [list[i]];
  }

  /** The map a list of certificates collects into; the last one with a key wins. */
  function Collect(list: seq<Certificate>): (m: map<SpkiHash, Certificate>)
    ensures m.Keys == Keys(list)
    ensures forall k :: k in m ==> m[k] in list && m[k].spkiHash == k
  {
    if list == [] then map[]
    else
      var front, last := list[..|list| - 1], list[|list| - 1];
      assert forall c :: c in list <==> c in front || c == last;
      Collect(front)[last.spkiHash := last]
  }

  function ImportState(e: ExportedState): Result<StateValue, ImportError> {
    if !e.root.kind.Root? then Err(NotARoot)
    else if Issuers(e.certificates) - Keys(e.certificates) != {} then
      Err(MissingIssuers(Issuers(e.certificates) - Keys(e.certificates)))
    else Ok(StateValue(e.root, Collect(e.certificates)))
  }

  lemma ListedKeys(s: StateValue, list: seq<Certificate>)
    requires KeyConsistent(s) && Lists(s.certificates, list)
    ensures Keys(list) == s.certificates.Keys
  {
    forall k | k in s.certificates ensures k in Keys(list) {
      assert s.certificates[k] in list && s.certificates[k].spkiHash == k;
    }
  }

  lemma ListedIssuers(s: StateValue, list: seq<Certificate>)
    requires Lists(s.certificates, list)
    ensures Issuers(list) <= s.certificates.Keys <==> IssuerClosed(s)
  {
    if Issuers(list) <= s.certificates.Keys {
      forall k | k in s.certificates ensures s.certificates[k].issuer in s.certificates {
        assert s.certificates[k] in list;
        assert s.certificates[k].issuer in Issuers(list);
      }
    }
  }

  lemma ListedEntry(s: StateValue, list: seq<Certificate>, c: Certificate)
    requires Lists(s.certificates, list) && c in list
    ensures c.spkiHash in s.certificates && s.certificates[c.spkiHash] == c
  {
  }

  lemma CollectListed(s: StateValue, list: seq<Certificate>)
    requires KeyConsistent(s) && Lists(s.certificates, list)
    ensures Collect(list) == s.certificates
  {
    ListedKeys(s, list);
    hide Collect;
    hide Keys;
    hide Issuers;
    hide Lists;
    hide Der;
    var m := Collect(list);
    forall k | k in m ensures m[k] == s.certificates[k] {
      ListedEntry(s, list, m[k]);
    }
  }

  lemma EmptyDifference(a: set<SpkiHash>, b: set<SpkiHash>)
    ensures a - b == {} <==> a <= b
  {
    if a - b == {} {
      forall x | x in a ensures x in b {
        assert x !in a - b;
      }
    }
  }

  /** Import inverts export, in whatever order the certificates were listed, exactly for the
      states in which every issuer is still present. */
  lemma ImportInvertsExport(s: StateValue, list: seq<Certificate>)
    requires KeyConsistent(s)
    requires Lists(s.certificates, list)
    ensures ImportState(ExportedState(s.root, list)).Ok? <==> IssuerClosed(s)
    ensures IssuerClosed(s) ==> ImportState(ExportedState(s.root, list)) == Ok(s)
  {
    ListedKeys(s, list);
    ListedIssuers(s, list);
    CollectListed(s, list);
    hide Keys;
    hide Issuers;
    hide Lists;
    hide IssuerClosed;
    hide Collect;
    EmptyDifference(Issuers(list), Keys(list));
  }

  // ---------------------------------------------------------------------------------------
  // The state object
  // ---------------------------------------------------------------------------------------

  class State {
    const root: RootCertificate
    var certificates: map<SpkiHash, Certificate>

    ghost function Value(): StateValue
      reads this
    {
      StateValue(root, certificates)
    }

    constructor Initialize(root: RootCertificate)
      ensures Value() == InitialState(root)
    {
      this.root := root;
      certificates := map[root.spkiHash := root];
    }

    constructor FromParts(root: RootCertificate, certificates: map<SpkiHash, Certificate>)
      ensures Value() == StateValue(root, certificates)
    {
      this.root := root;
      this.certificates := certificates;
    }

    method Check(signer: SpkiHash, time: nat, tx: Transaction) returns (r: Outcome<Error>)
      ensures r == CheckTransaction(Value(), signer, time, tx)
    {
      if signer !in certificates {
        return Fail(SignerNotKnown);
      }
      var signing := certificates[signer];
      match tx {
        case Add(c) =>
          if c.spkiHash in certificates {
            return Fail(CertificateAlreadyExists);
          }
          if signing.spkiHash != c.issuer {
            return Fail(IssuerIsNotSigner);
          }
          var verified := c.VerifySignature(signing, time);
          if verified.Fail? {
            return Fail(CertificateInvalid(verified.error));
          }
        case RemoveExpired(c) =>
          if c.spkiHash !in certificates {
            return Fail(CertificateNotFound);
          }
          if Der(certificates[c.spkiHash]) != Der(c) {
            return Fail(CertificateDoesNotMatch);
          }
          if c.CheckValidityAt(time).Pass? {
            return Fail(CertificateNotExpired);
          }
      }
      return Pass;
    }

    method Apply(time: nat, tx: Transaction)
      requires CanApply(Value(), time, tx)
      modifies this
      ensures Value() == ApplyTransaction(old(Value()), tx)
    {
      match tx {
        case Add(c) => certificates := certificates[c.spkiHash := c];
        case RemoveExpired(c) => certificates := certificates - {c.spkiHash};
      }
    }

    method Revert(tx: Transaction)
      modifies this
      ensures Value() == RevertTransaction(old(Value()), tx)
    {
      match tx {
        case Add(c) => certificates := certificates - {c.spkiHash};
        case RemoveExpired(c) => certificates := certificates[c.spkiHash := c];
      }
    }

    /** Feeds the hasher. The keys come out of the map in an arbitrary order. */
    method HashInput() returns (input: seq<Piece>)
      ensures input == StateBytes(Value())
    {
      hide Der;
      Encoding.SortedKeysSorted(certificates.Keys);
      hide Encoding.Sort;
      hide Encoding.SortedKeys;
      var order := Encoding.Enumerate(certificates.Keys);
      var keys := Encoding.Sort(order);
      Encoding.AscendingUnique(keys, Encoding.SortedKeys(certificates.Keys));
      ghost var cs := CertificatesAt(certificates, keys);
      input := Der(root);
      ghost var first: seq<Certificate> := [root];
      assert Encoding.Concat(Der, first) == Der(root) by {
        assert first[1..] == [];
        assert Encoding.Concat(Der, first) == Der(root) + Encoding.Concat(Der, first[1..]);
      }
      for i := 0 to |keys|
        invariant input == Encoding.Concat(Der, first + cs[..i])
      {
        assert keys[i] in keys;
        input := input + Der(certificates[keys[i]]);
        Encoding.ConcatSnoc(Der, first + cs[..i], cs[i]);
        assert first + cs[..i] + [cs[i]] == first + cs[..i + 1];
      }
      assert cs[..|keys|] == cs;
    }

    /** Lists the values of the map in an arbitrary order. */
    method Export() returns (e: ExportedState)
      requires KeyConsistent(Value())
      ensures e.root == root && Lists(certificates, e.certificates)
    {
      var order := Encoding.Enumerate(certificates.Keys);
      e := ExportedState(root, CertificatesAt(certificates, order));
      forall k | k in certificates ensures certificates[k] in e.certificates {
        var i :| 0 <= i < |order| && order[i] == k;
        assert e.certificates[i] == certificates[k];
      }
      forall c | c in e.certificates
        ensures c.spkiHash in certificates && certificates[c.spkiHash] == c
      {
        var i :| 0 <= i < |order| && e.certificates[i] == c;
        assert order[i] in order;
      }
    }
  }

  /** The `seen` map marks the listed keys with true and the merely named issuers with false. */
  method Import(e: ExportedState) returns (r: Result<State, ImportError>)
    ensures r.Ok? == ImportState(e).Ok?
    ensures r.Ok? ==> fresh(r.value) && r.value.Value() == ImportState(e).value && KeyConsistent(r.value.Value())
    ensures r.Err? ==> r.error == ImportState(e).error
  {
    hide Collect;
    hide Keys;
    hide Issuers;
    if !e.root.kind.Root? {
      return Err(NotARoot);
    }
    var list := e.certificates;
    var seen: map<SpkiHash, bool> := map[];
    assert Keys(list[..0]) == {} && Issuers(list[..0]) == {} by {
      EmptyKeys();
      assert list[..0] == [];
    }
    for i := 0 to |list|
      invariant seen.Keys == Keys(list[..i]) + Issuers(list[..i])
      invariant forall k :: k in seen ==> seen[k] == (k in Keys(list[..i]))
    {
      KeysSnoc(list, i);
      seen := seen[list[i].spkiHash := true];
      if list[i].issuer !in seen {
        seen := seen[list[i].issuer := false];
      }
    }
    assert list[..|list|] == list;
    var missing := set k | k in seen && !seen[k];
    assert missing == Issuers(list) - Keys(list);
    if missing != {} {
      return Err(MissingIssuers(missing));
    }
    var state := new State.FromParts(e.root, Collect(list));
    return Ok(state);
  }
}
