/**
 The hash-linked ledger over the state: blocks, their digests, and how a block is packaged,
 checked, applied, exported and imported. `check` and `package` work on the live state: they
 apply the transaction, hash, and revert.
 */
module SecureChain {
  import Encoding
  import opened Outcomes
  import opened Certificates
  import opened TrustState

  /** An ideal signature: it names the key and the digest it was made over, or it is noise. */
  datatype Signature = SignedBy(key: SpkiHash, message: Digest) | Noise(bytes: seq<Encoding.byte>)

  predicate SignatureValid(key: SpkiHash, message: Digest, s: Signature) {
    s == SignedBy(key, message)
  }

  datatype Block = Block(
    sequence: nat,
    time: nat,
    previous: Digest,
    resulting: Digest,
    signer: SpkiHash,
    transaction: Transaction,
    signature: Signature)

  /** What a block's digest covers: everything except the signature. */
  function Unsigned(b: Block): Block {
    b.(signature := Noise([]))
  }

  function TransactionBytes(tx: Transaction): seq<Piece> {
    match tx
    case Add(c) => [Byte('a' as int), Byte('d' as int), Byte('d' as int)] + Der(c)
    case RemoveExpired(c) =>
      [Byte('r' as int), Byte('e' as int), Byte('m' as int), Byte('o' as int), Byte('v' as int), Byte('e' as int),
       Byte('_' as int), Byte('e' as int), Byte('x' as int), Byte('p' as int), Byte('i' as int), Byte('r' as int),
       Byte('e' as int), Byte('d' as int)] + Der(c)
  }

  function BlockBytes(b: Block): seq<Piece> {
    [Word(b.sequence), Word(b.time), Nested(b.previous), Nested(b.resulting), Key(b.signer)]
    + TransactionBytes(b.transaction)
  }

  function BlockDigest(b: Block): Digest {
    Sha512(BlockBytes(b))
  }

  /** The piece that hashes one character of a transaction's name. */
  predicate Spells(piece: Piece, letter: char) {
    piece.Byte? && piece.b == letter as int
  }

  lemma TransactionLayout(tx: Transaction)
    ensures
      var bytes, name := TransactionBytes(tx), if tx.Add? then "add" else "remove_expired";
      && |bytes| == |name| + |Der(tx.certificate)|
      && (forall i :: 0 <= i < |name| ==> Spells(bytes[i], name[i]))
      && bytes[|name|..] == Der(tx.certificate)
  {
    hide Der;
  }

  /** The layout that replicas have to agree on: the header's five fields, the name of the transaction, and
      the certificate as it is stored. */
  lemma BlockLayout(b: Block)
    ensures |BlockBytes(b)| == 5 + |TransactionBytes(b.transaction)|
    ensures BlockBytes(b)[..5] == [Word(b.sequence), Word(b.time), Nested(b.previous), Nested(b.resulting), Key(b.signer)]
    ensures BlockBytes(b)[5..] == TransactionBytes(b.transaction)
  {
    hide TransactionBytes;
  }

  lemma TransactionBytesInjective(t: Transaction, u: Transaction)
    requires TransactionBytes(t) == TransactionBytes(u)
    ensures t == u
  {
    var x, y := TransactionBytes(t), TransactionBytes(u);
    assert x[0] == y[0];
    assert t.Add? == u.Add?;
    DerInjective(t.certificate, u.certificate);
    var n := if t.Add? then 3 else 14;
    assert x[n..] == Der(t.certificate) && y[n..] == Der(u.certificate);
  }

  /** A block digest fixes every field but the signature. */
  lemma BlockDigestBinding(a: Block, b: Block)
    ensures BlockDigest(a) == BlockDigest(b) <==> Unsigned(a) == Unsigned(b)
  {
    if BlockDigest(a) == BlockDigest(b) {
      var x, y := BlockBytes(a), BlockBytes(b);
      assert x[0] == y[0] && x[1] == y[1] && x[2] == y[2] && x[3] == y[3] && x[4] == y[4];
      assert x[5..] == TransactionBytes(a.transaction) && y[5..] == TransactionBytes(b.transaction);
      TransactionBytesInjective(a.transaction, b.transaction);
    }
  }

  datatype ChainValue = ChainValue(last: Option<Block>, state: StateValue)

  datatype CheckError =
    | SequenceMismatch
    | PreviousBlockHashMismatch
    | TimeTooEarly(time: nat, last: nat)
    | TimeInFuture
    | IncorrectCertificate
    | SignatureVerificationFailed
    | InvalidTransaction(reason: Error)
    | ResultingStateMismatch

  function Start(root: RootCertificate): ChainValue {
    ChainValue(None, InitialState(root))
  }

  function Sequence(c: ChainValue): nat {
    if c.last.None? then 0 else c.last.value.sequence
  }

  function LastDigest(c: ChainValue): Digest {
    if c.last.None? then Empty else BlockDigest(c.last.value)
  }

  function LastTime(c: ChainValue): nat {
    if c.last.None? then 0 else c.last.value.time
  }

  /** The digest that replicas compare. */
  ghost function ChainDigest(c: ChainValue): Digest {
    Sha512([Nested(LastDigest(c))] + StateBytes(c.state))
  }

  /** The checks that do not look at the state. */
  function CheckHeader(last: Option<Block>, b: Block, certificate: Certificate, now: nat): Outcome<CheckError> {
    if last.Some? && b.sequence != last.value.sequence + 1 then Fail(SequenceMismatch)
    else if last.Some? && b.previous != BlockDigest(last.value) then Fail(PreviousBlockHashMismatch)
    else if last.Some? && b.time < last.value.time then Fail(TimeTooEarly(b.time, last.value.time))
    else if last.None? && b.sequence != 1 then Fail(SequenceMismatch)
    else if last.None? && b.previous != Empty then Fail(PreviousBlockHashMismatch)
    else if b.time > now then Fail(TimeInFuture)
    else if b.signer != certificate.spkiHash then Fail(IncorrectCertificate)
    else if !SignatureValid(certificate.spkiHash, BlockDigest(b), b.signature) then Fail(SignatureVerificationFailed)
    else Pass
  }

  ghost function CheckBlock(c: ChainValue, b: Block, certificate: Certificate, now: nat): Outcome<CheckError> {
    var header := CheckHeader(c.last, b, certificate, now);
    if header.Fail? then header
    else
      var transaction := CheckTransaction(c.state, b.signer, b.time, b.transaction);
      if transaction.Fail? then Fail(InvalidTransaction(transaction.error))
      else if b.resulting != StateDigest(ApplyTransaction(c.state, b.transaction)) then Fail(ResultingStateMismatch)
      else Pass
  }

  /** `TrustStore::check`: the signer's certificate is looked up in the current state. */
  ghost function CheckSigned(c: ChainValue, b: Block, now: nat): Outcome<CheckError> {
    if b.signer !in c.state.certificates then Fail(InvalidTransaction(SignerNotKnown))
    else CheckBlock(c, b, c.state.certificates[b.signer], now)
  }

  function ApplyBlock(c: ChainValue, b: Block): ChainValue {
    ChainValue(Some(b), ApplyTransaction(c.state, b.transaction))
  }

  /** What `apply` relies on: without it, it panics. */
  ghost predicate CanApplyBlock(c: ChainValue, b: Block) {
    && CanApply(c.state, b.time, b.transaction)
    && b.resulting == StateDigest(ApplyTransaction(c.state, b.transaction))
  }

  /** The block `package` builds at clock reading `now` with the given signing key. */
  ghost function PackageBlock(c: ChainValue, tx: Transaction, signer: SpkiHash, now: nat): Result<Block, Error> {
    var checked := CheckTransaction(c.state, signer, now, tx);
    if checked.Fail? then Err(checked.error)
    else
      var b := Block(Sequence(c) + 1, now, LastDigest(c), StateDigest(ApplyTransaction(c.state, tx)), signer, tx, Noise([]));
      Ok(b.(signature := SignedBy(signer, BlockDigest(b))))
  }

  /** A block that passed the check can be applied to that same chain without a panic. */
  lemma CheckedBlockApplies(c: ChainValue, b: Block, certificate: Certificate, now: nat)
    requires KeyConsistent(c.state)
    requires CheckBlock(c, b, certificate, now).Pass?
    ensures CanApplyBlock(c, b)
    ensures KeyConsistent(ApplyBlock(c, b).state)
    ensures StateDigest(ApplyBlock(c, b).state) == b.resulting
    ensures Sequence(ApplyBlock(c, b)) == Sequence(c) + 1
    ensures LastTime(c) <= LastTime(ApplyBlock(c, b)) <= now
  {
    RevertUndoesApply(c.state, b.signer, b.time, b.transaction);
  }

  /** A packaged block can be applied to the chain it was packaged on without a panic. */
  lemma PackagedBlockApplies(c: ChainValue, tx: Transaction, signer: SpkiHash, now: nat)
    requires KeyConsistent(c.state)
    requires PackageBlock(c, tx, signer, now).Ok?
    ensures CanApplyBlock(c, PackageBlock(c, tx, signer, now).value)
  {
    RevertUndoesApply(c.state, signer, now, tx);
  }

  /** A packaged block passes the check of every replica that holds the same state, at any
      later clock reading, exactly when the packaging clock was not behind the last block. */
  lemma PackagedBlockAccepted(c: ChainValue, tx: Transaction, signer: SpkiHash, now: nat, later: nat)
    requires KeyConsistent(c.state)
    requires PackageBlock(c, tx, signer, now).Ok?
    requires now <= later
    ensures CheckSigned(c, PackageBlock(c, tx, signer, now).value, later).Pass? <==> LastTime(c) <= now
  {
    var b := PackageBlock(c, tx, signer, now).value;
    BlockDigestBinding(b, Unsigned(b));
    assert c.state.certificates[signer].spkiHash == signer;
  }

  /** A replica accepts exactly the blocks that a key holder packages on the same chain: nothing in
      a block is left to choose but the transaction, the signer and a time from the last block's
      to the present. */
  lemma AcceptedIffPackaged(c: ChainValue, b: Block, now: nat)
    requires KeyConsistent(c.state)
    ensures CheckSigned(c, b, now).Pass? <==>
      PackageBlock(c, b.transaction, b.signer, b.time) == Ok(b) && LastTime(c) <= b.time <= now
  {
    BlockDigestBinding(b, Unsigned(b));
    hide BlockDigest;
    hide StateDigest;
    hide ApplyTransaction;
    hide CheckTransaction;
    if PackageBlock(c, b.transaction, b.signer, b.time) == Ok(b) && LastTime(c) <= b.time <= now {
      PackagedSignature(c, b);
    }
  }

  /** What the signature on a packaged block covers. */
  lemma PackagedSignature(c: ChainValue, b: Block)
    requires PackageBlock(c, b.transaction, b.signer, b.time) == Ok(b)
    ensures b.signer in c.state.certificates
    ensures b.signature == SignedBy(b.signer, BlockDigest(b))
    ensures CheckTransaction(c.state, b.signer, b.time, b.transaction).Pass?
  {
    BlockDigestBinding(b, Unsigned(b));
    hide BlockDigest;
    hide StateDigest;
    hide ApplyTransaction;
  }

  // ---------------------------------------------------------------------------------------
  // Export and import of a chain
  // ---------------------------------------------------------------------------------------

  datatype ExportedChain = ExportedChain(state: ExportedState, last: Option<Block>)

  ghost function ImportChain(e: ExportedChain): Result<ChainValue, ImportError> {
    match ImportState(e.state)
    case Err(error) => Err(error)
    case Ok(state) =>
      if e.last.Some? && e.last.value.resulting != StateDigest(state) then Err(IncorrectStateDigest)
      else Ok(ChainValue(e.last, state))
  }

  function Snapshot(c: ChainValue, list: seq<Certificate>): ExportedChain {
    ExportedChain(ExportedState(c.state.root, list), c.last)
  }

  /** The last block commits to the state, as every accepted block makes it do. */
  ghost predicate Committed(c: ChainValue) {
    c.last.Some? ==> c.last.value.resulting == StateDigest(c.state)
  }

  /** A chain comes back from a snapshot unchanged exactly when every issuer is still stored. */
  lemma SnapshotRoundTrip(c: ChainValue, list: seq<Certificate>)
    requires KeyConsistent(c.state) && Committed(c)
    requires Lists(c.state.certificates, list)
    ensures ImportChain(Snapshot(c, list)).Ok? <==> IssuerClosed(c.state)
    ensures IssuerClosed(c.state) ==> ImportChain(Snapshot(c, list)) == Ok(c)
  {
    ImportInvertsExport(c.state, list);
  }

  /** What the digest test on import is worth: a state that passes it under a block which commits to
      a state without trailing bytes is that state exactly when it has none itself, and so whenever
      nothing in the imported file has any. */
  lemma ImportedStateIsCommitted(c: ChainValue, e: ExportedChain)
    requires KeyConsistent(c.state) && Committed(c) && CleanState(c.state)
    requires c.last.Some? && e.last == c.last && ImportChain(e).Ok?
    ensures ImportChain(e).value == c <==> CleanState(ImportChain(e).value.state)
    ensures Clean(e.state.root) && (forall x :: x in e.state.certificates ==> Clean(x)) ==> ImportChain(e).value == c
  {
    var d := ImportChain(e).value;
    assert KeyConsistent(d.state);
    assert forall k :: k in d.state.certificates ==> d.state.certificates[k] in e.state.certificates;
    assert Clean(e.state.root) && (forall x :: x in e.state.certificates ==> Clean(x)) ==> CleanState(d.state);
    hide StateBytes;
    hide CleanState;
    hide ImportState;
    StateBytesCanonical(c.state, d.state);
  }

  // ---------------------------------------------------------------------------------------
  // The chain object
  // ---------------------------------------------------------------------------------------

  class Chain {
    var lastBlock: Option<Block>
    const state: State

    ghost function Value(): ChainValue
      reads this, state
    {
      ChainValue(lastBlock, state.Value())
    }

    ghost predicate Valid()
      reads this, state
    {
      KeyConsistent(state.Value())
    }

    constructor (state: State, lastBlock: Option<Block>)
      requires KeyConsistent(state.Value())
      ensures this.state == state && Valid() && Value() == ChainValue(lastBlock, state.Value())
    {
      this.state := state;
      this.lastBlock := lastBlock;
    }

    /** Applies, hashes and reverts: the state is back where it was when the method returns. */
    method DryRun(signer: SpkiHash, time: nat, tx: Transaction) returns (resulting: Digest)
      requires Valid()
      requires CheckTransaction(state.Value(), signer, time, tx).Pass?
      modifies state
      ensures Value() == old(Value())
      ensures resulting == StateDigest(ApplyTransaction(old(state.Value()), tx))
    {
      RevertUndoesApply(state.Value(), signer, time, tx);
      state.Apply(time, tx);
      var input := state.HashInput();
      resulting := Sha512(input);
      state.Revert(tx);
    }

    method Package(tx: Transaction, signer: SpkiHash, now: nat) returns (r: Result<Block, Error>)
      requires Valid()
      modifies state
      ensures Value() == old(Value())
      ensures r == PackageBlock(old(Value()), tx, signer, now)
      ensures r.Ok? ==> CanApplyBlock(Value(), r.value)
    {
      var checked := state.Check(signer, now, tx);
      if checked.Fail? {
        return Err(checked.error);
      }
      PackagedBlockApplies(Value(), tx, signer, now);
      var resulting := DryRun(signer, now, tx);
      var block;
      if lastBlock.Some? {
        block := Block(lastBlock.value.sequence + 1, now, BlockDigest(lastBlock.value), resulting, signer, tx, Noise([]));
      } else {
        block := Block(1, now, Empty, resulting, signer, tx, Noise([]));
      }
      return Ok(block.(signature := SignedBy(signer, BlockDigest(block))));
    }

    method Check(block: Block, certificate: Certificate, now: nat) returns (r: Result<Block, CheckError>)
      requires Valid()
      modifies state
      ensures Value() == old(Value())
      ensures r == match CheckBlock(old(Value()), block, certificate, now)
                   case Pass => Ok(block)
                   case Fail(e) => Err(e)
      ensures r.Ok? ==> CanApplyBlock(Value(), block)
    {
      if lastBlock.Some? {
        if block.sequence != lastBlock.value.sequence + 1 {
          return Err(SequenceMismatch);
        }
        if block.previous != BlockDigest(lastBlock.value) {
          return Err(PreviousBlockHashMismatch);
        }
        if block.time < lastBlock.value.time {
          return Err(TimeTooEarly(block.time, lastBlock.value.time));
        }
      } else {
        if block.sequence != 1 {
          return Err(SequenceMismatch);
        }
        if block.previous != Empty {
          return Err(PreviousBlockHashMismatch);
        }
      }
      if block.time > now {
        return Err(TimeInFuture);
      }
      if block.signer != certificate.spkiHash {
        return Err(IncorrectCertificate);
      }
      if !SignatureValid(certificate.spkiHash, BlockDigest(block), block.signature) {
        return Err(SignatureVerificationFailed);
      }
      var checked := state.Check(block.signer, block.time, block.transaction);
      if checked.Fail? {
        return Err(InvalidTransaction(checked.error));
      }
      var resulting := DryRun(block.signer, block.time, block.transaction);
      if block.resulting != resulting {
        return Err(ResultingStateMismatch);
      }
      CheckedBlockApplies(Value(), block, certificate, now);
      return Ok(block);
    }

    /** `TrustStore::check`. */
    method CheckFromStore(block: Block, now: nat) returns (r: Result<Block, CheckError>)
      requires Valid()
      modifies state
      ensures Value() == old(Value())
      ensures r == match CheckSigned(old(Value()), block, now)
                   case Pass => Ok(block)
                   case Fail(e) => Err(e)
      ensures r.Ok? ==> CanApplyBlock(Value(), block)
    {
      if block.signer !in state.certificates {
        return Err(InvalidTransaction(SignerNotKnown));
      }
      r := Check(block, state.certificates[block.signer], now);
    }

    method Apply(block: Block)
      requires Valid() && CanApplyBlock(Value(), block)
      modifies this, state
      ensures Valid()
      ensures Value() == ApplyBlock(old(Value()), block)
    {
      state.Apply(block.time, block.transaction);
      var input := state.HashInput();
      assert block.resulting == Sha512(input);  // otherwise the program panics here
      lastBlock := Some(block);
    }

    method Digest() returns (d: Digest)
      ensures d == ChainDigest(Value())
    {
      var input := state.HashInput();
      d := Sha512([Nested(if lastBlock.Some? then BlockDigest(lastBlock.value) else Empty)] + input);
    }

    method Export() returns (e: ExportedChain)
      requires Valid()
      ensures e.last == lastBlock && e.state.root == state.root
      ensures Lists(state.certificates, e.state.certificates)
    {
      var exported := state.Export();
      e := ExportedChain(exported, lastBlock);
    }
  }

  method ImportFrom(e: ExportedChain) returns (r: Result<Chain, ImportError>)
    ensures r.Ok? == ImportChain(e).Ok?
    ensures r.Ok? ==> fresh(r.value) && fresh(r.value.state) && r.value.Valid()
    ensures r.Ok? ==> r.value.Value() == ImportChain(e).value
    ensures r.Err? ==> r.error == ImportChain(e).error
  {
    var imported := Import(e.state);
    if imported.Err? {
      return Err(imported.error);
    }
    var state := imported.value;
    if e.last.Some? {
      var input := state.HashInput();
      if e.last.value.resulting != Sha512(input) {
        return Err(IncorrectStateDigest);
      }
    }
    var chain := new Chain(state, e.last);
    return Ok(chain);
  }
}
