/**
 Certificates as the trust store sees them: the parsed fields, which types may sign which,
 validity windows, and the encoding that every digest is taken over.
 */
module Certificates {
  import opened Outcomes
  import opened Encoding

  /** A 32-byte public key hash read as a big-endian number. The width is fixed, so comparing
      the bytes and comparing the numbers is the same thing. A key is named by its hash. */
  type SpkiHash = nat

  datatype CertificateType = Root | Temporary | User | UserSession | Agent | Server {

    predicate MayBeParentOf(child: CertificateType) {
      match this
      case Root => child.Server? || child.User? || child.Agent? || child.UserSession?
      case User => child.User? || child.Agent? || child.UserSession?
      case _ => false
    }
  }

  /** The parsed fields, the key the signature was made with, all other bytes of the element, and
      what follows the element in the stored bytes: the parser ignores it, the program keeps it. */
  datatype Certificate = Certificate(
    kind: CertificateType,
    spkiHash: SpkiHash,
    issuer: SpkiHash,
    notBefore: nat,
    notAfter: nat,
    signedBy: SpkiHash,
    rest: seq<byte>,
    trailing: seq<Piece>)
  {
    function CheckValidityAt(time: nat): Outcome<ValidityError> {
      if time < notBefore then Fail(NotYetValid)
      else if time > notAfter then Fail(Expired)
      else Pass
    }

    predicate ValidAt(time: nat) {
      notBefore <= time <= notAfter
    }

    /** The type check comes first, then the signature, then the validity window. */
    function VerifySignature(parent: Certificate, time: nat): Outcome<SignatureError> {
      if !parent.kind.MayBeParentOf(kind) then Fail(InvalidCertificateType(parent.kind, kind))
      else if signedBy != parent.spkiHash then Fail(BadSignature)
      else
        match CheckValidityAt(time)
        case Fail(e) => Fail(Validity(e))
        case Pass => Pass
    }
  }

  /** The keys of a list of certificates. */
  function Keys(list: seq<Certificate>): set<SpkiHash> {
    set c | c in list :: c.spkiHash
  }

  datatype ValidityError = NotYetValid | Expired

  datatype SignatureError =
    | InvalidCertificateType(parent: CertificateType, child: CertificateType)
    | BadSignature
    | Validity(reason: ValidityError)

  type RootCertificate = c: Certificate | c.kind.Root?
    witness Certificate(Root, 0, 0, 0, 0, 0, [], [])

  /** An ideal SHA-512: a digest is its own preimage, and the all-zero digest has none. */
  datatype Digest = Empty | Sha512(input: seq<Piece>)

  /** A fixed-width field of a hashed message: one byte, eight little-endian bytes, a key hash
      or another digest. */
  datatype Piece = Byte(b: byte) | Word(n: nat) | Key(k: SpkiHash) | Nested(d: Digest)

  function KindByte(kind: CertificateType): byte {
    match kind
    case Root => 0
    case Temporary => 1
    case User => 2
    case UserSession => 3
    case Agent => 4
    case Server => 5
  }

  function Content(c: Certificate): seq<Piece> {
    [Byte(KindByte(c.kind)), Key(c.spkiHash), Key(c.issuer), Word(c.notBefore), Word(c.notAfter), Key(c.signedBy)]
    + seq(|c.rest|, i requires 0 <= i < |c.rest| => Byte(c.rest[i]))
  }

  /** The certificate proper, in a definite-length encoding: a SEQUENCE tag, the length of the
      contents, the contents. */
  function Element(c: Certificate): seq<Piece> {
    [Byte(0x30), Word(|Content(c)|)] + Content(c)
  }

  /** The stored bytes, which are what is hashed, compared and sent. */
  function Der(c: Certificate): seq<Piece> {
    Element(c) + c.trailing
  }

  /** Nothing follows the certificate in its stored bytes. */
  predicate Clean(c: Certificate) {
    c.trailing == []
  }

  lemma ContentDetermines(c: Certificate, d: Certificate)
    requires Content(c) == Content(d)
    ensures c == d.(trailing := c.trailing)
  {
    var x, y := Content(c), Content(d);
    assert x[0] == y[0] && x[1] == y[1] && x[2] == y[2] && x[3] == y[3] && x[4] == y[4] && x[5] == y[5];
    assert |c.rest| == |x| - 6 == |y| - 6 == |d.rest|;
    forall i | 0 <= i < |c.rest| ensures c.rest[i] == d.rest[i] {
      assert x[i + 6] == Byte(c.rest[i]);
      assert y[i + 6] == Byte(d.rest[i]);
    }
  }

  /** Where an element ends can be told from its beginning, whatever follows it. */
  lemma ElementSplits(c: Certificate, x: seq<Piece>, d: Certificate, y: seq<Piece>)
    requires Element(c) + x == Element(d) + y
    ensures c == d.(trailing := c.trailing) && x == y
  {
    var u, v := Element(c) + x, Element(d) + y;
    assert u[1] == Word(|Content(c)|) && v[1] == Word(|Content(d)|);
    var n := |Content(c)| + 2;
    assert u[2..n] == Content(c) && v[2..n] == Content(d);
    ContentDetermines(c, d);
    assert u[n..] == x && v[n..] == y;
  }

  /** Certificates are equal exactly when their stored bytes are. */
  lemma DerInjective(c: Certificate, d: Certificate)
    ensures Der(c) == Der(d) <==> c == d
  {
    if Der(c) == Der(d) {
      ElementSplits(c, c.trailing, d, d.trailing);
    }
  }

  /** Without trailing bytes, no encoding is a prefix of another. */
  lemma DerPrefixFree()
    ensures PrefixFree(Der, Clean)
  {
    forall c, d | Clean(c) && Clean(d) && Der(c) <= Der(d) ensures c == d {
      var x := Der(d)[|Der(c)|..];
      assert Element(c) + x == Der(c) + x == Der(d) == Element(d) + [];
      ElementSplits(c, x, d, []);
    }
    forall c ensures Der(c) != [] {
      assert Der(c)[0] == Byte(0x30);
    }
  }

  /** With trailing bytes they are: any certificate can be followed by another one's bytes. */
  lemma TrailingBytesBreakPrefixFreedom(c: Certificate, d: Certificate)
    ensures Der(c) < Der(c.(trailing := c.trailing + Der(d)))
    ensures Der(c.(trailing := c.trailing + Der(d))) == Der(c) + Der(d)
  {
    var e := c.(trailing := c.trailing + Der(d));
    assert Content(e) == Content(c);
    assert Der(e) == Element(c) + (c.trailing + Der(d)) == Der(c) + Der(d);
    assert Der(d)[0] == Byte(0x30);
  }

  /** No check looks at the trailing bytes. */
  lemma TrailingBytesUnchecked(c: Certificate, parent: Certificate, time: nat, x: seq<Piece>)
    ensures c.(trailing := x).VerifySignature(parent, time) == c.VerifySignature(parent, time)
  {
  }

  /** Verification against a fixed parent splits into what never changes and the validity window. */
  predicate SignedUnder(c: Certificate, parent: Certificate) {
    parent.kind.MayBeParentOf(c.kind) && c.signedBy == parent.spkiHash
  }

  lemma VerifyMeaning(c: Certificate, parent: Certificate, time: nat)
    ensures c.VerifySignature(parent, time).Pass? <==> SignedUnder(c, parent) && c.ValidAt(time)
  {
  }
}
