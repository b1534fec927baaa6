/** The nonce sequence of an encryption key: a 96-bit counter XORed into a random mask. */
module Nonces {
  import opened Encoding
  import opened Outcomes

  const NONCE_LEN: nat := 12
  const LIMIT: nat := 0x1_0000_0000_0000_0000_0000_0000

  type Bytes12 = s: seq<byte> | |s| == 12 witness [0, 0, 0, 0, 0, 0, 0, 0, 0, 0, 0, 0]

  function Power256(n: nat): nat {
    if n == 0 then 1 else 256 * Power256(n - 1)
  }

  /** The n least significant bytes of a number, most significant first. */
  function BigEndian(x: nat, n: nat): (s: seq<byte>)
    ensures |s| == n
  {
    if n == 0 then [] else BigEndian(x / 256, n - 1) + [x % 256]
  }

  /** Exclusive or of the n low bits. */
  function XorBits(a: nat, b: nat, n: nat): (r: nat)
    ensures r < Power2(n)
  {
    if n == 0 then 0 else 2 * XorBits(a / 2, b / 2, n - 1) + (if a % 2 == b % 2 then 0 else 1)
  }

  function Power2(n: nat): nat {
    if n == 0 then 1 else 2 * Power2(n - 1)
  }

  function XorByte(a: byte, b: byte): byte {
    assert Power2(8) == 256;
    XorBits(a, b, 8)
  }

  function Xor(a: seq<byte>, b: seq<byte>): (r: seq<byte>)
    requires |a| == |b|
    ensures |r| == |a|
    ensures forall i :: 0 <= i < |a| ==> r[i] == XorByte(a[i], b[i])
  {
    seq(|a|, i requires 0 <= i < |a| => XorByte(a[i], b[i]))
  }

  /** The i-th bit of a number. */
  function Bit(x: nat, i: nat): nat {
    if i == 0 then x % 2 else Bit(x / 2, i - 1)
  }

  /** Each bit of an exclusive or is set exactly when it is set in one of the two numbers. */
  lemma {:induction false} XorIsBitwise(a: nat, b: nat, n: nat, i: nat)
    requires i < n
    ensures Bit(XorBits(a, b, n), i) == if Bit(a, i) == Bit(b, i) then 0 else 1
  {
    if i > 0 {
      XorIsBitwise(a / 2, b / 2, n - 1, i - 1);
    }
  }

  /** And so for each byte of a nonce: its bits are those of the mask, turned where the counter has ones. */
  lemma NonceIsBitwise(mask: Bytes12, k: nat, j: nat, i: nat)
    requires j < 12 && i < 8
    ensures Bit(NonceAt(mask, k)[j], i) == if Bit(mask[j], i) == Bit(BigEndian(k, 12)[j], i) then 0 else 1
  {
    XorIsBitwise(mask[j], BigEndian(k, 12)[j], 8, i);
    hide XorBits;
    hide Bit;
    hide BigEndian;
  }

  /** Enough bytes of a number are worth that number. */
  lemma {:induction false} BigEndianWorth(x: nat, n: nat)
    requires x < Power256(n)
    ensures Worth(BigEndian(x, n)) == x
  {
    if n > 0 {
      BigEndianWorth(x / 256, n - 1);
      var s := BigEndian(x, n);
      assert s[..n - 1] == BigEndian(x / 256, n - 1);
    }
  }

  /** What a list of bytes is worth when the first one is the most significant. */
  function Worth(s: seq<byte>): nat {
    if s == [] then 0 else 256 * Worth(s[..|s| - 1]) + s[|s| - 1]
  }

  /** The nonce for the k-th call. */
  function NonceAt(mask: Bytes12, k: nat): (nonce: Bytes12) {
    Xor(mask, BigEndian(k, 12))
  }

  lemma LimitIsPower()
    ensures LIMIT == Power256(12)
  {
    assert Power256(2) == 0x1_0000;
    assert Power256(4) == 256 * (256 * Power256(2)) == 0x1_0000_0000;
    assert Power256(6) == 256 * (256 * Power256(4)) == 0x1_0000_0000_0000;
    assert Power256(8) == 256 * (256 * Power256(6)) == 0x1_0000_0000_0000_0000;
    assert Power256(10) == 256 * (256 * Power256(8)) == 0x1_0000_0000_0000_0000_0000;
    assert Power256(12) == 256 * (256 * Power256(10));
  }

  /** n bytes are enough to tell numbers below 256^n apart. */
  lemma {:induction false} BigEndianInjective(x: nat, y: nat, n: nat)
    requires x < Power256(n) && y < Power256(n)
    requires BigEndian(x, n) == BigEndian(y, n)
    ensures x == y
  {
    if n > 0 {
      var s, t := BigEndian(x, n), BigEndian(y, n);
      assert s[..n - 1] == BigEndian(x / 256, n - 1) && t[..n - 1] == BigEndian(y / 256, n - 1);
      assert s[n - 1] == x % 256 && t[n - 1] == y % 256;
      BigEndianInjective(x / 256, y / 256, n - 1);
    }
  }

  lemma {:induction false} XorInvolution(m: nat, a: nat, n: nat)
    requires a < Power2(n)
    ensures XorBits(m, XorBits(m, a, n), n) == a
  {
    if n > 0 {
      XorInvolution(m / 2, a / 2, n - 1);
    }
  }

  lemma XorInjective(m: byte, a: byte, b: byte)
    ensures XorByte(m, a) == XorByte(m, b) <==> a == b
  {
    assert Power2(8) == 256;
    XorInvolution(m, a, 8);
    XorInvolution(m, b, 8);
    hide XorBits;
  }

  lemma {:induction false} XorZero(m: nat, n: nat)
    requires m < Power2(n)
    ensures XorBits(m, 0, n) == m
  {
    if n > 0 {
      XorZero(m / 2, n - 1);
    }
  }

  /** Different counter values below the limit give different nonces. */
  lemma NoncesDistinct(mask: Bytes12, j: nat, k: nat)
    requires j < LIMIT && k < LIMIT
    ensures NonceAt(mask, j) == NonceAt(mask, k) <==> j == k
  {
    if NonceAt(mask, j) == NonceAt(mask, k) {
      LimitIsPower();
      hide Power256;
      hide BigEndian;
      hide XorByte;
      var s, t := BigEndian(j, 12), BigEndian(k, 12);
      forall i | 0 <= i < 12 ensures s[i] == t[i] {
        assert NonceAt(mask, j)[i] == XorByte(mask[i], s[i]);
        assert NonceAt(mask, k)[i] == XorByte(mask[i], t[i]);
        XorInjective(mask[i], s[i], t[i]);
      }
      assert s == t;
      BigEndianInjective(j, k, 12);
    }
  }

  lemma ZeroBytes(n: nat)
    ensures forall i :: 0 <= i < n ==> BigEndian(0, n)[i] == 0
  {
  }

  lemma MaskIsNonceZero(mask: Bytes12)
    ensures NonceAt(mask, 0) == mask
  {
    ZeroBytes(12);
    hide BigEndian;
    assert Power2(8) == 256;
    forall i | 0 <= i < 12 ensures NonceAt(mask, 0)[i] == mask[i] {
      assert BigEndian(0, 12)[i] == 0;
      XorZero(mask[i], 8);
    }
  }

  class NonceCounter {
    const mask: Bytes12
    var counter: nat

    ghost predicate Valid()
      reads this
    {
      counter < LIMIT
    }

    constructor (mask: Bytes12)
      ensures Valid() && this.mask == mask && counter == 0
    {
      this.mask := mask;
      counter := 0;
    }

    /** The next nonce, or nothing once the counter would need more than 96 bits. The counter
        never leaves the 96 bits, so the addition cannot overflow a 128-bit integer. */
    method Advance() returns (nonce: Option<seq<byte>>)
      requires Valid()
      modifies this
      ensures Valid()
      ensures old(counter) + 1 < LIMIT ==>
        counter == old(counter) + 1 && nonce == Some(NonceAt(mask, counter))
      ensures old(counter) + 1 == LIMIT ==> counter == old(counter) && nonce == None
    {
      var next := counter + 1;
      if next >= LIMIT {
        return None;
      }
      counter := next;
      var bytes: seq<byte> := mask;
      var count := BigEndian(counter, 16);
      LowerBytes(counter, 12, 4);
      hide BigEndian;
      hide XorByte;
      for i := 0 to NONCE_LEN
        invariant |bytes| == 12
        invariant forall j :: 0 <= j < i ==> bytes[j] == XorByte(mask[j], count[4 + j])
        invariant forall j :: i <= j < 12 ==> bytes[j] == mask[j]
      {
        bytes := bytes[i := XorByte(bytes[i], count[16 - NONCE_LEN + i])];
      }
      forall j | 0 <= j < 12 ensures bytes[j] == NonceAt(mask, counter)[j] {
        assert count[4..][j] == count[4 + j];
      }
      assert bytes == NonceAt(mask, counter);
      return Some(bytes);
    }
  }

  /** The low n bytes of the longer form are the n-byte form. */
  lemma {:induction false} LowerBytes(x: nat, n: nat, more: nat)
    ensures BigEndian(x, n + more)[more..] == BigEndian(x, n)
  {
    if n > 0 {
      LowerBytes(x / 256, n - 1, more);
      var s := BigEndian(x / 256, n - 1 + more);
      assert BigEndian(x, n + more) == s + [x % 256];
      assert (s + [x % 256])[more..] == s[more..] + [x % 256];
    }
  }

  /** What `calls` calls on a fresh counter return. */
  function Returned(mask: Bytes12, calls: nat): seq<Option<Bytes12>> {
    seq(calls, i requires 0 <= i < calls => if i + 1 < LIMIT then Some(NonceAt(mask, i + 1)) else None)
  }

  /** Any number of calls on a fresh counter. */
  method Draw(mask: Bytes12, calls: nat) returns (nonces: seq<Option<seq<byte>>>)
    ensures nonces == Returned(mask, calls)
  {
    var c := new NonceCounter(mask);
    nonces := [];
    for i := 0 to calls
      invariant fresh(c) && c.Valid() && c.mask == mask
      invariant c.counter == if i < LIMIT then i else LIMIT - 1
      invariant nonces == Returned(mask, i)
    {
      var n := c.Advance();
      nonces := nonces + [n];
    }
  }

  /** Over any run from any mask: the first 2^96 - 1 calls succeed and no later one does, and all
      returned nonces differ from each other and from the mask. */
  lemma NonceUniqueness(mask: Bytes12, calls: nat)
    ensures var r := Returned(mask, calls);
      && |r| == calls
      && (forall i :: 0 <= i < calls ==> (r[i].Some? <==> i < LIMIT - 1))
      && (forall i :: 0 <= i < calls && r[i].Some? ==> r[i].value != mask)
      && (forall i, j :: 0 <= i < j < calls && r[i].Some? && r[j].Some? ==> r[i].value != r[j].value)
  {
    var r := Returned(mask, calls);
    forall i | 0 <= i < calls && r[i].Some? ensures r[i].value != mask {
      MaskIsNonceZero(mask);
      NoncesDistinct(mask, 0, i + 1);
    }
    forall i, j | 0 <= i < j < calls && r[i].Some? && r[j].Some? ensures r[i].value != r[j].value {
      NoncesDistinct(mask, i + 1, j + 1);
    }
  }
}
