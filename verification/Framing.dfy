/** Chunk framing: a length of one byte, or of four bytes with the high bit set, then the body. */
module Framing {
  import opened Encoding
  import opened Outcomes

  const HIGH: nat := 0x8000_0000

  datatype ChunkLength = Byte(b: byte) | U32(b0: byte, b1: byte, b2: byte, b3: byte) {

    function AsBytes(): seq<byte> {
      match this
      case Byte(b) => [b]
      case U32(b0, b1, b2, b3) => [b0, b1, b2, b3]
    }

    /** Reads the bytes big-endian with the tag bit masked out of the first one. */
    function ToUsize(): nat {
      match this
      case Byte(b) => b
      case U32(b0, b1, b2, b3) => (((b0 % 128) * 256 + b1) * 256 + b2) * 256 + b3
    }
  }

  /** Panics beyond 2^31; the guard lets 2^31 itself through. Setting the high bit of a 32-bit
      number adds 2^31 unless the bit is set already. */
  function FromUsize(len: nat): ChunkLength
    requires len <= HIGH
  {
    if len < 128 then Byte(len)
    else
      var tagged := if len < HIGH then len + HIGH else len;
      U32(tagged / 0x100_0000, tagged / 0x1_0000 % 256, tagged / 0x100 % 256, tagged % 256)
  }

  function TryFromByte(b: byte): Option<ChunkLength> {
    if b < 128 then Some(Byte(b)) else None
  }

  /** The length survives encoding exactly when it is not 2^31, which comes back as 0. */
  lemma LengthRoundTrip(len: nat)
    requires len <= HIGH
    ensures FromUsize(len).ToUsize() == len <==> len != HIGH
    ensures len == HIGH ==> FromUsize(len).ToUsize() == 0
  {
    if 128 <= len < HIGH {
      TaggedBytes(len);
      Digits(len);
    }
  }

  lemma AddMultipleOf256(x: nat, k: nat)
    ensures (x + 256 * k) % 256 == x % 256
    ensures (x + 256 * k) / 256 == x / 256 + k
  {
  }

  /** The tag only shows in the top bit of the top byte. */
  lemma TaggedBytes(len: nat)
    requires len < HIGH
    ensures (len + HIGH) / 0x100_0000 == 128 + len / 0x100_0000 && len / 0x100_0000 < 128
    ensures (len + HIGH) / 0x1_0000 % 256 == len / 0x1_0000 % 256
    ensures (len + HIGH) / 0x100 % 256 == len / 0x100 % 256
    ensures (len + HIGH) % 256 == len % 256
  {
    var x0 := len;
    var x1, x2, x3 := x0 / 256, x0 / 256 / 256, x0 / 256 / 256 / 256;
    AddMultipleOf256(x0, 0x80_0000);
    AddMultipleOf256(x1, 0x8000);
    AddMultipleOf256(x2, 0x80);
    ByteShifts(len);
    ByteShifts(len + HIGH);
  }

  /** Shifting by two or three bytes is shifting by one byte repeatedly. */
  lemma ByteShifts(x: nat)
    ensures x / 0x100 / 256 == x / 0x1_0000
    ensures x / 0x1_0000 / 256 == x / 0x100_0000
  {
  }

  /** A number below 2^32 is the value of its four bytes. */
  lemma Digits(len: nat)
    ensures ((len / 0x100_0000 * 256 + len / 0x1_0000 % 256) * 256 + len / 0x100 % 256) * 256 + len % 256 == len
  {
    ByteShifts(len);
  }

  /** How a length is framed: below 128 as one byte, else as four, most significant first, of which the
      first is raised by 128. */
  lemma LengthLayout(len: nat)
    requires len < HIGH
    ensures FromUsize(len).AsBytes() ==
      if len < 128 then [len]
      else [128 + len / 0x100_0000, len / 0x1_0000 % 256, len / 0x100 % 256, len % 256]
  {
    TaggedBytes(len);
  }

  function WriteChunk(chunk: seq<byte>): seq<byte>
    requires |chunk| <= HIGH
  {
    FromUsize(|chunk|).AsBytes() + chunk
  }

  function WriteAll(chunks: seq<seq<byte>>): seq<byte>
    requires forall c :: c in chunks ==> |c| <= HIGH
  {
    if chunks == [] then [] else WriteChunk(chunks[0]) + WriteAll(chunks[1..])
  }

  datatype ReadError = LengthRead | BodyRead

  /** The chunk at the head of the stream and what is left behind it. */
  function ReadLength(stream: seq<byte>): Result<(ChunkLength, seq<byte>), ReadError> {
    if stream == [] then Err(LengthRead)
    else if stream[0] < 128 then Ok((Byte(stream[0]), stream[1..]))
    else if |stream| < 4 then Err(LengthRead)
    else Ok((U32(stream[0], stream[1], stream[2], stream[3]), stream[4..]))
  }

  function ReadChunk(stream: seq<byte>): Result<(seq<byte>, seq<byte>), ReadError> {
    match ReadLength(stream)
    case Err(e) => Err(e)
    case Ok((len, rest)) =>
      if |rest| < len.ToUsize() then Err(BodyRead)
      else Ok((rest[..len.ToUsize()], rest[len.ToUsize()..]))
  }

  /** The length prefix is read back as it was written, whatever follows. */
  lemma ReadLengthOfWritten(len: nat, rest: seq<byte>)
    requires len <= HIGH
    ensures ReadLength(FromUsize(len).AsBytes() + rest) == Ok((FromUsize(len), rest))
  {
    var stream := FromUsize(len).AsBytes() + rest;
    if len < 128 {
      assert stream[1..] == rest;
    } else {
      assert stream[4..] == rest;
    }
  }

  /** Reading back one written chunk gives it and leaves the rest, exactly below 2^31 bytes. */
  lemma ChunkRoundTrip(chunk: seq<byte>, rest: seq<byte>)
    requires |chunk| <= HIGH
    ensures ReadChunk(WriteChunk(chunk) + rest) == Ok((chunk, rest)) <==> |chunk| < HIGH
  {
    var len := FromUsize(|chunk|);
    assert WriteChunk(chunk) + rest == len.AsBytes() + (chunk + rest);
    ReadLengthOfWritten(|chunk|, chunk + rest);
    LengthRoundTrip(|chunk|);
    if |chunk| < HIGH {
      assert (chunk + rest)[..|chunk|] == chunk;
      assert (chunk + rest)[|chunk|..] == rest;
    }
  }

  /** A chunk of exactly 2^31 bytes is read back as an empty one, with its body left on the stream. */
  lemma LimitChunkReadsEmpty(chunk: seq<byte>, rest: seq<byte>)
    requires |chunk| == HIGH
    ensures ReadChunk(WriteChunk(chunk) + rest) == Ok(([], chunk + rest))
  {
    var len := FromUsize(|chunk|);
    assert WriteChunk(chunk) + rest == len.AsBytes() + (chunk + rest);
    ReadLengthOfWritten(|chunk|, chunk + rest);
    LengthRoundTrip(|chunk|);
    assert (chunk + rest)[..0] == [] && (chunk + rest)[0..] == chunk + rest;
  }

  class ChunkTransport {
    var stream: seq<byte>

    constructor (stream: seq<byte>)
      ensures this.stream == stream
    {
      this.stream := stream;
    }

    method Write(chunk: seq<byte>)
      requires |chunk| <= HIGH
      modifies this
      ensures stream == old(stream) + WriteChunk(chunk)
    {
      var len := FromUsize(|chunk|);
      stream := stream + len.AsBytes();
      stream := stream + chunk;
    }

    /** On an error the stream is left wherever reading stopped. */
    method Read() returns (r: Result<seq<byte>, ReadError>)
      modifies this
      ensures match ReadChunk(old(stream))
              case Ok((chunk, rest)) => r == Ok(chunk) && stream == rest
              case Err(e) => r == Err(e)
    {
      if stream == [] {
        return Err(LengthRead);
      }
      var short := stream[0];
      stream := stream[1..];
      var len;
      var known := TryFromByte(short);
      if known.Some? {
        len := known.value;
      } else {
        if |stream| < 3 {
          return Err(LengthRead);
        }
        len := U32(short, stream[0], stream[1], stream[2]);
        stream := stream[3..];
      }
      var size := len.ToUsize();
      if |stream| < size {
        return Err(BodyRead);
      }
      r := Ok(stream[..size]);
      stream := stream[size..];
    }
  }

  lemma {:induction false} WriteAllSplit(chunks: seq<seq<byte>>, i: nat)
    requires forall c :: c in chunks ==> |c| <= HIGH
    requires i < |chunks|
    ensures WriteAll(chunks[i..]) == WriteChunk(chunks[i]) + WriteAll(chunks[i + 1..])
  {
    assert chunks[i..][1..] == chunks[i + 1..];
  }

  /** Writes a list of chunks onto an empty stream. */
  method SendAll(chunks: seq<seq<byte>>) returns (t: ChunkTransport)
    requires forall c :: c in chunks ==> |c| <= HIGH
    ensures fresh(t) && t.stream == WriteAll(chunks)
  {
    hide WriteChunk;
    t := new ChunkTransport([]);
    for i := 0 to |chunks|
      invariant fresh(t)
      invariant t.stream + WriteAll(chunks[i..]) == WriteAll(chunks)
    {
      WriteAllSplit(chunks, i);
      assert chunks[i] in chunks;
      SplitConcat(t.stream, WriteChunk(chunks[i]), WriteAll(chunks[i + 1..]));
      t.Write(chunks[i]);
    }
    assert chunks[|chunks|..] == [];
    assert t.stream + [] == t.stream;
  }

  lemma SplitConcat(a: seq<byte>, b: seq<byte>, c: seq<byte>)
    ensures a + (b + c) == (a + b) + c
  {
  }

  /** Reads back as many chunks as were written, with anything at all behind them. */
  method ReceiveAll(t: ChunkTransport, ghost chunks: seq<seq<byte>>, count: nat, ghost trailing: seq<byte>)
    returns (read: seq<seq<byte>>)
    requires count == |chunks| && forall c :: c in chunks ==> |c| < HIGH
    requires t.stream == WriteAll(chunks) + trailing
    modifies t
    ensures read == chunks && t.stream == trailing
  {
    hide WriteChunk;
    hide ReadChunk;
    read := [];
    for i := 0 to count
      invariant read == chunks[..i]
      invariant t.stream == WriteAll(chunks[i..]) + trailing
    {
      WriteAllSplit(chunks, i);
      assert chunks[i] in chunks;
      ghost var rest := WriteAll(chunks[i + 1..]) + trailing;
      SplitConcat(WriteChunk(chunks[i]), WriteAll(chunks[i + 1..]), trailing);
      ChunkRoundTrip(chunks[i], rest);
      var r := t.Read();
      read := read + [r.value];
    }
    assert chunks[count..] == [];
  }

  function ReadAll(stream: seq<byte>, count: nat): Result<(seq<seq<byte>>, seq<byte>), ReadError> {
    if count == 0 then Ok(([], stream))
    else
      match ReadChunk(stream)
      case Err(e) => Err(e)
      case Ok((chunk, rest)) =>
        match ReadAll(rest, count - 1)
        case Err(e) => Err(e)
        case Ok((chunks, left)) => Ok(([chunk] + chunks, left))
  }

  /** For every list of chunks that can be written and any trailing bytes, reading back the concatenated
      writes yields exactly those chunks and leaves the trailing bytes, exactly when every chunk is
      shorter than 2^31 bytes. */
  lemma {:induction false} FramingRoundTrip(chunks: seq<seq<byte>>, trailing: seq<byte>)
    requires forall c :: c in chunks ==> |c| <= HIGH
    ensures ReadAll(WriteAll(chunks) + trailing, |chunks|) == Ok((chunks, trailing)) <==>
      forall c :: c in chunks ==> |c| < HIGH
  {
    hide WriteChunk;
    hide ReadChunk;
    if chunks == [] {
      assert WriteAll(chunks) + trailing == trailing;
    } else {
      assert chunks[0] in chunks;
      var rest := WriteAll(chunks[1..]) + trailing;
      SplitConcat(WriteChunk(chunks[0]), WriteAll(chunks[1..]), trailing);
      if |chunks[0]| == HIGH {
        LimitChunkReadsEmpty(chunks[0], rest);
      } else {
        ChunkRoundTrip(chunks[0], rest);
        FramingRoundTrip(chunks[1..], trailing);
      }
      assert [chunks[0]] + chunks[1..] == chunks;
      assert forall c :: c in chunks <==> c == chunks[0] || c in chunks[1..];
    }
  }
}
