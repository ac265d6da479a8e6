/** Length-prefixed digest preimages.

  Every identity in the system is the digest of a buffer built by appending
  framed fields: a 64-bit little-endian length followed by the bytes.  The
  digest itself is an arbitrary function `hash`, passed to every definition
  that needs it; nothing here assumes that it is injective.
*/
module Framing {

  type Byte = x: nat | x < 256
  type Bytes = seq<Byte>

  const DIGEST_LENGTH := 32
  type Digest = d: Bytes | |d| == DIGEST_LENGTH witness seq(DIGEST_LENGTH, _ => 0)

  const TWO_TO_THE_64: nat := 0x1_0000_0000_0000_0000

  /** `u64`, and a byte buffer whose length a `u64` can carry. */
  type Word64 = n: nat | n < TWO_TO_THE_64
  type Buffer = b: Bytes | |b| < TWO_TO_THE_64

  datatype Option<+T> = None | Some(value: T)
  datatype Result<+T, +E> = Ok(value: T) | Err(error: E)

  /** The bytes of an ASCII literal. */
  function Ascii(text: string): (bytes: Bytes)
    ensures |bytes| == |text|
  {
    seq(|text|, i requires 0 <= i < |text| => text[i] as int % 256)
  }

  /** Two different preimages that share one digest. */
  predicate Collide(hash: Bytes -> Digest, left: Bytes, right: Bytes) {
    left != right && hash(left) == hash(right)
  }

  /** A digest that tells two preimages apart shows no collision of them, so that a result "equal,
      or a collision" is an equality under it. */
  lemma ApartDoNotCollide(hash: Bytes -> Digest, left: Bytes, right: Bytes)
    ensures Collide(hash, left, right) <==> !(hash(left) == hash(right) ==> left == right)
  {
  }

  // ---------- fixed-width integers ----------

  function Power256(width: nat): (p: nat)
    ensures p >= 1
  {
    if width == 0 then 1 else 256 * Power256(width - 1)
  }

  /** `to_le_bytes` of the value truncated to `width` bytes. */
  function LittleEndian(value: nat, width: nat): (bytes: Bytes)
    ensures |bytes| == width
  {
    if width == 0 then [] else [value % 256] + LittleEndian(value / 256, width - 1)
  }

  function FromLittleEndian(bytes: Bytes): nat {
    if bytes == [] then 0 else bytes[0] + 256 * FromLittleEndian(bytes[1..])
  }

  lemma {:induction false} LittleEndianRoundTrip(value: nat, width: nat)
    requires value < Power256(width)
    ensures FromLittleEndian(LittleEndian(value, width)) == value
  {
    if width > 0 {
      var bytes := LittleEndian(value, width);
      assert bytes[1..] == LittleEndian(value / 256, width - 1);
      LittleEndianRoundTrip(value / 256, width - 1);
    }
  }

  lemma {:induction false} FromLittleEndianRoundTrip(bytes: Bytes)
    ensures FromLittleEndian(bytes) < Power256(|bytes|)
    ensures LittleEndian(FromLittleEndian(bytes), |bytes|) == bytes
  {
    if bytes != [] {
      FromLittleEndianRoundTrip(bytes[1..]);
      var value := FromLittleEndian(bytes);
      assert value / 256 == FromLittleEndian(bytes[1..]) && value % 256 == bytes[0];
      assert bytes == [bytes[0]] + bytes[1..];
    }
  }

  lemma Power256Of8()
    ensures Power256(8) == TWO_TO_THE_64
  {
    assert Power256(2) == 65536;
    assert Power256(4) == 256 * (256 * Power256(2)) == 0x1_0000_0000;
    assert Power256(6) == 256 * (256 * Power256(4)) == 0x1_0000_0000_0000;
  }

  function U64(value: nat): (bytes: Bytes)
    ensures |bytes| == 8
  {
    LittleEndian(value, 8)
  }

  lemma U64Reads(value: nat)
    requires value < TWO_TO_THE_64
    ensures FromLittleEndian(U64(value)) == value
  {
    Power256Of8();
    LittleEndianRoundTrip(value, 8);
  }

  lemma U64Injective(left: nat, right: nat)
    requires left < TWO_TO_THE_64 && right < TWO_TO_THE_64
    requires U64(left) == U64(right)
    ensures left == right
  {
    U64Reads(left);
    U64Reads(right);
  }

  // ---------- frames ----------

  /** One framed field.  The low 64 bits of the length come first. */
  function Frame(field: Bytes): (framed: Bytes)
    ensures |framed| == 8 + |field|
  {
    U64(|field|) + field
  }

  function FrameAll(fields: seq<Bytes>): Bytes {
    if fields == [] then [] else Frame(fields[0]) + FrameAll(fields[1..])
  }

  /** Every field has a length that the 64-bit prefix can carry. */
  predicate Addressable(fields: seq<Bytes>) {
    forall i :: 0 <= i < |fields| ==> |fields[i]| < TWO_TO_THE_64
  }

  /** The inverse of `FrameAll`: read frames until the buffer is exhausted. */
  function Unframe(buffer: Bytes): Option<seq<Bytes>> {
    if buffer == [] then Some([])
    else if |buffer| < 8 then None
    else
      var length := FromLittleEndian(buffer[..8]);
      if |buffer| - 8 < length then None
      else
        match Unframe(buffer[8 + length..])
        case None => None
        case Some(rest) => Some([buffer[8..8 + length]] + rest)
  }

  lemma UnframePrefixed(prefix: Bytes, field: Bytes, rest: Bytes)
    requires |prefix| == 8 && FromLittleEndian(prefix) == |field| && Unframe(rest).Some?
    ensures Unframe((prefix + field) + rest) == Some([field] + Unframe(rest).value)
  {
    var buffer := (prefix + field) + rest;
    assert buffer[..8] == prefix && buffer[8..8 + |field|] == field && buffer[8 + |field|..] == rest;
  }

  lemma UnframeFrame(field: Bytes, rest: Bytes)
    requires |field| < TWO_TO_THE_64 && Unframe(rest).Some?
    ensures Unframe(Frame(field) + rest) == Some([field] + Unframe(rest).value)
  {
    var prefix := U64(|field|);
    U64Reads(|field|);
    UnframePrefixed(prefix, field, rest);
  }

  lemma {:induction false} UnframeFrameAll(fields: seq<Bytes>)
    requires Addressable(fields)
    ensures Unframe(FrameAll(fields)) == Some(fields)
  {
    if fields != [] {
      UnframeFrameAll(fields[1..]);
      UnframeFrame(fields[0], FrameAll(fields[1..]));
      assert fields == [fields[0]] + fields[1..];
    }
  }

  /** The prefix of a readable frame is the length of its field. */
  lemma FrameOfPrefix(prefix: Bytes, field: Bytes)
    requires |prefix| == 8 && FromLittleEndian(prefix) == |field|
    ensures |field| < TWO_TO_THE_64 && Frame(field) == prefix + field
  {
    Power256Of8();
    FromLittleEndianRoundTrip(prefix);
  }

  lemma {:induction false} FrameAllUnframe(buffer: Bytes)
    requires Unframe(buffer).Some?
    ensures FrameAll(Unframe(buffer).value) == buffer
    ensures Addressable(Unframe(buffer).value)
  {
    if buffer != [] {
      var length := FromLittleEndian(buffer[..8]);
      var head, tail := buffer[8..8 + length], buffer[8 + length..];
      FrameOfPrefix(buffer[..8], head);
      FrameAllUnframe(tail);
      var rest := Unframe(tail).value;
      assert ([head] + rest)[1..] == rest;
      assert buffer == (buffer[..8] + head) + tail;
    }
  }

  /** Field boundaries are unambiguous: a framed buffer determines its fields. */
  lemma FramesAreUniquelyDecodable(left: seq<Bytes>, right: seq<Bytes>)
    requires Addressable(left) && Addressable(right)
    requires FrameAll(left) == FrameAll(right)
    ensures left == right
  {
    UnframeFrameAll(left);
    UnframeFrameAll(right);
  }

  /** The buffer that `framed_digest` hashes, built by appending. */
  method FramedBuffer(fields: seq<Bytes>) returns (buffer: Bytes)
    ensures buffer == FrameAll(fields)
  {
    buffer := [];
    for i := 0 to |fields|
      invariant buffer + FrameAll(fields[i..]) == FrameAll(fields)
    {
      assert fields[i..][1..] == fields[i + 1..];
      assert buffer + (Frame(fields[i]) + FrameAll(fields[i + 1..]))
          == buffer + Frame(fields[i]) + FrameAll(fields[i + 1..]);
      buffer := buffer + Frame(fields[i]);
    }
  }

  function FramedDigest(hash: Bytes -> Digest, fields: seq<Bytes>): Digest {
    hash(FrameAll(fields))
  }

  /** A framed digest binds its fields unless two actual preimages collide. */
  lemma FramedDigestBinds(hash: Bytes -> Digest, left: seq<Bytes>, right: seq<Bytes>)
    requires Addressable(left) && Addressable(right)
    requires FramedDigest(hash, left) == FramedDigest(hash, right)
    ensures left == right || Collide(hash, FrameAll(left), FrameAll(right))
  {
    if FrameAll(left) == FrameAll(right) {
      FramesAreUniquelyDecodable(left, right);
    }
  }
}
