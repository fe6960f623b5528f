/** Machine integers, network byte order and C strings. */
module Bytes {

  datatype Option<+T> = None | Some(value: T)

  type byte = b: int | 0 <= b < 256

  /** A 4-byte signed `int`. */
  type int32 = n: int | -0x8000_0000 <= n < 0x8000_0000

  /** A 2-byte signed `short`. */
  type int16 = n: int | -0x8000 <= n < 0x8000

  /** One `send`: the bytes handed to the socket in a single call. */
  type Frame = seq<byte>

  const INT_SIZE: nat := 4
  const SHORT_SIZE: nat := 2
  const TWO_TO_THE_31: nat := 0x8000_0000
  const TWO_TO_THE_32: nat := 0x1_0000_0000

  /** The conversion of a `size_t` to an `int`. */
  function ToInt32(n: int): int32 {
    (n + TWO_TO_THE_31) % TWO_TO_THE_32 - TWO_TO_THE_31
  }

  /** A size passed as an `int` keeps its last 32 bits. */
  lemma ToInt32KeepsLowBits(n: int)
    ensures (n - ToInt32(n)) % 0x1_0000_0000 == 0
  {
  }

  lemma ToInt32Identity(n: int32)
    ensures ToInt32(n) == n
  {
  }

  // ---- htonl / ntohl: two's complement, most significant byte first ----

  function EncodeInt(n: int32): (b: seq<byte>)
    ensures |b| == INT_SIZE
  {
    var u := if n < 0 then n + TWO_TO_THE_32 else n;
    [u / 0x100_0000, u / 0x1_0000 % 0x100, u / 0x100 % 0x100, u % 0x100]
  }

  function Word(b0: int, b1: int, b2: int, b3: int): int {
    b0 * 0x100_0000 + b1 * 0x1_0000 + b2 * 0x100 + b3
  }

  function DecodeInt(b: seq<byte>): int32
    requires |b| == INT_SIZE
  {
    var u := Word(b[0], b[1], b[2], b[3]);
    if u < TWO_TO_THE_31 then u else u - TWO_TO_THE_32
  }

  /** Network byte order: the most significant byte goes first, and negative numbers are in two's complement. */
  lemma IntIsBigEndian(n: int32)
    ensures var b := EncodeInt(n);
      b[0] as int * 0x100_0000 + b[1] as int * 0x1_0000 + b[2] as int * 0x100 + b[3] as int == if n < 0 then n + 0x1_0000_0000 else n
  {
    var u: int := if n < 0 then n + TWO_TO_THE_32 else n;
    assert u / 0x100 == u / 0x1_0000 * 0x100 + u / 0x100 % 0x100;
    assert u / 0x1_0000 == u / 0x100_0000 * 0x100 + u / 0x1_0000 % 0x100;
  }

  /** So it is read. */
  lemma IntIsReadBigEndian(b: seq<byte>)
    requires |b| == 4
    ensures var u := b[0] as int * 0x100_0000 + b[1] as int * 0x1_0000 + b[2] as int * 0x100 + b[3] as int;
      DecodeInt(b) == if u < 0x8000_0000 then u else u - 0x1_0000_0000
  {
  }

  lemma DecodeEncodeInt(n: int32)
    ensures DecodeInt(EncodeInt(n)) == n
  {
    var u: int := if n < 0 then n + TWO_TO_THE_32 else n;
    assert u / 0x100 == u / 0x1_0000 * 0x100 + u / 0x100 % 0x100;
    assert u / 0x1_0000 == u / 0x100_0000 * 0x100 + u / 0x1_0000 % 0x100;
  }

  lemma LastByte(b0: byte, b1: byte, b2: byte, b3: byte)
    ensures Word(b0, b1, b2, b3) / 0x100 == Word(0, b0, b1, b2) && Word(b0, b1, b2, b3) % 0x100 == b3
  {
  }

  lemma EncodeDecodeInt(b: seq<byte>)
    requires |b| == INT_SIZE
    ensures EncodeInt(DecodeInt(b)) == b
  {
    var u := Word(b[0], b[1], b[2], b[3]);
    LastByte(b[0], b[1], b[2], b[3]);
    LastByte(0, b[0], b[1], b[2]);
    LastByte(0, 0, b[0], b[1]);
    assert u / 0x1_0000 == u / 0x100 / 0x100 && u / 0x100_0000 == u / 0x1_0000 / 0x100;
  }

  // ---- htons / ntohs ----

  /** The implicit conversion of an `int` argument to a `short` parameter. */
  function NarrowToShort(n: int32): int16 {
    (n + 0x8000) % 0x1_0000 - 0x8000
  }

  function EncodeShort(n: int16): (b: seq<byte>)
    ensures |b| == SHORT_SIZE
  {
    var u := if n < 0 then n + 0x1_0000 else n;
    [u / 0x100, u % 0x100]
  }

  function DecodeShort(b: seq<byte>): int16
    requires |b| == SHORT_SIZE
  {
    var u := Word(0, 0, b[0], b[1]);
    if u < 0x8000 then u else u - 0x1_0000
  }

  lemma ShortIsBigEndian(n: int16)
    ensures var b := EncodeShort(n); b[0] as int * 0x100 + b[1] as int == if n < 0 then n + 0x1_0000 else n
  {
  }

  /** An `int` passed as a `short` keeps its last sixteen bits. */
  lemma NarrowKeepsLowBits(n: int32)
    ensures (n - NarrowToShort(n)) % 0x1_0000 == 0 && -0x8000 <= NarrowToShort(n) < 0x8000
  {
  }

  lemma DecodeEncodeShort(n: int16)
    ensures DecodeShort(EncodeShort(n)) == n
  {
  }

  /** A request for a positive number reaches the other peer unchanged exactly when it fits a `short`. */
  lemma ShortCarriesNumberIff(n: int32)
    requires n > 0
    ensures DecodeShort(EncodeShort(NarrowToShort(n))) == n <==> n < 0x8000
  {
    DecodeEncodeShort(NarrowToShort(n));
  }

  /** Adding to a wrapped `unsigned int` total. */
  lemma WrapAdd(total: nat, more: nat)
    ensures (total % TWO_TO_THE_32 + more) % TWO_TO_THE_32 == (total + more) % TWO_TO_THE_32
  {
  }

  // ---- C strings ----

  /** The part of `b` before the first byte equal to `stop`. */
  function TakeUntil(b: seq<byte>, stop: byte): (r: seq<byte>)
    ensures r <= b && stop !in r
    ensures r == b <==> stop !in b
    ensures |r| < |b| ==> b[|r|] == stop
  {
    if b == [] || b[0] == stop then [] else [b[0]] + TakeUntil(b[1..], stop)
  }

  /** What `std::string(char*)` keeps of a NUL-terminated copy of `b`. */
  function CString(b: seq<byte>): seq<byte> {
    TakeUntil(b, 0)
  }

  /** The byte stream made by a sequence of sends. */
  function Flatten(frames: seq<Frame>): seq<byte> {
    if frames == [] then [] else frames[0] + Flatten(frames[1..])
  }

  lemma {:induction false} FlattenAppend(frames: seq<Frame>, last: Frame)
    ensures Flatten(frames + [last]) == Flatten(frames) + last
  {
    if frames == [] {
      assert frames + [last] == [last];
      assert Flatten([last]) == last + Flatten([]);
    } else {
      assert (frames + [last])[1..] == frames[1..] + [last];
      FlattenAppend(frames[1..], last);
    }
  }
}
