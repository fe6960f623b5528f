/** `ListRFCResponse`: a status code and, for 200, the holders in the index. */
module ListResponse {
  import opened Bytes
  import opened IndexSpec
  import opened Records
  import opened ResponseLists

  const HOLDER_BYTES: RfcHolder -> seq<byte> := h => EncodeHolder(h)
  const HOLDER_PARSER: seq<byte> -> Parsed<RfcHolder> := b => ParseHolder(b)
  const HOLDER_IS_STRICT: seq<byte> -> bool := b => StrictHolder(b)
  const HOLDER_IS_CLEAN: RfcHolder -> bool := (h: RfcHolder) => CleanPeer(h.peer)

  /** The conditions under which `to_bytes` encodes anything. */
  predicate IsValid(code: int32, holders: seq<RfcHolder>) {
    KnownCode(code) && (code == 200 ==> forall h :: h in holders ==> AcceptablePeer(h.peer))
  }

  function Truncated(h: RfcHolder): RfcHolder {
    h.(peer := h.peer.(host := CString(h.peer.host)))
  }

  function AllTruncated(holders: seq<RfcHolder>): seq<RfcHolder> {
    seq(|holders|, i requires 0 <= i < |holders| => Truncated(holders[i]))
  }

  lemma SizesFit(holders: seq<RfcHolder>)
    requires WireSize(HOLDER_BYTES, holders) < TWO_TO_THE_31
    ensures |holders| < TWO_TO_THE_31 && forall h :: h in holders ==> |h.peer.host| < TWO_TO_THE_31
  {
    CountBelowSize(HOLDER_BYTES, holders);
    assert forall h :: h in holders ==> |h.peer.host| <= |HOLDER_BYTES(h)|;
  }

  /** What any receiver decodes: the message with every host cut at its first NUL, and no byte of what follows. */
  lemma ParseOfEncoding(holders: seq<RfcHolder>, suffix: seq<byte>)
    requires WireSize(HOLDER_BYTES, holders) < TWO_TO_THE_31
    ensures Parse(HOLDER_PARSER, Encode(HOLDER_BYTES, holders) + suffix) == Parsed(Message(200, AllTruncated(holders)), suffix)
  {
    SizesFit(holders);
    forall i, s | 0 <= i < |holders| ensures HOLDER_PARSER(HOLDER_BYTES(holders[i]) + s) == Parsed(AllTruncated(holders)[i], s) {
      ParseEncodeHolder(holders[i], s);
    }
    ParseEncode(HOLDER_BYTES, HOLDER_PARSER, holders, AllTruncated(holders), suffix);
  }

  /** The round trip restores the message exactly when no host contains a NUL. */
  lemma RoundTripIff(holders: seq<RfcHolder>, suffix: seq<byte>)
    requires WireSize(HOLDER_BYTES, holders) < TWO_TO_THE_31
    ensures Parse(HOLDER_PARSER, Encode(HOLDER_BYTES, holders) + suffix) == Parsed(Message(200, holders), suffix)
            <==> forall h :: h in holders ==> 0 !in h.peer.host
  {
    ParseOfEncoding(holders, suffix);
    if h :| h in holders && 0 in h.peer.host {
      var i :| 0 <= i < |holders| && holders[i] == h;
      assert AllTruncated(holders)[i] != holders[i];
    } else {
      assert AllTruncated(holders) == holders;
    }
  }

  /** The 200 encodings are prefix-free, hence injective, on NUL-free messages. */
  lemma PrefixFree(first: seq<RfcHolder>, s: seq<byte>, second: seq<RfcHolder>, t: seq<byte>)
    requires WireSize(HOLDER_BYTES, first) < TWO_TO_THE_31 && WireSize(HOLDER_BYTES, second) < TWO_TO_THE_31
    requires forall h :: h in first || h in second ==> 0 !in h.peer.host
    requires Encode(HOLDER_BYTES, first) + s == Encode(HOLDER_BYTES, second) + t
    ensures first == second && s == t
  {
    RoundTripIff(first, s);
    RoundTripIff(second, t);
  }

  /**
   Bytes are in the grammar of 200 responses (matching count, non-empty NUL-free hosts, positive
   ports, nothing after) exactly when they encode a clean message; then they encode what they decode to.
   */
  lemma GrammarIsExact(b: seq<byte>)
    requires |b| < TWO_TO_THE_31
    ensures WellFormed(HOLDER_PARSER, HOLDER_IS_STRICT, b) <==>
            exists holders: seq<RfcHolder> :: Encode(HOLDER_BYTES, holders) == b && forall h :: h in holders ==> CleanPeer(h.peer)
    ensures WellFormed(HOLDER_PARSER, HOLDER_IS_STRICT, b) ==>
              Parse(HOLDER_PARSER, b).Parsed? && Encode(HOLDER_BYTES, Parse(HOLDER_PARSER, b).value.items) == b
  {
    if WellFormed(HOLDER_PARSER, HOLDER_IS_STRICT, b) {
      forall s | HOLDER_PARSER(s).Parsed? && HOLDER_IS_STRICT(s)
        ensures HOLDER_IS_CLEAN(HOLDER_PARSER(s).value) && HOLDER_BYTES(HOLDER_PARSER(s).value) + HOLDER_PARSER(s).rest == s
      {
        EncodeParseHolder(s);
      }
      WellFormedIsCanonical(HOLDER_BYTES, HOLDER_PARSER, HOLDER_IS_STRICT, HOLDER_IS_CLEAN, b);
      var holders := Parse(HOLDER_PARSER, b).value.items;
      forall h | h in holders ensures CleanPeer(h.peer) {
        assert HOLDER_IS_CLEAN(h);
      }
    }
    if holders: seq<RfcHolder> :| Encode(HOLDER_BYTES, holders) == b && forall h :: h in holders ==> CleanPeer(h.peer) {
      CleanEncodingIsWellFormed(holders);
    }
  }

  lemma CleanEncodingIsWellFormed(holders: seq<RfcHolder>)
    requires |Encode(HOLDER_BYTES, holders)| < TWO_TO_THE_31 && forall h :: h in holders ==> CleanPeer(h.peer)
    ensures WellFormed(HOLDER_PARSER, HOLDER_IS_STRICT, Encode(HOLDER_BYTES, holders))
  {
    SizesFit(holders);
    forall i, s | 0 <= i < |holders|
      ensures HOLDER_PARSER(HOLDER_BYTES(holders[i]) + s) == Parsed(holders[i], s) && HOLDER_IS_STRICT(HOLDER_BYTES(holders[i]) + s)
    {
      assert CleanPeer(holders[i].peer);
      ParseEncodeHolder(holders[i], s);
    }
    EncodingIsWellFormed(HOLDER_BYTES, HOLDER_PARSER, HOLDER_IS_STRICT, holders);
  }

  // ---- The class ----

  class ListRfcResponse {
    var code: int32
    var holders: seq<RfcHolder>

    constructor (code: int32, holders: seq<RfcHolder>)
      ensures this.code == code && this.holders == holders
    {
      this.code, this.holders := code, holders;
    }

    method Valid() returns (valid: bool)
      ensures valid <==> IsValid(code, holders)
      ensures valid <==> (code == 200 || code == 400 || code == 404 || code == 505) &&
                         (code == 200 ==> forall h :: h in holders ==> |h.peer.host| > 0 && h.peer.port > 0)
    {
      if code > 0 {
        if code != 200 && code != 400 && code != 404 && code != 505 {
          return false;
        } else if code == 200 {
          for i := 0 to |holders|
            invariant forall h :: h in holders[..i] ==> AcceptablePeer(h.peer)
          {
            if |holders[i].peer.host| == 0 || holders[i].peer.port <= 0 {
              assert !AcceptablePeer(holders[i].peer);
              return false;
            }
          }
          assert holders[..|holders|] == holders;
        }
        return true;
      }
      return false;
    }

    /** The size is kept in an `unsigned int`. */
    method MessageSize() returns (size: nat)
      ensures size == WireSize(HOLDER_BYTES, holders) % TWO_TO_THE_32
    {
      size := 8;
      for i := 0 to |holders|
        invariant size == WireSize(HOLDER_BYTES, holders[..i]) % TWO_TO_THE_32
      {
        PrefixStep(HOLDER_BYTES, holders, i);
        WrapAdd(WireSize(HOLDER_BYTES, holders[..i]), 12 + |holders[i].peer.host|);
        size := (size + 12 + |holders[i].peer.host|) % TWO_TO_THE_32;
      }
      assert holders[..|holders|] == holders;
    }

    /** Beyond four gigabytes the size wraps and the writes leave the buffer. */
    method ToBytes() returns (buf: array?<byte>)
      requires IsValid(code, holders) ==> WireSize(HOLDER_BYTES, holders) < TWO_TO_THE_32
      ensures buf == null <==> !IsValid(code, holders)
      ensures buf != null ==> fresh(buf) && IsEncoding(HOLDER_BYTES, code, holders, buf[..])
    {
      var valid := Valid();
      if !valid {
        return null;
      }
      var size := MessageSize();
      buf := new byte[size];
      PutBytes(buf, 0, EncodeInt(code));
      if code == 200 {
        WriteList(buf);
      }
    }

    /** The count and the records, after the code. */
    method WriteList(buf: array<byte>)
      requires buf.Length == WireSize(HOLDER_BYTES, holders)
      modifies buf
      ensures buf[..] == old(buf[..4]) + EncodeInt(ToInt32(|holders|)) + EncodeAll(HOLDER_BYTES, holders)
    {
      PutBytes(buf, 4, EncodeInt(ToInt32(|holders|)));
      ghost var header := buf[..8];
      var pos := 8;
      for i := 0 to |holders|
        invariant pos == WireSize(HOLDER_BYTES, holders[..i]) <= buf.Length
        invariant buf[..pos] == header + EncodeAll(HOLDER_BYTES, holders[..i])
      {
        PrefixStep(HOLDER_BYTES, holders, i);
        pos := PutHolder(buf, pos, holders[i]);
      }
      assert holders[..|holders|] == holders;
      assert buf[..pos] == buf[..];
    }

    /** Decoding appends to the holders already in the object. */
    method FromBytes(bytes: array<byte>)
      requires Parse(HOLDER_PARSER, bytes[..]).Parsed?
      modifies this
      ensures code == Parse(HOLDER_PARSER, bytes[..]).value.code
      ensures holders == old(holders) + Parse(HOLDER_PARSER, bytes[..]).value.items
    {
      code := DecodeInt(bytes[..4]);
      assert bytes[..][..4] == bytes[..4];
      if code == 200 {
        assert bytes[..][4..8] == bytes[4..8] && bytes[..][8..] == bytes[8..];
        var appended := ReadList(bytes, Rounds(DecodeInt(bytes[4..8])));
        holders := holders + appended;
      }
    }
  }

  /** The loop over the records, after the code and the count. */
  method ReadList(bytes: array<byte>, lenList: nat) returns (appended: seq<RfcHolder>)
    requires bytes.Length >= 8
    requires ParseAll(HOLDER_PARSER, bytes[8..], lenList).Parsed?
    ensures appended == ParseAll(HOLDER_PARSER, bytes[8..], lenList).value
  {
    ghost var left := ParseAll(HOLDER_PARSER, bytes[8..], lenList);
    ghost var all := left.value;
    appended := [];
    var pos, i := 8, 0;
    while i < lenList
      invariant 0 <= i <= lenList && 8 <= pos <= bytes.Length
      invariant left == ParseAll(HOLDER_PARSER, bytes[pos..], lenList - i) && left.Parsed?
      invariant all == appended + left.value
    {
      ParseAllStep(HOLDER_PARSER, bytes[pos..], lenList - i);
      var h, end := ReadHolder(bytes, pos);
      left := ParseAll(HOLDER_PARSER, bytes[end..], lenList - i - 1);
      appended := appended + [h];
      pos, i := end, i + 1;
    }
  }
}
