/** `LookupRFCResponse`: a status code and, for 200, the peers that hold an RFC. */
module LookupResponse {
  import opened Bytes
  import opened IndexSpec
  import opened Records
  import opened ResponseLists

  const PEER_BYTES: Peer -> seq<byte> := p => EncodePeer(p)
  const PEER_PARSER: seq<byte> -> Parsed<Peer> := b => ParsePeer(b)
  const PEER_IS_STRICT: seq<byte> -> bool := b => StrictPeer(b)
  const PEER_IS_CLEAN: Peer -> bool := (p: Peer) => CleanPeer(p)

  /** The conditions under which `to_bytes` encodes anything. */
  predicate IsValid(code: int32, hosts: seq<Peer>) {
    KnownCode(code) && (code == 200 ==> forall p :: p in hosts ==> AcceptablePeer(p))
  }

  function Truncated(p: Peer): Peer {
    p.(host := CString(p.host))
  }

  function AllTruncated(hosts: seq<Peer>): seq<Peer> {
    seq(|hosts|, i requires 0 <= i < |hosts| => Truncated(hosts[i]))
  }

  lemma SizesFit(hosts: seq<Peer>)
    requires WireSize(PEER_BYTES, hosts) < TWO_TO_THE_31
    ensures |hosts| < TWO_TO_THE_31 && forall p :: p in hosts ==> |p.host| < TWO_TO_THE_31
  {
    CountBelowSize(PEER_BYTES, hosts);
    assert forall p :: p in hosts ==> |p.host| <= |PEER_BYTES(p)|;
  }

  /** What any receiver decodes: the message with every host cut at its first NUL, and no byte of what follows. */
  lemma ParseOfEncoding(hosts: seq<Peer>, suffix: seq<byte>)
    requires WireSize(PEER_BYTES, hosts) < TWO_TO_THE_31
    ensures Parse(PEER_PARSER, Encode(PEER_BYTES, hosts) + suffix) == Parsed(Message(200, AllTruncated(hosts)), suffix)
  {
    SizesFit(hosts);
    forall i, s | 0 <= i < |hosts| ensures PEER_PARSER(PEER_BYTES(hosts[i]) + s) == Parsed(AllTruncated(hosts)[i], s) {
      ParseEncodePeer(hosts[i], s);
    }
    ParseEncode(PEER_BYTES, PEER_PARSER, hosts, AllTruncated(hosts), suffix);
  }

  /** The round trip restores the message exactly when no host contains a NUL. */
  lemma RoundTripIff(hosts: seq<Peer>, suffix: seq<byte>)
    requires WireSize(PEER_BYTES, hosts) < TWO_TO_THE_31
    ensures Parse(PEER_PARSER, Encode(PEER_BYTES, hosts) + suffix) == Parsed(Message(200, hosts), suffix)
            <==> forall p :: p in hosts ==> 0 !in p.host
  {
    ParseOfEncoding(hosts, suffix);
    if p :| p in hosts && 0 in p.host {
      var i :| 0 <= i < |hosts| && hosts[i] == p;
      assert AllTruncated(hosts)[i] != hosts[i];
    } else {
      assert AllTruncated(hosts) == hosts;
    }
  }

  /** The 200 encodings are prefix-free, hence injective, on NUL-free messages. */
  lemma PrefixFree(first: seq<Peer>, s: seq<byte>, second: seq<Peer>, t: seq<byte>)
    requires WireSize(PEER_BYTES, first) < TWO_TO_THE_31 && WireSize(PEER_BYTES, second) < TWO_TO_THE_31
    requires forall p :: p in first || p in second ==> 0 !in p.host
    requires Encode(PEER_BYTES, first) + s == Encode(PEER_BYTES, second) + t
    ensures first == second && s == t
  {
    RoundTripIff(first, s);
    RoundTripIff(second, t);
  }

  /**
   Bytes are in the grammar of 200 responses (matching count, non-empty NUL-free hosts, positive
   ports, nothing after) exactly when they encode a clean message; then they encode what they decode to.
   */
  lemma GrammarIsExact(b: seq<byte>)
    requires |b| < TWO_TO_THE_31
    ensures WellFormed(PEER_PARSER, PEER_IS_STRICT, b) <==>
            exists hosts: seq<Peer> :: Encode(PEER_BYTES, hosts) == b && forall p :: p in hosts ==> CleanPeer(p)
    ensures WellFormed(PEER_PARSER, PEER_IS_STRICT, b) ==>
              Parse(PEER_PARSER, b).Parsed? && Encode(PEER_BYTES, Parse(PEER_PARSER, b).value.items) == b
  {
    if WellFormed(PEER_PARSER, PEER_IS_STRICT, b) {
      forall s | PEER_PARSER(s).Parsed? && PEER_IS_STRICT(s)
        ensures PEER_IS_CLEAN(PEER_PARSER(s).value) && PEER_BYTES(PEER_PARSER(s).value) + PEER_PARSER(s).rest == s
      {
        EncodeParsePeer(s);
      }
      WellFormedIsCanonical(PEER_BYTES, PEER_PARSER, PEER_IS_STRICT, PEER_IS_CLEAN, b);
      var hosts := Parse(PEER_PARSER, b).value.items;
      forall p | p in hosts ensures CleanPeer(p) {
        assert PEER_IS_CLEAN(p);
      }
    }
    if hosts: seq<Peer> :| Encode(PEER_BYTES, hosts) == b && forall p :: p in hosts ==> CleanPeer(p) {
      CleanEncodingIsWellFormed(hosts);
    }
  }

  lemma CleanEncodingIsWellFormed(hosts: seq<Peer>)
    requires |Encode(PEER_BYTES, hosts)| < TWO_TO_THE_31 && forall p :: p in hosts ==> CleanPeer(p)
    ensures WellFormed(PEER_PARSER, PEER_IS_STRICT, Encode(PEER_BYTES, hosts))
  {
    SizesFit(hosts);
    forall i, s | 0 <= i < |hosts|
      ensures PEER_PARSER(PEER_BYTES(hosts[i]) + s) == Parsed(hosts[i], s) && PEER_IS_STRICT(PEER_BYTES(hosts[i]) + s)
    {
      assert CleanPeer(hosts[i]);
      ParseEncodePeer(hosts[i], s);
    }
    EncodingIsWellFormed(PEER_BYTES, PEER_PARSER, PEER_IS_STRICT, hosts);
  }

  // ---- The class ----

  class LookupRfcResponse {
    var code: int32
    var hosts: seq<Peer>

    constructor (code: int32, hosts: seq<Peer>)
      ensures this.code == code && this.hosts == hosts
    {
      this.code, this.hosts := code, hosts;
    }

    method Valid() returns (valid: bool)
      ensures valid <==> IsValid(code, hosts)
      ensures valid <==> (code == 200 || code == 400 || code == 404 || code == 505) &&
                         (code == 200 ==> forall p :: p in hosts ==> |p.host| > 0 && p.port > 0)
    {
      if code > 0 {
        if code != 200 && code != 400 && code != 404 && code != 505 {
          return false;
        } else if code == 200 {
          for i := 0 to |hosts|
            invariant forall p :: p in hosts[..i] ==> AcceptablePeer(p)
          {
            if |hosts[i].host| == 0 || hosts[i].port <= 0 {
              assert !AcceptablePeer(hosts[i]);
              return false;
            }
          }
          assert hosts[..|hosts|] == hosts;
        }
        return true;
      }
      return false;
    }

    /** The size is kept in an `unsigned int`. */
    method MessageSize() returns (size: nat)
      ensures size == WireSize(PEER_BYTES, hosts) % TWO_TO_THE_32
    {
      size := 8;
      for i := 0 to |hosts|
        invariant size == WireSize(PEER_BYTES, hosts[..i]) % TWO_TO_THE_32
      {
        PrefixStep(PEER_BYTES, hosts, i);
        WrapAdd(WireSize(PEER_BYTES, hosts[..i]), 8 + |hosts[i].host|);
        size := (size + 8 + |hosts[i].host|) % TWO_TO_THE_32;
      }
      assert hosts[..|hosts|] == hosts;
    }

    /** Beyond four gigabytes the size wraps and the writes leave the buffer. */
    method ToBytes() returns (buf: array?<byte>)
      requires IsValid(code, hosts) ==> WireSize(PEER_BYTES, hosts) < TWO_TO_THE_32
      ensures buf == null <==> !IsValid(code, hosts)
      ensures buf != null ==> fresh(buf) && IsEncoding(PEER_BYTES, code, hosts, buf[..])
    {
      var valid := Valid();
      if !valid {
        return null;
      }
      var size := MessageSize();
      buf := new byte[size];
      PutBytes(buf, 0, EncodeInt(code));
      if code == 200 {
        WriteList(buf);
      }
    }

    /** The count and the records, after the code. */
    method WriteList(buf: array<byte>)
      requires buf.Length == WireSize(PEER_BYTES, hosts)
      modifies buf
      ensures buf[..] == old(buf[..4]) + EncodeInt(ToInt32(|hosts|)) + EncodeAll(PEER_BYTES, hosts)
    {
      PutBytes(buf, 4, EncodeInt(ToInt32(|hosts|)));
      ghost var header := buf[..8];
      var pos := 8;
      for i := 0 to |hosts|
        invariant pos == WireSize(PEER_BYTES, hosts[..i]) <= buf.Length
        invariant buf[..pos] == header + EncodeAll(PEER_BYTES, hosts[..i])
      {
        PrefixStep(PEER_BYTES, hosts, i);
        pos := PutPeer(buf, pos, hosts[i]);
      }
      assert hosts[..|hosts|] == hosts;
      assert buf[..pos] == buf[..];
    }

    /** Decoding clears the object first, also for codes other than 200. */
    method FromBytes(bytes: array<byte>)
      requires Parse(PEER_PARSER, bytes[..]).Parsed?
      modifies this
      ensures code == Parse(PEER_PARSER, bytes[..]).value.code
      ensures hosts == Parse(PEER_PARSER, bytes[..]).value.items
    {
      hosts := [];
      code := DecodeInt(bytes[..4]);
      assert bytes[..][..4] == bytes[..4];
      if code == 200 {
        assert bytes[..][4..8] == bytes[4..8] && bytes[..][8..] == bytes[8..];
        var appended := ReadList(bytes, Rounds(DecodeInt(bytes[4..8])));
        hosts := hosts + appended;
      }
    }
  }

  /** The loop over the records, after the code and the count. */
  method ReadList(bytes: array<byte>, lenList: nat) returns (appended: seq<Peer>)
    requires bytes.Length >= 8
    requires ParseAll(PEER_PARSER, bytes[8..], lenList).Parsed?
    ensures appended == ParseAll(PEER_PARSER, bytes[8..], lenList).value
  {
    ghost var left := ParseAll(PEER_PARSER, bytes[8..], lenList);
    ghost var all := left.value;
    appended := [];
    var pos, i := 8, 0;
    while i < lenList
      invariant 0 <= i <= lenList && 8 <= pos <= bytes.Length
      invariant left == ParseAll(PEER_PARSER, bytes[pos..], lenList - i) && left.Parsed?
      invariant all == appended + left.value
    {
      ParseAllStep(PEER_PARSER, bytes[pos..], lenList - i);
      var p, end := ReadPeer(bytes, pos);
      left := ParseAll(PEER_PARSER, bytes[end..], lenList - i - 1);
      appended := appended + [p];
      pos, i := end, i + 1;
    }
  }
}
