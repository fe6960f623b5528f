/** Length-prefixed records in a byte buffer, and lists of them. */
module Records {
  import opened Bytes
  import opened IndexSpec

  /**
   The outcome of decoding a record at the front of a buffer. `Stuck` is where the program would read
   outside the buffer or use a negative length.
   */
  datatype Parsed<+T> = Stuck | Parsed(value: T, rest: seq<byte>)

  /** How often `for (int i = 0; i < count; i++)` runs. */
  function Rounds(count: int32): nat {
    if count < 0 then 0 else count
  }

  /** The status codes that `is_valid` accepts. */
  predicate KnownCode(code: int32) {
    code == 200 || code == 400 || code == 404 || code == 505
  }

  // ---- Lists of records ----

  function EncodeAll<T>(enc: T -> seq<byte>, xs: seq<T>): seq<byte> {
    if xs == [] then [] else enc(xs[0]) + EncodeAll(enc, xs[1..])
  }

  function ParseAll<T>(parse: seq<byte> -> Parsed<T>, b: seq<byte>, n: nat): Parsed<seq<T>>
    decreases n
  {
    if n == 0 then Parsed([], b)
    else
      match parse(b)
      case Stuck => Stuck
      case Parsed(x, rest) =>
        match ParseAll(parse, rest, n - 1)
        case Stuck => Stuck
        case Parsed(xs, rest') => Parsed([x] + xs, rest')
  }

  /** Every one of the `n` records at the front of `b` satisfies `strict`. */
  predicate AllStrict<T>(parse: seq<byte> -> Parsed<T>, strict: seq<byte> -> bool, b: seq<byte>, n: nat)
    decreases n
  {
    n == 0 || (parse(b).Parsed? && strict(b) && AllStrict(parse, strict, parse(b).rest, n - 1))
  }

  lemma {:induction false} EncodeAllAppend<T>(enc: T -> seq<byte>, xs: seq<T>, x: T)
    ensures EncodeAll(enc, xs + [x]) == EncodeAll(enc, xs) + enc(x)
  {
    if xs == [] {
      assert EncodeAll(enc, [x]) == enc(x) + EncodeAll(enc, []);
    } else {
      EncodeAllAppend(enc, xs[1..], x);
      assert (xs + [x])[1..] == xs[1..] + [x];
    }
  }

  lemma ParseAllStep<T>(parse: seq<byte> -> Parsed<T>, b: seq<byte>, n: nat)
    requires n > 0 && ParseAll(parse, b, n).Parsed?
    ensures parse(b).Parsed? && ParseAll(parse, parse(b).rest, n - 1).Parsed?
    ensures ParseAll(parse, b, n).value == [parse(b).value] + ParseAll(parse, parse(b).rest, n - 1).value
  {
  }

  /** A list comes back through decoding when each of its records does, whatever follows it. */
  lemma {:induction false} ParseEncodeAll<T>(enc: T -> seq<byte>, parse: seq<byte> -> Parsed<T>, xs: seq<T>, ys: seq<T>, suffix: seq<byte>)
    requires |xs| == |ys|
    requires forall i, s :: 0 <= i < |xs| ==> parse(enc(xs[i]) + s) == Parsed(ys[i], s)
    ensures ParseAll(parse, EncodeAll(enc, xs) + suffix, |xs|) == Parsed(ys, suffix)
  {
    if xs != [] {
      forall i, s | 0 <= i < |xs[1..]| ensures parse(enc(xs[1..][i]) + s) == Parsed(ys[1..][i], s) {
        assert xs[1..][i] == xs[i + 1];
      }
      ParseEncodeAll(enc, parse, xs[1..], ys[1..], suffix);
      assert EncodeAll(enc, xs) + suffix == enc(xs[0]) + (EncodeAll(enc, xs[1..]) + suffix);
      assert parse(EncodeAll(enc, xs) + suffix) == Parsed(ys[0], EncodeAll(enc, xs[1..]) + suffix);
      assert ys == [ys[0]] + ys[1..];
    }
  }

  lemma {:induction false} StrictEncodeAll<T>(enc: T -> seq<byte>, parse: seq<byte> -> Parsed<T>, strict: seq<byte> -> bool,
                           xs: seq<T>, suffix: seq<byte>)
    requires forall i, s :: 0 <= i < |xs| ==> parse(enc(xs[i]) + s) == Parsed(xs[i], s) && strict(enc(xs[i]) + s)
    ensures AllStrict(parse, strict, EncodeAll(enc, xs) + suffix, |xs|)
  {
    if xs != [] {
      forall i, s | 0 <= i < |xs[1..]|
        ensures parse(enc(xs[1..][i]) + s) == Parsed(xs[1..][i], s) && strict(enc(xs[1..][i]) + s)
      {
        assert xs[1..][i] == xs[i + 1];
      }
      StrictEncodeAll(enc, parse, strict, xs[1..], suffix);
      assert EncodeAll(enc, xs) + suffix == enc(xs[0]) + (EncodeAll(enc, xs[1..]) + suffix);
    }
  }

  /** Strict records are encoded as they stand, so the decoded list encodes to the bytes it came from. */
  lemma {:induction false} EncodeParseAll<T>(enc: T -> seq<byte>, parse: seq<byte> -> Parsed<T>, strict: seq<byte> -> bool,
                          ok: T -> bool, b: seq<byte>, n: nat)
    requires AllStrict(parse, strict, b, n)
    requires forall s :: parse(s).Parsed? && strict(s) ==> ok(parse(s).value) && enc(parse(s).value) + parse(s).rest == s
    ensures var r := ParseAll(parse, b, n);
      r.Parsed? && |r.value| == n && EncodeAll(enc, r.value) + r.rest == b && forall i :: 0 <= i < n ==> ok(r.value[i])
    decreases n
  {
    if n > 0 {
      EncodeParseAll(enc, parse, strict, ok, parse(b).rest, n - 1);
      var r := ParseAll(parse, b, n);
      var tail := ParseAll(parse, parse(b).rest, n - 1);
      assert r.value[1..] == tail.value;
      assert EncodeAll(enc, r.value) + r.rest == enc(r.value[0]) + (EncodeAll(enc, tail.value) + tail.rest);
    }
  }

  // ---- The record of a peer: length of the host, the host, the port ----

  function EncodePeer(p: Peer): seq<byte> {
    EncodeInt(ToInt32(|p.host|)) + p.host + EncodeInt(p.port)
  }

  function ParsePeer(b: seq<byte>): Parsed<Peer> {
    if |b| < 4 then Stuck
    else
      var len := DecodeInt(b[..4]);
      if len < 0 || |b| < 4 + len + 4 then Stuck
      else Parsed(Peer(CString(b[4..4 + len]), DecodeInt(b[4 + len..8 + len])), b[8 + len..])
  }

  /** A record as the encoder would write it for an acceptable peer. */
  predicate StrictPeer(b: seq<byte>) {
    && ParsePeer(b).Parsed?
    && var len := DecodeInt(b[..4]);
       0 < len && 0 !in b[4..4 + len] && DecodeInt(b[4 + len..8 + len]) > 0
  }

  /** What `is_valid` asks of each peer in a 200 response. */
  predicate AcceptablePeer(p: Peer) {
    |p.host| != 0 && p.port > 0
  }

  /** An acceptable peer whose host survives the passage through a C string. */
  predicate CleanPeer(p: Peer) {
    AcceptablePeer(p) && 0 !in p.host && |p.host| < TWO_TO_THE_31
  }

  lemma FourParts(a: seq<byte>, b: seq<byte>, c: seq<byte>, d: seq<byte>)
    ensures var s := a + b + c + d;
      && s[..|a|] == a && s[|a|..|a| + |b|] == b
      && s[|a| + |b|..|a| + |b| + |c|] == c && s[|a| + |b| + |c|..] == d
  {
  }

  lemma ParseEncodePeer(p: Peer, suffix: seq<byte>)
    requires |p.host| < TWO_TO_THE_31
    ensures ParsePeer(EncodePeer(p) + suffix) == Parsed(p.(host := CString(p.host)), suffix)
    ensures CleanPeer(p) ==> StrictPeer(EncodePeer(p) + suffix)
  {
    ToInt32Identity(|p.host|);
    FourParts(EncodeInt(|p.host|), p.host, EncodeInt(p.port), suffix);
    DecodeEncodeInt(|p.host|);
    DecodeEncodeInt(p.port);
    var b := EncodePeer(p) + suffix;
    assert b == EncodeInt(|p.host|) + p.host + EncodeInt(p.port) + suffix;
    assert DecodeInt(b[..4]) == |p.host|;
  }

  lemma EncodeParsePeer(b: seq<byte>)
    requires StrictPeer(b)
    ensures CleanPeer(ParsePeer(b).value)
    ensures EncodePeer(ParsePeer(b).value) + ParsePeer(b).rest == b
  {
    var len: int := DecodeInt(b[..4]);
    var host := b[4..4 + len];
    ToInt32Identity(len);
    EncodeDecodeInt(b[..4]);
    EncodeDecodeInt(b[4 + len..8 + len]);
    assert ParsePeer(b) == Parsed(Peer(host, DecodeInt(b[4 + len..8 + len])), b[8 + len..]);
    assert EncodePeer(ParsePeer(b).value) == b[..4] + host + b[4 + len..8 + len];
    Rejoin(b, 4, 4 + len, 8 + len);
  }

  lemma Rejoin(b: seq<byte>, i: nat, j: nat, k: nat)
    requires i <= j <= k <= |b|
    ensures b[..i] + b[i..j] + b[j..k] + b[k..] == b
  {
  }

  // ---- The record of a holder: the RFC number and the peer ----

  function EncodeHolder(h: RfcHolder): seq<byte> {
    EncodeInt(h.rfc) + EncodePeer(h.peer)
  }

  function ParseHolder(b: seq<byte>): Parsed<RfcHolder> {
    if |b| < 4 then Stuck
    else
      match ParsePeer(b[4..])
      case Stuck => Stuck
      case Parsed(p, rest) => Parsed(RfcHolder(DecodeInt(b[..4]), p), rest)
  }

  predicate StrictHolder(b: seq<byte>) {
    |b| >= 4 && StrictPeer(b[4..])
  }

  lemma ParseEncodeHolder(h: RfcHolder, suffix: seq<byte>)
    requires |h.peer.host| < TWO_TO_THE_31
    ensures ParseHolder(EncodeHolder(h) + suffix) == Parsed(h.(peer := h.peer.(host := CString(h.peer.host))), suffix)
    ensures CleanPeer(h.peer) ==> StrictHolder(EncodeHolder(h) + suffix)
  {
    var b := EncodeHolder(h) + suffix;
    assert b[..4] == EncodeInt(h.rfc) && b[4..] == EncodePeer(h.peer) + suffix;
    DecodeEncodeInt(h.rfc);
    ParseEncodePeer(h.peer, suffix);
  }

  lemma EncodeParseHolder(b: seq<byte>)
    requires StrictHolder(b)
    ensures ParseHolder(b).Parsed? && CleanPeer(ParseHolder(b).value.peer)
    ensures EncodeHolder(ParseHolder(b).value) + ParseHolder(b).rest == b
  {
    EncodeParsePeer(b[4..]);
    EncodeDecodeInt(b[..4]);
    var h := ParseHolder(b).value;
    assert EncodeHolder(h) + ParseHolder(b).rest == EncodeInt(h.rfc) + (EncodePeer(h.peer) + ParseHolder(b).rest);
    assert b == b[..4] + b[4..];
  }

  // ---- Writing into a buffer ----

  /** `memcpy(buf + pos, data, |data|)`. */
  method PutBytes(buf: array<byte>, pos: nat, data: seq<byte>)
    requires pos + |data| <= buf.Length
    modifies buf
    ensures buf[..pos + |data|] == old(buf[..pos]) + data
    ensures buf[pos + |data|..] == old(buf[pos + |data|..])
  {
    forall i | 0 <= i < |data| {
      buf[pos + i] := data[i];
    }
  }

  /** Writes the record of `p` at `pos` and moves past it. */
  method PutPeer(buf: array<byte>, pos: nat, p: Peer) returns (end: nat)
    requires pos + 8 + |p.host| <= buf.Length
    modifies buf
    ensures end == pos + 8 + |p.host|
    ensures buf[..end] == old(buf[..pos]) + EncodePeer(p) && buf[end..] == old(buf[end..])
  {
    ghost var rest := buf[pos + 8 + |p.host|..];
    PutBytes(buf, pos, EncodeInt(ToInt32(|p.host|)));
    end := pos + 4;
    assert buf[end..][4 + |p.host|..] == rest;
    PutBytes(buf, end, p.host);
    end := end + |p.host|;
    assert buf[end..][4..] == rest;
    PutBytes(buf, end, EncodeInt(p.port));
    end := end + 4;
  }

  /** Reads the record of a peer at `pos` and moves past it. */
  method ReadPeer(bytes: array<byte>, pos: nat) returns (p: Peer, end: nat)
    requires pos <= bytes.Length && ParsePeer(bytes[pos..]).Parsed?
    ensures pos <= end <= bytes.Length
    ensures ParsePeer(bytes[pos..]) == Parsed(p, bytes[end..])
  {
    assert bytes[pos..][..4] == bytes[pos..pos + 4];
    var len: int := DecodeInt(bytes[pos..pos + 4]);
    SlicesOf(bytes[..], pos, len);
    assert bytes[..][pos..] == bytes[pos..];
    end := pos + 4;
    var host := bytes[end..end + len];
    assert bytes[..][end..end + len] == host;
    end := end + len;
    var port := DecodeInt(bytes[end..end + 4]);
    assert bytes[..][end..end + 4] == bytes[end..end + 4];
    end := end + 4;
    assert bytes[..][end..] == bytes[end..];
    p := Peer(CString(host), port);
  }

  lemma SlicesOf(b: seq<byte>, pos: nat, len: nat)
    requires pos + 8 + len <= |b|
    ensures b[pos..][4..4 + len] == b[pos + 4..pos + 4 + len]
    ensures b[pos..][4 + len..8 + len] == b[pos + 4 + len..pos + 8 + len]
    ensures b[pos..][8 + len..] == b[pos + 8 + len..]
  {
  }

  /** Writes the record of `h` at `pos` and moves past it. */
  method PutHolder(buf: array<byte>, pos: nat, h: RfcHolder) returns (end: nat)
    requires pos + 12 + |h.peer.host| <= buf.Length
    modifies buf
    ensures end == pos + 12 + |h.peer.host|
    ensures buf[..end] == old(buf[..pos]) + EncodeHolder(h) && buf[end..] == old(buf[end..])
  {
    PutBytes(buf, pos, EncodeInt(h.rfc));
    end := PutPeer(buf, pos + 4, h.peer);
  }

  /** Reads the record of a holder at `pos` and moves past it. */
  method ReadHolder(bytes: array<byte>, pos: nat) returns (h: RfcHolder, end: nat)
    requires pos <= bytes.Length && ParseHolder(bytes[pos..]).Parsed?
    ensures pos <= end <= bytes.Length
    ensures ParseHolder(bytes[pos..]) == Parsed(h, bytes[end..])
  {
    assert bytes[pos..][4..] == bytes[pos + 4..] && bytes[pos..][..4] == bytes[pos..pos + 4];
    var rfcNum := DecodeInt(bytes[pos..pos + 4]);
    var peer;
    peer, end := ReadPeer(bytes, pos + 4);
    h := RfcHolder(rfcNum, peer);
  }
}

/** A response that is a status code and, for 200, a counted list of records. */
module ResponseLists {
  import opened Bytes
  import opened Records

  /** `message_size()`: what the whole list needs, whatever the code. */
  function WireSize<T>(enc: T -> seq<byte>, items: seq<T>): nat {
    8 + |EncodeAll(enc, items)|
  }

  /** The wire form of a 200 response. */
  function Encode<T>(enc: T -> seq<byte>, items: seq<T>): seq<byte> {
    EncodeInt(200) + EncodeInt(ToInt32(|items|)) + EncodeAll(enc, items)
  }

  /** A buffer `to_bytes` may return: a response other than 200 leaves all but the code unwritten. */
  predicate IsEncoding<T>(enc: T -> seq<byte>, code: int32, items: seq<T>, buf: seq<byte>) {
    && |buf| == WireSize(enc, items)
    && buf[..4] == EncodeInt(code)
    && (code == 200 ==> buf == Encode(enc, items))
  }

  datatype Message<T> = Message(code: int32, items: seq<T>)

  /** What a fresh object reads from `b`, and what it leaves unread. */
  function Parse<T>(parse: seq<byte> -> Parsed<T>, b: seq<byte>): Parsed<Message<T>> {
    if |b| < 4 then Stuck
    else if DecodeInt(b[..4]) != 200 then Parsed(Message(DecodeInt(b[..4]), []), b[4..])
    else if |b| < 8 then Stuck
    else
      match ParseAll(parse, b[8..], Rounds(DecodeInt(b[4..8])))
      case Stuck => Stuck
      case Parsed(items, rest) => Parsed(Message(200, items), rest)
  }

  lemma {:induction false} CountBelowSize<T>(enc: T -> seq<byte>, items: seq<T>)
    requires forall x :: x in items ==> |enc(x)| > 0
    ensures |items| <= |EncodeAll(enc, items)|
    ensures forall x :: x in items ==> |enc(x)| <= |EncodeAll(enc, items)|
  {
    if items != [] {
      CountBelowSize(enc, items[1..]);
      assert items == [items[0]] + items[1..];
    }
  }

  lemma HeaderParts<T>(enc: T -> seq<byte>, items: seq<T>, suffix: seq<byte>)
    ensures var b := Encode(enc, items) + suffix;
      |b| >= 8 && b[..4] == EncodeInt(200) && b[4..8] == EncodeInt(ToInt32(|items|)) && b[8..] == EncodeAll(enc, items) + suffix
  {
    FourParts(EncodeInt(200), EncodeInt(ToInt32(|items|)), EncodeAll(enc, items), suffix);
  }

  lemma HeaderOf<T>(enc: T -> seq<byte>, items: seq<T>, suffix: seq<byte>)
    requires |items| < TWO_TO_THE_31
    ensures var b := Encode(enc, items) + suffix;
      |b| >= 8 && DecodeInt(b[..4]) == 200 && DecodeInt(b[4..8]) == |items| && b[8..] == EncodeAll(enc, items) + suffix
  {
    HeaderParts(enc, items, suffix);
    ToInt32Identity(|items|);
    DecodeEncodeInt(200);
    DecodeEncodeInt(|items|);
  }

  /** Decoding stops exactly at the end of the encoding, whatever follows it. */
  lemma ParseEncode<T>(enc: T -> seq<byte>, parse: seq<byte> -> Parsed<T>, items: seq<T>, decoded: seq<T>, suffix: seq<byte>)
    requires |items| == |decoded| < TWO_TO_THE_31
    requires forall i, s :: 0 <= i < |items| ==> parse(enc(items[i]) + s) == Parsed(decoded[i], s)
    ensures Parse(parse, Encode(enc, items) + suffix) == Parsed(Message(200, decoded), suffix)
  {
    HeaderOf(enc, items, suffix);
    ParseEncodeAll(enc, parse, items, decoded, suffix);
  }

  /** A response other than 200 decodes from its first four bytes, whatever the rest of the buffer holds. */
  lemma OtherCodesIgnoreTheRest<T>(enc: T -> seq<byte>, parse: seq<byte> -> Parsed<T>, code: int32, items: seq<T>,
                                   buf: seq<byte>, suffix: seq<byte>)
    requires IsEncoding(enc, code, items, buf) && code != 200
    ensures Parse(parse, buf + suffix) == Parsed(Message(code, []), buf[4..] + suffix)
  {
    DecodeEncodeInt(code);
    assert (buf + suffix)[..4] == buf[..4] && (buf + suffix)[4..] == buf[4..] + suffix;
  }

  /** The grammar of 200 responses: a matching count of strict records and nothing after them. */
  predicate WellFormed<T>(parse: seq<byte> -> Parsed<T>, strict: seq<byte> -> bool, b: seq<byte>) {
    && |b| >= 8 && DecodeInt(b[..4]) == 200 && DecodeInt(b[4..8]) >= 0
    && AllStrict(parse, strict, b[8..], DecodeInt(b[4..8]))
    && ParseAll(parse, b[8..], DecodeInt(b[4..8])).Parsed?
    && ParseAll(parse, b[8..], DecodeInt(b[4..8])).rest == []
  }

  /** Well-formed bytes are the encoding of what they decode to. */
  lemma WellFormedIsCanonical<T>(enc: T -> seq<byte>, parse: seq<byte> -> Parsed<T>, strict: seq<byte> -> bool,
                                 ok: T -> bool, b: seq<byte>)
    requires WellFormed(parse, strict, b)
    requires forall s :: parse(s).Parsed? && strict(s) ==> ok(parse(s).value) && enc(parse(s).value) + parse(s).rest == s
    ensures Parse(parse, b).Parsed? && Parse(parse, b).rest == [] && Parse(parse, b).value.code == 200
    ensures forall x :: x in Parse(parse, b).value.items ==> ok(x)
    ensures Encode(enc, Parse(parse, b).value.items) == b
  {
    var n := DecodeInt(b[4..8]);
    EncodeParseAll(enc, parse, strict, ok, b[8..], n);
    var items := Parse(parse, b).value.items;
    assert EncodeAll(enc, items) == EncodeAll(enc, items) + [];
    ToInt32Identity(n);
    EncodeDecodeInt(b[..4]);
    EncodeDecodeInt(b[4..8]);
    Rejoin(b, 4, 8, |b|);
  }

  lemma EncodingIsWellFormed<T>(enc: T -> seq<byte>, parse: seq<byte> -> Parsed<T>, strict: seq<byte> -> bool, items: seq<T>)
    requires |items| < TWO_TO_THE_31
    requires forall i, s :: 0 <= i < |items| ==> parse(enc(items[i]) + s) == Parsed(items[i], s) && strict(enc(items[i]) + s)
    ensures WellFormed(parse, strict, Encode(enc, items))
  {
    HeaderOf(enc, items, []);
    assert Encode(enc, items) + [] == Encode(enc, items);
    ParseEncodeAll(enc, parse, items, items, []);
    StrictEncodeAll(enc, parse, strict, items, []);
  }

  lemma PrefixStep<T>(enc: T -> seq<byte>, items: seq<T>, i: nat)
    requires i < |items|
    ensures EncodeAll(enc, items[..i + 1]) == EncodeAll(enc, items[..i]) + enc(items[i])
    ensures |EncodeAll(enc, items[..i + 1])| <= |EncodeAll(enc, items)|
  {
    assert items[..i + 1] == items[..i] + [items[i]];
    EncodeAllAppend(enc, items[..i], items[i]);
    PrefixSize(enc, items, i + 1);
  }

  lemma {:induction false} PrefixSize<T>(enc: T -> seq<byte>, items: seq<T>, i: nat)
    requires i <= |items|
    ensures |EncodeAll(enc, items[..i])| <= |EncodeAll(enc, items)|
  {
    if i > 0 {
      PrefixSize(enc, items[1..], i - 1);
      assert items[..i][1..] == items[1..][..i - 1];
    }
  }
}
