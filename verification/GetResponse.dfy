/** `GetRFCResponse`: a status code and, for 200, the content of an RFC. */
module GetResponse {
  import opened Bytes
  import opened Records

  /** The conditions under which `to_bytes` encodes anything: a 200 response must have content. */
  predicate IsValid(code: int32, content: seq<byte>) {
    KnownCode(code) && (code == 200 ==> content != [])
  }

  function Encode(content: seq<byte>): seq<byte> {
    EncodeInt(200) + EncodeInt(ToInt32(|content|)) + content
  }

  /** A buffer `to_bytes` may return: a response other than 200 leaves all but the code unwritten. */
  predicate IsEncoding(code: int32, content: seq<byte>, buf: seq<byte>) {
    && |buf| == 8 + |content|
    && buf[..4] == EncodeInt(code)
    && (code == 200 ==> buf == Encode(content))
  }

  datatype Reply = Found(content: seq<byte>) | Failed(code: int32)

  /** What a receiver reads from `b`, and what it leaves unread. */
  function Parse(b: seq<byte>): Parsed<Reply> {
    if |b| < 4 then Stuck
    else if DecodeInt(b[..4]) != 200 then Parsed(Failed(DecodeInt(b[..4])), b[4..])
    else if |b| < 8 then Stuck
    else
      var length := DecodeInt(b[4..8]);
      if length < 0 || |b| < 8 + length then Stuck
      else Parsed(Found(CString(b[8..8 + length])), b[8 + length..])
  }

  lemma ParseOfEncoding(content: seq<byte>, suffix: seq<byte>)
    requires |content| < TWO_TO_THE_31
    ensures Parse(Encode(content) + suffix) == Parsed(Found(CString(content)), suffix)
  {
    ToInt32Identity(|content|);
    DecodeEncodeInt(200);
    DecodeEncodeInt(|content|);
    FourParts(EncodeInt(200), EncodeInt(|content|), content, suffix);
    var b := Encode(content) + suffix;
    assert b == EncodeInt(200) + EncodeInt(|content|) + content + suffix;
    assert b[..4] == EncodeInt(200) && b[4..8] == EncodeInt(|content|);
    assert b[8..8 + |content|] == content && b[8 + |content|..] == suffix;
  }

  /** The content comes back exactly when it has no NUL byte. */
  lemma RoundTripIff(content: seq<byte>, suffix: seq<byte>)
    requires |content| < TWO_TO_THE_31
    ensures Parse(Encode(content) + suffix) == Parsed(Found(content), suffix) <==> 0 !in content
  {
    ParseOfEncoding(content, suffix);
  }

  lemma OtherCodesIgnoreTheRest(code: int32, content: seq<byte>, buf: seq<byte>, suffix: seq<byte>)
    requires IsEncoding(code, content, buf) && code != 200
    ensures Parse(buf + suffix) == Parsed(Failed(code), buf[4..] + suffix)
  {
    DecodeEncodeInt(code);
    assert (buf + suffix)[..4] == buf[..4] && (buf + suffix)[4..] == buf[4..] + suffix;
  }

  /** The grammar of 200 responses: a matching length, no NUL byte, nothing after. */
  predicate WellFormed(b: seq<byte>) {
    |b| >= 8 && DecodeInt(b[..4]) == 200 && DecodeInt(b[4..8]) == |b| - 8 && 0 !in b[8..]
  }

  /** The grammar is exactly the set of encodings of NUL-free contents, each of which encodes what it decodes to. */
  lemma GrammarIsExact(b: seq<byte>)
    requires |b| < TWO_TO_THE_31
    ensures WellFormed(b) <==> exists content :: 0 !in content && Encode(content) == b
    ensures WellFormed(b) ==> Parse(b) == Parsed(Found(b[8..]), []) && Encode(b[8..]) == b
  {
    if WellFormed(b) {
      ToInt32Identity(|b| - 8);
      EncodeDecodeInt(b[..4]);
      EncodeDecodeInt(b[4..8]);
      Rejoin(b, 4, 8, |b|);
      assert b[8..8 + (|b| - 8)] == b[8..];
      assert Encode(b[8..]) == b;
    }
    if content :| 0 !in content && Encode(content) == b {
      ToInt32Identity(|content|);
      DecodeEncodeInt(200);
      DecodeEncodeInt(|content|);
      FourParts(EncodeInt(200), EncodeInt(|content|), content, []);
      assert b == EncodeInt(200) + EncodeInt(|content|) + content + [];
      assert b[..4] == EncodeInt(200) && b[4..8] == EncodeInt(|content|) && b[8..] == content;
    }
  }

  // ---- The class ----

  class GetRfcResponse {
    var code: int32
    var content: seq<byte>

    constructor (code: int32, content: seq<byte>)
      ensures this.code == code && this.content == content
    {
      this.code, this.content := code, content;
    }

    method Valid() returns (valid: bool)
      ensures valid <==> IsValid(code, content)
      ensures valid <==> (code == 200 || code == 400 || code == 404 || code == 505) && (code == 200 ==> |content| > 0)
    {
      if code > 0 {
        if code != 200 && code != 400 && code != 404 && code != 505 {
          return false;
        } else if code == 200 {
          if |content| <= 0 {
            return false;
          }
        }
        return true;
      }
      return false;
    }

    method MessageSize() returns (size: nat)
      ensures size == (8 + |content|) % TWO_TO_THE_32
    {
      size := (4 + 4 + |content|) % TWO_TO_THE_32;
    }

    /** Beyond four gigabytes the size wraps and the writes leave the buffer. */
    method ToBytes() returns (buf: array?<byte>)
      requires IsValid(code, content) ==> 8 + |content| < TWO_TO_THE_32
      ensures buf == null <==> !IsValid(code, content)
      ensures buf != null ==> fresh(buf) && IsEncoding(code, content, buf[..])
    {
      var valid := Valid();
      if !valid {
        return null;
      }
      var size := MessageSize();
      buf := new byte[size];
      PutBytes(buf, 0, EncodeInt(code));
      if code == 200 {
        PutBytes(buf, 4, EncodeInt(ToInt32(|content|)));
        PutBytes(buf, 8, content);
        assert buf[..8 + |content|] == buf[..];
      }
    }

    /** A response other than 200 keeps the content the object had. */
    method FromBytes(bytes: array<byte>)
      requires Parse(bytes[..]).Parsed?
      modifies this
      ensures match Parse(bytes[..]).value
              case Found(c) => code == 200 && content == c
              case Failed(c) => code == c && content == old(content)
    {
      code := DecodeInt(bytes[..4]);
      assert bytes[..][..4] == bytes[..4];
      if code == 200 {
        var length: int := DecodeInt(bytes[4..8]);
        assert bytes[..][4..8] == bytes[4..8] && bytes[..][8..8 + length] == bytes[8..8 + length];
        content := CString(bytes[8..8 + length]);
      }
    }
  }
}
