/**
  * The text form of a share: encode_share and decode_share in src/core/sharing.rs.
  *
  * Canonical JSON and the keyed tag are parameters: rendering has the length of the JSON it
  * writes and parses back, and a tag has at most 64 bytes.
  */
module ShareEnvelope {
  import opened Text
  import opened Strings
  import opened Base64Url
  import opened TokenCodec

  const PREFIX := "vectis-sss-v1."
  const MAX_CHARS: nat := 16 * 1024
  const VERSION := "sss-v1"
  const SET_ID_BYTES: nat := 16

  datatype Share = Share(index: nat, value: Bytes)

  datatype ShareProfile = ShareProfile(name: string, kid: string, threshold: nat, shares: nat, maxSecretLen: nat)

  datatype Envelope = Envelope(version: string, setId: string, profile: string, kid: string,
                               threshold: nat, shares: nat, index: nat, share: string, tag: string)

  datatype Codec = Codec(render: Envelope -> Bytes, parse: Bytes -> Option<Envelope>, mac: Envelope -> Bytes)

  /** The bytes of the nine fields as canonical JSON. */
  function EnvelopeLen(e: Envelope): nat {
    88 + |Decimal(e.index)| + JsonStringLen(e.kid) + JsonStringLen(e.profile) + JsonStringLen(e.setId)
    + JsonStringLen(e.share) + |Decimal(e.shares)| + JsonStringLen(e.tag) + |Decimal(e.threshold)| + JsonStringLen(e.version)
  }

  predicate RendersOne(c: Codec, e: Envelope) { c.parse(c.render(e)) == Some(e) && |c.render(e)| == EnvelopeLen(e) }

  predicate TagFits(c: Codec, e: Envelope) { |c.mac(e)| <= 64 }

  ghost predicate LawfulCodec(c: Codec) { (forall e :: RendersOne(c, e)) && (forall e :: TagFits(c, e)) }

  predicate ProfileValid(p: ShareProfile) {
    ConfigName(p.name) && KeyId(p.kid) && 2 <= p.threshold <= p.shares <= 32 && 1 <= p.maxSecretLen <= 4096
  }

  // ----- hexadecimal -----

  function HexDigit(n: nat): (c: char)
    requires n < 16
    ensures HexValue(c) == Some(n) && IsHexDigit(c)
  {
    if n < 10 then (n + '0' as int) as char else (n - 10 + 'a' as int) as char
  }

  function HexValue(c: char): Option<nat> {
    if '0' <= c <= '9' then Some(c as int - '0' as int)
    else if 'a' <= c <= 'f' then Some(c as int - 'a' as int + 10)
    else if 'A' <= c <= 'F' then Some(c as int - 'A' as int + 10)
    else None
  }

  function HexEncode(b: Bytes): (s: string)
    ensures |s| == 2 * |b| && IsHex(s)
  {
    if b == [] then "" else [HexDigit(b[0] / 16), HexDigit(b[0] % 16)] + HexEncode(b[1..])
  }

  function HexDecode(s: string): Option<Bytes> {
    if s == "" then Some([])
    else if |s| == 1 then None
    else
      var hi, lo, rest := HexValue(s[0]), HexValue(s[1]), HexDecode(s[2..]);
      if hi.None? || lo.None? || rest.None? || hi.value > 15 || lo.value > 15 then None else Some([hi.value * 16 + lo.value] + rest.value)
  }

  lemma {:induction false} HexInverse(b: Bytes)
    ensures HexDecode(HexEncode(b)) == Some(b)
  {
    hide HexDigit, HexValue;
    if b != [] {
      HexInverse(b[1..]);
      assert HexEncode(b)[2..] == HexEncode(b[1..]);
      assert b == [b[0]] + b[1..];
    }
  }

  /** Two digits a byte, the high one first. */
  lemma {:induction false} HexSpells(b: Bytes, i: nat)
    requires i < |b|
    ensures var s := HexEncode(b); HexValue(s[2 * i]) == Some(b[i] / 16) && HexValue(s[2 * i + 1]) == Some(b[i] % 16)
  {
    if i > 0 {
      HexSpells(b[1..], i - 1);
      assert HexEncode(b)[2..] == HexEncode(b[1..]);
    }
  }

  // ----- encoding and decoding -----

  predicate SetIdOk(setId: string) { Decode(setId).Some? && |Decode(setId).value| == SET_ID_BYTES }

  predicate RawShareOk(p: ShareProfile, s: Share) { 1 <= s.index <= p.shares && 1 <= |s.value| <= p.maxSecretLen }

  function Unsigned(p: ShareProfile, setId: string, s: Share): Envelope {
    Envelope(VERSION, setId, p.name, p.kid, p.threshold, p.shares, s.index, Encode(s.value), "")
  }

  function Signed(c: Codec, p: ShareProfile, setId: string, s: Share): Envelope {
    var e := Unsigned(p, setId, s);
    e.(tag := HexEncode(c.mac(e)))
  }

  function EncodeShare(c: Codec, p: ShareProfile, setId: string, s: Share): Option<string> {
    if !SetIdOk(setId) || !RawShareOk(p, s) then None
    else Some(PREFIX + Encode(c.render(Signed(c, p, setId, s))))
  }

  function ParseEnvelope(c: Codec, text: string): Option<Envelope> {
    if |text| > MAX_CHARS || !(PREFIX <= text) then None
    else
      var bytes := Decode(text[|PREFIX|..]);
      if bytes.None? then None else c.parse(bytes.value)
  }

  predicate EnvelopeOk(p: ShareProfile, e: Envelope) {
    && e.version == VERSION && SetIdOk(e.setId) && e.profile == p.name && e.kid == p.kid
    && e.threshold == p.threshold && e.shares == p.shares && 1 <= e.index <= p.shares
  }

  function DecodeShare(c: Codec, p: ShareProfile, text: string): Option<(string, Share)> {
    var parsed := ParseEnvelope(c, text);
    if parsed.None? || !EnvelopeOk(p, parsed.value) then None
    else
      var e := parsed.value;
      var tag, value := HexDecode(e.tag), Decode(e.share);
      if tag.None? || tag.value != c.mac(e.(tag := "")) || value.None? then None
      else
        var s := Share(e.index, value.value);
        if RawShareOk(p, s) then Some((e.setId, s)) else None
  }

  // ----- theorems -----

  lemma Base64Json(b: Bytes)
    ensures JsonStringLen(Encode(b)) == (4 * |b| + 2) / 3 + 2
  {
    EncodedText(b);
    assert PlainAscii(Encode(b)) by {
      forall i | 0 <= i < |Encode(b)| ensures 0x20 <= Encode(b)[i] as int < 0x7f && Encode(b)[i] != '"' && Encode(b)[i] != '\\' {
        assert CharSextet(Encode(b)[i]).Some?;
      }
    }
    PlainLength(Encode(b));
  }

  lemma SmallNumber(n: nat)
    requires n <= 32
    ensures |Decimal(n)| <= 2
  {
    assert Pow10(2) == 10 * Pow10(1) == 100;
    DecimalLength(n, 2);
  }

  /** Every share of a valid profile stays far below the limit the decoder enforces. */
  lemma ShareTextFits(c: Codec, p: ShareProfile, setId: string, s: Share)
    requires LawfulCodec(c) && ProfileValid(p) && SetIdOk(setId) && RawShareOk(p, s)
    ensures EncodeShare(c, p, setId, s).Some? && |EncodeShare(c, p, setId, s).value| <= 8414
  {
    hide Encode, Decode, JsonStringLen, Decimal;
    var e := Signed(c, p, setId, s);
    assert RendersOne(c, e) && TagFits(c, Unsigned(p, setId, s));
    SmallNumber(p.threshold);
    SmallNumber(p.shares);
    SmallNumber(s.index);
    Base64Json(s.value);
    DecodeInverse(setId, Decode(setId).value);
    Base64Json(Decode(setId).value);
    NameJson(p.name);
    HexLength(p.kid);
    HexLength(e.tag);
    VersionJson();
    EncodedText(c.render(e));
  }

  lemma NameJson(name: string)
    requires ConfigName(name)
    ensures JsonStringLen(name) <= 514
  {
    EscapedBound(name);
  }

  lemma VersionJson()
    ensures JsonStringLen(VERSION) == 8
  {
    PlainLength(VERSION);
  }

  /** Decoding what was encoded gives back the set id and the share. */
  lemma ShareRoundTrip(c: Codec, p: ShareProfile, setId: string, s: Share)
    requires LawfulCodec(c) && ProfileValid(p) && SetIdOk(setId) && RawShareOk(p, s)
    ensures EncodeShare(c, p, setId, s).Some? && DecodeShare(c, p, EncodeShare(c, p, setId, s).value) == Some((setId, s))
  {
    hide Encode, Decode, HexDecode, HexEncode, EnvelopeLen;
    ShareTextFits(c, p, setId, s);
    var e := Signed(c, p, setId, s);
    var text := EncodeShare(c, p, setId, s).value;
    assert RendersOne(c, e);
    assert text[|PREFIX|..] == Encode(c.render(e));
    DecodeInverse(text[|PREFIX|..], c.render(e));
    DecodeInverse(e.share, s.value);
    HexInverse(c.mac(Unsigned(p, setId, s)));
    assert e.(tag := "") == Unsigned(p, setId, s);
  }

  /** The envelope is that of this share under this profile, each field in its place, and carries its own tag. */
  predicate Describes(c: Codec, p: ShareProfile, e: Envelope, setId: string, s: Share) {
    && e.version == "sss-v1" && e.setId == setId && e.profile == p.name && e.kid == p.kid
    && e.threshold == p.threshold && e.shares == p.shares && e.index == s.index
    && Decode(e.share) == Some(s.value) && HexDecode(e.tag) == Some(c.mac(e.(tag := "")))
  }

  /**
    * Exactly which texts decode to which share: at most 16384 characters, the prefix, and then the
    * encoding of an envelope that describes the share, for a set id of 16 bytes and a share within
    * the bounds of the profile.
    */
  lemma DecodeShareIff(c: Codec, p: ShareProfile, text: string, setId: string, s: Share)
    ensures DecodeShare(c, p, text) == Some((setId, s)) <==>
      && |text| <= 16384 && PREFIX <= text && Decode(text[|PREFIX|..]).Some?
      && Decode(setId).Some? && |Decode(setId).value| == 16
      && 1 <= s.index <= p.shares && 1 <= |s.value| <= p.maxSecretLen
      && exists e :: c.parse(Decode(text[|PREFIX|..]).value) == Some(e) && Describes(c, p, e, setId, s)
  {
    hide Encode, Decode, HexDecode;
  }

  lemma AcceptedShareIsTagged(c: Codec, p: ShareProfile, text: string)
    requires DecodeShare(c, p, text).Some?
    ensures var (setId, s) := DecodeShare(c, p, text).value;
      HexDecode(ParseEnvelope(c, text).value.tag) == Some(c.mac(Unsigned(p, setId, s)))
  {
    hide Encode, Decode, HexDecode;
    var e := ParseEnvelope(c, text).value;
    DecodeInverse(e.share, Decode(e.share).value);
    assert e.(tag := "") == Unsigned(p, DecodeShare(c, p, text).value.0, DecodeShare(c, p, text).value.1);
  }

  /** The tags of two different shares of one profile are equal. */
  predicate TagsCollide(c: Codec, p: ShareProfile, a: (string, Share), b: (string, Share)) {
    Unsigned(p, a.0, a.1) != Unsigned(p, b.0, b.1) && c.mac(Unsigned(p, a.0, a.1)) == c.mac(Unsigned(p, b.0, b.1))
  }

  /**
    * Under one tag there is one share: two accepted texts that carry equal tags, in whatever
    * spelling, decode to the same set and share, unless the tags of these two shares collide. So
    * no field of a share can be changed under its tag.
    */
  lemma SameTagSameShare(c: Codec, p: ShareProfile, text: string, text': string)
    requires DecodeShare(c, p, text).Some? && DecodeShare(c, p, text').Some?
    requires HexDecode(ParseEnvelope(c, text).value.tag) == HexDecode(ParseEnvelope(c, text').value.tag)
    ensures DecodeShare(c, p, text) == DecodeShare(c, p, text')
         || TagsCollide(c, p, DecodeShare(c, p, text).value, DecodeShare(c, p, text').value)
  {
    hide Encode, Decode, HexDecode, DecodeShare, ParseEnvelope;
    AcceptedShareIsTagged(c, p, text);
    AcceptedShareIsTagged(c, p, text');
    var a, b := DecodeShare(c, p, text).value, DecodeShare(c, p, text').value;
    DecodeInverse(Encode(a.1.value), a.1.value);
    DecodeInverse(Encode(b.1.value), b.1.value);
  }
}
