/**
  * Deterministic tokens: src/core/deterministic_tokenization.rs.
  *
  * AES-SIV under one key and one associated-data string is a pair of functions with the contract
  * of sections 2.6 and 2.7 of RFC 5297: sealing adds 16 bytes, and opening succeeds exactly on
  * what sealing produces. UTF-8 is a pair of functions with the same kind of contract.
  */
module TokenCodec {
  import opened Text
  import opened Strings
  import opened Base64Url
  import opened Aad

  const PLAINTEXT_MAX_CHARS: nat := 16384
  const TOKEN_MAX_CHARS: nat := 131072
  const KEY_BYTES: nat := 64
  const NAME_MAX_CHARS: nat := 128

  datatype Primitives = Primitives(utf8: string -> Bytes, fromUtf8: Bytes -> Option<string>,
                                   seal: Bytes -> Bytes, open: Bytes -> Option<Bytes>)

  predicate EncodesText(c: Primitives, s: string) {
    c.fromUtf8(c.utf8(s)) == Some(s) && |s| <= |c.utf8(s)| <= 4 * |s|
  }

  predicate DecodesText(c: Primitives, b: Bytes) {
    c.fromUtf8(b).Some? ==> c.utf8(c.fromUtf8(b).value) == b
  }

  predicate Seals(c: Primitives, p: Bytes) { |c.seal(p)| == |p| + 16 && c.open(c.seal(p)) == Some(p) }

  predicate Opens(c: Primitives, x: Bytes) { c.open(x).Some? ==> c.seal(c.open(x).value) == x }

  ghost predicate Lawful(c: Primitives) {
    && (forall s :: EncodesText(c, s)) && (forall b :: DecodesText(c, b))
    && (forall p :: Seals(c, p)) && (forall x :: Opens(c, x))
  }

  // ----- profiles -----

  datatype Profile = Profile(name: string, kid: string, context: string, minLen: nat, maxLen: nat, stored: bool)

  predicate ConfigName(s: string) { TextField(s) && |s| <= NAME_MAX_CHARS && Free(s, ';') && Free(s, '=') }

  predicate KeyId(s: string) { |s| == 64 && IsHex(s) }

  predicate LengthsOk(p: Profile) { 1 <= p.minLen <= p.maxLen <= PLAINTEXT_MAX_CHARS }

  predicate ProfileOk(p: Profile) {
    ConfigName(p.name) && KeyId(p.kid) && LabelsOk(p.context, CONTEXT_MAX_CHARS) && LengthsOk(p)
  }

  /** What the loop checks of one input: its fields, that its key is loaded, and the derived key's length. */
  predicate Admissible(p: Profile, loaded: string -> bool, keyLen: Profile -> Option<nat>) {
    ProfileOk(p) && loaded(p.kid) && keyLen(p) == Some(KEY_BYTES)
  }

  /** keyLen is the length of the derived key, None when derivation fails. */
  method ValidateProfiles(inputs: seq<Profile>, loaded: string -> bool, keyLen: Profile -> Option<nat>)
    returns (r: Option<map<string, Profile>>)
    ensures r.Some? <==>
      (forall i :: 0 <= i < |inputs| ==> Admissible(inputs[i], loaded, keyLen))
      && (forall i, j :: 0 <= i < j < |inputs| ==> inputs[i].name != inputs[j].name)
    ensures r.Some? ==> forall i :: 0 <= i < |inputs| ==> inputs[i].name in r.value && r.value[inputs[i].name] == inputs[i]
    ensures r.Some? ==> forall n :: n in r.value ==> r.value[n] in inputs && r.value[n].name == n
  {
    hide ProfileOk;
    var profiles: map<string, Profile> := map[];
    for k := 0 to |inputs|
      invariant forall i :: 0 <= i < k ==> Admissible(inputs[i], loaded, keyLen)
      invariant forall i :: 0 <= i < k ==> inputs[i].name in profiles && profiles[inputs[i].name] == inputs[i]
      invariant forall n :: n in profiles ==> exists i :: 0 <= i < k && inputs[i].name == n && profiles[n] == inputs[i]
      invariant forall i, j :: 0 <= i < j < k ==> inputs[i].name != inputs[j].name
    {
      var input := inputs[k];
      if !ProfileOk(input) {
        assert !Admissible(input, loaded, keyLen);
        return None;
      }
      if input.name in profiles { return None; }
      if !loaded(input.kid) || keyLen(input) != Some(KEY_BYTES) {
        assert !Admissible(input, loaded, keyLen);
        return None;
      }
      profiles := profiles[input.name := input];
    }
    return Some(profiles);
  }

  predicate SubjectOk(p: Profile, subject: Option<string>) {
    && (subject.Some? ==> |subject.value| == 64 && forall i :: 0 <= i < 64 ==> IsDigit(subject.value[i]) || 'a' <= subject.value[i] <= 'f')
    && p.stored == subject.Some?
  }

  // ----- the associated data -----

  /** The length of the canonical JSON of the token context. */
  function AadLen(p: Profile, subject: Option<string>): nat {
    (if subject.Some? then 63 + JsonStringLen(subject.value) else 52)
    + JsonStringLen(p.context) + JsonStringLen(p.kid) + JsonStringLen(p.name)
    + JsonStringLen("token-deterministic") + JsonStringLen("v1")
  }

  /** A context as built: the canonical bytes have the length of the JSON they encode. */
  datatype Context = Context(profile: Profile, subject: Option<string>, aad: Bytes, crypto: Primitives)

  ghost predicate Built(c: Context) {
    ProfileOk(c.profile) && SubjectOk(c.profile, c.subject) && |c.aad| == AadLen(c.profile, c.subject) && Lawful(c.crypto)
  }

  lemma AadFits(p: Profile, subject: Option<string>)
    requires ProfileOk(p) && SubjectOk(p, subject)
    ensures 1 <= AadLen(p, subject) <= 1248
  {
    hide LabelsOk;
    ContextText(p.context);
    EscapedBound(p.context);
    EscapedBound(p.name);
    HexLength(p.kid);
    PlainLength("token-deterministic");
    PlainLength("v1");
    if subject.Some? { HexLength(subject.value); }
  }

  lemma ContextText(s: string)
    requires LabelsOk(s, CONTEXT_MAX_CHARS)
    ensures !HasControl(s) && |s| <= CONTEXT_MAX_CHARS
  {
  }

  // ----- tokens -----

  predicate InBounds(p: Profile, text: string) { p.minLen <= |text| <= p.maxLen }

  /** Decoding one segment; the text is re-encoded and compared. */
  function DecodeSegment(t: string): Option<Bytes> {
    var b := Decode(t);
    if b.None? || Encode(b.value) != t then None else b
  }

  predicate TokenOk(token: string) {
    && |token| <= TOKEN_MAX_CHARS && (forall i :: 0 <= i < |token| ==> token[i] as int < 0x80)
    && var parts := SplitOnce(token, '.');
    && parts.Some?
    && parts.value.0 != "" && parts.value.1 != "" && Free(parts.value.1, '.')
    && DecodeSegment(parts.value.0).Some?
    && DecodeSegment(parts.value.1).Some? && |DecodeSegment(parts.value.1).value| > 16
  }

  function TokenText(c: Context, plaintext: string): string {
    Encode(c.aad) + ['.'] + Encode(c.crypto.seal(c.crypto.utf8(plaintext)))
  }

  function EncodeToken(c: Context, plaintext: string): Option<string> {
    if !InBounds(c.profile, plaintext) then None
    else
      var token := TokenText(c, plaintext);
      if TokenOk(token) then Some(token) else None
  }

  function DecodeToken(c: Context, token: string): Option<string> {
    if !TokenOk(token) then None
    else
      var parts := SplitOnce(token, '.').value;
      var context, ciphertext := DecodeSegment(parts.0).value, DecodeSegment(parts.1).value;
      if context != c.aad then None
      else
        var clear := c.crypto.open(ciphertext);
        if clear.None? then None else c.crypto.fromUtf8(clear.value)
  }

  // ----- theorems -----

  /** The re-encoding check never refuses what the strict decoder accepts. */
  lemma SegmentInverse(t: string, b: Bytes)
    ensures DecodeSegment(t) == Some(b) <==> t == Encode(b)
  {
    hide Encode, Decode;
    DecodeInverse(t, b);
    if Decode(t).Some? { DecodeInverse(t, Decode(t).value); }
  }

  lemma TokenParts(c: Context, plaintext: string)
    ensures SplitOnce(TokenText(c, plaintext), '.') == Some((Encode(c.aad), Encode(c.crypto.seal(c.crypto.utf8(plaintext)))))
  {
    hide Encode;
    EncodedText(c.aad);
    SplitOnceJoins(Encode(c.aad), '.', Encode(c.crypto.seal(c.crypto.utf8(plaintext))));
  }

  /** Encoding never trips its own checks: every in-bounds plaintext gets a token. */
  lemma EncodeTotal(c: Context, plaintext: string)
    requires Built(c) && InBounds(c.profile, plaintext)
    ensures EncodeToken(c, plaintext) == Some(TokenText(c, plaintext)) && |TokenText(c, plaintext)| <= 89068
  {
    hide Encode, ProfileOk, LabelsOk, DecodeSegment, AadLen, SplitOnce;
    AadFits(c.profile, c.subject);
    LengthsFromProfile(c.profile);
    assert EncodesText(c.crypto, plaintext);
    var p := c.crypto.utf8(plaintext);
    assert Seals(c.crypto, p);
    var x := c.crypto.seal(p);
    EncodedText(c.aad);
    EncodedText(x);
    TokenParts(c, plaintext);
    SegmentInverse(Encode(c.aad), c.aad);
    SegmentInverse(Encode(x), x);
  }

  /** Exactly which plaintexts get a token: those within the bounds of the profile. */
  lemma EncodeIff(c: Context, plaintext: string)
    requires Built(c)
    ensures EncodeToken(c, plaintext).Some? <==> c.profile.minLen <= |plaintext| <= c.profile.maxLen
  {
    hide TokenOk, TokenText, Built;
    if InBounds(c.profile, plaintext) { EncodeTotal(c, plaintext); }
  }

  lemma LengthsFromProfile(p: Profile)
    requires ProfileOk(p)
    ensures LengthsOk(p)
  {
  }

  /** Whatever a token decodes to, the token is that plaintext's own text. */
  lemma DecodedTokenText(c: Context, token: string)
    requires Lawful(c.crypto) && DecodeToken(c, token).Some?
    ensures token == TokenText(c, DecodeToken(c, token).value)
  {
    hide Encode, Decode, DecodeSegment;
    var parts := SplitOnce(token, '.').value;
    var x := DecodeSegment(parts.1).value;
    SegmentInverse(parts.0, c.aad);
    SegmentInverse(parts.1, x);
    assert Opens(c.crypto, x) && DecodesText(c.crypto, c.crypto.open(x).value);
  }

  /**
    * The codec is an exact partial inverse: a token decodes to an in-bounds plaintext exactly when
    * that plaintext encodes to the token. So every plaintext has exactly one accepted token.
    */
  lemma CodecInverse(c: Context, token: string, plaintext: string)
    requires Built(c)
    ensures DecodeToken(c, token) == Some(plaintext) && InBounds(c.profile, plaintext) <==> EncodeToken(c, plaintext) == Some(token)
  {
    hide Encode, Decode, DecodeSegment, ProfileOk, LabelsOk, AadLen, SplitOnce;
    if DecodeToken(c, token) == Some(plaintext) && InBounds(c.profile, plaintext) {
      DecodedTokenText(c, token);
      EncodeTotal(c, plaintext);
    }
    if EncodeToken(c, plaintext) == Some(token) {
      TokenParts(c, plaintext);
      assert EncodesText(c.crypto, plaintext);
      var p := c.crypto.utf8(plaintext);
      assert Seals(c.crypto, p);
      SegmentInverse(Encode(c.aad), c.aad);
      SegmentInverse(Encode(c.crypto.seal(p)), c.crypto.seal(p));
    }
  }

  /** No second spelling: two tokens that decode to the same text are the same token, in bounds or not. */
  lemma OneTokenPerPlaintext(c: Context, token: string, token': string)
    requires Lawful(c.crypto) && DecodeToken(c, token).Some? && DecodeToken(c, token) == DecodeToken(c, token')
    ensures token == token'
  {
    hide DecodeToken;
    DecodedTokenText(c, token);
    DecodedTokenText(c, token');
  }
}
