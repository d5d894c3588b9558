/** URL-safe base64 without padding, as the URL_SAFE_NO_PAD engine encodes and decodes it (section 5 of RFC 4648). */
module Base64Url {
  import opened Text
  import opened Strings

  type sextet = n: nat | n < 64

  function SextetChar(n: sextet): (c: char)
    ensures CharSextet(c) == Some(n) && c != '.' && c as int < 0x80
  {
    if n < 26 then (n + 'A' as int) as char
    else if n < 52 then (n - 26 + 'a' as int) as char
    else if n < 62 then (n - 52 + '0' as int) as char
    else if n == 62 then '-'
    else '_'
  }

  function CharSextet(c: char): Option<sextet> {
    if 'A' <= c <= 'Z' then Some(c as int - 'A' as int)
    else if 'a' <= c <= 'z' then Some(c as int - 'a' as int + 26)
    else if '0' <= c <= '9' then Some(c as int - '0' as int + 52)
    else if c == '-' then Some(62)
    else if c == '_' then Some(63)
    else None
  }

  lemma CharOfSextet(c: char)
    requires CharSextet(c).Some?
    ensures SextetChar(CharSextet(c).value) == c
  {
  }

  // ----- bytes to sextets -----

  function Sextets(b: Bytes): seq<sextet> {
    if b == [] then []
    else if |b| == 1 then [b[0] / 4, b[0] % 4 * 16]
    else if |b| == 2 then [b[0] / 4, b[0] % 4 * 16 + b[1] / 16, b[1] % 16 * 4]
    else [b[0] / 4, b[0] % 4 * 16 + b[1] / 16, b[1] % 16 * 4 + b[2] / 64, b[2] % 64] + Sextets(b[3..])
  }

  function Byte0(s0: sextet, s1: sextet): byte { s0 * 4 + s1 / 16 }
  function Byte1(s1: sextet, s2: sextet): byte { s1 % 16 * 16 + s2 / 4 }
  function Byte2(s2: sextet, s3: sextet): byte { s2 % 4 * 64 + s3 }

  /** A length of one and unused bits that are not zero are refused. */
  function FromSextets(s: seq<sextet>): Option<Bytes> {
    if s == [] then Some([])
    else if |s| == 1 then None
    else if |s| == 2 then if s[1] % 16 == 0 then Some([Byte0(s[0], s[1])]) else None
    else if |s| == 3 then if s[2] % 4 == 0 then Some([Byte0(s[0], s[1]), Byte1(s[1], s[2])]) else None
    else
      var rest := FromSextets(s[4..]);
      if rest.None? then None else Some([Byte0(s[0], s[1]), Byte1(s[1], s[2]), Byte2(s[2], s[3])] + rest.value)
  }

  lemma BlockForth(s0: sextet, s1: sextet, s2: sextet, s3: sextet)
    ensures var b0, b1, b2 := Byte0(s0, s1), Byte1(s1, s2), Byte2(s2, s3);
      && b0 / 4 == s0 && b0 % 4 * 16 + b1 / 16 == s1 && b1 % 16 * 4 + b2 / 64 == s2 && b2 % 64 == s3
      && (s1 % 16 == 0 ==> b0 % 4 * 16 == s1) && (s2 % 4 == 0 ==> b1 % 16 * 4 == s2)
  {
  }

  lemma {:induction false} SextetsLength(b: Bytes)
    ensures |Sextets(b)| == (4 * |b| + 2) / 3
  {
    if |b| >= 3 { SextetsLength(b[3..]); }
  }

  lemma BlockBack(b0: byte, b1: byte, b2: byte)
    ensures Byte0(b0 / 4, b0 % 4 * 16 + b1 / 16) == b0
    ensures Byte1(b0 % 4 * 16 + b1 / 16, b1 % 16 * 4 + b2 / 64) == b1
    ensures Byte2(b1 % 16 * 4 + b2 / 64, b2 % 64) == b2
  {
  }

  lemma {:induction false} SextetsBack(b: Bytes)
    ensures FromSextets(Sextets(b)) == Some(b)
  {
    hide Byte0, Byte1, Byte2;
    if |b| >= 3 {
      SextetsBack(b[3..]);
      BlockBack(b[0], b[1], b[2]);
      assert Sextets(b)[4..] == Sextets(b[3..]);
      assert b == [b[0], b[1], b[2]] + b[3..];
    } else if |b| == 2 {
      BlockBack(b[0], b[1], 0);
      assert b == [b[0], b[1]];
    } else if |b| == 1 {
      BlockBack(b[0], 0, 0);
      assert b == [b[0]];
    }
  }

  lemma {:induction false} SextetsForth(s: seq<sextet>)
    requires FromSextets(s).Some?
    ensures Sextets(FromSextets(s).value) == s
  {
    hide Byte0, Byte1, Byte2;
    var b := FromSextets(s).value;
    if |s| >= 4 {
      SextetsForth(s[4..]);
      BlockForth(s[0], s[1], s[2], s[3]);
      assert b[3..] == FromSextets(s[4..]).value;
      assert s == [s[0], s[1], s[2], s[3]] + s[4..];
    } else if |s| == 3 {
      BlockForth(s[0], s[1], s[2], 0);
      assert s == [s[0], s[1], s[2]];
    } else if |s| == 2 {
      BlockForth(s[0], s[1], 0, 0);
      assert s == [s[0], s[1]];
    }
  }

  function At(s: seq<nat>, k: nat): nat { if k < |s| then s[k] else 0 }

  /** The i-th group of three bytes as one 24-bit number, with zeros for what is missing at the end. */
  function Group(b: seq<nat>, i: nat): nat { 65536 * At(b, 3 * i) + 256 * At(b, 3 * i + 1) + At(b, 3 * i + 2) }

  /** The i-th group of four sextets as one number. */
  function Spelled(s: seq<nat>, i: nat): nat {
    262144 * At(s, 4 * i) + 4096 * At(s, 4 * i + 1) + 64 * At(s, 4 * i + 2) + At(s, 4 * i + 3)
  }

  lemma GroupShift(b: seq<nat>, i: nat)
    requires i > 0 && |b| >= 3
    ensures Group(b[3..], i - 1) == Group(b, i)
  {
  }

  lemma SpelledShift(s: seq<nat>, i: nat)
    requires i > 0 && |s| >= 4
    ensures Spelled(s[4..], i - 1) == Spelled(s, i)
  {
  }

  lemma FirstGroup(b: Bytes)
    requires b != []
    ensures Group(b, 0) == Spelled(Sextets(b), 0)
  {
  }

  lemma {:induction false} GroupsAgree(b: Bytes, i: nat)
    requires 3 * i < |b|
    ensures Group(b, i) == Spelled(Sextets(b), i)
    decreases i
  {
    hide Group, Spelled;
    if i == 0 {
      FirstGroup(b);
    } else {
      GroupsAgree(b[3..], i - 1);
      GroupShift(b, i);
      assert Sextets(b)[4..] == Sextets(b[3..]);
      SpelledShift(Sextets(b), i);
    }
  }

  const CAPITALS := "ABCDEFGHIJKLMNOPQRSTUVWXYZ"
  const SMALLS := "abcdefghijklmnopqrstuvwxyz"
  const OTHERS := "0123456789-_"
  const ALPHABET := CAPITALS + SMALLS + OTHERS

  lemma CapitalsInOrder(n: nat)
    requires n < 26
    ensures CAPITALS[n] as int == 65 + n
  {
  }

  lemma SmallsInOrder(n: nat)
    requires n < 26
    ensures SMALLS[n] as int == 97 + n
  {
  }

  lemma OthersInOrder(n: nat)
    requires n < 10
    ensures OTHERS[n] as int == 48 + n
  {
  }

  lemma SextetInAlphabet(n: sextet)
    ensures SextetChar(n) == ALPHABET[n]
  {
    hide CharSextet;
    if n < 26 { CapitalsInOrder(n); } else if n < 52 { SmallsInOrder(n - 26); } else if n < 62 { OthersInOrder(n - 52); }
  }

  /**
    * The encoding is the one of section 5 of RFC 4648 without padding: a character per six bits,
    * rounded up, each from the URL-safe alphabet, and every group of three bytes spelled by its
    * four characters as one 24-bit number.
    */
  lemma EncodeIsBase64(b: Bytes)
    ensures exists s: seq<sextet> ::
      && |s| == |Encode(b)| == (4 * |b| + 2) / 3
      && (forall k :: 0 <= k < |s| ==> Encode(b)[k] == ALPHABET[s[k]])
      && (forall i: nat :: 3 * i < |b| ==> Group(b, i) == Spelled(s, i))
  {
    hide Sextets, SextetChar, Group, Spelled;
    var s := Sextets(b);
    SextetsLength(b);
    forall k | 0 <= k < |s| ensures Encode(b)[k] == ALPHABET[s[k]] { SextetInAlphabet(s[k]); }
    forall i: nat | 3 * i < |b| ensures Group(b, i) == Spelled(s, i) { GroupsAgree(b, i); }
  }

  // ----- text -----

  function Encode(b: Bytes): (t: string)
    ensures |t| == |Sextets(b)| && forall i :: 0 <= i < |t| ==> t[i] == SextetChar(Sextets(b)[i])
  {
    var s := Sextets(b);
    seq(|s|, i requires 0 <= i < |s| => SextetChar(s[i]))
  }

  predicate AllSextets(t: string) { forall i :: 0 <= i < |t| ==> CharSextet(t[i]).Some? }

  function Decode(t: string): Option<Bytes> {
    if !AllSextets(t) then None else FromSextets(seq(|t|, i requires 0 <= i < |t| => CharSextet(t[i]).value))
  }

  /** Decoding is the exact inverse of encoding: each byte string has one accepted text. */
  lemma DecodeInverse(t: string, b: Bytes)
    ensures Decode(t) == Some(b) <==> t == Encode(b)
  {
    var s := Sextets(b);
    if t == Encode(b) {
      assert seq(|t|, i requires 0 <= i < |t| => CharSextet(t[i]).value) == s;
      SextetsBack(b);
    }
    if Decode(t) == Some(b) {
      SextetsForth(seq(|t|, i requires 0 <= i < |t| => CharSextet(t[i]).value));
      forall i | 0 <= i < |t| ensures t[i] == Encode(b)[i] { CharOfSextet(t[i]); }
    }
  }

  lemma EncodedText(b: Bytes)
    ensures |Encode(b)| == (4 * |b| + 2) / 3 && Free(Encode(b), '.') && forall i :: 0 <= i < |Encode(b)| ==> Encode(b)[i] as int < 0x80
  {
    SextetsLength(b);
  }
}
