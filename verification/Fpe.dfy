/**
  * Format-preserving encryption of values: the format layer of src/core/fpe.rs around FF1.
  *
  * FF1 under one key and tweak (section 5.1 of NIST SP 800-38G) is a pair of functions on digit
  * strings that undo each other and keep the length.
  */
module Fpe {
  import opened Sequences
  import opened Text

  const VALUE_MIN_LEN: nat := 6
  const VALUE_MAX_LEN: nat := 1024
  const PRESERVE_MAX_CHARS: nat := 32
  const MIN_DOMAIN: nat := 1_000_000
  const MAX_RADIX: nat := 65536

  // ----- the size of the domain -----

  function Power(radix: nat, n: nat): nat { if n == 0 then 1 else Power(radix, n - 1) * radix }

  /** The domain of n digits is large enough for FF1. */
  predicate LargeDomain(radix: nat, n: nat) { Power(radix, n) >= MIN_DOMAIN }

  function SaturatingMul(a: nat, b: nat): nat { if a * b > U64_MAX then U64_MAX else a * b }

  lemma {:induction false} PowerGrows(radix: nat, m: nat, n: nat)
    requires m <= n && Power(radix, m) >= MIN_DOMAIN
    ensures Power(radix, n) >= MIN_DOMAIN
    decreases n - m
  {
    if m < n {
      PowerGrows(radix, m, n - 1);
      var p := Power(radix, n - 1);
      assert radix > 0 by { if radix == 0 { PowerOfZero(m); } }
      assert p * radix >= p;
    }
  }

  lemma PowerOfZero(m: nat)
    ensures Power(0, m) <= 1
  {
  }

  /** The early exit and the saturating product do not change the answer. */
  method DomainIsLargeEnough(radix: nat, minLen: nat) returns (r: bool)
    requires radix <= U64_MAX
    ensures r <==> Power(radix, minLen) >= 1_000_000
  {
    var domain: nat := 1;
    for i := 0 to minLen
      invariant domain == Power(radix, i) < MIN_DOMAIN
    {
      domain := SaturatingMul(domain, radix);
      if domain >= MIN_DOMAIN {
        PowerGrows(radix, i + 1, minLen);
        return true;
      }
    }
    return false;
  }

  // ----- profiles -----

  datatype Profile = Profile(alphabet: seq<char>, index: map<char, nat>, preserved: set<char>, minLen: nat, maxLen: nat)

  predicate AlphabetOk(alphabet: string) { TextField(alphabet) && Distinct(alphabet) && 2 <= |alphabet| <= MAX_RADIX }

  predicate IndexOf(alphabet: seq<char>, index: map<char, nat>) {
    && (forall i :: 0 <= i < |alphabet| ==> alphabet[i] in index && index[alphabet[i]] == i)
    && (forall c :: c in index ==> index[c] < |alphabet| && alphabet[index[c]] == c)
  }

  predicate PreserveOk(value: string) {
    |value| <= PRESERVE_MAX_CHARS && Distinct(value) && forall i :: 0 <= i < |value| ==> !IsControl(value[i])
  }

  predicate Valid(p: Profile) {
    && AlphabetOk(p.alphabet) && IndexOf(p.alphabet, p.index)
    && (forall c :: c in p.preserved ==> !IsControl(c) && c !in p.alphabet)
    && VALUE_MIN_LEN <= p.minLen <= p.maxLen <= VALUE_MAX_LEN
    && LargeDomain(|p.alphabet|, p.minLen)
  }

  method ValidateAlphabet(alphabet: string) returns (r: Option<nat>)
    ensures r.Some? <==> AlphabetOk(alphabet)
    ensures r.Some? ==> r.value == |alphabet|
  {
    if !TextField(alphabet) { return None; }
    var seen: set<char> := {};
    for k := 0 to |alphabet|
      invariant forall c :: c in seen <==> c in alphabet[..k]
      invariant |seen| == k && forall i, j :: 0 <= i < j < k ==> alphabet[i] != alphabet[j]
    {
      if alphabet[k] in seen { return None; }
      seen := seen + {alphabet[k]};
    }
    if !(2 <= |seen| <= MAX_RADIX) { return None; }
    return Some(|seen|);
  }

  /** Every character is mapped to the last place where it stands. */
  predicate LastIndexOf(alphabet: seq<char>, index: map<char, nat>) {
    && (forall i :: 0 <= i < |alphabet| ==> alphabet[i] in index && i <= index[alphabet[i]])
    && (forall c :: c in index ==> index[c] < |alphabet| && alphabet[index[c]] == c)
  }

  lemma LastIndexGrows(s: seq<char>, index: map<char, nat>, c: char)
    requires LastIndexOf(s, index)
    ensures LastIndexOf(s + [c], index[c := |s|])
  {
  }

  lemma IndexOfDistinct(s: seq<char>, index: map<char, nat>)
    requires LastIndexOf(s, index)
    ensures IndexOf(s, index) <==> Distinct(s)
  {
    if IndexOf(s, index) {
      forall i, j | 0 <= i < j < |s| ensures s[i] != s[j] { assert index[s[i]] == i && index[s[j]] == j; }
    }
    if Distinct(s) {
      forall i | 0 <= i < |s| ensures index[s[i]] == i { assert s[index[s[i]]] == s[i]; }
    }
  }

  method PrepareAlphabet(alphabet: string) returns (r: Option<map<char, nat>>)
    ensures r.Some? <==> |alphabet| <= MAX_RADIX
    ensures r.Some? ==> LastIndexOf(alphabet, r.value)
    ensures r.Some? ==> (IndexOf(alphabet, r.value) <==> Distinct(alphabet))
  {
    var index: map<char, nat> := map[];
    for k := 0 to |alphabet|
      invariant k <= MAX_RADIX
      invariant LastIndexOf(alphabet[..k], index)
    {
      if k >= MAX_RADIX { return None; }
      LastIndexGrows(alphabet[..k], index, alphabet[k]);
      assert alphabet[..k] + [alphabet[k]] == alphabet[..k + 1];
      index := index[alphabet[k] := k];
    }
    assert alphabet[..|alphabet|] == alphabet;
    IndexOfDistinct(alphabet, index);
    return Some(index);
  }

  function CharactersOf(s: string): set<char> { set c | c in s }

  lemma NoCharacters(s: string)
    ensures CharactersOf(s[..0]) == {}
  {
  }

  lemma OneMoreCharacter(s: string, k: nat)
    requires k < |s|
    ensures CharactersOf(s[..k + 1]) == CharactersOf(s[..k]) + {s[k]}
    ensures s[k] in CharactersOf(s[..k]) <==> exists i :: 0 <= i < k && s[i] == s[k]
  {
    assert s[..k + 1] == s[..k] + [s[k]];
  }

  method ValidatePreserveCharacters(value: string) returns (r: Option<set<char>>)
    ensures r.Some? <==> PreserveOk(value)
    ensures r.Some? ==> r.value == CharactersOf(value)
  {
    hide IsControl, CharactersOf;
    NoCharacters(value);
    var seen: set<char> := {};
    for k := 0 to |value|
      invariant seen == CharactersOf(value[..k])
      invariant |seen| == k <= PRESERVE_MAX_CHARS && forall i, j :: 0 <= i < j < k ==> value[i] != value[j]
      invariant forall i :: 0 <= i < k ==> !IsControl(value[i])
    {
      OneMoreCharacter(value, k);
      if IsControl(value[k]) || value[k] in seen { return None; }
      seen := seen + {value[k]};
      if |seen| > PRESERVE_MAX_CHARS { return None; }
    }
    assert value[..|value|] == value;
    return Some(seen);
  }

  method ValidatePreserved(alphabet: string, value: string) returns (r: Option<set<char>>)
    ensures r.Some? <==> PreserveOk(value) && forall i :: 0 <= i < |value| ==> value[i] !in alphabet
    ensures r.Some? ==> r.value == CharactersOf(value)
  {
    hide PreserveOk;
    var preserved := ValidatePreserveCharacters(value);
    if preserved.None? { return None; }
    for k := 0 to |alphabet|
      invariant forall j :: 0 <= j < k ==> alphabet[j] !in preserved.value
    {
      if alphabet[k] in preserved.value { return None; }
    }
    return preserved;
  }

  // ----- values -----

  /** How many characters of s are enciphered. */
  function Count(p: Profile, s: string): nat {
    if s == "" then 0 else Count(p, s[..|s| - 1]) + (if s[|s| - 1] in p.preserved then 0 else 1)
  }

  predicate InFormat(p: Profile, s: string) { forall i :: 0 <= i < |s| ==> s[i] in p.preserved || s[i] in p.index }

  function DigitsOf(p: Profile, s: string): (ds: seq<nat>)
    requires InFormat(p, s)
    ensures |ds| == Count(p, s)
  {
    if s == "" then []
    else
      var last := s[|s| - 1];
      DigitsOf(p, s[..|s| - 1]) + (if last in p.preserved then [] else [p.index[last]])
  }

  function PreservedIn(p: Profile, s: string): seq<(nat, char)> {
    if s == "" then []
    else
      var last := s[|s| - 1];
      PreservedIn(p, s[..|s| - 1]) + (if last in p.preserved then [(|s| - 1, last)] else [])
  }

  /** What encrypt and decrypt both require of a value. */
  predicate Accepts(p: Profile, s: string) {
    && p.minLen <= |s| <= p.maxLen && TextField(s) && InFormat(p, s)
    && Count(p, s) > 0 && LargeDomain(|p.alphabet|, Count(p, s))
  }

  datatype Prepared = Prepared(digits: seq<nat>, preserved: seq<(nat, char)>, totalLen: nat)

  method ParseValue(p: Profile, value: string) returns (r: Option<Prepared>)
    requires |p.alphabet| <= MAX_RADIX
    ensures r.Some? <==> Accepts(p, value)
    ensures r.Some? <==>
      && p.minLen <= |value| <= p.maxLen && !Blank(value) && !HasControl(value)
      && (forall i :: 0 <= i < |value| ==> value[i] in p.preserved || value[i] in p.index)
      && Count(p, value) > 0 && Power(|p.alphabet|, Count(p, value)) >= 1_000_000
    ensures r.Some? ==> r.value == Prepared(DigitsOf(p, value), PreservedIn(p, value), |value|)
  {
    hide Power, Blank, HasControl;
    var totalLen := |value|;
    if totalLen < p.minLen || totalLen > p.maxLen { return None; }
    if !TextField(value) { return None; }
    var digits: seq<nat> := [];
    var preserved: seq<(nat, char)> := [];
    for k := 0 to totalLen
      invariant InFormat(p, value[..k])
      invariant digits == DigitsOf(p, value[..k]) && preserved == PreservedIn(p, value[..k])
    {
      assert value[..k + 1][..k] == value[..k];
      if value[k] in p.preserved {
        preserved := preserved + [(k, value[k])];
      } else {
        if value[k] !in p.index { return None; }
        digits := digits + [p.index[value[k]]];
      }
    }
    assert value[..totalLen] == value;
    var large := DomainIsLargeEnough(|p.alphabet|, |digits|);
    if |digits| == 0 || !large { return None; }
    return Some(Prepared(digits, preserved, totalLen));
  }

  // ----- transforming -----

  datatype Cipher = Cipher(encrypt: seq<nat> -> Option<seq<nat>>, decrypt: seq<nat> -> Option<seq<nat>>)

  predicate Digits(radix: nat, ds: seq<nat>) { forall i :: 0 <= i < |ds| ==> ds[i] < radix }

  /** f maps this digit string to one of the same kind, and g undoes it. */
  predicate Undone(radix: nat, f: seq<nat> -> Option<seq<nat>>, g: seq<nat> -> Option<seq<nat>>, ds: seq<nat>) {
    Digits(radix, ds) && LargeDomain(radix, |ds|) && ds != [] ==>
      f(ds).Some? && |f(ds).value| == |ds| && Digits(radix, f(ds).value) && g(f(ds).value) == Some(ds)
  }

  ghost predicate Lawful(radix: nat, k: Cipher) {
    && (forall ds :: Undone(radix, k.encrypt, k.decrypt, ds))
    && (forall ds :: Undone(radix, k.decrypt, k.encrypt, ds))
  }

  /** The value with its enciphered characters replaced, in order, by the given digits. */
  function Fill(p: Profile, s: string, ds: seq<nat>): (t: string)
    requires |ds| == Count(p, s) && Digits(|p.alphabet|, ds)
    ensures |t| == |s|
    ensures forall i :: 0 <= i < |s| ==> Rank(p, s, i) && t[i] == FillChar(p, s, ds, i)
  {
    assert forall i :: 0 <= i < |s| ==> Rank(p, s, i) by {
      forall i | 0 <= i < |s| ensures Rank(p, s, i) { RankHolds(p, s, i); }
    }
    seq(|s|, i requires 0 <= i < |s| && Rank(p, s, i) => FillChar(p, s, ds, i))
  }

  /** An enciphered character is preceded by fewer enciphered characters than there are in all. */
  predicate Rank(p: Profile, s: string, i: nat)
    requires i < |s|
  {
    s[i] !in p.preserved ==> Count(p, s[..i]) < Count(p, s)
  }

  function FillChar(p: Profile, s: string, ds: seq<nat>, i: nat): char
    requires i < |s| && |ds| == Count(p, s) && Digits(|p.alphabet|, ds) && Rank(p, s, i)
  {
    if s[i] in p.preserved then s[i] else p.alphabet[ds[Count(p, s[..i])]]
  }

  lemma {:induction false} CountMonotone(p: Profile, s: string, i: nat)
    requires i <= |s|
    ensures Count(p, s[..i]) <= Count(p, s)
  {
    if i < |s| {
      var front := s[..|s| - 1];
      CountMonotone(p, front, i);
      assert front[..i] == s[..i];
    } else {
      assert s[..i] == s;
    }
  }

  lemma RankHolds(p: Profile, s: string, i: nat)
    requires i < |s|
    ensures Rank(p, s, i)
  {
    CountMonotone(p, s, i + 1);
    assert s[..i + 1][..i] == s[..i];
  }

  /** The loop of fpe_transform: preserved characters go back in place, digits fill the rest. */
  method Assemble(p: Profile, ghost s: string, preserved: seq<(nat, char)>, totalLen: nat, digits: seq<nat>) returns (r: Option<string>)
    requires totalLen == |s| && preserved == PreservedIn(p, s)
    ensures |digits| == Count(p, s) && Digits(|p.alphabet|, digits) ==> r == Some(Fill(p, s, digits))
    ensures r.Some? ==> |r.value| == |s|
  {
    hide Fill, FillChar;
    var result: string := "";
    var nextPreserved, nextDigit := 0, 0;
    ghost var good := |digits| == Count(p, s) && Digits(|p.alphabet|, digits);
    for position := 0 to totalLen
      invariant |result| == position && nextPreserved == |PreservedIn(p, s[..position])|
      invariant nextDigit == Count(p, s[..position])
      invariant good ==> result == Fill(p, s, digits)[..position]
    {
      assert s[..position + 1][..position] == s[..position];
      PreservedNext(p, s, position);
      RankHolds(p, s, position);
      if good { FilledAt(p, s, digits, position); }
      if nextPreserved < |preserved| && preserved[nextPreserved].0 == position {
        result := result + [preserved[nextPreserved].1];
        nextPreserved := nextPreserved + 1;
      } else {
        if nextDigit >= |digits| || digits[nextDigit] >= |p.alphabet| { return None; }
        result := result + [p.alphabet[digits[nextDigit]]];
        nextDigit := nextDigit + 1;
      }
    }
    assert good ==> Fill(p, s, digits)[..totalLen] == Fill(p, s, digits);
    return Some(result);
  }

  lemma FilledAt(p: Profile, s: string, ds: seq<nat>, i: nat)
    requires i < |s| && |ds| == Count(p, s) && Digits(|p.alphabet|, ds)
    ensures Rank(p, s, i)
    ensures Fill(p, s, ds)[i] == if s[i] in p.preserved then s[i] else p.alphabet[ds[Count(p, s[..i])]]
  {
    RankHolds(p, s, i);
  }

  /** The preserved positions come in increasing order, so the next one decides the current position. */
  lemma {:induction false} PreservedNext(p: Profile, s: string, i: nat)
    requires i < |s|
    ensures var n := |PreservedIn(p, s[..i])|; var all := PreservedIn(p, s);
      && n <= |all| && (s[i] in p.preserved ==> n < |all| && all[n] == (i, s[i]))
      && (n < |all| && all[n].0 == i ==> s[i] in p.preserved)
    decreases |s|
  {
    var front := s[..|s| - 1];
    var before, all := PreservedIn(p, front), PreservedIn(p, s);
    assert before <= all && (|before| < |all| ==> all[|before|].0 == |s| - 1);
    if i < |s| - 1 {
      PreservedNext(p, front, i);
      assert front[..i] == s[..i];
    } else {
      assert s[..i] == front;
    }
  }

  /** The whole operation, in either direction. */
  function Transformed(p: Profile, f: seq<nat> -> Option<seq<nat>>, s: string): Option<string> {
    if !Accepts(p, s) then None
    else
      var out := f(DigitsOf(p, s));
      if out.None? || |out.value| != Count(p, s) || !Digits(|p.alphabet|, out.value) then None else Some(Fill(p, s, out.value))
  }

  /** fpe_encrypt with f the cipher's encryption, fpe_decrypt with its decryption. */
  method Transform(p: Profile, f: seq<nat> -> Option<seq<nat>>, value: string) returns (r: Option<string>)
    requires |p.alphabet| <= MAX_RADIX
    requires forall ds :: f(ds).Some? ==> |f(ds).value| == |ds| && Digits(|p.alphabet|, f(ds).value)
    ensures r == Transformed(p, f, value)
  {
    hide Accepts, Fill;
    var parsed := ParseValue(p, value);
    if parsed.None? { return None; }
    var output := f(parsed.value.digits);
    if output.None? { return None; }
    r := Assemble(p, value, parsed.value.preserved, parsed.value.totalLen, output.value);
  }

  // ----- round trip and format -----

  /** Filling changes characters only, not which positions are preserved. */
  lemma {:induction false} FillKeepsCounts(p: Profile, s: string, ds: seq<nat>, n: nat)
    requires Valid(p) && |ds| == Count(p, s) && Digits(|p.alphabet|, ds) && n <= |s|
    ensures Count(p, Fill(p, s, ds)[..n]) == Count(p, s[..n])
  {
    hide Fill, FillChar, TextField, LargeDomain;
    if n > 0 {
      var t := Fill(p, s, ds);
      FillKeepsCounts(p, s, ds, n - 1);
      FilledAt(p, s, ds, n - 1);
      assert t[..n][..n - 1] == t[..n - 1] && s[..n][..n - 1] == s[..n - 1];
    }
  }

  lemma FillInFormat(p: Profile, s: string, ds: seq<nat>)
    requires Valid(p) && |ds| == Count(p, s) && Digits(|p.alphabet|, ds)
    ensures var t := Fill(p, s, ds);
      InFormat(p, t) && forall i :: 0 <= i < |s| ==> (if s[i] in p.preserved then t[i] == s[i] else t[i] in p.alphabet)
  {
    hide Fill, FillChar, TextField, LargeDomain;
    var t := Fill(p, s, ds);
    forall i | 0 <= i < |s| ensures if s[i] in p.preserved then t[i] == s[i] else t[i] in p.alphabet && t[i] in p.index {
      FilledAt(p, s, ds, i);
    }
  }

  lemma PrefixDigits(p: Profile, s: string, n: nat)
    requires 0 < n <= |s| && InFormat(p, s[..n])
    ensures InFormat(p, s[..n - 1])
    ensures DigitsOf(p, s[..n]) == DigitsOf(p, s[..n - 1]) + (if s[n - 1] in p.preserved then [] else [p.index[s[n - 1]]])
    ensures Count(p, s[..n]) == Count(p, s[..n - 1]) + (if s[n - 1] in p.preserved then 0 else 1)
  {
    assert s[..n][..n - 1] == s[..n - 1];
  }

  /** Reading the digits back out of a filled value gives the digits. */
  lemma {:induction false} DigitsOfFill(p: Profile, s: string, ds: seq<nat>, n: nat)
    requires Valid(p) && InFormat(p, s) && |ds| == Count(p, s) && Digits(|p.alphabet|, ds) && n <= |s|
    ensures InFormat(p, Fill(p, s, ds)[..n]) && Count(p, s[..n]) <= |ds|
    ensures DigitsOf(p, Fill(p, s, ds)[..n]) == ds[..Count(p, s[..n])]
  {
    hide Fill, FillChar, TextField, LargeDomain, DigitsOf, Count, Rank;
    var t := Fill(p, s, ds);
    FillInFormat(p, s, ds);
    CountMonotone(p, s, n);
    if n == 0 {
      NoDigits(p);
      assert t[..0] == "" && s[..0] == "";
    } else {
      DigitsOfFill(p, s, ds, n - 1);
      FilledAt(p, s, ds, n - 1);
      PrefixDigits(p, t, n);
      PrefixDigits(p, s, n);
    }
  }

  lemma NoDigits(p: Profile)
    ensures Count(p, "") == 0 && DigitsOf(p, "") == []
  {
  }

  lemma {:induction false} DigitAt(p: Profile, s: string, i: nat)
    requires InFormat(p, s) && i < |s| && s[i] !in p.preserved
    ensures Rank(p, s, i) && DigitsOf(p, s)[Count(p, s[..i])] == p.index[s[i]]
    decreases |s|
  {
    var front := s[..|s| - 1];
    RankHolds(p, s, i);
    if i < |s| - 1 {
      DigitAt(p, front, i);
      assert front[..i] == s[..i];
    } else {
      assert s[..i] == front;
    }
  }

  lemma {:induction false} DigitsInRange(p: Profile, s: string)
    requires Valid(p) && InFormat(p, s)
    ensures Digits(|p.alphabet|, DigitsOf(p, s))
  {
    hide TextField, LargeDomain;
    if s != "" { DigitsInRange(p, s[..|s| - 1]); }
  }

  /** Filling a filled value with the original digits restores the original. */
  lemma FillBack(p: Profile, s: string, ds: seq<nat>)
    requires Valid(p) && InFormat(p, s) && |ds| == Count(p, s) && Digits(|p.alphabet|, ds)
    ensures var t := Fill(p, s, ds);
      Count(p, t) == Count(p, s) && Digits(|p.alphabet|, DigitsOf(p, s)) && Fill(p, t, DigitsOf(p, s)) == s
  {
    hide Fill, FillChar, TextField, LargeDomain;
    var t := Fill(p, s, ds);
    DigitsInRange(p, s);
    FillKeepsCounts(p, s, ds, |s|);
    assert t[..|s|] == t && s[..|s|] == s;
    var back := Fill(p, t, DigitsOf(p, s));
    forall i | 0 <= i < |s| ensures back[i] == s[i] {
      FilledAt(p, s, ds, i);
      FilledAt(p, t, DigitsOf(p, s), i);
      FillKeepsCounts(p, s, ds, i);
      if s[i] !in p.preserved { DigitAt(p, s, i); }
    }
  }

  /** Something of the value is visible whatever the cipher does. */
  predicate Visible(p: Profile, s: string) {
    || (forall i :: 0 <= i < |p.alphabet| ==> !IsWhitespace(p.alphabet[i]))
    || (exists i :: 0 <= i < |s| && s[i] in p.preserved && !IsWhitespace(s[i]))
  }

  lemma FilledText(p: Profile, s: string, ds: seq<nat>)
    requires Valid(p) && Accepts(p, s) && |ds| == Count(p, s) && Digits(|p.alphabet|, ds)
    ensures !HasControl(Fill(p, s, ds)) && (Visible(p, s) ==> TextField(Fill(p, s, ds)))
  {
    hide Fill, FillChar, LargeDomain;
    var t := Fill(p, s, ds);
    FillInFormat(p, s, ds);
    forall i | 0 <= i < |t| ensures !IsControl(t[i]) {
      if s[i] !in p.preserved { AlphabetIsText(p, t[i]); }
    }
    if Visible(p, s) {
      if i :| 0 <= i < |s| && s[i] in p.preserved && !IsWhitespace(s[i]) {
        assert !IsWhitespace(t[i]);
      } else {
        var i := SomeDigit(p, s);
        AlphabetIsText(p, t[i]);
        assert !IsWhitespace(t[i]);
      }
    }
  }

  lemma AlphabetIsText(p: Profile, c: char)
    requires Valid(p) && c in p.alphabet
    ensures !IsControl(c)
  {
    assert !HasControl(p.alphabet);
  }

  lemma {:induction false} SomeDigit(p: Profile, s: string) returns (i: nat)
    requires Count(p, s) > 0
    ensures i < |s| && s[i] !in p.preserved
  {
    i := |s| - 1;
    if s[i] in p.preserved { i := SomeDigit(p, s[..i]); }
  }

  /** Any transformation of an accepted, visible value is again accepted, and keeps the format. */
  lemma TransformKeepsFormat(p: Profile, s: string, ds: seq<nat>)
    requires Valid(p) && Accepts(p, s) && |ds| == Count(p, s) && Digits(|p.alphabet|, ds)
    ensures var t := Fill(p, s, ds);
      && |t| == |s| && InFormat(p, t) && DigitsOf(p, t) == ds
      && (forall i :: 0 <= i < |s| ==> (if s[i] in p.preserved then t[i] == s[i] else t[i] in p.alphabet))
      && (Visible(p, s) ==> Accepts(p, t)) && (TextField(t) ==> Accepts(p, t))
  {
    hide Fill, LargeDomain, FillChar;
    var t := Fill(p, s, ds);
    FillInFormat(p, s, ds);
    DigitsOfFill(p, s, ds, |s|);
    FillKeepsCounts(p, s, ds, |s|);
    assert t[..|s|] == t && s[..|s|] == s && ds[..|ds|] == ds;
    FilledText(p, s, ds);
  }

  ghost predicate RoundTrips(p: Profile, k: Cipher, s: string) {
    var t := Transformed(p, k.encrypt, s);
    t.Some? && Transformed(p, k.decrypt, t.value) == Some(s)
  }

  /** Encryption succeeds, keeps the format, is accepted by decryption and is undone by it. */
  lemma RoundTrip(p: Profile, k: Cipher, s: string)
    requires Valid(p) && Lawful(|p.alphabet|, k) && Accepts(p, s) && Visible(p, s)
    ensures RoundTrips(p, k, s)
    ensures var t := Transformed(p, k.encrypt, s).value;
      |t| == |s| && Accepts(p, t) && forall i :: 0 <= i < |s| ==> (if s[i] in p.preserved then t[i] == s[i] else t[i] in p.alphabet)
  {
    hide Fill, LargeDomain, TextField, FillChar, Visible;
    var ds := DigitsOf(p, s);
    DigitsInRange(p, s);
    assert Undone(|p.alphabet|, k.encrypt, k.decrypt, ds);
    var es := k.encrypt(ds).value;
    TransformKeepsFormat(p, s, es);
    FillBack(p, s, es);
  }

  // ----- the condition is exact -----

  /** A lawful cipher that exchanges two digit strings of one length and leaves all others alone. */
  function Exchange(a: seq<nat>, b: seq<nat>): Cipher {
    var f := (ds: seq<nat>) => Some(if ds == a then b else if ds == b then a else ds);
    Cipher(f, f)
  }

  lemma ExchangeIsLawful(radix: nat, a: seq<nat>, b: seq<nat>)
    requires |a| == |b| && Digits(radix, a) && Digits(radix, b)
    ensures Lawful(radix, Exchange(a, b))
  {
    hide LargeDomain;
    var k := Exchange(a, b);
    forall ds ensures Undone(radix, k.encrypt, k.decrypt, ds) && Undone(radix, k.decrypt, k.encrypt, ds) { }
  }

  lemma BlankCiphertext(p: Profile, s: string) returns (k: Cipher)
    requires Valid(p) && Accepts(p, s) && !Visible(p, s)
    ensures Lawful(|p.alphabet|, k) && !RoundTrips(p, k, s)
  {
    hide LargeDomain, Fill, FillChar, HasControl;
    var w :| 0 <= w < |p.alphabet| && IsWhitespace(p.alphabet[w]);
    var a := DigitsOf(p, s);
    var b := seq(|a|, _ => w);
    DigitsInRange(p, s);
    ExchangeIsLawful(|p.alphabet|, a, b);
    k := Exchange(a, b);
    var t := Fill(p, s, b);
    forall i | 0 <= i < |t| ensures IsWhitespace(t[i]) { FilledAt(p, s, b, i); }
    assert Blank(t) && !Accepts(p, t);
    assert Transformed(p, k.encrypt, s) == Some(t);
  }

  /**
    * Exactly when the round trip can be relied on: an accepted value survives encryption and
    * decryption under every lawful cipher if and only if no alphabet character is whitespace or
    * the value carries a preserved character that is not. Otherwise some lawful cipher turns it
    * into a blank string, which decryption refuses.
    */
  lemma RoundTripIff(p: Profile, s: string)
    requires Valid(p) && Accepts(p, s)
    ensures (forall k :: Lawful(|p.alphabet|, k) ==> RoundTrips(p, k, s)) <==> Visible(p, s)
  {
    hide Valid, Accepts, Lawful, RoundTrips, Visible;
    if Visible(p, s) {
      forall k | Lawful(|p.alphabet|, k) ensures RoundTrips(p, k, s) { RoundTrip(p, k, s); }
    } else {
      var k := BlankCiphertext(p, s);
    }
  }

  /** Eleven digits, the first of them a space. */
  const SPACED: Profile :=
    Profile(" 0123456789",
            map[' ' := 0, '0' := 1, '1' := 2, '2' := 3, '3' := 4, '4' := 5, '5' := 6, '6' := 7, '7' := 8, '8' := 9, '9' := 10],
            {}, 6, 32)

  /** A space, then the ten digits in order. */
  lemma SpacedCharacters(i: nat)
    requires i < 11
    ensures SPACED.alphabet[i] as int == (if i == 0 then 0x20 else 0x2f + i)
  {
  }

  lemma SpacedIndex()
    ensures IndexOf(SPACED.alphabet, SPACED.index)
  {
  }

  lemma SpacedIsText()
    ensures AlphabetOk(SPACED.alphabet)
  {
    assert !IsWhitespace(SPACED.alphabet[1]);
    var s := SPACED.alphabet;
    forall i | 0 <= i < |s| ensures !IsControl(s[i]) { SpacedCharacters(i); }
    forall i, j | 0 <= i < j < |s| ensures s[i] != s[j] {
      SpacedCharacters(i);
      SpacedCharacters(j);
    }
  }

  lemma SpacedIsValid()
    ensures Valid(SPACED) && LargeDomain(11, 6)
  {
    hide IndexOf, AlphabetOk;
    SpacedIndex();
    SpacedIsText();
    assert Power(11, 2) == 121;
    assert Power(11, 4) == 121 * 121;
    assert Power(11, 6) == 14641 * 121;
  }

  /** An input that fails: with a space in the alphabet and nothing preserved, "123456" may come back as blanks. */
  lemma RoundTripCanFail() returns (k: Cipher)
    ensures Valid(SPACED) && Accepts(SPACED, "123456") && !Visible(SPACED, "123456")
    ensures Lawful(11, k) && !RoundTrips(SPACED, k, "123456")
  {
    hide LargeDomain, Lawful, RoundTrips;
    SpacedIsValid();
    var s := "123456";
    assert !IsWhitespace(s[0]) && InFormat(SPACED, s);
    SixDigits(s);
    assert IsWhitespace(SPACED.alphabet[0]);
    k := BlankCiphertext(SPACED, s);
  }

  lemma {:induction false} SixDigits(s: string)
    requires forall i :: 0 <= i < |s| ==> s[i] !in SPACED.preserved
    ensures Count(SPACED, s) == |s|
  {
    if s != "" { SixDigits(s[..|s| - 1]); }
  }
}
