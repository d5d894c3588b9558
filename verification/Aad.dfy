/**
  * Associated-data strings: build_aad, build_validated_aad, parse_aad_fields and validate_labels
  * of src/core/validation.rs, and build_mac_domain_aad of src/core/mac.rs.
  */
module Aad {
  import opened Text
  import opened Strings

  const CONTEXT_MAX_CHARS: nat := 128
  const CONTEXT_PREFIX := "context."

  type Field = (string, string)

  // ----- one field -----

  predicate KeyChar(c: char) {
    '0' <= c <= '9' || 'a' <= c <= 'z' || 'A' <= c <= 'Z' || c == '_' || c == '.' || c == '-'
  }

  predicate KeyChars(s: string) { forall i :: 0 <= i < |s| ==> KeyChar(s[i]) }

  predicate KeyOk(key: string) { TextField(key) && KeyChars(key) }

  predicate ValueOk(value: string) { TextField(value) && Free(value, ';') && Free(value, '=') }

  predicate FieldOk(f: Field) { KeyOk(f.0) && ValueOk(f.1) }

  predicate FieldsOk(fields: seq<Field>) { forall i :: 0 <= i < |fields| ==> FieldOk(fields[i]) }

  function Render(f: Field): string { f.0 + ['='] + f.1 }

  function RenderAll(fields: seq<Field>): (r: seq<string>)
    ensures |r| == |fields| && forall i :: 0 <= i < |r| ==> r[i] == Render(fields[i])
  {
    seq(|fields|, i requires 0 <= i < |fields| => Render(fields[i]))
  }

  function BuildAad(fields: seq<Field>): string { Join(RenderAll(fields), ';') }

  function BuildValidatedAad(fields: seq<Field>): Option<string> {
    if FieldsOk(fields) then Some(BuildAad(fields)) else None
  }

  /** key=value with exactly one '='. */
  function ParseField(part: string): Option<Field> {
    var pieces := Split(part, '=');
    if |pieces| == 2 && KeyOk(pieces[0]) && ValueOk(pieces[1]) then Some((pieces[0], pieces[1])) else None
  }

  ghost predicate ParsesTo(aad: string, fields: seq<Field>) {
    var parts := Split(aad, ';');
    TextField(aad) && |fields| == |parts| && forall i :: 0 <= i < |parts| ==> ParseField(parts[i]) == Some(fields[i])
  }

  method ParseAadFields(aad: string) returns (r: Option<seq<Field>>)
    ensures r.Some? ==> ParsesTo(aad, r.value)
    ensures r.None? ==> forall fields :: !ParsesTo(aad, fields)
  {
    if !TextField(aad) { return None; }
    var parts := Split(aad, ';');
    var fields: seq<Field> := [];
    for k := 0 to |parts|
      invariant |fields| == k && forall i :: 0 <= i < k ==> ParseField(parts[i]) == Some(fields[i])
    {
      var pieces := Split(parts[k], '=');
      if |pieces| != 2 || !KeyOk(pieces[0]) || !ValueOk(pieces[1]) {
        assert ParseField(parts[k]).None?;
        return None;
      }
      fields := fields + [(pieces[0], pieces[1])];
    }
    return Some(fields);
  }

  // ----- round trip -----

  lemma KeyIsFree(key: string)
    requires KeyChars(key)
    ensures Free(key, ';') && Free(key, '=')
  {
    assert !KeyChar(';') && !KeyChar('=');
  }

  lemma RenderParses(f: Field)
    requires FieldOk(f)
    ensures ParseField(Render(f)) == Some(f) && Free(Render(f), ';')
  {
    hide TextField;
    KeyIsFree(f.0);
    SplitAtFirst(f.0, '=', f.1);
    SplitFree(f.1, '=');
  }

  lemma ParsedRenders(part: string)
    requires ParseField(part).Some?
    ensures FieldOk(ParseField(part).value) && Render(ParseField(part).value) == part
  {
    var pieces := Split(part, '=');
    JoinSplit(part, '=');
    assert pieces[1..] == [pieces[1]];
  }

  /** A built string is printable text whenever there is at least one field. */
  lemma {:induction false} BuiltIsText(fields: seq<Field>)
    requires FieldsOk(fields) && fields != []
    ensures TextField(BuildAad(fields))
    decreases |fields|
  {
    var first := fields[0];
    RenderIsText(first);
    if |fields| == 1 {
      assert BuildAad(fields) == Render(first);
    } else {
      var rest := fields[1..];
      BuiltIsText(rest);
      assert RenderAll(fields)[1..] == RenderAll(rest);
      assert BuildAad(fields) == Render(first) + [';'] + BuildAad(rest);
      TextConcat(Render(first), ';', BuildAad(rest));
    }
  }

  lemma RenderIsText(f: Field)
    requires FieldOk(f)
    ensures TextField(Render(f))
  {
    TextConcat(f.0, '=', f.1);
  }

  lemma TextConcat(a: string, d: char, b: string)
    requires TextField(a) && TextField(b) && !IsControl(d)
    ensures TextField(a + [d] + b)
  {
    var s := a + [d] + b;
    var i :| 0 <= i < |a| && !IsWhitespace(a[i]);
    assert s[i] == a[i];
    assert forall j :: 0 <= j < |b| ==> !IsControl(b[j]);
    assert forall j :: 0 <= j < |a| ==> !IsControl(a[j]);
  }

  /**
    * Parsing and building undo each other, both ways: a string parses to a list of fields exactly
    * when the list is non-empty and builds to that string.
    */
  lemma ParseBuildInverse(aad: string, fields: seq<Field>)
    ensures ParsesTo(aad, fields) <==> fields != [] && BuildValidatedAad(fields) == Some(aad)
  {
    hide TextField, ParseField;
    var parts := Split(aad, ';');
    if ParsesTo(aad, fields) {
      JoinSplit(aad, ';');
      forall i | 0 <= i < |fields| ensures FieldOk(fields[i]) && Render(fields[i]) == parts[i] { ParsedRenders(parts[i]); }
      assert RenderAll(fields) == parts;
    }
    if fields != [] && BuildValidatedAad(fields) == Some(aad) {
      BuiltIsText(fields);
      var rendered := RenderAll(fields);
      forall i | 0 <= i < |fields| ensures ParseField(rendered[i]) == Some(fields[i]) && Free(rendered[i], ';') { RenderParses(fields[i]); }
      SplitJoin(rendered, ';');
    }
  }

  // ----- labels -----

  predicate LabelOk(text: string) {
    var kv := SplitOnce(text, '=');
    kv.Some? && kv.value.0 != "" && kv.value.1 != "" && Free(kv.value.1, '=') && KeyChars(kv.value.0)
  }

  function LabelKey(text: string): string
    requires LabelOk(text)
  {
    SplitOnce(text, '=').value.0
  }

  predicate LabelsOk(value: string, maxChars: nat) {
    var labels := Split(value, ';');
    && TextField(value) && |value| <= maxChars
    && (forall i :: 0 <= i < |labels| ==> LabelOk(labels[i]))
    && (forall i, j :: 0 <= i < j < |labels| ==> LabelKey(labels[i]) != LabelKey(labels[j]))
  }

  method ValidateLabels(value: string, maxChars: nat) returns (ok: bool)
    ensures ok == LabelsOk(value, maxChars)
  {
    hide TextField, Split, SplitOnce, KeyChars, Free;
    if !TextField(value) { return false; }
    if |value| > maxChars { return false; }
    var labels := Split(value, ';');
    var seen: set<string> := {};
    for k := 0 to |labels|
      invariant forall i :: 0 <= i < k ==> LabelOk(labels[i]) && LabelKey(labels[i]) in seen
      invariant forall key :: key in seen ==> exists i :: 0 <= i < k && LabelOk(labels[i]) && LabelKey(labels[i]) == key
      invariant forall i, j :: 0 <= i < j < k ==> LabelKey(labels[i]) != LabelKey(labels[j])
    {
      var kv := SplitOnce(labels[k], '=');
      if kv.None? { return false; }
      var (key, text) := kv.value;
      if key == "" { return false; }
      if text == "" { return false; }
      if !Free(text, '=') { return false; }
      if !KeyChars(key) { return false; }
      if key in seen { return false; }
      seen := seen + {key};
    }
    return true;
  }

  predicate LabelPair(f: Field) {
    f.0 != "" && KeyChars(f.0) && f.1 != "" && Free(f.1, '=') && Free(f.1, ';')
  }

  /** The labels spelled by these pairs. */
  ghost predicate Spells(value: string, pairs: seq<Field>) {
    && pairs != [] && BuildAad(pairs) == value
    && (forall i :: 0 <= i < |pairs| ==> LabelPair(pairs[i]))
    && (forall i, j :: 0 <= i < j < |pairs| ==> pairs[i].0 != pairs[j].0)
  }

  lemma PairOfLabel(text: string)
    requires LabelOk(text) && Free(text, ';')
    ensures var kv := SplitOnce(text, '=').value; LabelPair(kv) && Render(kv) == text && LabelKey(text) == kv.0
  {
    var kv := SplitOnce(text, '=').value;
    forall i | 0 <= i < |kv.1| ensures kv.1[i] != ';' { assert kv.1[i] == text[|kv.0| + 1 + i]; }
  }

  lemma LabelOfPair(f: Field)
    requires LabelPair(f)
    ensures LabelOk(Render(f)) && LabelKey(Render(f)) == f.0 && Free(Render(f), ';')
  {
    KeyIsFree(f.0);
    SplitOnceJoins(f.0, '=', f.1);
  }

  /**
    * Exactly which texts are labels: printable, within the limit, and one or more pairs of a key and
    * a non-empty text, joined by '=' and ';', in which neither delimiter stands inside a part and no
    * key occurs twice.
    */
  lemma LabelsIff(value: string, maxChars: nat)
    ensures LabelsOk(value, maxChars) <==> TextField(value) && |value| <= maxChars && exists pairs :: Spells(value, pairs)
  {
    hide TextField, LabelOk, LabelPair, Split, SplitOnce, Join;
    if LabelsOk(value, maxChars) { LabelsSpelled(value, maxChars); }
    if pairs: seq<Field> :| TextField(value) && |value| <= maxChars && Spells(value, pairs) {
      var labels := RenderAll(pairs);
      forall i | 0 <= i < |labels| ensures LabelOk(labels[i]) && LabelKey(labels[i]) == pairs[i].0 && Free(labels[i], ';') {
        LabelOfPair(pairs[i]);
      }
      SplitJoin(labels, ';');
    }
  }

  lemma LabelsSpelled(value: string, maxChars: nat)
    requires LabelsOk(value, maxChars)
    ensures exists pairs :: Spells(value, pairs)
  {
    hide TextField, LabelOk, LabelPair, Split, SplitOnce, Join;
    var labels := Split(value, ';');
    JoinSplit(value, ';');
    forall i | 0 <= i < |labels| ensures LabelOk(labels[i]) && SplitOnce(labels[i], '=').Some? && Free(labels[i], ';') {
      LabelHasPair(labels[i]);
      PartsAreFree(value, ';', i);
    }
    var pairs := seq(|labels|, i requires 0 <= i < |labels| => SplitOnce(labels[i], '=').value);
    forall i | 0 <= i < |pairs| ensures LabelPair(pairs[i]) && Render(pairs[i]) == labels[i] && LabelKey(labels[i]) == pairs[i].0 {
      PairOfLabel(labels[i]);
    }
    assert RenderAll(pairs) == labels;
    assert Spells(value, pairs);
  }

  lemma LabelHasPair(text: string)
    requires LabelOk(text)
    ensures SplitOnce(text, '=').Some?
  {
  }

  lemma {:induction false} PartsAreFree(s: string, d: char, i: nat)
    requires i < |Split(s, d)|
    ensures Free(Split(s, d)[i], d)
    decreases |s|
  {
    if s != "" {
      var rest := Split(s[1..], d);
      if s[0] == d {
        if i > 0 { PartsAreFree(s[1..], d, i - 1); }
      } else {
        PartsAreFree(s[1..], d, i);
        if i == 0 { assert Split(s, d)[0] == [s[0]] + rest[0]; }
      }
    }
  }

  // ----- domain strings -----

  function ContextField(text: string): Field
    requires LabelOk(text)
  {
    var kv := SplitOnce(text, '=').value;
    (CONTEXT_PREFIX + kv.0, kv.1)
  }

  function ContextFields(labels: seq<string>): (r: seq<Field>)
    requires forall i :: 0 <= i < |labels| ==> LabelOk(labels[i])
    ensures |r| == |labels| && forall i :: 0 <= i < |r| ==> r[i] == ContextField(labels[i])
  {
    seq(|labels|, i requires 0 <= i < |labels| => ContextField(labels[i]))
  }

  function MacDomainAad(base: seq<Field>, context: string): Option<string> {
    if !LabelsOk(context, CONTEXT_MAX_CHARS) then None
    else BuildValidatedAad(base + ContextFields(Split(context, ';')))
  }

  method BuildMacDomainAad(base: seq<Field>, context: string) returns (r: Option<string>)
    ensures r == MacDomainAad(base, context)
  {
    var ok := ValidateLabels(context, CONTEXT_MAX_CHARS);
    if !ok { return None; }
    var fields := base;
    var labels := Split(context, ';');
    for k := 0 to |labels|
      invariant fields == base + ContextFields(labels)[..k]
    {
      var kv := SplitOnce(labels[k], '=');
      fields := fields + [(CONTEXT_PREFIX + kv.value.0, kv.value.1)];
    }
    assert ContextFields(labels)[..|labels|] == ContextFields(labels);
    return BuildValidatedAad(fields);
  }

  predicate StartsWith(s: string, p: string) { p <= s }

  predicate NoContextKeys(base: seq<Field>) { forall i :: 0 <= i < |base| ==> !StartsWith(base[i].0, CONTEXT_PREFIX) }

  lemma ContextFromFields(labels: seq<string>, labels': seq<string>)
    requires forall i :: 0 <= i < |labels| ==> LabelOk(labels[i])
    requires forall i :: 0 <= i < |labels'| ==> LabelOk(labels'[i])
    requires ContextFields(labels) == ContextFields(labels')
    ensures labels == labels'
  {
    var fs, fs' := ContextFields(labels), ContextFields(labels');
    forall i | 0 <= i < |labels| ensures labels[i] == labels'[i] {
      var a, b := SplitOnce(labels[i], '=').value, SplitOnce(labels'[i], '=').value;
      assert fs[i] == fs'[i];
      assert a.0 == fs[i].0[|CONTEXT_PREFIX|..] && b.0 == fs'[i].0[|CONTEXT_PREFIX|..];
    }
  }

  /** Where the base ends and the context begins can be read off the keys. */
  lemma BaseEndsWhereContextBegins(base: seq<Field>, ctx: seq<Field>, base': seq<Field>, ctx': seq<Field>)
    requires NoContextKeys(base) && NoContextKeys(base') && base + ctx == base' + ctx' && |base| <= |base'|
    requires ctx != [] && forall i :: 0 <= i < |ctx| ==> StartsWith(ctx[i].0, CONTEXT_PREFIX)
    ensures base == base' && ctx == ctx'
  {
    assert (base + ctx)[|base|] == ctx[0] == (base' + ctx')[|base|];
    assert base == (base + ctx)[..|base|] && base' == (base' + ctx')[..|base|];
    assert ctx == (base + ctx)[|base|..] && ctx' == (base' + ctx')[|base|..];
  }

  /** Two domain strings that are equal have the same fields, wherever the context begins. */
  lemma SameFields(base: seq<Field>, context: string, base': seq<Field>, context': string)
    requires MacDomainAad(base, context).Some? && MacDomainAad(base, context) == MacDomainAad(base', context')
    ensures LabelsOk(context, CONTEXT_MAX_CHARS) && LabelsOk(context', CONTEXT_MAX_CHARS)
    ensures base + ContextFields(Split(context, ';')) == base' + ContextFields(Split(context', ';'))
  {
    hide TextField, LabelOk, Split;
    var fs, fs' := base + ContextFields(Split(context, ';')), base' + ContextFields(Split(context', ';'));
    var aad := MacDomainAad(base, context).value;
    ParseBuildInverse(aad, fs);
    ParseBuildInverse(aad, fs');
    forall i | 0 <= i < |fs| ensures fs[i] == fs'[i] {
      assert ParseField(Split(aad, ';')[i]) == Some(fs[i]) && ParseField(Split(aad, ';')[i]) == Some(fs'[i]);
    }
  }

  /** The domain string determines both its base fields and its context. */
  lemma DomainSeparation(base: seq<Field>, context: string, base': seq<Field>, context': string)
    requires NoContextKeys(base) && NoContextKeys(base')
    requires MacDomainAad(base, context).Some? && MacDomainAad(base, context) == MacDomainAad(base', context')
    ensures base == base' && context == context'
  {
    hide TextField, LabelOk, Split;
    var labels, labels' := Split(context, ';'), Split(context', ';');
    var ctx, ctx' := ContextFields(labels), ContextFields(labels');
    SameFields(base, context, base', context');
    if |base| <= |base'| {
      BaseEndsWhereContextBegins(base, ctx, base', ctx');
    } else {
      BaseEndsWhereContextBegins(base', ctx', base, ctx);
    }
    ContextFromFields(labels, labels');
    JoinSplit(context, ';');
    JoinSplit(context', ';');
  }

  /** The info string of a derived key: mac-key and sharing-key end in the algorithm, tokens in a version. */
  function KeyInfo(purpose: string, profile: string, kid: string, lastKey: string, last: string, context: string): Option<string> {
    MacDomainAad([("purpose", purpose), ("profile", profile), ("kid", kid), (lastKey, last)], context)
  }

  /** The info string parses back to the purpose, profile, key id and last field, each under its own name. */
  lemma KeyInfoParses(purpose: string, profile: string, kid: string, lastKey: string, last: string, context: string)
    requires KeyInfo(purpose, profile, kid, lastKey, last, context).Some?
    ensures LabelsOk(context, CONTEXT_MAX_CHARS)
    ensures ParsesTo(KeyInfo(purpose, profile, kid, lastKey, last, context).value,
                     [("purpose", purpose), ("profile", profile), ("kid", kid), (lastKey, last)] + ContextFields(Split(context, ';')))
  {
    hide LabelOk, Split, ParsesTo, LabelsOk;
    LabelsAreOk(context) by { assert LabelsOk(context, CONTEXT_MAX_CHARS); }
    var fields := [("purpose", purpose), ("profile", profile), ("kid", kid), (lastKey, last)] + ContextFields(Split(context, ';'));
    ParseBuildInverse(KeyInfo(purpose, profile, kid, lastKey, last, context).value, fields);
  }

  /** Keys derived for different purposes, profiles, key ids, algorithms or contexts never share an info string. */
  lemma KeyInfosSeparate(purpose: string, profile: string, kid: string, lastKey: string, last: string, context: string,
                         purpose': string, profile': string, kid': string, lastKey': string, last': string, context': string)
    requires lastKey in {"algorithm", "tokenization_version"} && lastKey' in {"algorithm", "tokenization_version"}
    requires KeyInfo(purpose, profile, kid, lastKey, last, context).Some?
    requires KeyInfo(purpose, profile, kid, lastKey, last, context) == KeyInfo(purpose', profile', kid', lastKey', last', context')
    ensures purpose == purpose' && profile == profile' && kid == kid' && lastKey == lastKey' && last == last' && context == context'
  {
    hide MacDomainAad;
    var base := [("purpose", purpose), ("profile", profile), ("kid", kid), (lastKey, last)];
    var base' := [("purpose", purpose'), ("profile", profile'), ("kid", kid'), (lastKey', last')];
    assert "purpose"[0] != 'c' && "profile"[0] != 'c' && "kid"[0] != 'c' && lastKey[0] != 'c' && lastKey'[0] != 'c';
    assert CONTEXT_PREFIX[0] == 'c';
    assert NoContextKeys(base) && NoContextKeys(base');
    DomainSeparation(base, context, base', context');
    assert base[0] == base'[0] && base[1] == base'[1] && base[2] == base'[2] && base[3] == base'[3];
  }

  // ----- base keys that read like context labels -----

  /** A base field named context.k reads exactly like a context label k, so it can move over. */
  lemma LastFieldMoves(base: seq<Field>, key: string, value: string, context: string)
    requires MacDomainAad(base + [(CONTEXT_PREFIX + key, value)], context).Some?
    requires LabelsOk(Render((key, value)) + [';'] + context, CONTEXT_MAX_CHARS)
    ensures MacDomainAad(base + [(CONTEXT_PREFIX + key, value)], context)
         == MacDomainAad(base, Render((key, value)) + [';'] + context)
  {
    hide LabelOk, LabelsOk, Split, FieldOk;
    var label', moved := Render((key, value)), [(CONTEXT_PREFIX + key, value)];
    var labels := Split(context, ';');
    MovedFieldIsFree(base, key, value, context);
    SplitAtFirst(label', ';', context);
    LabelsAreOk(context);
    LabelsAreOk(label' + [';'] + context);
    var more := [label'] + labels;
    assert more[0] == label';
    SplitOnceJoins(key, '=', value);
    assert ContextFields(more) == moved + ContextFields(labels);
    assert base + (moved + ContextFields(labels)) == base + moved + ContextFields(labels);
  }

  lemma MovedFieldIsFree(base: seq<Field>, key: string, value: string, context: string)
    requires MacDomainAad(base + [(CONTEXT_PREFIX + key, value)], context).Some?
    ensures LabelsOk(context, CONTEXT_MAX_CHARS) && Free(key, '=') && Free(Render((key, value)), ';')
  {
    hide TextField, LabelOk, LabelsOk, Split;
    LabelsAreOk(context) by { assert LabelsOk(context, CONTEXT_MAX_CHARS); }
    var all := base + [(CONTEXT_PREFIX + key, value)] + ContextFields(Split(context, ';'));
    assert FieldOk(all[|base|]);
    var full := CONTEXT_PREFIX + key;
    assert forall i :: 0 <= i < |key| ==> key[i] == full[|CONTEXT_PREFIX| + i];
    KeyIsFree(key);
    RenderIsFree((key, value));
  }

  lemma RenderIsFree(f: Field)
    requires KeyChars(f.0) && Free(f.1, ';')
    ensures Free(Render(f), ';')
  {
    KeyIsFree(f.0);
  }

  /** The last base field could as well be the first label of the context. */
  predicate Movable(base: seq<Field>, context: string) {
    && base != []
    && var f := base[|base| - 1];
    && StartsWith(f.0, CONTEXT_PREFIX)
    && LabelsOk(Render((f.0[|CONTEXT_PREFIX|..], f.1)) + [';'] + context, CONTEXT_MAX_CHARS)
  }

  lemma {:induction false} JoinSuffix(parts: seq<string>, n: nat, d: char) returns (front: string)
    requires n < |parts|
    ensures Join(parts, d) == front + Join(parts[n..], d)
  {
    if n == 0 {
      front := "";
      assert parts[0..] == parts;
    } else {
      var rest := JoinSuffix(parts[1..], n - 1, d);
      front := parts[0] + [d] + rest;
      assert parts[1..][n - 1..] == parts[n..];
    }
  }

  /** The last labels of a context are a context. */
  lemma SuffixIsContext(context: string, n: nat, maxChars: nat)
    requires LabelsOk(context, maxChars) && n < |Split(context, ';')|
    ensures LabelsOk(Join(Split(context, ';')[n..], ';'), maxChars) && Split(Join(Split(context, ';')[n..], ';'), ';') == Split(context, ';')[n..]
  {
    hide LabelOk, Split, Join;
    var labels := Split(context, ';');
    var rest := labels[n..];
    JoinSplit(context, ';');
    var front := JoinSuffix(labels, n, ';');
    SplitJoin(rest, ';');
    var s := Join(rest, ';');
    assert forall i :: 0 <= i < |s| ==> s[i] == context[|front| + i];
    LabelIsText(rest[0]);
    var tail := JoinHead(rest, ';');
    assert s[0] == rest[0][0];
  }

  lemma JoinHead(parts: seq<string>, d: char) returns (tail: string)
    requires parts != []
    ensures Join(parts, d) == parts[0] + tail
  {
    tail := if |parts| == 1 then "" else [d] + Join(parts[1..], d);
  }

  lemma LabelIsText(text: string)
    requires LabelOk(text)
    ensures text != "" && !IsWhitespace(text[0])
  {
    var kv := SplitOnce(text, '=').value;
    assert KeyChar(kv.0[0]) && text[0] == kv.0[0];
  }

  lemma ShorterMeansMovable(base: seq<Field>, context: string, base': seq<Field>, context': string)
    requires MacDomainAad(base, context).Some? && MacDomainAad(base, context) == MacDomainAad(base', context')
    requires |base'| < |base|
    ensures Movable(base, context)
  {
    hide LabelOk, Split, LabelsOk, Join, MacDomainAad;
    SameFields(base, context, base', context');
    var labels, labels' := Split(context, ';'), Split(context', ';');
    LabelsAreOk(context);
    LabelsAreOk(context');
    var m := |base| - |base'|;
    var f := base[|base| - 1];
    SharedTail(base, labels, base', labels');
    ContextFieldText(labels'[m - 1]);
    var kv := SplitOnce(labels'[m - 1], '=').value;
    assert f.0[|CONTEXT_PREFIX|..] == kv.0;
    assert labels'[m - 1..] == [labels'[m - 1]] + labels;
    SuffixIsContext(context', m - 1, CONTEXT_MAX_CHARS);
    JoinSplit(context, ';');
    JoinTwo(labels'[m - 1], labels, ';');
  }

  /** The labels of the longer context: those that stand for base fields, then the others. */
  lemma SharedTail(base: seq<Field>, labels: seq<string>, base': seq<Field>, labels': seq<string>)
    requires forall i :: 0 <= i < |labels| ==> LabelOk(labels[i])
    requires forall i :: 0 <= i < |labels'| ==> LabelOk(labels'[i])
    requires base + ContextFields(labels) == base' + ContextFields(labels') && |base'| < |base|
    ensures var m := |base| - |base'|;
      m <= |labels'| && labels'[m..] == labels && ContextField(labels'[m - 1]) == base[|base| - 1]
  {
    hide LabelOk, ContextField;
    var ctx, ctx', m := ContextFields(labels), ContextFields(labels'), |base| - |base'|;
    assert |base + ctx| == |base' + ctx'|;
    assert (base + ctx)[|base| - 1] == base[|base| - 1] && (base' + ctx')[|base| - 1] == ctx'[m - 1];
    assert ctx'[m..] == (base' + ctx')[|base|..] == (base + ctx)[|base|..] == ctx;
    assert ContextFields(labels'[m..]) == ctx'[m..];
    ContextFromFields(labels'[m..], labels);
  }

  lemma LabelsAreOk(context: string)
    requires LabelsOk(context, CONTEXT_MAX_CHARS)
    ensures forall i :: 0 <= i < |Split(context, ';')| ==> LabelOk(Split(context, ';')[i])
  {
    hide TextField, LabelOk, Split;
  }

  lemma ContextFieldText(text: string)
    requires LabelOk(text)
    ensures SplitOnce(text, '=').Some?
    ensures var kv := SplitOnce(text, '=').value; text == Render(kv) && ContextField(text) == (CONTEXT_PREFIX + kv.0, kv.1)
  {
  }

  lemma JoinTwo(first: string, rest: seq<string>, d: char)
    requires rest != []
    ensures Join([first] + rest, d) == first + [d] + Join(rest, d)
  {
    assert ([first] + rest)[1..] == rest;
  }

  /**
    * Exactly when a domain string can also be read with a shorter base: when the last base field
    * could as well be the first label of the context.
    */
  lemma ReadWithShorterBaseIff(base: seq<Field>, context: string)
    requires MacDomainAad(base, context).Some?
    ensures (exists base', context' :: |base'| < |base| && MacDomainAad(base', context') == MacDomainAad(base, context))
      <==> Movable(base, context)
  {
    hide MacDomainAad, Movable;
    if base', context' :| |base'| < |base| && MacDomainAad(base', context') == MacDomainAad(base, context) {
      ShorterMeansMovable(base, context, base', context');
    }
    if Movable(base, context) { MovedOver(base, context); }
  }

  lemma MovedOver(base: seq<Field>, context: string)
    requires MacDomainAad(base, context).Some? && Movable(base, context)
    ensures exists base', context' :: |base'| < |base| && MacDomainAad(base', context') == MacDomainAad(base, context)
  {
    hide MacDomainAad, LabelsOk;
    var front, f := base[..|base| - 1], base[|base| - 1];
    var key := f.0[|CONTEXT_PREFIX|..];
    assert f.0 == CONTEXT_PREFIX + key;
    assert base == front + [(CONTEXT_PREFIX + key, f.1)];
    LastFieldMoves(front, key, f.1, context);
  }

  /** Exactly when it can be read with a longer base: when the context has a second label. */
  lemma ReadWithLongerBaseIff(base: seq<Field>, context: string)
    requires MacDomainAad(base, context).Some?
    ensures (exists base', context' :: |base'| > |base| && MacDomainAad(base', context') == MacDomainAad(base, context))
      <==> |Split(context, ';')| >= 2
  {
    hide MacDomainAad, LabelOk, LabelsOk, Split;
    if base', context' :| |base'| > |base| && MacDomainAad(base', context') == MacDomainAad(base, context) {
      LongerMeansTwoLabels(base, context, base', context');
    }
    if |Split(context, ';')| >= 2 { FirstLabelMoves(base, context); }
  }

  lemma LongerMeansTwoLabels(base: seq<Field>, context: string, base': seq<Field>, context': string)
    requires MacDomainAad(base, context).Some? && MacDomainAad(base, context) == MacDomainAad(base', context')
    requires |base'| > |base|
    ensures |Split(context, ';')| >= 2
  {
    hide LabelOk, Split, LabelsOk, MacDomainAad;
    SameFields(base, context, base', context');
    LabelsAreOk(context);
    LabelsAreOk(context');
    SharedTail(base', Split(context', ';'), base, Split(context, ';'));
  }

  /** The first label of a context reads exactly like a base field, so it can move over. */
  lemma FirstLabelMoves(base: seq<Field>, context: string)
    requires MacDomainAad(base, context).Some? && |Split(context, ';')| >= 2
    ensures exists base', context' :: |base'| > |base| && MacDomainAad(base', context') == MacDomainAad(base, context)
  {
    hide LabelOk, LabelsOk, Split, BuildValidatedAad, Join;
    assert LabelsOk(context, CONTEXT_MAX_CHARS);
    LabelsAreOk(context);
    var labels := Split(context, ';');
    var base', context' := base + [ContextField(labels[0])], Join(labels[1..], ';');
    SuffixIsContext(context, 1, CONTEXT_MAX_CHARS);
    assert base' + ContextFields(labels[1..]) == base + ContextFields(labels);
    assert MacDomainAad(base', context') == MacDomainAad(base, context);
  }

  lemma SameLengthSameReading(base: seq<Field>, context: string, base': seq<Field>, context': string)
    requires MacDomainAad(base, context).Some? && MacDomainAad(base, context) == MacDomainAad(base', context')
    requires |base| == |base'|
    ensures base == base' && context == context'
  {
    hide LabelOk, Split, LabelsOk, MacDomainAad;
    SameFields(base, context, base', context');
    LabelsAreOk(context);
    LabelsAreOk(context');
    var ctx, ctx' := ContextFields(Split(context, ';')), ContextFields(Split(context', ';'));
    assert base == (base + ctx)[..|base|] && base' == (base' + ctx')[..|base|];
    assert ctx == (base + ctx)[|base|..] && ctx' == (base' + ctx')[|base|..];
    ContextFromFields(Split(context, ';'), Split(context', ';'));
    JoinSplit(context, ';');
    JoinSplit(context', ';');
  }

  /**
    * Exactly when a domain string determines its base fields and its context: when the last base
    * field could not be a label and the context has only one.
    */
  lemma OneReadingIff(base: seq<Field>, context: string)
    requires MacDomainAad(base, context).Some?
    ensures (forall base', context' :: MacDomainAad(base', context') == MacDomainAad(base, context) ==> base' == base && context' == context)
      <==> !Movable(base, context) && |Split(context, ';')| == 1
  {
    hide MacDomainAad, Movable, Split;
    ReadWithShorterBaseIff(base, context);
    ReadWithLongerBaseIff(base, context);
    if !Movable(base, context) && |Split(context, ';')| < 2 {
      forall base', context' | MacDomainAad(base', context') == MacDomainAad(base, context)
        ensures base' == base && context' == context
      {
        assert |base'| == |base|;
        SameLengthSameReading(base, context, base', context');
      }
    }
  }

  /** Such an input: two different calls, one string. */
  lemma ContextKeyAmbiguous()
    ensures MacDomainAad([("context.a", "1")], "b=2") == Some("context.a=1;context.b=2")
    ensures MacDomainAad([], "a=1;b=2") == Some("context.a=1;context.b=2")
  {
    hide TextField, Split, LabelsOk, FieldOk;
    OneLabel();
    TwoLabels();
    var first, second: Field := ("context.a", "1"), ("context.b", "2");
    ExampleFields(first, second);
    var base: seq<Field> := [first];
    assert CONTEXT_PREFIX + "b" == "context.b";
    assert ContextField("b=2") == second;
    assert ContextFields(["b=2"]) == [second];
    assert base + [second] == [first, second];
    assert BuildAad([first, second]) == "context.a=1;context.b=2" by {
      assert "context.a" + ['='] + "1" == "context.a=1" && "context.b" + ['='] + "2" == "context.b=2";
      assert RenderAll([first, second]) == ["context.a=1", "context.b=2"];
      JoinTwo("context.a=1", ["context.b=2"], ';');
      assert ["context.a=1"] + ["context.b=2"] == ["context.a=1", "context.b=2"];
    }
    assert CONTEXT_PREFIX + "a" == "context.a" && "a" + ['='] + "1" == "a=1" && "a=1" + [';'] + "b=2" == "a=1;b=2";
    assert [] + [(CONTEXT_PREFIX + "a", "1")] == base;
    LastFieldMoves([], "a", "1", "b=2");
  }

  lemma ExampleFields(first: Field, second: Field)
    requires first == ("context.a", "1") && second == ("context.b", "2")
    ensures FieldOk(first) && FieldOk(second)
  {
    assert !IsWhitespace(first.0[0]) && !IsWhitespace(first.1[0]) && !IsWhitespace(second.0[0]) && !IsWhitespace(second.1[0]);
  }

  lemma OneLabel()
    ensures LabelsOk("b=2", CONTEXT_MAX_CHARS) && Split("b=2", ';') == ["b=2"] && SplitOnce("b=2", '=') == Some(("b", "2"))
  {
    hide Split, SplitOnce;
    SplitFree("b=2", ';');
    assert "b" + ['='] + "2" == "b=2";
    SplitOnceJoins("b", '=', "2");
    assert !IsWhitespace("b=2"[0]);
  }

  lemma TwoLabels()
    ensures LabelsOk("a=1;b=2", CONTEXT_MAX_CHARS)
  {
    hide Split, SplitOnce;
    OneLabel();
    assert "a=1" + [';'] + "b=2" == "a=1;b=2" && "a" + ['='] + "1" == "a=1";
    SplitAtFirst("a=1", ';', "b=2");
    SplitOnceJoins("a", '=', "1");
    assert ["a=1"] + ["b=2"] == ["a=1", "b=2"];
    assert !IsWhitespace("a=1;b=2"[0]);
  }
}
