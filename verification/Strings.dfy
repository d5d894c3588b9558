/** str::split, str::split_once and joining, on one delimiter character. */
module Strings {
  import opened Text

  /** str::split on one character: always at least one part. */
  function Split(s: string, d: char): (parts: seq<string>)
    ensures parts != []
  {
    if s == "" then [""]
    else if s[0] == d then [""] + Split(s[1..], d)
    else
      var rest := Split(s[1..], d);
      [[s[0]] + rest[0]] + rest[1..]
  }

  function Join(parts: seq<string>, d: char): string {
    if parts == [] then "" else if |parts| == 1 then parts[0] else parts[0] + [d] + Join(parts[1..], d)
  }

  predicate Free(s: string, d: char) { forall i :: 0 <= i < |s| ==> s[i] != d }

  predicate AllFree(parts: seq<string>, d: char) { forall i :: 0 <= i < |parts| ==> Free(parts[i], d) }

  lemma JoinCons(c: char, rest: seq<string>, d: char)
    requires rest != []
    ensures Join([[c] + rest[0]] + rest[1..], d) == [c] + Join(rest, d)
    ensures Join([""] + rest, d) == [d] + Join(rest, d)
  {
    assert ([[c] + rest[0]] + rest[1..])[1..] == rest[1..] && ([""] + rest)[1..] == rest;
    if |rest| > 1 {
      assert ([c] + rest[0]) + [d] + Join(rest[1..], d) == [c] + (rest[0] + [d] + Join(rest[1..], d));
    }
  }

  lemma {:induction false} JoinSplit(s: string, d: char)
    ensures Join(Split(s, d), d) == s && AllFree(Split(s, d), d)
  {
    hide Join;
    if s == "" {
      JoinOne("", d);
    } else {
      JoinSplit(s[1..], d);
      var rest := Split(s[1..], d);
      JoinCons(s[0], rest, d);
      assert s == [s[0]] + s[1..];
      assert Free(rest[0], d);
    }
  }

  lemma JoinOne(s: string, d: char)
    ensures Join([s], d) == s
  {
  }

  lemma {:induction false} SplitFree(s: string, d: char)
    requires Free(s, d)
    ensures Split(s, d) == [s]
  {
    if s != "" {
      SplitFree(s[1..], d);
      assert s == [s[0]] + s[1..];
    }
  }

  lemma {:induction false} SplitAtFirst(a: string, d: char, b: string)
    requires Free(a, d)
    ensures Split(a + [d] + b, d) == [a] + Split(b, d)
  {
    var s := a + [d] + b;
    if a == "" {
      assert s[1..] == b && s[0] == d;
    } else {
      SplitAtFirst(a[1..], d, b);
      assert s[1..] == a[1..] + [d] + b && s[0] == a[0];
      assert a == [a[0]] + a[1..];
    }
  }

  lemma {:induction false} SplitJoin(parts: seq<string>, d: char)
    requires parts != [] && AllFree(parts, d)
    ensures Split(Join(parts, d), d) == parts
  {
    assert Free(parts[0], d);
    if |parts| == 1 {
      SplitFree(parts[0], d);
    } else {
      SplitJoin(parts[1..], d);
      SplitAtFirst(parts[0], d, Join(parts[1..], d));
    }
  }

  /** str::split_once: what precedes the first delimiter and what follows it. */
  function SplitOnce(s: string, d: char): (r: Option<(string, string)>)
    ensures r.None? <==> Free(s, d)
    ensures r.Some? ==> Free(r.value.0, d) && s == r.value.0 + [d] + r.value.1
  {
    if s == "" then None
    else if s[0] == d then
      assert s == "" + [d] + s[1..];
      Some(("", s[1..]))
    else
      var rest := SplitOnce(s[1..], d);
      assert s == [s[0]] + s[1..];
      if rest.None? then None else Some(([s[0]] + rest.value.0, rest.value.1))
  }

  lemma {:induction false} SplitOnceJoins(a: string, d: char, b: string)
    requires Free(a, d)
    ensures SplitOnce(a + [d] + b, d) == Some((a, b))
  {
    var s := a + [d] + b;
    if a == "" {
      assert s[0] == d && s[1..] == b;
    } else {
      SplitOnceJoins(a[1..], d, b);
      assert s[0] == a[0] && s[1..] == a[1..] + [d] + b;
      assert a == [a[0]] + a[1..];
    }
  }
}
