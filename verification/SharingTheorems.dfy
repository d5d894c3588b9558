/** What splitting and combining guarantee together. */
module SharingTheorems {
  import opened Sequences
  import opened GF256
  import opened Polynomials
  import opened Sharing

  // ----- recovery -----

  /**
    * Any list of at least `threshold` shares of one split, in any order and with distinct
    * indexes, gives back the secret, whatever the random coefficients were.
    */
  lemma Recovery(shares: seq<RawShare>, threshold: nat, secret: seq<bv8>, random: seq<seq<bv8>>)
    requires RandomFor(random, secret, threshold) && shares != [] && |shares| >= threshold
    requires GoodIndexes(shares) && forall k :: 0 <= k < |shares| ==> IsShareOf(shares[k], secret, random)
    ensures Recovers(shares, threshold, secret)
  {
    hide Eval;
    FieldLaws();
    forall o | 0 <= o < |secret| ensures ByteRecovers(shares, threshold, o, secret[o]) {
      var c := [secret[o]] + random[o];
      EvalAtZero(F, c);
      assert OnPolynomial(shares, o, c) by {
        forall i | 0 <= i < |shares| ensures shares[i].value[o] == Eval(F, c, shares[i].index) {
          assert IsShareOf(shares[i], secret, random);
        }
      }
    }
  }

  predicate Picks(picks: seq<nat>, n: nat) {
    Distinct(picks) && forall k :: 0 <= k < |picks| ==> picks[k] < n
  }

  function Chosen(shares: seq<RawShare>, picks: seq<nat>): (r: seq<RawShare>)
    requires Picks(picks, |shares|)
    ensures |r| == |picks| && forall k :: 0 <= k < |r| ==> r[k] == shares[picks[k]]
  {
    seq(|picks|, k requires 0 <= k < |picks| => shares[picks[k]])
  }

  lemma ChosenIndexes(shares: seq<RawShare>, picks: seq<nat>)
    requires Picks(picks, |shares|) && GoodIndexes(shares)
    ensures GoodIndexes(Chosen(shares, picks))
  {
    var sub := Chosen(shares, picks);
    forall i, j | 0 <= i < j < |sub| ensures Indexes(sub)[i] != Indexes(sub)[j] {
      assert Indexes(shares)[picks[i]] != Indexes(shares)[picks[j]];
    }
  }

  lemma CountedIndexes(output: seq<RawShare>)
    requires forall i :: 0 <= i < |output| ==> output[i].index as int == i + 1
    ensures GoodIndexes(output)
  {
    var xs := Indexes(output);
    forall i, j | 0 <= i < j < |xs| ensures xs[i] != xs[j] {
      assert xs[i] as int == i + 1 && xs[j] as int == j + 1;
    }
    forall i | 0 <= i < |output| ensures output[i].index != 0 {
      assert (0 as bv8) as int == 0;
    }
  }

  /** split, then combine of any large enough choice of the shares: the secret comes back. */
  method SplitThenCombine(profile: Profile, secret: seq<bv8>, random: seq<seq<bv8>>, picks: seq<nat>)
    returns (r: Outcome<seq<bv8>>)
    requires ValidProfile(profile) && RandomFor(random, secret, profile.threshold)
    requires 0 < |secret| <= profile.maxSecretLen
    requires Picks(picks, profile.shares) && |picks| >= profile.threshold
    ensures r == Ok(secret)
  {
    var shares := Split(profile, secret, random);
    var output := shares.value;
    CountedIndexes(output);
    ChosenIndexes(output, picks);
    var chosen := Chosen(output, picks);
    Recovery(chosen, profile.threshold, secret, random);
    r := Combine(chosen, profile.threshold);
    SecretIsUnique(chosen, profile.threshold, r.value, secret);
  }

  // ----- soundness: the result depends only on which shares were given -----

  lemma SecretIsUnique(shares: seq<RawShare>, threshold: nat, s: seq<bv8>, s': seq<bv8>)
    requires Recovers(shares, threshold, s) && Recovers(shares, threshold, s')
    ensures s == s'
  {
    hide Eval;
    assert |shares[0].value| == |s| == |s'|;
    forall o | 0 <= o < |s| ensures s[o] == s'[o] {
      assert ByteRecovers(shares, threshold, o, s[o]) && ByteRecovers(shares, threshold, o, s'[o]);
      var c: seq<bv8> :| |c| == threshold && OnPolynomial(shares, o, c) && s[o] == Eval(F, c, 0);
      var d: seq<bv8> :| |d| == threshold && OnPolynomial(shares, o, d) && s'[o] == Eval(F, d, 0);
      InterpolatedIsEval(shares, threshold, o, c, 0);
      InterpolatedIsEval(shares, threshold, o, d, 0);
    }
  }

  /** Dropping shares down to the threshold, or taking another basis, never changes the result. */
  lemma AnyChoiceRecovers(shares: seq<RawShare>, threshold: nat, secret: seq<bv8>, picks: seq<nat>)
    requires Recovers(shares, threshold, secret)
    requires Picks(picks, |shares|) && picks != [] && |picks| >= threshold
    ensures Recovers(Chosen(shares, picks), threshold, secret)
  {
    hide Eval;
    ChosenIndexes(shares, picks);
    var sub := Chosen(shares, picks);
    forall o | 0 <= o < |secret| ensures ByteRecovers(sub, threshold, o, secret[o]) {
      assert ByteRecovers(shares, threshold, o, secret[o]);
      var c: seq<bv8> :| |c| == threshold && OnPolynomial(shares, o, c) && secret[o] == Eval(F, c, 0);
      assert OnPolynomial(sub, o, c);
    }
  }

  /** The order of the shares does not matter. */
  lemma OrderIrrelevant(shares: seq<RawShare>, others: seq<RawShare>, threshold: nat, secret: seq<bv8>)
    requires multiset(shares) == multiset(others) && Recovers(shares, threshold, secret)
    ensures Recovers(others, threshold, secret)
  {
    hide Eval;
    PermutedIndexes(shares, others);
    SameSize(shares, others);
    forall i | 0 <= i < |others| ensures others[i] in shares { assert others[i] in multiset(others); }
    forall o | 0 <= o < |secret| ensures ByteRecovers(others, threshold, o, secret[o]) {
      assert ByteRecovers(shares, threshold, o, secret[o]);
      var c: seq<bv8> :| |c| == threshold && OnPolynomial(shares, o, c) && secret[o] == Eval(F, c, 0);
      assert OnPolynomial(others, o, c);
    }
  }

  lemma SameSize<T>(a: seq<T>, b: seq<T>)
    requires multiset(a) == multiset(b)
    ensures |a| == |b|
  {
    assert |multiset(a)| == |a| && |multiset(b)| == |b|;
  }

  lemma Repeated<T>(a: seq<T>, i: nat, j: nat)
    requires i < j < |a| && a[i] == a[j]
    ensures multiset(a)[a[i]] >= 2
  {
    assert a == a[..j] + a[j..];
    assert a[..j][i] == a[i] && a[j..][0] == a[i];
    assert a[i] in multiset(a[..j]) && a[i] in multiset(a[j..]);
  }

  lemma {:induction false} UniqueOnce(shares: seq<RawShare>, share: RawShare)
    requires Distinct(Indexes(shares))
    ensures multiset(shares)[share] <= 1
  {
    if shares != [] {
      var front, last := shares[..|shares| - 1], shares[|shares| - 1];
      assert shares == front + [last];
      assert forall i :: 0 <= i < |front| ==> Indexes(front)[i] == Indexes(shares)[i];
      UniqueOnce(front, share);
      assert forall i :: 0 <= i < |front| ==> Indexes(shares)[i] != Indexes(shares)[|shares| - 1];
      assert last !in front;
      assert share !in front ==> multiset(front)[share] == 0;
    }
  }

  lemma PermutedIndexes(shares: seq<RawShare>, others: seq<RawShare>)
    requires multiset(shares) == multiset(others) && GoodIndexes(shares)
    ensures GoodIndexes(others)
  {
    forall i | 0 <= i < |others| ensures others[i] in shares { assert others[i] in multiset(others); }
    var xs := Indexes(others);
    forall i, j | 0 <= i < j < |xs| ensures xs[i] != xs[j] {
      if xs[i] == xs[j] {
        var k :| 0 <= k < |shares| && shares[k] == others[i];
        var l :| 0 <= l < |shares| && shares[l] == others[j];
        assert Indexes(shares)[k] == Indexes(shares)[l];
        assert others[i] == others[j];
        Repeated(others, i, j);
        UniqueOnce(shares, others[i]);
        assert false;
      }
    }
  }

  // ----- error detection -----

  /** The positions at which the received shares differ from those handed out. */
  function Altered(sent: seq<RawShare>, received: seq<RawShare>): set<nat>
    requires |sent| == |received|
  {
    set i: nat | i < |sent| && sent[i] != received[i]
  }

  /**
    * With e more shares than the threshold, altering the values of between 1 and e of them
    * always makes combine refuse.
    */
  lemma ErrorsDetected(sent: seq<RawShare>, received: seq<RawShare>, threshold: nat,
                       secret: seq<bv8>, random: seq<seq<bv8>>, claimed: seq<bv8>)
    requires RandomFor(random, secret, threshold) && |sent| == |received| && GoodIndexes(sent)
    requires forall k :: 0 <= k < |sent| ==> IsShareOf(sent[k], secret, random)
    requires forall k :: 0 <= k < |sent| ==>
      received[k].index == sent[k].index && |received[k].value| == |sent[k].value|
    requires 1 <= |Altered(sent, received)| <= |sent| - threshold
    ensures !Recovers(received, threshold, claimed)
  {
    hide Eval;
    if Recovers(received, threshold, claimed) {
      var bad :| bad in Altered(sent, received);
      assert IsShareOf(sent[bad], secret, random);
      assert |received[bad].value| == |secret| == |claimed|;
      var o :| 0 <= o < |secret| && sent[bad].value[o] != received[bad].value[o];
      var c := [secret[o]] + random[o];
      assert ByteRecovers(received, threshold, o, claimed[o]);
      var d: seq<bv8> :| |d| == threshold && OnPolynomial(received, o, d) && claimed[o] == Eval(F, d, 0);
      var points := GoodPoints(sent, received);
      forall x | x in points ensures Eval(F, c, x) == Eval(F, d, x) {
        var i :| 0 <= i < |sent| && sent[i] == received[i] && sent[i].index == x;
        assert IsShareOf(sent[i], secret, random);
      }
      FieldLaws();
      UniquenessOnSet(F, c, d, points);
      assert false;
    }
  }

  /** The indexes of the unaltered shares: at least |sent| - |Altered| of them. */
  lemma GoodPoints(sent: seq<RawShare>, received: seq<RawShare>) returns (points: set<bv8>)
    requires |sent| == |received| && Distinct(Indexes(sent))
    ensures |points| >= |sent| - |Altered(sent, received)|
    ensures forall x :: x in points ==>
      exists i :: 0 <= i < |sent| && sent[i] == received[i] && sent[i].index == x
  {
    points := CountPoints(sent, received, |sent|);
    var altered := Altered(sent, received);
    assert (set i: nat | i < |sent| && sent[i] != received[i]) == altered;
  }

  lemma {:induction false} CountPoints(sent: seq<RawShare>, received: seq<RawShare>, n: nat) returns (points: set<bv8>)
    requires |sent| == |received| && Distinct(Indexes(sent)) && n <= |sent|
    ensures |points| + |set i: nat | i < n && sent[i] != received[i]| == n
    ensures forall x :: x in points ==> exists i :: 0 <= i < n && sent[i] == received[i] && sent[i].index == x
  {
    points := {};
    var bad := set i: nat | i < n && sent[i] != received[i];
    if n == 0 {
      assert bad == {};
    } else {
      points := CountPoints(sent, received, n - 1);
      var before := set i: nat | i < n - 1 && sent[i] != received[i];
      if sent[n - 1] != received[n - 1] {
        assert bad == before + {n - 1};
      } else {
        assert bad == before;
        var x := sent[n - 1].index;
        assert forall i :: 0 <= i < n - 1 ==> Indexes(sent)[i] != Indexes(sent)[n - 1];
        assert x !in points;
        points := points + {x};
      }
    }
  }

  // ----- secrecy -----

  /** These random coefficients put the polynomial with this secret byte through the points. */
  predicate Explains(xs: seq<bv8>, ys: seq<bv8>, secret: bv8, random: seq<bv8>)
    requires |xs| == |ys|
  {
    forall i :: 0 <= i < |xs| ==> Eval(F, [secret] + random, xs[i]) == ys[i]
  }

  /** threshold - 1 points leave the secret byte completely open: each candidate secret is
    * explained by exactly one choice of random coefficients. */
  lemma SecretByteOpen(xs: seq<bv8>, ys: seq<bv8>, secret: bv8) returns (random: seq<bv8>)
    requires |xs| == |ys| && Distinct(xs) && forall i :: 0 <= i < |xs| ==> xs[i] != 0
    ensures |random| == |xs|
    ensures Explains(xs, ys, secret, random)
    ensures forall other: seq<bv8> :: |other| == |xs| && Explains(xs, ys, secret, other) ==> other == random
  {
    hide Eval;
    FieldLaws();
    var nodes, values := [0 as bv8] + xs, [secret] + ys;
    assert Distinct(nodes);
    var c := LagrangePoly(F, nodes, values, |nodes|);
    random := c[1..];
    LagrangeInterpolates(F, nodes, values);
    assert Eval(F, c, nodes[0]) == values[0];
    EvalAtZero(F, c);
    assert c == [secret] + random;
    forall i | 0 <= i < |xs| ensures Eval(F, [secret] + random, xs[i]) == ys[i] {
      assert Eval(F, c, nodes[i + 1]) == values[i + 1];
    }
    forall other: seq<bv8> | |other| == |xs| && Explains(xs, ys, secret, other)
      ensures other == random
    {
      var d := [secret] + other;
      EvalAtZero(F, d);
      forall i | 0 <= i < |nodes| ensures Eval(F, c, nodes[i]) == Eval(F, d, nodes[i]) {
        if i > 0 { assert nodes[i] == xs[i - 1]; }
      }
      Uniqueness(F, c, d, nodes);
      assert d[1..] == other;
    }
  }

  /** Two splits give the holders of these indexes the same shares. */
  predicate SameView(xs: seq<bv8>, s: seq<bv8>, r: seq<seq<bv8>>, s': seq<bv8>, r': seq<seq<bv8>>)
    requires |s| == |r| == |s'| == |r'|
  {
    forall i, o :: 0 <= i < |xs| && 0 <= o < |s| ==> ShareByte(s, r, o, xs[i]) == ShareByte(s', r', o, xs[i])
  }

  /**
    * Secrecy of a whole split: whatever threshold - 1 holders see, every candidate secret of the
    * same length is explained by exactly one choice of all the random coefficients.
    */
  lemma {:induction false} CoalitionLearnsNothing(xs: seq<bv8>, secret: seq<bv8>, random: seq<seq<bv8>>, candidate: seq<bv8>)
    returns (random': seq<seq<bv8>>)
    requires Distinct(xs) && forall i :: 0 <= i < |xs| ==> xs[i] != 0
    requires RandomFor(random, secret, |xs| + 1) && |candidate| == |secret|
    ensures RandomFor(random', candidate, |xs| + 1) && SameView(xs, secret, random, candidate, random')
    ensures forall other: seq<seq<bv8>> ::
      (RandomFor(other, candidate, |xs| + 1) && SameView(xs, secret, random, candidate, other)) ==> other == random'
    decreases |secret|
  {
    hide Eval;
    random' := [];
    if secret != [] {
      var rest := CoalitionLearnsNothing(xs, secret[1..], random[1..], candidate[1..]);
      var ys := seq(|xs|, i requires 0 <= i < |xs| => ShareByte(secret, random, 0, xs[i]));
      var first := SecretByteOpen(xs, ys, candidate[0]);
      random' := [first] + rest;
      SameViewSplits(xs, secret, random, candidate, random', ys);
      forall other: seq<seq<bv8>> | RandomFor(other, candidate, |xs| + 1) && SameView(xs, secret, random, candidate, other)
        ensures other == random'
      {
        SameViewSplits(xs, secret, random, candidate, other, ys);
        assert other == [other[0]] + other[1..];
      }
    }
  }

  lemma SameViewSplits(xs: seq<bv8>, s: seq<bv8>, r: seq<seq<bv8>>, s': seq<bv8>, r': seq<seq<bv8>>, ys: seq<bv8>)
    requires |s| == |r| == |s'| == |r'| && s != [] && |ys| == |xs|
    requires forall i :: 0 <= i < |xs| ==> ys[i] == ShareByte(s, r, 0, xs[i])
    ensures SameView(xs, s, r, s', r') <==>
      Explains(xs, ys, s'[0], r'[0]) && SameView(xs, s[1..], r[1..], s'[1..], r'[1..])
  {
    hide Eval;
    if Explains(xs, ys, s'[0], r'[0]) && SameView(xs, s[1..], r[1..], s'[1..], r'[1..]) {
      forall i, o | 0 <= i < |xs| && 0 <= o < |s|
        ensures ShareByte(s, r, o, xs[i]) == ShareByte(s', r', o, xs[i])
      {
        if o > 0 {
          assert ShareByte(s[1..], r[1..], o - 1, xs[i]) == ShareByte(s'[1..], r'[1..], o - 1, xs[i]);
        }
      }
    }
    if SameView(xs, s, r, s', r') {
      forall i | 0 <= i < |xs| ensures Eval(F, [s'[0]] + r'[0], xs[i]) == ys[i] {
        assert ShareByte(s, r, 0, xs[i]) == ShareByte(s', r', 0, xs[i]);
      }
      forall i, o | 0 <= i < |xs| && 0 <= o < |s[1..]|
        ensures ShareByte(s[1..], r[1..], o, xs[i]) == ShareByte(s'[1..], r'[1..], o, xs[i])
      {
        assert ShareByte(s, r, o + 1, xs[i]) == ShareByte(s', r', o + 1, xs[i]);
      }
    }
  }

  // ----- the error bound is exact -----

  lemma {:induction false} SizeInRange(a: set<nat>, low: nat, high: nat)
    requires low <= high && forall x :: x in a ==> low <= x < high
    ensures |a| <= high - low
    decreases high
  {
    if low < high {
      SizeInRange(a - {high - 1}, low, high - 1);
    } else {
      assert a == {};
    }
  }

  /** The share of this split with the index of the given share. */
  function ShareFor(share: RawShare, secret: seq<bv8>, random: seq<seq<bv8>>): (r: RawShare)
    requires |secret| == |random|
    ensures IsShareOf(r, secret, random) && r.index == share.index
  {
    RawShare(share.index, seq(|secret|, o requires 0 <= o < |secret| => ShareByte(secret, random, o, share.index)))
  }

  lemma AnotherByte(b: bv8)
    ensures b ^ 1 != b
  {
  }

  /**
    * One alteration more can go unnoticed: among any shares of a split there are some, one more
    * than those beyond the threshold, whose values can be altered so that combine accepts and
    * returns a different secret.
    */
  lemma ErrorBoundIsExact(sent: seq<RawShare>, threshold: nat, secret: seq<bv8>, random: seq<seq<bv8>>)
    returns (received: seq<RawShare>, claimed: seq<bv8>)
    requires RandomFor(random, secret, threshold) && secret != [] && |sent| >= threshold && GoodIndexes(sent)
    requires forall k :: 0 <= k < |sent| ==> IsShareOf(sent[k], secret, random)
    ensures |received| == |sent| && forall k :: 0 <= k < |sent| ==>
      received[k].index == sent[k].index && |received[k].value| == |sent[k].value|
    ensures |Altered(sent, received)| == |sent| - threshold + 1
    ensures Recovers(received, threshold, claimed) && claimed != secret
  {
    hide Eval, Recovers;
    assert |random[0]| + 1 == threshold;
    var xs := Indexes(sent)[..threshold - 1];
    claimed := secret[0 := secret[0] ^ 1];
    AnotherByte(secret[0]);
    var random' := CoalitionLearnsNothing(xs, secret, random, claimed);
    received := seq(|sent|, k requires 0 <= k < |sent| => ShareFor(sent[k], claimed, random'));
    assert GoodIndexes(received) by { assert Indexes(received) == Indexes(sent); }
    Recovery(received, threshold, claimed, random');
    forall k | 0 <= k < threshold - 1 ensures received[k] == sent[k] {
      assert IsShareOf(sent[k], secret, random) && xs[k] == sent[k].index;
      assert received[k].value == sent[k].value;
    }
    var changed := Altered(sent, received);
    SizeInRange(changed, threshold - 1, |sent|);
    if |changed| == 0 {
      forall i | 0 <= i < |sent| ensures received[i] == sent[i] { assert i !in changed; }
      assert received == sent;
      Recovery(sent, threshold, secret, random);
      SecretIsUnique(sent, threshold, secret, claimed);
    } else if |changed| <= |sent| - threshold {
      ErrorsDetected(sent, received, threshold, secret, random, claimed);
    }
  }
}
