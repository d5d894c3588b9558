/** Offline verification of an audit file: verify_file_with_verifier in src/core/audit_chain.rs. */
module AuditVerifier {
  import opened Text
  import opened AuditRecord

  /** The state kept per chain, which is also the summary reported for it. */
  datatype Chain = Chain(chainId: string, records: u64, lastSequence: u64, headHash: string,
                         checkpoints: u64, lastCheckpointSequence: Option<u64>, lastCheckpointHead: Option<string>)

  datatype Replay = Replay(done: seq<Chain>, current: Option<Chain>)

  const EMPTY: Replay := Replay([], None)

  function SaturatingNext(n: u64): u64 { if n == U64_MAX then n else n + 1 }

  function GenesisChain(r: Record): Chain {
    Chain(r.body.chainId, 1, 0, r.eventHash, 0, None, None)
  }

  function Extended(c: Chain, r: Record): Option<Chain> {
    if r.body.chainId != c.chainId || r.body.sequence != SaturatingNext(c.lastSequence) || r.body.prevHash != c.headHash
    then None
    else Some(c.(records := SaturatingNext(c.records), lastSequence := r.body.sequence, headHash := r.eventHash))
  }

  function Checked(c: Chain, p: Payload): Option<Chain> {
    if p.chainId != c.chainId || p.lastSequence != c.lastSequence || p.headHash != c.headHash then None
    else Some(c.(checkpoints := SaturatingNext(c.checkpoints),
                 lastCheckpointSequence := Some(p.lastSequence), lastCheckpointHead := Some(p.headHash)))
  }

  function Finished(s: Replay): seq<Chain> {
    if s.current.Some? then s.done + [s.current.value] else s.done
  }

  /** One line; None is refusal of the whole file. */
  function ReplayLine(h: HashFn, s: Replay, line: Line): Option<Replay> {
    match line
    case Unreadable => None
    case RecordLine(r) =>
      if !RecordOk(h, r) then None
      else if IsGenesis(r) then
        if GenesisOk(r) then Some(Replay(Finished(s), Some(GenesisChain(r)))) else None
      else if s.current.None? then None
      else
        var c := Extended(s.current.value, r);
        if c.None? then None else Some(s.(current := c))
    case CheckpointLine(p, genuine) =>
      if s.current.None? || !genuine || !PayloadOk(p) then None
      else
        var c := Checked(s.current.value, p);
        if c.None? then None else Some(s.(current := c))
  }

  function ReplayAll(h: HashFn, s: Replay, lines: seq<Line>): Option<Replay> {
    if lines == [] then Some(s)
    else
      var before := ReplayAll(h, s, lines[..|lines| - 1]);
      if before.None? then None else ReplayLine(h, before.value, lines[|lines| - 1])
  }

  /** The summaries of an accepted file; a file without a chain is refused. */
  function Verdict(h: HashFn, lines: seq<Line>): Option<seq<Chain>> {
    var s := ReplayAll(h, EMPTY, lines);
    if s.None? || Finished(s.value) == [] then None else Some(Finished(s.value))
  }

  // ----- the verifier as it runs -----

  class VerifiedChain {
    var chainId: string
    var records: u64
    var lastSequence: u64
    var headHash: string
    var checkpoints: u64
    var lastCheckpointSequence: Option<u64>
    var lastCheckpointHead: Option<string>

    function View(): Chain
      reads this
    {
      Chain(chainId, records, lastSequence, headHash, checkpoints, lastCheckpointSequence, lastCheckpointHead)
    }

    constructor FromGenesis(r: Record)
      ensures View() == GenesisChain(r)
    {
      chainId := r.body.chainId;
      records := 1;
      lastSequence := 0;
      headHash := r.eventHash;
      checkpoints := 0;
      lastCheckpointSequence := None;
      lastCheckpointHead := None;
    }

    method Push(r: Record) returns (ok: bool)
      modifies this
      ensures var next := Extended(old(View()), r);
        ok == next.Some? && View() == if ok then next.value else old(View())
    {
      if r.body.chainId != chainId { return false; }
      if r.body.sequence != SaturatingNext(lastSequence) { return false; }
      if r.body.prevHash != headHash { return false; }
      records := SaturatingNext(records);
      lastSequence := r.body.sequence;
      headHash := r.eventHash;
      return true;
    }

    method Checkpoint(p: Payload) returns (ok: bool)
      modifies this
      ensures var next := Checked(old(View()), p);
        ok == next.Some? && View() == if ok then next.value else old(View())
    {
      if p.chainId != chainId { return false; }
      if p.lastSequence != lastSequence { return false; }
      if p.headHash != headHash { return false; }
      checkpoints := SaturatingNext(checkpoints);
      lastCheckpointSequence := Some(p.lastSequence);
      lastCheckpointHead := Some(p.headHash);
      return true;
    }
  }

  method VerifyFile(h: HashFn, lines: seq<Line>) returns (r: Option<seq<Chain>>)
    ensures r == Verdict(h, lines)
  {
    hide RecordOk, PayloadOk;
    var chains: seq<Chain> := [];
    var current: VerifiedChain? := null;
    for i := 0 to |lines|
      invariant current != null ==> fresh(current)
      invariant ReplayAll(h, EMPTY, lines[..i]) ==
        Some(Replay(chains, if current == null then None else Some(current.View())))
    {
      PrefixStep(h, EMPTY, lines, i);
      var line := lines[i];
      var accepted := false;
      if line.RecordLine? {
        var record := line.record;
        if RecordOk(h, record) && IsGenesis(record) {
          if GenesisOk(record) {
            if current != null { chains := chains + [current.View()]; }
            current := new VerifiedChain.FromGenesis(record);
            accepted := true;
          }
        } else if RecordOk(h, record) && current != null {
          accepted := current.Push(record);
        }
      } else if line.CheckpointLine? && current != null && line.genuine && PayloadOk(line.payload) {
        accepted := current.Checkpoint(line.payload);
      }
      if !accepted {
        RefusalStays(h, EMPTY, lines, i + 1);
        return None;
      }
    }
    assert lines[..|lines|] == lines;
    if current != null { chains := chains + [current.View()]; }
    if chains == [] { return None; }
    return Some(chains);
  }

  // ----- replaying in pieces -----

  lemma PrefixStep(h: HashFn, s: Replay, lines: seq<Line>, i: nat)
    requires i < |lines|
    ensures var before := ReplayAll(h, s, lines[..i]);
      ReplayAll(h, s, lines[..i + 1]) == if before.None? then None else ReplayLine(h, before.value, lines[i])
  {
    assert lines[..i + 1][..i] == lines[..i];
  }

  lemma {:induction false} RefusalStays(h: HashFn, s: Replay, lines: seq<Line>, i: nat)
    requires i <= |lines| && ReplayAll(h, s, lines[..i]).None?
    ensures ReplayAll(h, s, lines).None?
    decreases |lines|
  {
    if i < |lines| {
      var front := lines[..|lines| - 1];
      assert front[..i] == lines[..i];
      RefusalStays(h, s, front, i);
    } else {
      assert lines[..i] == lines;
    }
  }

  lemma {:induction false} ReplayAppend(h: HashFn, s: Replay, a: seq<Line>, b: seq<Line>)
    ensures var mid := ReplayAll(h, s, a);
      ReplayAll(h, s, a + b) == if mid.None? then None else ReplayAll(h, mid.value, b)
  {
    if b == [] {
      assert a + b == a;
    } else {
      var front, last := b[..|b| - 1], b[|b| - 1];
      ReplayAppend(h, s, a, front);
      assert (a + b)[..|a + b| - 1] == a + front;
    }
  }

  // ----- what an accepted file holds -----

  /** The records of each chain, in file order. */
  function ChainsOf(lines: seq<Line>): seq<seq<Record>> {
    if lines == [] then []
    else
      var before := ChainsOf(lines[..|lines| - 1]);
      match lines[|lines| - 1]
      case RecordLine(r) =>
        if IsGenesis(r) then before + [[r]]
        else if before == [] then before
        else before[|before| - 1 := before[|before| - 1] + [r]]
      case _ => before
  }

  /** A hash chain from its genesis record to the head. */
  predicate Linked(h: HashFn, rs: seq<Record>) {
    && rs != [] && IsGenesis(rs[0]) && GenesisOk(rs[0])
    && (forall i :: 0 <= i < |rs| ==> RecordOk(h, rs[i]))
    && (forall i :: 1 <= i < |rs| ==> Follows(rs[i - 1], rs[i]))
  }

  predicate Follows(before: Record, r: Record) {
    && !IsGenesis(r)
    && r.body.chainId == before.body.chainId
    && r.body.prevHash == before.eventHash
    && r.body.sequence == SaturatingNext(before.body.sequence)
  }

  function Saturated(n: nat): u64 { if n <= U64_MAX then n else U64_MAX }

  predicate Summarises(h: HashFn, rs: seq<Record>, c: Chain) {
    && Linked(h, rs)
    && c.chainId == rs[0].body.chainId == rs[|rs| - 1].body.chainId
    && c.records == Saturated(|rs|)
    && c.lastSequence == rs[|rs| - 1].body.sequence
    && c.headHash == rs[|rs| - 1].eventHash
  }

  lemma {:induction false} AcceptedChains(h: HashFn, lines: seq<Line>)
    requires ReplayAll(h, EMPTY, lines).Some?
    ensures var cs := Finished(ReplayAll(h, EMPTY, lines).value);
      |ChainsOf(lines)| == |cs| && forall k :: 0 <= k < |cs| ==> Summarises(h, ChainsOf(lines)[k], cs[k])
    ensures ReplayAll(h, EMPTY, lines).value.current.None? ==> ChainsOf(lines) == []
  {
    hide RecordOk, PayloadOk, Summarises, Checked, Extended, IsGenesis, GenesisOk;
    if lines != [] {
      var front, last := lines[..|lines| - 1], lines[|lines| - 1];
      AcceptedChains(h, front);
      var s := ReplayAll(h, EMPTY, front).value;
      var s' := ReplayAll(h, EMPTY, lines).value;
      var chains, chains' := ChainsOf(front), ChainsOf(lines);
      var n := |chains| - 1;
      if last.RecordLine? && !IsGenesis(last.record) {
        ExtendSummary(h, chains[n], s.current.value, last.record);
      } else if last.RecordLine? {
        GenesisSummary(h, last.record);
      } else {
        CheckedSummary(h, chains[n], s.current.value, last.payload);
      }
      forall k | 0 <= k < |chains'| ensures Summarises(h, chains'[k], Finished(s')[k]) {
        if k < n { assert Summarises(h, chains[k], Finished(s)[k]); }
        if k == n { assert Summarises(h, chains[k], Finished(s)[k]); }
      }
    }
  }

  lemma GenesisSummary(h: HashFn, r: Record)
    requires RecordOk(h, r) && IsGenesis(r) && GenesisOk(r)
    ensures Summarises(h, [r], GenesisChain(r))
  {
    hide RecordOk;
  }

  lemma CheckedSummary(h: HashFn, rs: seq<Record>, c: Chain, p: Payload)
    requires Summarises(h, rs, c) && Checked(c, p).Some?
    ensures Summarises(h, rs, Checked(c, p).value)
  {
    hide RecordOk;
  }

  lemma ExtendSummary(h: HashFn, rs: seq<Record>, c: Chain, r: Record)
    requires Summarises(h, rs, c) && RecordOk(h, r) && !IsGenesis(r) && Extended(c, r).Some?
    ensures Summarises(h, rs + [r], Extended(c, r).value)
  {
    hide RecordOk;
    var rs' := rs + [r];
    forall i | 1 <= i < |rs'| ensures Follows(rs'[i - 1], rs'[i]) {
      if i < |rs| { assert Follows(rs[i - 1], rs[i]); }
    }
  }

  // ----- tamper evidence -----

  /** A record of one chain and a record of the other that differ and have one hash. */
  predicate Collide(h: HashFn, a: seq<Record>, b: seq<Record>) {
    exists i, j :: 0 <= i < |a| && 0 <= j < |b| && a[i].body != b[j].body && h(a[i].body) == h(b[j].body)
  }

  lemma HashMatches(h: HashFn, r: Record)
    requires RecordOk(h, r)
    ensures h(r.body) == r.eventHash
  {
  }

  /** Only the first record of a chain is a genesis; any other leads back to a shorter chain. */
  lemma LinkedLast(h: HashFn, rs: seq<Record>)
    requires Linked(h, rs)
    ensures rs != [] && h(rs[|rs| - 1].body) == rs[|rs| - 1].eventHash
    ensures |rs| == 1 <==> IsGenesis(rs[|rs| - 1])
    ensures |rs| > 1 ==> Linked(h, rs[..|rs| - 1]) && rs[|rs| - 2].eventHash == rs[|rs| - 1].body.prevHash
  {
    hide RecordOk;
    HashMatches(h, rs[|rs| - 1]);
    if |rs| > 1 {
      assert Follows(rs[|rs| - 2], rs[|rs| - 1]);
      LinkedPrefix(h, rs, |rs| - 1);
    }
  }

  lemma LastCollide(h: HashFn, a: seq<Record>, b: seq<Record>)
    requires a != [] && b != []
    requires a[|a| - 1].body != b[|b| - 1].body && h(a[|a| - 1].body) == h(b[|b| - 1].body)
    ensures Collide(h, a, b)
  {
  }

  lemma LongerCollide(h: HashFn, c: seq<Record>, d: seq<Record>, a: seq<Record>, b: seq<Record>)
    requires Collide(h, c, d) && c <= a && d <= b
    ensures Collide(h, a, b)
  {
    var i, j :| 0 <= i < |c| && 0 <= j < |d| && c[i].body != d[j].body && h(c[i].body) == h(d[j].body);
    assert a[i] == c[i] && b[j] == d[j];
  }

  /** Two hash chains with the same head are the same chain, or a record of one collides with a record of the other. */
  lemma {:induction false} SameHeadSameChain(h: HashFn, a: seq<Record>, b: seq<Record>)
    requires Linked(h, a) && Linked(h, b) && a[|a| - 1].eventHash == b[|b| - 1].eventHash
    ensures a == b || Collide(h, a, b)
    decreases |a|
  {
    hide Linked, IsGenesis, Collide;
    LinkedLast(h, a);
    LinkedLast(h, b);
    var x, y := a[|a| - 1], b[|b| - 1];
    if x.body != y.body {
      LastCollide(h, a, b);
    } else {
      if |a| > 1 {
        var c, d := a[..|a| - 1], b[..|b| - 1];
        SameHeadSameChain(h, c, d);
        if Collide(h, c, d) { LongerCollide(h, c, d, a, b); }
      }
      assert a == a[..|a| - 1] + [x] && b == b[..|b| - 1] + [y];
    }
  }

  lemma LinkedPrefix(h: HashFn, rs: seq<Record>, n: nat)
    requires Linked(h, rs) && 0 < n <= |rs|
    ensures Linked(h, rs[..n])
  {
    hide RecordOk;
    var p := rs[..n];
    forall i | 1 <= i < n ensures Follows(p[i - 1], p[i]) { assert Follows(rs[i - 1], rs[i]); }
  }

  lemma VerdictSummarises(h: HashFn, f: seq<Line>, k: nat)
    requires Verdict(h, f).Some? && k < |Verdict(h, f).value|
    ensures |ChainsOf(f)| == |Verdict(h, f).value| && Summarises(h, ChainsOf(f)[k], Verdict(h, f).value[k])
  {
    hide RecordOk, Summarises;
    AcceptedChains(h, f);
  }

  /** Chains of two accepted files that report the same head hash hold the same records, or records of theirs collide. */
  lemma HeadPinsChain(h: HashFn, f: seq<Line>, g: seq<Line>, k: nat, l: nat)
    requires Verdict(h, f).Some? && Verdict(h, g).Some?
    requires k < |Verdict(h, f).value| && l < |Verdict(h, g).value|
    requires Verdict(h, f).value[k].headHash == Verdict(h, g).value[l].headHash
    ensures |ChainsOf(f)| == |Verdict(h, f).value| && |ChainsOf(g)| == |Verdict(h, g).value|
    ensures ChainsOf(f)[k] == ChainsOf(g)[l] || Collide(h, ChainsOf(f)[k], ChainsOf(g)[l])
  {
    hide RecordOk, Verdict, ChainsOf;
    VerdictSummarises(h, f, k);
    VerdictSummarises(h, g, l);
    SameHeadSameChain(h, ChainsOf(f)[k], ChainsOf(g)[l]);
  }

  /** The records of the chain that is open after these lines. */
  function OpenChain(lines: seq<Line>): seq<Record> {
    if ChainsOf(lines) == [] then [] else ChainsOf(lines)[|ChainsOf(lines)| - 1]
  }

  /**
    * A checkpoint fixes its chain: in any two accepted files that carry checkpoints of the same
    * head, the records from the genesis of its chain up to them are identical, one by one, unless
    * records of the two chains collide.
    */
  lemma CheckpointPinsHistory(h: HashFn, f: seq<Line>, g: seq<Line>, i: nat, j: nat)
    requires Verdict(h, f).Some? && Verdict(h, g).Some?
    requires i < |f| && j < |g| && f[i].CheckpointLine? && g[j].CheckpointLine?
    requires f[i].payload.headHash == g[j].payload.headHash
    ensures OpenChain(f[..i]) == OpenChain(g[..j]) || Collide(h, OpenChain(f[..i]), OpenChain(g[..j]))
    ensures OpenChain(f[..i]) != [] && OpenChain(f[..i])[|OpenChain(f[..i])| - 1].eventHash == f[i].payload.headHash
  {
    CheckpointMatchesHead(h, f, i);
    CheckpointMatchesHead(h, g, j);
    SameHeadSameChain(h, OpenChain(f[..i]), OpenChain(g[..j]));
  }

  /**
    * Tampering within a chain is seen. Let an accepted file carry a checkpoint, and let another
    * file carry the same checkpoint in a chain that is not the same up to there: a record of the
    * chain the checkpoint belongs to was edited, dropped, inserted or moved. Unless a record of
    * the one chain collides with a record of the other, verification of the other file fails.
    */
  lemma TamperingIsSeen(h: HashFn, f: seq<Line>, g: seq<Line>, i: nat, j: nat)
    requires Verdict(h, f).Some? && i < |f| && j < |g| && f[i].CheckpointLine? && g[j] == f[i]
    requires OpenChain(g[..j]) != OpenChain(f[..i]) && !Collide(h, OpenChain(f[..i]), OpenChain(g[..j]))
    ensures Verdict(h, g).None?
  {
    hide Verdict, OpenChain, Collide;
    if Verdict(h, g).Some? { CheckpointPinsHistory(h, f, g, i, j); }
  }

  lemma CheckpointMatchesHead(h: HashFn, f: seq<Line>, i: nat)
    requires Verdict(h, f).Some? && i < |f| && f[i].CheckpointLine?
    ensures var rs := OpenChain(f[..i]);
      Linked(h, rs) && rs[|rs| - 1].eventHash == f[i].payload.headHash && rs[|rs| - 1].body.sequence == f[i].payload.lastSequence
  {
    hide RecordOk, PayloadOk, ReplayAll, ChainsOf;
    if ReplayAll(h, EMPTY, f[..i + 1]).None? { RefusalStays(h, EMPTY, f, i + 1); }
    PrefixStep(h, EMPTY, f, i);
    AcceptedChains(h, f[..i]);
    var s := ReplayAll(h, EMPTY, f[..i]).value;
    var cs := Finished(s);
    assert Summarises(h, ChainsOf(f[..i])[|cs| - 1], cs[|cs| - 1]);
  }
}
