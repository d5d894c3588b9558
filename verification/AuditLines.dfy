/**
  * What an accepted audit file looks like, line by line, and what the verifier reports of it,
  * stated on the lines alone and not in terms of the verifier's state.
  */
module AuditLines {
  import opened Text
  import opened AuditRecord
  import opened AuditVerifier

  // ----- one line -----

  predicate Plain(s: string) { forall i :: 0 <= i < |s| ==> !IsControl(s[i]) }

  /** A record on its own: known version and hash, readable fields, and the hash of its own body. */
  predicate RecordFits(h: HashFn, r: Record) {
    var b := r.body;
    && b.version == "audit-chain-v1" && b.hashAlg == "BLAKE2b(256)"
    && |b.chainId| == 32 && IsHex(b.chainId) && ParsesAsU64(b.timestamp)
    && b.event != "" && b.outcome != "" && |b.reason| <= 256
    && Plain(b.event) && Plain(b.outcome) && Plain(b.actor) && Plain(b.actorFp) && Plain(b.kid) && Plain(b.remoteKid)
    && Plain(b.action) && Plain(b.reason) && Plain(b.requestId)
    && |b.prevHash| == 64 && IsHex(b.prevHash) && |r.eventHash| == 64 && IsHex(r.eventHash)
    && SerializedLen(r) <= 16384 && r.eventHash == h(b)
  }

  /** A checkpoint on its own: its signature verifies, and what was signed is a checkpoint. */
  predicate CheckpointFits(p: Payload, genuine: bool) {
    && genuine
    && p.version == "v1" && p.tokenType == "vectis-audit-checkpoint" && p.kid == "init-keys" && p.hashAlg == "BLAKE2b(256)"
    && |p.chainId| == 32 && IsHex(p.chainId) && |p.headHash| == 64 && IsHex(p.headHash) && ParsesAsU64(p.createdAt)
  }

  predicate StartsChain(r: Record) { r.body.event == "audit.chain.started" }

  predicate ChainStart(r: Record) {
    r.body.sequence == 0 && r.body.prevHash == GENESIS_HASH && r.body.outcome == "success" && r.body.action == "chain-start"
  }

  predicate Continues(last: Record, r: Record) {
    && r.body.chainId == last.body.chainId && r.body.prevHash == last.eventHash
    && r.body.sequence == (if last.body.sequence == U64_MAX then U64_MAX else last.body.sequence + 1)
  }

  predicate Covers(p: Payload, last: Record) {
    p.chainId == last.body.chainId && p.lastSequence == last.body.sequence && p.headHash == last.eventHash
  }

  /** The last record among the lines. */
  function LastRecord(lines: seq<Line>): Option<Record> {
    if lines == [] then None
    else
      match lines[|lines| - 1]
      case RecordLine(r) => Some(r)
      case _ => LastRecord(lines[..|lines| - 1])
  }

  /** The line is in order after these. */
  predicate Fits(h: HashFn, before: seq<Line>, line: Line) {
    var last := LastRecord(before);
    match line
    case Unreadable => false
    case RecordLine(r) => RecordFits(h, r) && if StartsChain(r) then ChainStart(r) else last.Some? && Continues(last.value, r)
    case CheckpointLine(p, genuine) => CheckpointFits(p, genuine) && last.Some? && Covers(p, last.value)
  }

  predicate AllFit(h: HashFn, f: seq<Line>) { forall i :: 0 <= i < |f| ==> Fits(h, f[..i], f[i]) }

  lemma RecordFitsIsOk(h: HashFn, r: Record)
    ensures RecordFits(h, r) <==> RecordOk(h, r)
  {
    hide SerializedLen, ParsesAsU64, IsHex, IsControl;
    var b := r.body;
    var ts := TextFields(b);
    assert ts == [b.event, b.outcome, b.actor, b.actorFp, b.kid, b.remoteKid, b.action, b.reason, b.requestId];
    forall k | 0 <= k < 9 ensures HasControl(ts[k]) <==> !Plain(ts[k]) { }
    assert (forall k :: 0 <= k < 9 ==> !HasControl(ts[k])) <==>
      Plain(ts[0]) && Plain(ts[1]) && Plain(ts[2]) && Plain(ts[3]) && Plain(ts[4]) && Plain(ts[5]) && Plain(ts[6]) && Plain(ts[7]) && Plain(ts[8]);
  }

  // ----- the verifier's state after the lines -----

  /** The verifier's chain state is that of the last record. */
  predicate Tracks(s: Replay, last: Option<Record>) {
    && s.current.Some? == last.Some?
    && (last.Some? ==>
          var c, r := s.current.value, last.value;
          c.chainId == r.body.chainId && c.lastSequence == r.body.sequence && c.headHash == r.eventHash)
  }

  lemma LineIff(h: HashFn, s: Replay, before: seq<Line>, line: Line)
    requires Tracks(s, LastRecord(before))
    ensures var s' := ReplayLine(h, s, line);
      && (s'.Some? <==> Fits(h, before, line))
      && (s'.Some? ==> Tracks(s'.value, LastRecord(before + [line])))
  {
    hide RecordOk, RecordFits, ParsesAsU64, IsHex;
    assert (before + [line])[..|before|] == before;
    if line.RecordLine? { RecordFitsIsOk(h, line.record); }
  }

  lemma {:induction false} ReplayIff(h: HashFn, f: seq<Line>)
    ensures ReplayAll(h, EMPTY, f).Some? <==> AllFit(h, f)
    ensures ReplayAll(h, EMPTY, f).Some? ==> Tracks(ReplayAll(h, EMPTY, f).value, LastRecord(f))
  {
    hide Fits, ReplayLine, Tracks, LastRecord;
    if f == [] {
      NothingTracked();
    } else {
      var front, last := f[..|f| - 1], f[|f| - 1];
      ReplayIff(h, front);
      assert f == front + [last];
      forall i | 0 <= i < |front| ensures f[..i] == front[..i] && f[i] == front[i] { }
      assert AllFit(h, f) <==> AllFit(h, front) && Fits(h, front, last);
      if AllFit(h, front) { LineIff(h, ReplayAll(h, EMPTY, front).value, front, last); }
    }
  }

  lemma NothingTracked()
    ensures Tracks(EMPTY, LastRecord([]))
  {
  }

  // ----- acceptance -----

  /**
    * Exactly which files are accepted: those with at least one line in which every line is in
    * order. A record is well formed, hashes to its own event hash and starts a chain or continues
    * the last record; a checkpoint has a verifying signature and names the last record. Anything
    * else, one bad line anywhere, refuses the whole file.
    */
  lemma AcceptedIff(h: HashFn, f: seq<Line>)
    ensures Verdict(h, f).Some? <==> f != [] && AllFit(h, f)
  {
    hide AllFit, LastRecord, ReplayLine;
    ReplayIff(h, f);
    if f != [] && AllFit(h, f) { SomeRecord(h, f); }
  }

  lemma {:induction false} SomeRecord(h: HashFn, f: seq<Line>)
    requires f != [] && AllFit(h, f)
    ensures LastRecord(f).Some?
  {
    hide RecordFits;
    assert f[..0] == [];
    if !f[|f| - 1].RecordLine? { assert Fits(h, f[..|f| - 1], f[|f| - 1]); }
  }

  /** No checkpoint of an accepted file has a signature that does not verify, or signs anything but a checkpoint. */
  lemma CheckpointsAreSigned(h: HashFn, f: seq<Line>, i: nat)
    requires Verdict(h, f).Some? && i < |f| && f[i].CheckpointLine?
    ensures CheckpointFits(f[i].payload, f[i].genuine)
    ensures LastRecord(f[..i]).Some? && Covers(f[i].payload, LastRecord(f[..i]).value)
  {
    hide Verdict, LastRecord, CheckpointFits, Covers;
    AcceptedIff(h, f);
    assert Fits(h, f[..i], f[i]);
  }

  // ----- the summaries -----

  /** The checkpoints of each chain, in file order. */
  function CheckpointsOf(lines: seq<Line>): seq<seq<Payload>> {
    if lines == [] then []
    else
      var before := CheckpointsOf(lines[..|lines| - 1]);
      match lines[|lines| - 1]
      case RecordLine(r) => if IsGenesis(r) then before + [[]] else before
      case CheckpointLine(p, _) => if before == [] then before else before[|before| - 1 := before[|before| - 1] + [p]]
      case Unreadable => before
  }

  predicate CountsCheckpoints(ps: seq<Payload>, c: Chain) {
    && c.checkpoints == Saturated(|ps|)
    && c.lastCheckpointSequence == (if ps == [] then None else Some(ps[|ps| - 1].lastSequence))
    && c.lastCheckpointHead == (if ps == [] then None else Some(ps[|ps| - 1].headHash))
  }

  /** The summaries count the checkpoints of their own chains and name the last of them. */
  lemma {:induction false} CheckpointsCounted(h: HashFn, f: seq<Line>)
    requires ReplayAll(h, EMPTY, f).Some?
    ensures var cs := Finished(ReplayAll(h, EMPTY, f).value);
      |CheckpointsOf(f)| == |cs| && forall k :: 0 <= k < |cs| ==> CountsCheckpoints(CheckpointsOf(f)[k], cs[k])
  {
    hide RecordOk, PayloadOk, IsGenesis, GenesisOk;
    if f != [] {
      CheckpointsCounted(h, f[..|f| - 1]);
    }
  }

  /** Everything a summary says, for every chain of every accepted file. */
  lemma SummariesAreExact(h: HashFn, f: seq<Line>, k: nat)
    requires Verdict(h, f).Some? && k < |Verdict(h, f).value|
    ensures |ChainsOf(f)| == |CheckpointsOf(f)| == |Verdict(h, f).value|
    ensures var rs, ps, c := ChainsOf(f)[k], CheckpointsOf(f)[k], Verdict(h, f).value[k];
      rs != [] && c == Chain(rs[0].body.chainId, Saturated(|rs|), rs[|rs| - 1].body.sequence, rs[|rs| - 1].eventHash,
                             Saturated(|ps|),
                             if ps == [] then None else Some(ps[|ps| - 1].lastSequence),
                             if ps == [] then None else Some(ps[|ps| - 1].headHash))
  {
    hide RecordOk, ChainsOf, CheckpointsOf, ReplayAll;
    VerdictSummarises(h, f, k);
    CheckpointsCounted(h, f);
  }
}
