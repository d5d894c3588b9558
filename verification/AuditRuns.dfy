/** What a power failure leaves of a run, and what an audit file of several runs cannot show. */
module AuditRuns {
  import opened Text
  import opened AuditRecord
  import opened AuditWriter
  import opened AuditSystem
  import opened AuditAccounting
  import opened AuditProvenance
  import opened AuditShutdown
  import opened AuditVerifier
  import opened AuditAgreement

  // ----- a power failure -----

  /** One step adds at most one line, forgets nothing that is synced, and a line that is complete was not torn. */
  predicate GrowsByALine(w: Writer, w': Writer) {
    && w.lines <= w'.lines && |w'.lines| <= |w.lines| + 1 && w.durable <= w'.durable
    && (w'.lines != w.lines ==> w'.residue == Clean)
  }

  lemma EventGrows(h: HashFn, w: Writer, e: Event, env: RecordEnv)
    requires w.residue == Clean
    ensures GrowsByALine(w, EventWritten(h, w, e, env).w)
  {
    hide SerializedLen, NextRecord;
  }

  lemma CheckpointGrows(w: Writer, env: EndEnv)
    requires w.residue == Clean
    ensures GrowsByALine(w, CheckpointWritten(w, env).w)
  {
    hide PayloadFor;
  }

  lemma ProcessGrows(h: HashFn, l: Loop, position: nat, cmd: Command, env: RecordEnv)
    requires WriterSound(l.w)
    ensures GrowsByALine(l.w, Process(h, l, position, cmd, env).w)
  {
    hide EventWritten;
    if cmd.RecordCmd? && !l.w.poisoned { EventGrows(h, l.w, cmd.event, env); }
  }

  lemma FinishGrows(l: Loop, ec: u64, env: EndEnv)
    requires WriterSound(l.w)
    ensures GrowsByALine(l.w, Finish(l, ec, env).w)
  {
    hide CheckpointWritten, CheckpointDue, Positions, Cells;
    FinishEffect(l, ec, env);
    if !l.w.poisoned { CheckpointGrows(l.w, env); }
  }

  lemma StepGrows(h: HashFn, ec: u64, s: System, act: Action)
    requires Inv(s)
    ensures GrowsByALine(s.loop.w, Step(h, ec, s, act).loop.w)
  {
    hide Process, Finish, Placement, BarrierPlaces, ConfirmedDurable, Capped;
    match act
    case Take(env) => if CanTake(s) { ProcessGrows(h, s.loop, s.taken, s.log[s.taken], env); }
    case End(env) => FinishGrows(s.loop, ec, env);
    case _ => CallsAreQuiet(h, ec, s, act);
  }

  lemma {:induction false} RunGrows(h: HashFn, ec: u64, s: System, acts: seq<Action>)
    requires Inv(s) && s.taken <= |s.log|
    ensures var s' := Run(h, ec, s, acts); s.loop.w.lines <= s'.loop.w.lines && s.loop.w.durable <= s'.loop.w.durable
    decreases |acts|
  {
    hide Inv, Step;
    if acts != [] {
      StepGrows(h, ec, s, acts[0]);
      StepKeepsInv(h, ec, s, acts[0]);
      RunGrows(h, ec, Step(h, ec, s, acts[0]), acts[1..]);
    }
  }

  /** Every number of lines on the way was the whole file at some moment of the run. */
  lemma {:induction false} StopsAt(h: HashFn, ec: u64, s: System, acts: seq<Action>, k: nat) returns (n: nat)
    requires Inv(s) && s.taken <= |s.log| && |s.loop.w.lines| < k <= |Run(h, ec, s, acts).loop.w.lines|
    ensures n <= |acts|
    ensures var s' := Run(h, ec, s, acts[..n]); s'.loop.w.lines == Run(h, ec, s, acts).loop.w.lines[..k] && s'.loop.w.residue == Clean
    decreases |acts|
  {
    hide Inv, Step;
    var s1 := Step(h, ec, s, acts[0]);
    StepGrows(h, ec, s, acts[0]);
    StepKeepsInv(h, ec, s, acts[0]);
    if |s1.loop.w.lines| == k {
      n := 1;
      RunGrows(h, ec, s1, acts[1..]);
      assert acts[..1][1..] == [];
      assert Run(h, ec, s, acts[..1]) == Run(h, ec, s1, []) == s1;
    } else {
      var m := StopsAt(h, ec, s1, acts[1..], k);
      n := m + 1;
      assert acts[..n][1..] == acts[1..][..m];
    }
  }

  lemma StartFile(h: HashFn, chainId: string, clock: u64)
    requires HashesAreHex(h) && ChainIdOk(chainId)
    ensures var s := Initial(h, chainId, clock);
      Inv(s) && s.taken <= |s.log| && |s.loop.w.lines| == s.loop.w.durable == 1 && s.loop.w.residue == Clean
  {
    hide Inv, Started;
    StartKeepsInv(h, chainId, clock);
    StartedFields(h, chainId, clock);
    StartedDurable(h, chainId, clock);
  }

  lemma StartedDurable(h: HashFn, chainId: string, clock: u64)
    ensures var w := Started(h, chainId, clock).w; w.durable == |w.lines|
  {
    hide EventWritten;
  }

  /**
    * A power failure keeps the synced lines and perhaps some after them. Whatever it keeps is the
    * whole file that the same run had at an earlier moment, so that every result about files of
    * runs is one about files after power failures.
    */
  lemma PowerFailureIsAnEarlierStop(h: HashFn, ec: u64, chainId: string, clock: u64, acts: seq<Action>, k: nat) returns (n: nat)
    requires HashesAreHex(h) && ChainIdOk(chainId)
    requires var w := Run(h, ec, Initial(h, chainId, clock), acts).loop.w; w.durable <= k <= |w.lines|
    ensures n <= |acts|
    ensures var w, w' := Run(h, ec, Initial(h, chainId, clock), acts).loop.w, Run(h, ec, Initial(h, chainId, clock), acts[..n]).loop.w;
      k >= 1 && w'.residue == Clean && w'.lines == FileLines(w') == w.lines[..k]
  {
    hide Inv, Step, Initial;
    var s0 := Initial(h, chainId, clock);
    StartFile(h, chainId, clock);
    RunGrows(h, ec, s0, acts);
    if k == 1 {
      n := 0;
      assert Run(h, ec, s0, acts[..0]) == s0;
    } else {
      n := StopsAt(h, ec, s0, acts, k);
    }
  }

  /** Confirm p has returned with an empty cell, and q is a record accepted before it with that cell. */
  predicate ConfirmedBy(s: System, p: nat, q: nat) {
    && p in s.loop.returned && p < |s.log| && s.log[p].BarrierCmd? && s.log[p].cell !in s.loop.failed
    && q < p && s.log[q].RecordCmd? && s.log[q].cell == s.log[p].cell
  }

  /** Command q is a record and has its own line among the first k. */
  ghost predicate OnLine(s: System, k: nat, q: nat)
    requires q < |s.log| && k <= |s.loop.w.lines|
  {
    && s.log[q].RecordCmd? && q in s.loop.placed && s.loop.placed[q] < k
    && var line := s.loop.w.lines[..k][s.loop.placed[q]];
    && line.RecordLine? && Records(line.record, s.log[q].event)
    && forall q' :: q' in s.loop.placed && q' != q ==> s.loop.placed[q'] != s.loop.placed[q]
  }

  /**
    * After a power failure: whatever lines beyond the synced ones survive, every record before a
    * confirm that returned with an empty cell is there, on a line of its own, and the verifier
    * accepts what is left exactly when it can take every event on it.
    */
  lemma ConfirmedSurvivesPowerFailure(h: HashFn, ec: u64, chainId: string, clock: u64, acts: seq<Action>, k: nat)
    requires HashesAreHex(h) && ChainIdOk(chainId)
    requires var w := Run(h, ec, Initial(h, chainId, clock), acts).loop.w; w.durable <= k <= |w.lines|
    ensures var s := Run(h, ec, Initial(h, chainId, clock), acts);
      && s.served <= |s.log|
      && (Verdict(h, s.loop.w.lines[..k]).Some? <==> GoodUpTo(s, k))
      && (forall p, q :: ConfirmedBy(s, p, q) ==> OnLine(s, k, q))
  {
    hide Run, Initial, Verdict, GoodUpTo, Records;
    StartKeepsInv(h, chainId, clock);
    RunKeepsInv(h, ec, Initial(h, chainId, clock), acts);
    var s := Run(h, ec, Initial(h, chainId, clock), acts);
    PrefixVerdict(h, ec, chainId, clock, acts, k);
    forall p: nat, q: nat | ConfirmedBy(s, p, q) ensures OnLine(s, k, q) {
      ConfirmMeansDurable(h, ec, chainId, clock, acts, p, q);
    }
  }

  lemma PrefixVerdict(h: HashFn, ec: u64, chainId: string, clock: u64, acts: seq<Action>, k: nat)
    requires HashesAreHex(h) && ChainIdOk(chainId)
    requires var w := Run(h, ec, Initial(h, chainId, clock), acts).loop.w; w.durable <= k <= |w.lines|
    ensures var s := Run(h, ec, Initial(h, chainId, clock), acts);
      s.served <= |s.log| && (Verdict(h, s.loop.w.lines[..k]).Some? <==> GoodUpTo(s, k))
  {
    hide Run, Started, Verdict, GoodUpTo, GoodAfterGenesis, FromRun, Sourced, Reported, Inv;
    var n := PowerFailureIsAnEarlierStop(h, ec, chainId, clock, acts, k);
    var s, s' := Run(h, ec, Initial(h, chainId, clock), acts), Run(h, ec, Initial(h, chainId, clock), acts[..n]);
    assert Reached(h, s) && Reached(h, s');
    ReachedFacts(h, s');
    OneVerdict(h, s'.loop.w);
    GoodIsAboutEvents(h, s, k);
    assert FileLines(s.loop.w)[..k] == s.loop.w.lines[..k];
  }

  lemma OneVerdict(h: HashFn, w: Writer)
    requires HashesAreHex(h) && FromRun(h, w)
    ensures Verdict(h, FileLines(w)).Some? <==> ClearFile(w)
  {
    hide FromRun, ReplayAll, Reported, ClearFile, FileLines;
    OneFile(h, EMPTY, w);
  }

  // ----- whole runs -----

  /**
    * What the verifier cannot see: take an accepted file of any runs. With runs left out, repeated
    * or put into another order the file is accepted as well.
    */
  lemma RunsCanBeMoved(h: HashFn, ss: seq<System>, ss': seq<System>)
    requires HashesAreHex(h) && ss != [] && forall i :: 0 <= i < |ss| ==> Reached(h, ss[i])
    requires ss' != [] && forall i :: 0 <= i < |ss'| ==> ss'[i] in ss
    requires Verdict(h, FileAfter(Writers(ss))).Some?
    ensures Verdict(h, FileAfter(Writers(ss'))).Some?
  {
    hide Reached, Verdict, FileAfter, Clear, Reported;
    WriterVerifierAgree(h, ss);
    WriterVerifierAgree(h, ss');
  }

  // ----- such a file -----

  const RECORD_WORKS: RecordEnv := RecordEnv(Some(0), Works)
  const END_WORKS: EndEnv := EndEnv(Some(0), true, Works, true)

  /** One record under a policy of a checkpoint after every record. */
  function OneRecord(e: Event): seq<Action> { [CallRecord(e, 0, true), Take(RECORD_WORKS), Seal, End(END_WORKS)] }

  lemma RecordWorks(h: HashFn, w: Writer, e: Event)
    requires HashesAreHex(h) && ChainIdOk(w.chain.chainId) && HashHex(w.chain.headHash)
    requires w.chain.nextSequence == 1 && w.chain.eventsSince == 0
    ensures var r := EventWritten(h, w, e, RECORD_WORKS);
      && r.ok && |r.w.lines| == |w.lines| + 1 && r.w.chain.eventsSince == 1
      && r.w.poisoned == w.poisoned && r.w.residue == w.residue
  {
    hide SerializedLen, BodyFor;
    WriterRecordsFit(h, w.chain.chainId, 1, 0, e, w.chain.headHash);
  }

  lemma EndWorks(l: Loop)
    requires !l.w.poisoned && l.w.residue == Clean && l.w.chain.eventsSince == 1
    ensures var w := Finish(l, 1, END_WORKS).w; var n := |l.w.lines|;
      !w.poisoned && w.residue == Clean && |w.lines| == n + 1 && w.lines[n].CheckpointLine? && w.lines[n].genuine
  {
    hide PayloadFor, Positions, Cells;
  }

  lemma OneRecordSteps(h: HashFn, s: System, e: Event)
    requires HashesAreHex(h) && ChainIdOk(s.loop.w.chain.chainId) && HashHex(s.loop.w.chain.headHash)
    requires s == System([], 0, 0, s.loop, false, false) && s.loop.batch.None? && !s.loop.stopped
    requires !s.loop.w.poisoned && s.loop.w.residue == Clean && |s.loop.w.lines| == 1
    requires s.loop.w.chain.nextSequence == 1 && s.loop.w.chain.eventsSince == 0
    ensures var s' := Run(h, 1, s, OneRecord(e));
      && !s'.loop.w.poisoned && s'.loop.w.residue == Clean && s'.log == [RecordCmd(e, 0, true)] && s'.served == 1
      && |s'.loop.w.lines| == 3 && s'.loop.w.lines[2].CheckpointLine? && s'.loop.w.lines[2].genuine
  {
    hide EventWritten, Finish;
    var s1 := Step(h, 1, s, CallRecord(e, 0, true));
    var s2 := Step(h, 1, s1, Take(RECORD_WORKS));
    var s3 := Step(h, 1, s2, Seal);
    var s4 := Step(h, 1, s3, End(END_WORKS));
    RecordWorks(h, s.loop.w, e);
    EndWorks(s3.loop);
    assert Run(h, 1, s, OneRecord(e)) == s4 by {
      hide Step;
      assert OneRecord(e)[1..] == [Take(RECORD_WORKS), Seal, End(END_WORKS)];
      ThreeSteps(h, 1, s1, Take(RECORD_WORKS), Seal, End(END_WORKS));
    }
  }

  lemma OneRecordRun(h: HashFn, chainId: string, e: Event)
    requires HashesAreHex(h) && ChainIdOk(chainId)
    ensures var s := Run(h, 1, Initial(h, chainId, 0), OneRecord(e));
      && !s.loop.w.poisoned && s.loop.w.residue == Clean && s.log == [RecordCmd(e, 0, true)] && s.served == 1
      && |s.loop.w.lines| == 3 && s.loop.w.lines[2].CheckpointLine? && s.loop.w.lines[2].genuine
  {
    hide Started, OneRecord, Run, HashHex, NextRecord;
    StartedFields(h, chainId, 0);
    GenesisFields(h, chainId, 0);
    StartWriter(h, chainId, 0);
    OneRecordSteps(h, Initial(h, chainId, 0), e);
  }

  /**
    * The smallest input: two runs of one record and one checkpoint each. Without the first run the
    * file is still accepted, and still ends in the same genuine checkpoint.
    */
  lemma FirstRunForgotten(h: HashFn, first: string, second: string, e: Event)
    requires HashesAreHex(h) && ChainIdOk(first) && ChainIdOk(second) && GoodEvent(e)
    ensures var f := FileLines(Run(h, 1, Initial(h, first, 0), OneRecord(e)).loop.w);
      var g := FileLines(Run(h, 1, Initial(h, second, 0), OneRecord(e)).loop.w);
      && |f| == |g| == 3 && (f + g)[5] == g[2] && g[2].CheckpointLine? && g[2].genuine
      && Verdict(h, f + g).Some? && Verdict(h, g).Some?
  {
    hide Run, Started, Verdict, GoodEvent, OneRecord;
    OneRecordRun(h, first, e);
    OneRecordRun(h, second, e);
    var s, t := Run(h, 1, Initial(h, first, 0), OneRecord(e)), Run(h, 1, Initial(h, second, 0), OneRecord(e));
    assert Reached(h, s) && Reached(h, t);
    var ss := [s, t];
    HealthyRunsAgree(h, ss);
    RunsCanBeMoved(h, ss, [t]);
    assert FileAfter(Writers([t])) == FileLines(t.loop.w);
    assert Writers(ss)[1..] == Writers([t]);
    assert FileAfter(Writers(ss)) == FileLines(s.loop.w) + FileLines(t.loop.w);
  }
}
