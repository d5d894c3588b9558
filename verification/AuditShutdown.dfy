/**
  * What a shutdown keeps and what it loses. The drain of a shutdown ends with a try_recv that finds
  * the queue empty; the checkpoint, the sync and the reply follow, and only then is the receiver
  * dropped. A command sent in between is accepted by the channel and never processed.
  */
module AuditShutdown {
  import opened Text
  import opened AuditRecord
  import opened AuditWriter
  import opened AuditSystem
  import opened AuditAccounting
  import opened AuditProvenance

  /** The writer has taken a shutdown and has looked into the queue for the last time. */
  predicate Winding(s: System) {
    s.loop.stopped || (s.sealed && OpenBatch(s.loop).shutdown.Some?)
  }

  /** The channel takes a command. */
  predicate Accepting(s: System)
    requires s.taken <= |s.log|
  {
    !s.closed && !Full(s)
  }

  /** Every record line after genesis carries the event of a served command other than q. */
  ghost predicate AllFromOthers(s: System, q: nat)
    requires s.served <= |s.log|
  {
    var lines := FileLines(s.loop.w);
    forall i :: 1 <= i < |lines| && lines[i].RecordLine? ==> exists q' :: q' != q && SourceOf(s, i, q')
  }

  lemma WindingStep(h: HashFn, ec: u64, s: System, act: Action)
    requires Inv(s)
    ensures var s' := Step(h, ec, s, act);
      && s.log <= s'.log && s.served <= s'.served
      && (Winding(s) ==> Winding(s') && s'.served == s.served)
      && (!Winding(s) && Winding(s') ==> s'.served == |s'.log|)
  {
    hide Process, Placement, BarrierPlaces, ConfirmedDurable, MaybeCheckpoint, MaybeSync;
    if act.Take? && CanTake(s) { ProcessEffect(h, s.loop, s.taken, s.log[s.taken], act.env); }
  }

  /** Winding down is final and serves nothing more. */
  lemma {:induction false} WindingStays(h: HashFn, ec: u64, s: System, acts: seq<Action>)
    requires Inv(s) && Winding(s)
    ensures var s' := Run(h, ec, s, acts); Winding(s') && s'.served == s.served && s.log <= s'.log
    decreases |acts|
  {
    hide Inv, Step, Winding;
    TakenBound(s);
    if acts != [] {
      WindingStep(h, ec, s, acts[0]);
      StepKeepsInv(h, ec, s, acts[0]);
      WindingStays(h, ec, Step(h, ec, s, acts[0]), acts[1..]);
    }
  }

  /** What is queued before the writer winds down has been served when it does. */
  lemma {:induction false} QueuedIsServed(h: HashFn, ec: u64, s: System, acts: seq<Action>, n: nat)
    requires Inv(s) && n < |s.log| && (Winding(s) ==> n < s.served)
    ensures var s' := Run(h, ec, s, acts); s.log <= s'.log && (Winding(s') ==> n < s'.served)
    decreases |acts|
  {
    hide Inv, Step, Winding;
    TakenBound(s);
    if acts != [] {
      WindingStep(h, ec, s, acts[0]);
      StepKeepsInv(h, ec, s, acts[0]);
      QueuedIsServed(h, ec, Step(h, ec, s, acts[0]), acts[1..], n);
    }
  }

  lemma CallQueues(h: HashFn, ec: u64, s: System, cmd: Command)
    requires Inv(s) && Accepting(s)
    ensures var s1 := Step(h, ec, s, CallFor(cmd));
      s1.log == s.log + [cmd] && s1.served == s.served && Winding(s1) == Winding(s)
  {
  }

  /**
    * Exactly which accepted commands a stopped writer has processed: those the channel accepted
    * before the writer, with a shutdown in hand, found the queue empty.
    */
  lemma AcceptedIsServedIff(h: HashFn, ec: u64, s: System, cmd: Command, after: seq<Action>)
    requires Inv(s) && Accepting(s)
    ensures var s' := Run(h, ec, Step(h, ec, s, CallFor(cmd)), after);
      && |s.log| < |s'.log| && s'.log[|s.log|] == cmd
      && (s'.loop.stopped ==> (|s.log| < s'.served <==> !Winding(s)))
  {
    hide Run, Step, Placement, BarrierPlaces, ConfirmedDurable;
    var s1 := Step(h, ec, s, CallFor(cmd));
    StepKeepsInv(h, ec, s, CallFor(cmd));
    CallQueues(h, ec, s, cmd);
    if Winding(s) { WindingStays(h, ec, s1, after); } else { QueuedIsServed(h, ec, s1, after, |s.log|); }
  }

  /**
    * When a shutdown succeeds, a record the channel accepted is on a synced line of its own exactly
    * when it was accepted before the drain ended. Otherwise every record line of the file was
    * written for another command, one that was served.
    */
  lemma RecordKeptIff(h: HashFn, ec: u64, chainId: string, clock: u64, before: seq<Action>,
                      e: Event, cell: nat, standalone: bool, after: seq<Action>, p: nat)
    requires HashesAreHex(h) && ChainIdOk(chainId)
    requires var s := Run(h, ec, Initial(h, chainId, clock), before); Accepting(s)
    requires var s := Run(h, ec, Initial(h, chainId, clock), before);
      var s' := Run(h, ec, Step(h, ec, s, CallRecord(e, cell, standalone)), after);
      p in s'.loop.results && s'.loop.results[p]
    ensures var s := Run(h, ec, Initial(h, chainId, clock), before);
      var s' := Run(h, ec, Step(h, ec, s, CallRecord(e, cell, standalone)), after);
      var q := |s.log|;
      && s'.served <= |s'.log|
      && (Winding(s) ==> q !in s'.loop.placed && AllFromOthers(s', q))
      && (!Winding(s) ==> q in s'.loop.placed && s'.loop.placed[q] < s'.loop.w.durable
                          && PlacedAt(s'.loop.w, s'.loop.placed[q], e))
  {
    hide Run, Initial, Step, Records, SourceOf, Accounts, GapInv, BarrierPlaces, ConfirmedDurable, Winding;
    var s0 := Initial(h, chainId, clock);
    StartAccounts(h, ec, chainId, clock);
    RunAccounts(h, ec, s0, before);
    EveryLineHasASource(h, ec, chainId, clock, before);
    var s := Run(h, ec, s0, before);
    var s1 := Step(h, ec, s, CallRecord(e, cell, standalone));
    StepAccounts(h, ec, s, CallRecord(e, cell, standalone));
    StepKeepsSourced(h, ec, s, CallRecord(e, cell, standalone));
    RunAccounts(h, ec, s1, after);
    RunKeepsSourced(h, ec, s1, after);
    AcceptedIsServedIff(h, ec, s, RecordCmd(e, cell, standalone), after);
    if Winding(s) { AllFromServed(Run(h, ec, s1, after), |s.log|); }
  }

  lemma AllFromServed(s: System, q: nat)
    requires s.served <= |s.log| && q >= s.served && Sourced(s)
    ensures AllFromOthers(s, q)
  {
    hide Records, FileLines;
    var lines := FileLines(s.loop.w);
    forall i | 1 <= i < |lines| && lines[i].RecordLine?
      ensures exists q' :: q' != q && SourceOf(s, i, q')
    {
      assert HasSource(s, i);
      var q' :| SourceOf(s, i, q');
      assert q' != q;
    }
  }

  // ----- the losing schedule -----

  /** A shutdown drains the empty queue, a record comes in, and the writer finishes and hangs up. */
  function LosingRun(e: Event, cell: nat, env: RecordEnv, end: EndEnv): seq<Action> {
    [CallShutdown, Take(env), Seal, CallRecord(e, cell, true), End(end), HangUp, DropNext]
  }

  lemma StartedFields(h: HashFn, chainId: string, clock: u64)
    requires HashesAreHex(h) && ChainIdOk(chainId)
    ensures var l := Started(h, chainId, clock);
      && l.batch.None? && l.failed == {} && l.results == map[] && l.placed == map[] && !l.stopped
      && l.w.chain.eventsSince == 0 && !l.w.dirty && !l.w.poisoned && l.w.residue == Clean && |l.w.lines| == 1
  {
    hide SerializedLen, BodyFor;
    FixedLengths();
    WriterRecordsFit(h, chainId, 0, clock, ChainStarted(), GENESIS_HASH);
  }

  /**
    * A record can be lost without a trace: the channel accepts it, the shutdown succeeds, the
    * record's cell stays empty, and the file holds the genesis record alone.
    */
  lemma LateRecordLost(h: HashFn, ec: u64, chainId: string, clock: u64, e: Event, cell: nat, env: RecordEnv, end: EndEnv)
    requires HashesAreHex(h) && ChainIdOk(chainId)
    ensures var s := Run(h, ec, Initial(h, chainId, clock), LosingRun(e, cell, env, end));
      && s.log == [ShutdownCmd, RecordCmd(e, cell, true)] && s.taken == 2 && s.served == 1
      && s.loop.results == map[0 := true] && s.loop.failed == {} && s.loop.placed == map[]
      && |FileLines(s.loop.w)| == 1
  {
    hide Started, Step;
    StartedFields(h, chainId, clock);
    var acts, s0 := LosingRun(e, cell, env, end), Initial(h, chainId, clock);
    var l := s0.loop;
    var s3 := System([ShutdownCmd], 1, 1, l.(batch := Some(Batch([], 1, true, Some(0)))), true, false);
    var s7 := System([ShutdownCmd, RecordCmd(e, cell, true)], 2, 1, l.(results := map[0 := true], stopped := true), false, true);
    DrainSteps(h, ec, s0, env);
    LossSteps(h, ec, s3, l, e, cell, end);
    RunsInPieces(h, ec, s0, acts, 3);
    RunsInPieces(h, ec, s3, acts[3..], 4);
    assert acts[..3] == [CallShutdown, Take(env), Seal];
    assert acts[3..][..4] == [CallRecord(e, cell, true), End(end), HangUp, DropNext] && acts[3..][4..] == [];
  }

  lemma {:induction false} RunsInPieces(h: HashFn, ec: u64, s: System, acts: seq<Action>, n: nat)
    requires s.taken <= |s.log| && n <= |acts|
    ensures Run(h, ec, s, acts) == Run(h, ec, Run(h, ec, s, acts[..n]), acts[n..])
    decreases n
  {
    hide Step;
    if n == 0 {
      assert acts[..0] == [] && acts[0..] == acts;
    } else {
      RunsInPieces(h, ec, Step(h, ec, s, acts[0]), acts[1..], n - 1);
      assert acts[1..][..n - 1] == acts[..n][1..] && acts[1..][n - 1..] == acts[n..];
    }
  }

  lemma DrainSteps(h: HashFn, ec: u64, s: System, env: RecordEnv)
    requires s == System([], 0, 0, s.loop, false, false) && s.loop.batch.None? && !s.loop.stopped
    ensures Run(h, ec, s, [CallShutdown, Take(env), Seal]) ==
      System([ShutdownCmd], 1, 1, s.loop.(batch := Some(Batch([], 1, true, Some(0)))), true, false)
  {
    var s1 := Step(h, ec, s, CallShutdown);
    var s2 := Step(h, ec, s1, Take(env));
    var s3 := Step(h, ec, s2, Seal);
    ThreeSteps(h, ec, s, CallShutdown, Take(env), Seal);
  }

  lemma LossSteps(h: HashFn, ec: u64, s: System, l: Loop, e: Event, cell: nat, end: EndEnv)
    requires s == System([ShutdownCmd], 1, 1, l.(batch := Some(Batch([], 1, true, Some(0)))), true, false)
    requires l.batch.None? && l.results == map[] && l.w.chain.eventsSince == 0 && !l.w.dirty && !l.w.poisoned
    ensures Run(h, ec, s, [CallRecord(e, cell, true), End(end), HangUp, DropNext]) ==
      System([ShutdownCmd, RecordCmd(e, cell, true)], 2, 1, l.(results := map[0 := true], stopped := true), false, true)
  {
    var s4 := Step(h, ec, s, CallRecord(e, cell, true));
    var s5 := Step(h, ec, s4, End(end));
    var s6 := Step(h, ec, s5, HangUp);
    assert s5.loop == l.(results := map[0 := true], stopped := true);
    var acts := [CallRecord(e, cell, true), End(end), HangUp, DropNext];
    assert acts[1..] == [End(end), HangUp, DropNext];
    ThreeSteps(h, ec, s4, End(end), HangUp, DropNext);
  }

  lemma ThreeSteps(h: HashFn, ec: u64, s: System, a: Action, b: Action, c: Action)
    requires s.taken <= |s.log|
    ensures Run(h, ec, s, [a, b, c]) == Step(h, ec, Step(h, ec, Step(h, ec, s, a), b), c)
  {
    hide Step;
    var s1 := Step(h, ec, s, a);
    var s2 := Step(h, ec, s1, b);
    assert [a, b, c][1..] == [b, c] && [b, c][1..] == [c] && [c][1..] == [];
    assert Run(h, ec, s, [a, b, c]) == Run(h, ec, s1, [b, c]) == Run(h, ec, s2, [c]);
    assert Run(h, ec, s2, [c]) == Run(h, ec, Step(h, ec, s2, c), []);
  }
}
