/**
  * What callers can count on: that calls get in while there is room, that every confirm and every
  * shutdown taken is answered, that a batch is synced exactly when it has to be, that a standalone
  * record needs no confirm, and that without a fault nobody is told of one.
  */
module AuditService {
  import opened Text
  import opened AuditRecord
  import opened AuditWriter
  import opened AuditSystem
  import opened AuditAccounting
  import opened AuditProvenance
  import opened AuditVerifier
  import opened AuditAgreement
  import opened AuditRuns

  // ----- getting in -----

  /** A record or confirm call is taken exactly while the receiver lives and fewer than 1024 commands wait. */
  lemma CallIff(h: HashFn, ec: u64, s: System, cmd: Command)
    requires s.taken <= |s.log|
    ensures var s' := Step(h, ec, s, CallFor(cmd));
      && s'.log == (if !s.closed && |s.log| - s.taken < 1024 then s.log + [cmd] else s.log)
      && s'.loop.failed == s.loop.failed + RefusedBy(s, CallFor(cmd))
      && s'.loop.w == s.loop.w && s'.taken == s.taken && s'.closed == s.closed
  {
  }

  /** The cells that a call or a drop marks because the channel refused or lost its command. */
  function RefusedBy(s: System, act: Action): set<nat>
    requires s.taken <= |s.log|
  {
    match act
    case CallRecord(_, cell, _) => if s.closed || |s.log| - s.taken >= 1024 then {cell} else {}
    case CallConfirm(cell) => if s.closed then {cell} else {}
    case DropNext => if s.closed && s.taken < |s.log| && s.log[s.taken].BarrierCmd? then {s.log[s.taken].cell} else {}
    case _ => {}
  }

  /** A command dropped with the receiver: a confirm returns with its cell marked, a shutdown with an error, a record silently. */
  lemma DropOutcome(h: HashFn, ec: u64, s: System)
    requires s.closed && s.taken < |s.log|
    ensures var s', p, cmd := Step(h, ec, s, DropNext), s.taken, s.log[s.taken];
      && s'.taken == p + 1 && s'.log == s.log && s'.served == s.served && s'.loop.w == s.loop.w && s'.loop.placed == s.loop.placed
      && (cmd.BarrierCmd? ==> p in s'.loop.returned && cmd.cell in s'.loop.failed)
      && (cmd.ShutdownCmd? ==> p in s'.loop.results && !s'.loop.results[p])
      && (cmd.RecordCmd? ==> s'.loop == s.loop)
  {
  }

  /** No step but a call or a drop marks a cell for the channel. */
  lemma QuietMarks(h: HashFn, ec: u64, s: System, act: Action)
    requires s.taken <= |s.log| && !act.Take? && !act.End?
    ensures Step(h, ec, s, act).loop.failed == s.loop.failed + RefusedBy(s, act)
  {
    hide Capped;
  }

  /**
    * When the writer moves on: it takes a command while one is queued and the batch has room, ends
    * the batch when the queue is empty or, unless a shutdown is being drained, after 256 commands,
    * and drops the receiver after a shutdown, or on an empty queue when all callers are gone.
    */
  lemma ReceiverSteps(h: HashFn, ec: u64, s: System, env: RecordEnv)
    requires Bookkeeping(s) && !s.closed && !s.sealed
    ensures var queued, b := |s.log| - s.taken, OpenBatch(s.loop);
      var capped := b.shutdown.None? && b.processed >= 256;
      && (Step(h, ec, s, Take(env)).taken == s.taken + 1 <==> queued > 0 && !s.loop.stopped && !capped)
      && (Step(h, ec, s, Seal).sealed <==> s.loop.batch.Some? && (queued == 0 || capped))
      && (Step(h, ec, s, HangUp).closed <==> s.loop.stopped)
      && (Step(h, ec, s, Disconnect).closed <==> s.loop.batch.None? && queued == 0)
  {
    hide Process;
  }

  // ----- what a batch has been asked for -----

  /** The position of the first command of the open batch. */
  function BatchStart(s: System): int { s.served - OpenBatch(s.loop).processed }

  /** The command wants the batch synced: a confirm, a shutdown, or a standalone record that was written. */
  predicate AsksSync(s: System, p: nat)
    requires p < |s.log|
  {
    match s.log[p]
    case RecordCmd(_, _, standalone) => standalone && p in s.loop.placed
    case _ => true
  }

  ghost predicate BatchAsks(s: System)
    requires s.served <= |s.log|
  {
    exists p: nat :: BatchStart(s) <= p < s.served && AsksSync(s, p)
  }

  /** A confirm of an ended batch has returned, and one of the open batch is waiting. */
  ghost predicate ConfirmsAnswered(s: System)
    requires s.served <= |s.log|
  {
    forall p: nat :: p < s.served && s.log[p].BarrierCmd? ==>
      if p < BatchStart(s) then p in s.loop.returned else Pending(p, s.log[p].cell) in OpenBatch(s.loop).barriers
  }

  ghost predicate ShutdownsAnswered(s: System)
    requires s.served <= |s.log|
  {
    forall p: nat :: p < s.served && s.log[p].ShutdownCmd? ==>
      p in s.loop.results || (p >= BatchStart(s) && OpenBatch(s.loop).shutdown == Some(p))
  }

  predicate Standalone(s: System, q: nat)
    requires q < |s.log|
  {
    s.log[q].RecordCmd? && s.log[q].standalone
  }

  /** Standalone records of ended batches are in the synced part of a healthy file. */
  ghost predicate StandaloneSynced(s: System)
    requires s.served <= |s.log|
  {
    !s.loop.w.poisoned ==>
      forall q: nat :: q < BatchStart(s) && Standalone(s, q) && q in s.loop.placed ==> s.loop.placed[q] < s.loop.w.durable
  }

  ghost predicate Served(s: System) {
    && s.served <= |s.log| && 0 <= BatchStart(s)
    && (OpenBatch(s.loop).commit <==> BatchAsks(s))
    && ConfirmsAnswered(s) && ShutdownsAnswered(s) && StandaloneSynced(s)
  }

  lemma TakeCommits(h: HashFn, ec: u64, s: System, env: RecordEnv)
    requires Inv(s) && Served(s) && CanTake(s)
    ensures var s' := Step(h, ec, s, Take(env));
      s'.served <= |s'.log| && BatchStart(s') == BatchStart(s) && (OpenBatch(s'.loop).commit <==> BatchAsks(s'))
  {
    hide Process, Records, ConfirmedDurable, BarrierPlaces, Capped, ConfirmsAnswered, ShutdownsAnswered, StandaloneSynced;
    var n, s' := s.served, Step(h, ec, s, Take(env));
    ProcessEffect(h, s.loop, n, s.log[n], env);
    assert n !in s.loop.placed;
    assert forall p: nat :: p < n ==> AsksSync(s', p) == AsksSync(s, p);
    assert OpenBatch(s'.loop).commit <==> OpenBatch(s.loop).commit || AsksSync(s', n);
    if BatchAsks(s) {
      var p: nat :| BatchStart(s) <= p < s.served && AsksSync(s, p);
      assert AsksSync(s', p);
    }
    if BatchAsks(s') && !AsksSync(s', n) {
      var p: nat :| BatchStart(s') <= p < s'.served && AsksSync(s', p);
      assert AsksSync(s, p);
    }
  }

  lemma TakeAnswers(h: HashFn, ec: u64, s: System, env: RecordEnv)
    requires Inv(s) && Served(s) && CanTake(s)
    ensures var s' := Step(h, ec, s, Take(env));
      s'.served <= |s'.log| && ConfirmsAnswered(s') && ShutdownsAnswered(s')
  {
    hide Process, Records, ConfirmedDurable, BarrierPlaces, Capped, BatchAsks, StandaloneSynced, Placement;
    var n, s' := s.served, Step(h, ec, s, Take(env));
    ProcessEffect(h, s.loop, n, s.log[n], env);
    if s.log[n].BarrierCmd? {
      var before, after := OpenBatch(s.loop).barriers, OpenBatch(s'.loop).barriers;
      assert after[|before|] == Pending(n, s.log[n].cell);
      assert forall w :: w in before ==> w in after;
    }
  }

  lemma TakeStandalone(h: HashFn, ec: u64, s: System, env: RecordEnv)
    requires Inv(s) && Served(s) && CanTake(s)
    ensures var s' := Step(h, ec, s, Take(env)); s'.served <= |s'.log| && StandaloneSynced(s')
  {
    hide Process, Records, ConfirmedDurable, BarrierPlaces, Capped, BatchAsks, ConfirmsAnswered, ShutdownsAnswered;
    ProcessEffect(h, s.loop, s.served, s.log[s.served], env);
    assert s.served !in s.loop.placed;
  }

  lemma EndServes(h: HashFn, ec: u64, s: System, env: EndEnv)
    requires Inv(s) && Served(s) && s.sealed
    ensures Served(Step(h, ec, s, End(env)))
  {
    hide Finish, Records, ConfirmedDurable, BarrierPlaces;
    var s', b := Step(h, ec, s, End(env)), OpenBatch(s.loop);
    FinishEffect(s.loop, ec, env);
    forall p: nat | p < s'.served && s'.log[p].BarrierCmd? ensures p in s'.loop.returned {
      if p >= BatchStart(s) {
        assert Pending(p, s.log[p].cell) in b.barriers;
        assert p in Positions(b.barriers);
      }
    }
    forall q: nat | q < s'.served && Standalone(s', q) && q in s'.loop.placed && !s'.loop.w.poisoned
      ensures s'.loop.placed[q] < s'.loop.w.durable
    {
      assert PlacedAt(s.loop.w, s.loop.placed[q], s.log[q].event);
      if q >= BatchStart(s) { assert AsksSync(s, q); }
    }
  }

  lemma QuietServes(s: System, s': System)
    requires Inv(s) && Served(s) && Quiet(s, s')
    ensures Served(s')
  {
    hide Records, ConfirmedDurable, BarrierPlaces, Placement;
    assert forall p: nat :: p < s.served ==> AsksSync(s', p) == AsksSync(s, p);
    if BatchAsks(s) {
      var p: nat :| BatchStart(s) <= p < s.served && AsksSync(s, p);
      assert AsksSync(s', p);
    }
    if BatchAsks(s') {
      var p: nat :| BatchStart(s') <= p < s'.served && AsksSync(s', p);
      assert AsksSync(s, p);
    }
  }

  lemma StepServes(h: HashFn, ec: u64, s: System, act: Action)
    requires Inv(s) && Served(s)
    ensures Served(Step(h, ec, s, act))
  {
    hide Process, Finish, Quiet, Capped, Placement, ConfirmedDurable, BarrierPlaces,
      BatchAsks, ConfirmsAnswered, ShutdownsAnswered, StandaloneSynced;
    match act
    case Take(env) =>
      if CanTake(s) {
        TakeCommits(h, ec, s, env);
        TakeAnswers(h, ec, s, env);
        TakeStandalone(h, ec, s, env);
      }
    case End(env) => if s.sealed { EndServes(h, ec, s, env); }
    case _ => CallsAreQuiet(h, ec, s, act); QuietServes(s, Step(h, ec, s, act));
  }

  lemma {:induction false} RunServes(h: HashFn, ec: u64, s: System, acts: seq<Action>)
    requires Inv(s) && s.taken <= |s.log| && Served(s)
    ensures Served(Run(h, ec, s, acts))
    decreases |acts|
  {
    hide Inv, Step, Served;
    if acts != [] {
      StepServes(h, ec, s, acts[0]);
      StepKeepsInv(h, ec, s, acts[0]);
      RunServes(h, ec, Step(h, ec, s, acts[0]), acts[1..]);
    }
  }

  lemma StartServes(h: HashFn, chainId: string, clock: u64)
    ensures Served(Initial(h, chainId, clock))
  {
    hide EventWritten;
  }

  // ----- when something fails, and when not -----

  predicate EndWorksIn(env: EndEnv) { env.clock.Some? && env.signs && env.fault.Works? }

  lemma FinishOutcome(l: Loop, ec: u64, env: EndEnv)
    requires WriterSound(l.w) && !l.w.poisoned
    ensures var w', b := Finish(l, ec, env).w, OpenBatch(l); var due := CheckpointDue(l.w.chain, b, ec);
      && (w'.poisoned <==> (due && !EndWorksIn(env)) || ((due || (b.commit && l.w.dirty)) && !env.syncs))
      && (!w'.poisoned && due ==> |w'.lines| == |l.w.lines| + 1 && l.w.lines <= w'.lines && w'.lines[|l.w.lines|].CheckpointLine?)
      && (!w'.poisoned && !due ==> w'.lines == l.w.lines)
      && (!w'.poisoned ==> w'.durable == if due || b.commit then |w'.lines| else l.w.durable)
  {
    hide CheckpointWritten, CheckpointDue, Positions, Cells;
    CheckpointEffect(l.w, env);
  }

  /** A checkpoint is due when records came after the last one, and they are enough or a shutdown asks for it. */
  predicate Due(w: Writer, shutdown: bool, ec: u64) { Since(w.lines) > 0 && (Since(w.lines) >= ec || shutdown) }

  lemma DueIff(w: Writer, b: Batch, ec: u64)
    requires Accounts(w) && !w.poisoned
    ensures CheckpointDue(w.chain, b, ec) <==> Due(w, b.shutdown.Some?, ec)
  {
    hide RecordsIn, Since, Numbered, FileLines, EndsCovered;
  }

  /**
    * The end of a batch of a healthy writer. It fails exactly when a checkpoint is due and cannot
    * be made, or a sync is needed and fails; then every confirm of the batch is told. Otherwise one
    * checkpoint is added exactly when due, the file is synced exactly when a checkpoint was added or
    * the batch asks for it, every confirm returns, and no cell is marked.
    */
  lemma EndOutcome(h: HashFn, ec: u64, s: System, env: EndEnv)
    requires AccountInv(s, ec) && Served(s) && s.sealed && !s.loop.w.poisoned
    ensures var s' := Step(h, ec, s, End(env));
      var w, w' := s.loop.w, s'.loop.w;
      var due, waiting := Due(w, OpenBatch(s.loop).shutdown.Some?, ec), OpenBatch(s.loop).barriers;
      && (w'.poisoned <==> (due && !EndWorksIn(env)) || ((due || (BatchAsks(s) && w.dirty)) && !env.syncs))
      && s'.loop.failed == (if w'.poisoned then s.loop.failed + Cells(waiting) else s.loop.failed)
      && s'.loop.returned == s.loop.returned + Positions(waiting) && s'.loop.batch.None?
      && (!w'.poisoned && due ==> |w'.lines| == |w.lines| + 1 && w.lines <= w'.lines && w'.lines[|w.lines|].CheckpointLine?)
      && (!w'.poisoned && !due ==> w'.lines == w.lines)
      && (!w'.poisoned ==> w'.durable == if due || BatchAsks(s) then |w'.lines| else w.durable)
  {
    hide Finish, Accounts, Due, CheckpointDue, Placement, ConfirmedDurable, GapInv, ShutdownInv, BatchAsks, ConfirmsAnswered,
      ShutdownsAnswered, StandaloneSynced, Cells, Positions;
    FinishEffect(s.loop, ec, env);
    FinishOutcome(s.loop, ec, env);
    DueIff(s.loop.w, OpenBatch(s.loop), ec);
  }

  predicate TakeWorksIn(env: RecordEnv) { env.clock.Some? && env.fault.Works? }

  /**
    * A command taken by a healthy writer. It fails exactly when it is a record and the clock or the
    * write fails or no sequence number is left; then its cell is marked. Otherwise a record is
    * placed, and no cell is marked.
    */
  lemma TakeOutcome(h: HashFn, ec: u64, s: System, env: RecordEnv)
    requires HashesAreHex(h) && AccountInv(s, ec) && FileShape(h, s.loop.w) && CanTake(s) && !s.loop.w.poisoned
    ensures var s', cmd := Step(h, ec, s, Take(env)), s.log[s.taken];
      && (s'.loop.w.poisoned <==> cmd.RecordCmd? && (!TakeWorksIn(env) || s.loop.w.chain.nextSequence == U64_MAX))
      && s'.loop.failed == (if s'.loop.w.poisoned then s.loop.failed + {cmd.cell} else s.loop.failed)
      && (s.taken in s'.loop.placed <==> cmd.RecordCmd? && !s'.loop.w.poisoned)
      && s'.loop.w.chain.nextSequence <= s.loop.w.chain.nextSequence + 1
  {
    hide SerializedLen, BodyFor, RecordsIn, Since, Numbered, EndsCovered, RecordOk, HashHex, ChainIdOk, FileLines,
      BarrierPlaces, ConfirmedDurable, GapInv, ShutdownInv, Capped, Records;
    var c, cmd := s.loop.w.chain, s.log[s.taken];
    assert s.taken !in s.loop.placed;
    if cmd.RecordCmd? && env.clock.Some? {
      WriterRecordsFit(h, c.chainId, c.nextSequence, env.clock.value, cmd.event, c.headHash);
    }
  }

  // ----- runs without a fault -----

  predicate Faultless(acts: seq<Action>) {
    forall i :: 0 <= i < |acts| ==> Undisturbed(acts[i])
  }

  predicate Undisturbed(act: Action) {
    match act
    case Take(env) => TakeWorksIn(env)
    case End(env) => EndWorksIn(env) && env.syncs
    case _ => true
  }

  /** The cells of all calls of the run whose command the channel refused or dropped. */
  function RefusedCells(h: HashFn, ec: u64, s: System, acts: seq<Action>): set<nat>
    requires s.taken <= |s.log|
    decreases |acts|
  {
    if acts == [] then {} else RefusedBy(s, acts[0]) + RefusedCells(h, ec, Step(h, ec, s, acts[0]), acts[1..])
  }

  lemma FaultlessStep(h: HashFn, ec: u64, s: System, act: Action)
    requires HashesAreHex(h) && AccountInv(s, ec) && Served(s) && FileShape(h, s.loop.w) && Undisturbed(act)
    requires !s.loop.w.poisoned && s.loop.w.chain.nextSequence < U64_MAX
    ensures var s' := Step(h, ec, s, act);
      && !s'.loop.w.poisoned && s'.loop.w.chain.nextSequence <= s.loop.w.chain.nextSequence + 1
      && s'.loop.failed == s.loop.failed + RefusedBy(s, act)
  {
    hide Process, Finish, Accounts, FileShape, Placement, BarrierPlaces, ConfirmedDurable, GapInv, ShutdownInv, Capped,
      BatchAsks, ConfirmsAnswered, ShutdownsAnswered, StandaloneSynced, Due;
    match act
    case Take(env) => if CanTake(s) { TakeOutcome(h, ec, s, env); }
    case End(env) => if s.sealed { EndOutcome(h, ec, s, env); FinishKeepsSequence(s.loop, ec, env); }
    case _ => QuietMarks(h, ec, s, act); CallsAreQuiet(h, ec, s, act);
  }

  lemma FinishKeepsSequence(l: Loop, ec: u64, env: EndEnv)
    ensures Finish(l, ec, env).w.chain.nextSequence == l.w.chain.nextSequence
  {
    hide PayloadFor, CheckpointDue, Positions, Cells;
  }

  lemma {:induction false} FaultlessRun(h: HashFn, ec: u64, s: System, acts: seq<Action>)
    requires HashesAreHex(h) && AccountInv(s, ec) && s.taken <= |s.log| && Served(s) && Faithful(h, EMPTY, s.loop.w)
    requires Faultless(acts) && !s.loop.w.poisoned && s.loop.w.chain.nextSequence + |acts| <= U64_MAX
    ensures var s' := Run(h, ec, s, acts);
      !s'.loop.w.poisoned && s'.loop.failed == s.loop.failed + RefusedCells(h, ec, s, acts)
    decreases |acts|
  {
    hide Step, Accounts, FileShape, Verifies, ResidueIsNext, GapInv, ShutdownInv, Served, Undisturbed, RefusedBy;
    if acts != [] {
      var s1 := Step(h, ec, s, acts[0]);
      FaultlessStep(h, ec, s, acts[0]);
      StepAccounts(h, ec, s, acts[0]);
      StepFaithful(h, ec, EMPTY, s, acts[0]);
      StepServes(h, ec, s, acts[0]);
      FaultlessRun(h, ec, s1, acts[1..]);
    }
  }

  // ----- theorems -----

  lemma AlwaysServed(h: HashFn, ec: u64, chainId: string, clock: u64, acts: seq<Action>)
    requires HashesAreHex(h) && ChainIdOk(chainId)
    ensures var s := Run(h, ec, Initial(h, chainId, clock), acts); Inv(s) && Served(s)
  {
    hide Run, Initial, Served;
    StartKeepsInv(h, chainId, clock);
    TakenBound(Initial(h, chainId, clock));
    RunKeepsInv(h, ec, Initial(h, chainId, clock), acts);
    StartServes(h, chainId, clock);
    RunServes(h, ec, Initial(h, chainId, clock), acts);
  }

  /**
    * In every reachable state, whatever failed: an open batch has a sync coming exactly when one of
    * its commands asks for it, and every confirm and every shutdown of an ended batch has been
    * answered.
    */
  lemma EverybodyIsAnswered(h: HashFn, ec: u64, chainId: string, clock: u64, acts: seq<Action>)
    requires HashesAreHex(h) && ChainIdOk(chainId)
    ensures var s := Run(h, ec, Initial(h, chainId, clock), acts);
      && s.served <= |s.log| && (s.loop.batch.None? ==> BatchStart(s) == s.served)
      && (OpenBatch(s.loop).commit <==> BatchAsks(s))
      && (forall p: nat :: p < BatchStart(s) && s.log[p].BarrierCmd? ==> p in s.loop.returned)
      && (forall p: nat :: p < BatchStart(s) && s.log[p].ShutdownCmd? ==> p in s.loop.results)
  {
    hide Run, Initial, BatchAsks, Inv;
    AlwaysServed(h, ec, chainId, clock, acts);
  }

  /**
    * Without a fault nobody is told of one: in a run in which clock, signing, writes and syncs work,
    * the writer stays healthy, and the cells that are marked are exactly those of calls whose
    * command the full or closed channel refused or dropped.
    */
  lemma NoFalseAlarm(h: HashFn, ec: u64, chainId: string, clock: u64, acts: seq<Action>)
    requires HashesAreHex(h) && ChainIdOk(chainId) && Faultless(acts) && |acts| < U64_MAX
    ensures var s0 := Initial(h, chainId, clock); var s := Run(h, ec, s0, acts);
      !s.loop.w.poisoned && s.loop.failed == RefusedCells(h, ec, s0, acts)
  {
    hide Run, Started, Inv, Step, Accounts, GapInv, ShutdownInv, Verifies, FileShape, ResidueIsNext, Faultless, RefusedCells;
    var s0 := Initial(h, chainId, clock);
    StartAccounts(h, ec, chainId, clock);
    StartFaithful(h, EMPTY, chainId, clock);
    StartServes(h, chainId, clock);
    StartWriter(h, chainId, clock);
    NothingMarked(h, chainId, clock);
    FaultlessRun(h, ec, s0, acts);
  }

  lemma NothingMarked(h: HashFn, chainId: string, clock: u64)
    ensures Started(h, chainId, clock).failed == {}
  {
    hide EventWritten;
  }

  /**
    * A confirm that meets no fault succeeds: it returns when its batch has ended, its cell is marked
    * only if the channel refused another call with it, and if it is not, every record accepted
    * before it with that cell is on a line of its own in the synced part of the file.
    */
  lemma ConfirmSucceeds(h: HashFn, ec: u64, chainId: string, clock: u64, acts: seq<Action>, p: nat)
    requires HashesAreHex(h) && ChainIdOk(chainId) && Faultless(acts) && |acts| < U64_MAX
    requires var s := Run(h, ec, Initial(h, chainId, clock), acts); p < |s.log| && p < BatchStart(s) && s.log[p].BarrierCmd?
    ensures var s0 := Initial(h, chainId, clock); var s := Run(h, ec, s0, acts);
      && p in s.loop.returned
      && (s.log[p].cell in s.loop.failed <==> s.log[p].cell in RefusedCells(h, ec, s0, acts))
      && (s.log[p].cell !in RefusedCells(h, ec, s0, acts) ==> forall q: nat :: ConfirmedBy(s, p, q) ==>
            q in s.loop.placed && s.loop.placed[q] < s.loop.w.durable && PlacedAt(s.loop.w, s.loop.placed[q], s.log[q].event))
  {
    hide Run, Started, BatchAsks, Faultless, RefusedCells, Records;
    NoFalseAlarm(h, ec, chainId, clock, acts);
    EverybodyIsAnswered(h, ec, chainId, clock, acts);
    var s := Run(h, ec, Initial(h, chainId, clock), acts);
    forall q: nat | ConfirmedBy(s, p, q)
      ensures q in s.loop.placed && s.loop.placed[q] < s.loop.w.durable && PlacedAt(s.loop.w, s.loop.placed[q], s.log[q].event)
    {
      ConfirmMeansDurable(h, ec, chainId, clock, acts, p, q);
    }
  }

  /**
    * A standalone record needs no confirm: once the batch that took it has ended and the writer is
    * healthy, it is in the synced part of the file.
    */
  lemma StandaloneIsDurable(h: HashFn, ec: u64, chainId: string, clock: u64, acts: seq<Action>, q: nat)
    requires HashesAreHex(h) && ChainIdOk(chainId)
    requires var s := Run(h, ec, Initial(h, chainId, clock), acts);
      q < |s.log| && q < BatchStart(s) && Standalone(s, q) && !s.loop.w.poisoned
    ensures var s := Run(h, ec, Initial(h, chainId, clock), acts);
      q in s.loop.placed && s.loop.placed[q] < s.loop.w.durable && PlacedAt(s.loop.w, s.loop.placed[q], s.log[q].event)
  {
    hide Run, Initial, Records, BatchAsks;
    AlwaysServed(h, ec, chainId, clock, acts);
    EveryLineHasASource(h, ec, chainId, clock, acts);
  }

  /** And it stays there, whatever happens later, a power failure included. */
  lemma StandaloneSurvivesPowerFailure(h: HashFn, ec: u64, chainId: string, clock: u64, acts: seq<Action>, q: nat,
                                       after: seq<Action>, k: nat)
    requires HashesAreHex(h) && ChainIdOk(chainId)
    requires var s := Run(h, ec, Initial(h, chainId, clock), acts);
      q < |s.log| && q < BatchStart(s) && Standalone(s, q) && !s.loop.w.poisoned
    requires var w := Run(h, ec, Run(h, ec, Initial(h, chainId, clock), acts), after).loop.w; w.durable <= k <= |w.lines|
    ensures var s' := Run(h, ec, Run(h, ec, Initial(h, chainId, clock), acts), after); q < |s'.log| && OnLine(s', k, q)
  {
    hide Run, Started, Records, WriterSound, ConfirmedDurable, BarrierPlaces;
    StandaloneIsDurable(h, ec, chainId, clock, acts, q);
    AlwaysServed(h, ec, chainId, clock, acts);
    var s := Run(h, ec, Initial(h, chainId, clock), acts);
    PlacedForGood(h, ec, s, after, q);
    RunGrows(h, ec, s, after);
    RunKeepsInv(h, ec, s, after);
    var s' := Run(h, ec, s, after);
    assert PlacedAt(s'.loop.w, s'.loop.placed[q], s'.log[q].event);
  }
}
