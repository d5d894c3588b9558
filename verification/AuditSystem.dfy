/**
  * The audit writer together with its callers, as an interleaving of atomic steps: record,
  * confirm and shutdown calls on the bounded channel, the writer taking commands, finding the
  * queue empty, ending batches and hanging up. Every list of actions is a run; an action whose
  * guard does not hold leaves the state alone.
  *
  * Calls may come in at any point, also between the moment the writer finds the queue empty and
  * the moment it drops the receiver; what is queued then is dropped with the receiver.
  */
module AuditSystem {
  import opened Text
  import opened AuditRecord
  import opened AuditWriter

  const CHANNEL_CAPACITY: nat := 1024

  /**
    * The queue is log[taken..]; `served` counts the commands the writer itself processed. `sealed`:
    * the open batch takes no more commands, because try_recv found the queue empty or because the
    * batch is at its cap. `closed`: the receiver has been dropped.
    */
  datatype System = System(log: seq<Command>, taken: nat, served: nat, loop: Loop, sealed: bool, closed: bool)

  datatype Action =
    | CallRecord(event: Event, cell: nat, standalone: bool)
    | CallConfirm(cell: nat)
    | CallShutdown
    | Take(env: RecordEnv)
    | Seal
    | End(end: EndEnv)
    | HangUp
    | Disconnect
    | DropNext

  function Initial(h: HashFn, chainId: string, clock: u64): System {
    System([], 0, 0, Started(h, chainId, clock), false, false)
  }

  predicate Full(s: System)
    requires s.taken <= |s.log|
  {
    |s.log| - s.taken >= CHANNEL_CAPACITY
  }

  /** The writer is ready to receive and a command is queued. */
  predicate CanTake(s: System)
    requires s.taken <= |s.log|
  {
    !s.closed && !s.sealed && !s.loop.stopped && s.taken < |s.log| && !Capped(OpenBatch(s.loop))
  }

  function MarkFailed(l: Loop, cell: nat): Loop { l.(failed := l.failed + {cell}) }

  /** The receiver is gone: a queued command is dropped, and with it the reply its caller waits for. */
  function Dropped(l: Loop, position: nat, cmd: Command): Loop {
    match cmd
    case RecordCmd(_, _, _) => l
    case BarrierCmd(cell) => l.(failed := l.failed + {cell}, returned := l.returned + {position})
    case ShutdownCmd => l.(results := l.results[position := false])
  }

  function Step(h: HashFn, eventCount: u64, s: System, act: Action): (s': System)
    requires s.taken <= |s.log|
    ensures s'.taken <= |s'.log|
  {
    match act
    case CallRecord(e, cell, standalone) =>
      if s.closed || Full(s) then s.(loop := MarkFailed(s.loop, cell))
      else s.(log := s.log + [RecordCmd(e, cell, standalone)])
    case CallConfirm(cell) =>
      if s.closed then s.(loop := MarkFailed(s.loop, cell))
      else if Full(s) then s
      else s.(log := s.log + [BarrierCmd(cell)])
    case CallShutdown =>
      if s.closed || Full(s) then s else s.(log := s.log + [ShutdownCmd])
    case Take(env) =>
      if !CanTake(s) then s
      else s.(loop := Process(h, s.loop, s.taken, s.log[s.taken], env), taken := s.taken + 1, served := s.served + 1)
    case Seal =>
      if s.closed || s.loop.batch.None? || (s.taken < |s.log| && !Capped(OpenBatch(s.loop))) then s
      else s.(sealed := true)
    case End(env) =>
      if !s.sealed then s else s.(loop := Finish(s.loop, eventCount, env), sealed := false)
    case HangUp =>
      if !s.loop.stopped || s.loop.batch.Some? then s else s.(closed := true)
    case Disconnect =>
      if s.loop.batch.Some? || s.taken < |s.log| then s else s.(closed := true)
    case DropNext =>
      if !s.closed || s.taken == |s.log| then s
      else s.(loop := Dropped(s.loop, s.taken, s.log[s.taken]), taken := s.taken + 1)
  }

  function Run(h: HashFn, eventCount: u64, s: System, acts: seq<Action>): (s': System)
    requires s.taken <= |s.log|
    ensures s'.taken <= |s'.log|
    decreases |acts|
  {
    if acts == [] then s else Run(h, eventCount, Step(h, eventCount, s, acts[0]), acts[1..])
  }

  // ----- what one command and one batch end can change -----

  lemma EventEffect(h: HashFn, w: Writer, e: Event, env: RecordEnv)
    ensures var r := EventWritten(h, w, e, env);
      && w.lines <= r.w.lines && |r.w.lines| <= |w.lines| + 1
      && r.w.durable == w.durable && r.w.poisoned == w.poisoned && r.w.dirty == w.dirty
      && (r.ok ==> r.w.residue == w.residue && |r.w.lines| == |w.lines| + 1 && r.w.lines[|w.lines|].RecordLine?
                   && env.clock.Some? && RecordsAt(r.w.lines[|w.lines|].record, e, env.clock.value))
  {
    hide SerializedLen, Sanitize, Decimal;
  }

  lemma CheckpointEffect(w: Writer, env: EndEnv)
    ensures var r := CheckpointWritten(w, env);
      && w.lines <= r.w.lines && r.w.durable == w.durable && r.w.poisoned == w.poisoned && r.w.dirty == w.dirty
      && (r.ok ==> r.w.residue == w.residue)
      && (r.ok ==> r.w.lines == w.lines + [CheckpointLine(
            Payload("v1", "vectis-audit-checkpoint", "init-keys", w.chain.chainId,
                    if w.chain.nextSequence > 0 then w.chain.nextSequence - 1 else 0,
                    w.chain.headHash, "BLAKE2b(256)", Decimal(env.clock.value)), true)])
      && (r.ok <==> env.clock.Some? && env.signs && env.fault == Works)
  {
    hide Decimal;
  }

  predicate WriterSound(w: Writer) {
    && w.durable <= |w.lines|
    && (!w.dirty && !w.poisoned ==> w.durable == |w.lines|)
    && (w.residue != Clean ==> w.poisoned)
  }

  predicate Grew(w: Writer, w': Writer) { w.lines <= w'.lines && w.durable <= w'.durable && (w.poisoned ==> w' == w) }

  lemma ProcessEffect(h: HashFn, l: Loop, position: nat, cmd: Command, env: RecordEnv)
    requires WriterSound(l.w)
    ensures var l' := Process(h, l, position, cmd, env);
      && WriterSound(l'.w) && Grew(l.w, l'.w) && l'.batch.Some? && l'.stopped == l.stopped
      && l'.returned == l.returned && l.failed <= l'.failed
      && l'.batch.value.processed == OpenBatch(l).processed + 1
      && (OpenBatch(l).commit ==> l'.batch.value.commit)
    ensures cmd.RecordCmd? ==> RecordEffect(l, Process(h, l, position, cmd, env), position, cmd)
    ensures cmd.BarrierCmd? ==>
      var l' := Process(h, l, position, cmd, env);
      && l'.batch.value.barriers == OpenBatch(l).barriers + [Pending(position, cmd.cell)] && l'.batch.value.commit
      && l'.placed == l.placed && l'.w == l.w && l'.results == l.results && l'.failed == l.failed
      && l'.batch.value.shutdown == OpenBatch(l).shutdown
    ensures cmd.ShutdownCmd? ==>
      var l' := Process(h, l, position, cmd, env);
      && l'.batch.value.barriers == OpenBatch(l).barriers && l'.placed == l.placed && l'.w == l.w
      && l'.batch.value.commit && l'.batch.value.shutdown == Some(position) && l'.failed == l.failed
      && NoNewSuccess(l.results, l'.results)
      && l'.results == (if OpenBatch(l).shutdown.Some? then l.results[OpenBatch(l).shutdown.value := false] else l.results)
  {
    hide EventWritten;
    if cmd.RecordCmd? { EventEffect(h, l.w, cmd.event, env); }
  }

  ghost predicate RecordEffect(l: Loop, l': Loop, position: nat, cmd: Command)
    requires cmd.RecordCmd? && l'.batch.Some?
  {
    && l'.batch.value.barriers == OpenBatch(l).barriers && l'.results == l.results
    && l'.batch.value.shutdown == OpenBatch(l).shutdown
    && ((l'.failed == l.failed + {cmd.cell} && l'.placed == l.placed && l'.w.poisoned && l'.batch.value.commit == OpenBatch(l).commit)
        || (l'.failed == l.failed && l'.placed == l.placed[position := |l.w.lines|] && PlacedAt(l'.w, |l.w.lines|, cmd.event)
            && !l'.w.poisoned && l'.batch.value.commit == (OpenBatch(l).commit || cmd.standalone)))
    && (l.w.poisoned ==> cmd.cell in l'.failed)
  }

  ghost predicate PlacedAt(w: Writer, at: nat, e: Event) {
    at < |w.lines| && w.lines[at].RecordLine? && Records(w.lines[at].record, e)
  }

  lemma FinishEffect(l: Loop, eventCount: u64, env: EndEnv)
    requires WriterSound(l.w)
    ensures var l', b := Finish(l, eventCount, env), OpenBatch(l);
      && WriterSound(l'.w) && Grew(l.w, l'.w) && l'.batch.None? && l'.placed == l.placed
      && l'.returned == l.returned + Positions(b.barriers) && l.failed <= l'.failed
      && (l'.w.poisoned || !b.commit || l'.w.durable == |l'.w.lines|)
      && (l'.w.poisoned ==> Cells(b.barriers) <= l'.failed)
      && ((b.barriers != [] ==> b.commit) ==> l'.failed == if l'.w.poisoned then l.failed + Cells(b.barriers) else l.failed)
      && l'.stopped == (l.stopped || b.shutdown.Some?)
      && l'.results == if b.shutdown.Some? then l.results[b.shutdown.value := !l'.w.poisoned] else l.results
  {
    hide CheckpointWritten;
    CheckpointEffect(l.w, env);
  }

  // ----- the invariant -----

  /** Counters, and when a batch is open. */
  predicate Bookkeeping(s: System) {
    && s.served <= s.taken <= |s.log|
    && (!s.closed ==> s.served == s.taken)
    && (s.closed || s.loop.stopped ==> s.loop.batch.None?)
    && (s.sealed ==> s.loop.batch.Some? && !s.closed)
    && WriterSound(s.loop.w)
  }

  /** Every record the writer took is on its own line, in order, or its cell is marked. */
  ghost predicate Placement(s: System)
    requires s.served <= |s.log|
  {
    && (forall q :: q in s.loop.placed ==> q < s.served && s.log[q].RecordCmd? && PlacedAt(s.loop.w, s.loop.placed[q], s.log[q].event))
    && (forall p, q :: p in s.loop.placed && q in s.loop.placed && p < q ==> s.loop.placed[p] < s.loop.placed[q])
    && (forall q :: 0 <= q < s.served && s.log[q].RecordCmd? ==> s.log[q].cell in s.loop.failed || q in s.loop.placed)
  }

  /** A served barrier waits in the open batch or has returned. */
  ghost predicate BarrierPlaces(s: System)
    requires s.served <= s.taken <= |s.log|
  {
    var waiting := OpenBatch(s.loop).barriers;
    && (forall k :: 0 <= k < |waiting| ==> waiting[k].position < s.served && s.log[waiting[k].position] == BarrierCmd(waiting[k].cell))
    && (waiting != [] ==> OpenBatch(s.loop).commit)
    && (forall p :: p in s.loop.returned ==> p < s.taken && s.log[p].BarrierCmd?)
    && (forall p :: p in s.loop.returned && s.log[p].cell !in s.loop.failed ==> p < s.served)
  }

  /** Everything recorded with this cell before position p is in the synced part of the file. */
  ghost predicate DurableBefore(s: System, p: nat, cell: nat)
    requires p <= |s.log|
  {
    forall q :: 0 <= q < p && s.log[q].RecordCmd? && s.log[q].cell == cell ==>
      q in s.loop.placed && s.loop.placed[q] < s.loop.w.durable
  }

  ghost predicate ConfirmedDurable(s: System)
    requires s.served <= s.taken <= |s.log| && BarrierPlaces(s)
  {
    forall p :: p in s.loop.returned && s.log[p].cell !in s.loop.failed ==> DurableBefore(s, p, s.log[p].cell)
  }

  ghost predicate Inv(s: System) {
    Bookkeeping(s) && Placement(s) && BarrierPlaces(s) && ConfirmedDurable(s)
  }

  lemma TakeKeepsPlacement(h: HashFn, ec: u64, s: System, env: RecordEnv)
    requires Inv(s)
    ensures var s' := Step(h, ec, s, Take(env)); Bookkeeping(s') && Placement(s')
  {
    hide Process, Records, Capped;
    if CanTake(s) {
      var cmd, q := s.log[s.taken], s.taken;
      ProcessEffect(h, s.loop, q, cmd, env);
      var s' := Step(h, ec, s, Take(env));
      forall p | p in s'.loop.placed && p != q
        ensures p in s.loop.placed && s'.loop.placed[p] == s.loop.placed[p] && PlacedAt(s'.loop.w, s.loop.placed[p], s.log[p].event) {
        assert PlacedAt(s.loop.w, s.loop.placed[p], s.log[p].event);
      }
    }
  }

  lemma TakeKeepsBarriers(h: HashFn, ec: u64, s: System, env: RecordEnv)
    requires Inv(s)
    ensures var s' := Step(h, ec, s, Take(env)); Bookkeeping(s') && BarrierPlaces(s') && ConfirmedDurable(s')
  {
    hide Process, PlacedAt, Capped;
    if CanTake(s) {
      ProcessEffect(h, s.loop, s.taken, s.log[s.taken], env);
      var s' := Step(h, ec, s, Take(env));
      forall p | p in s'.loop.returned && s'.log[p].cell !in s'.loop.failed
        ensures DurableBefore(s', p, s'.log[p].cell)
      {
        assert DurableBefore(s, p, s.log[p].cell);
      }
    }
  }

  lemma PlacedStays(w: Writer, w': Writer, at: nat, e: Event)
    requires PlacedAt(w, at, e) && Grew(w, w')
    ensures PlacedAt(w', at, e)
  {
  }

  lemma EndKeepsInv(h: HashFn, ec: u64, s: System, env: EndEnv)
    requires Inv(s)
    ensures Inv(Step(h, ec, s, End(env)))
  {
    hide Finish, Records;
    if s.sealed {
      FinishEffect(s.loop, ec, env);
      var s', b := Step(h, ec, s, End(env)), OpenBatch(s.loop);
      forall q | q in s'.loop.placed ensures PlacedAt(s'.loop.w, s'.loop.placed[q], s'.log[q].event) {
        PlacedStays(s.loop.w, s'.loop.w, s.loop.placed[q], s.log[q].event);
      }
      assert Placement(s');
      forall p | p in s'.loop.returned
        ensures p < s.served && s.log[p].BarrierCmd?
        ensures s'.log[p].cell !in s'.loop.failed ==> DurableBefore(s', p, s'.log[p].cell)
      {
        if p in s.loop.returned {
          assert s.log[p].cell !in s.loop.failed ==> DurableBefore(s, p, s.log[p].cell);
        } else {
          var w :| w in b.barriers && w.position == p;
          assert w.cell in Cells(b.barriers);
        }
      }
    }
  }

  /** A step of the callers or of the closing channel: the writer does not move. */
  predicate Quiet(s: System, s': System)
    requires s.taken <= |s.log|
  {
    && s'.loop.w == s.loop.w && s'.loop.placed == s.loop.placed && s'.loop.batch == s.loop.batch
    && s'.loop.stopped == s.loop.stopped && s'.served == s.served
    && s.log <= s'.log && s.loop.failed <= s'.loop.failed && s.taken <= s'.taken <= |s'.log|
    && (s.closed ==> s'.closed && s'.log == s.log) && (!s.closed ==> s'.taken == s.taken)
    && (s'.closed && !s.closed ==> s.loop.batch.None?)
    && (s'.sealed == s.sealed || (s.loop.batch.Some? && !s'.closed))
    && (s'.loop.returned == s.loop.returned
        || (s.closed && s.taken < s'.taken && s.log[s.taken].BarrierCmd? && s.log[s.taken].cell in s'.loop.failed
            && s'.loop.returned == s.loop.returned + {s.taken}))
    && (forall p :: p in s.loop.results ==> p in s'.loop.results)
    && NoNewSuccess(s.loop.results, s'.loop.results)
  }

  lemma CallsAreQuiet(h: HashFn, ec: u64, s: System, act: Action)
    requires s.taken <= |s.log| && !act.Take? && !act.End?
    ensures Quiet(s, Step(h, ec, s, act))
  {
    hide Process, Finish, Capped;
  }

  lemma QuietKeepsInv(s: System, s': System)
    requires Inv(s) && Quiet(s, s')
    ensures Inv(s')
  {
    hide Records, WriterSound;
    assert Placement(s');
    forall p | p in s'.loop.returned && s'.log[p].cell !in s'.loop.failed
      ensures DurableBefore(s', p, s'.log[p].cell)
    {
      assert DurableBefore(s, p, s.log[p].cell);
    }
  }

  lemma StepKeepsInv(h: HashFn, ec: u64, s: System, act: Action)
    requires Inv(s)
    ensures Inv(Step(h, ec, s, act))
  {
    hide Step, Placement, BarrierPlaces, ConfirmedDurable, Quiet, WriterSound;
    match act
    case Take(env) => TakeKeepsPlacement(h, ec, s, env); TakeKeepsBarriers(h, ec, s, env);
    case End(env) => EndKeepsInv(h, ec, s, env);
    case _ => CallsAreQuiet(h, ec, s, act); QuietKeepsInv(s, Step(h, ec, s, act));
  }

  lemma {:induction false} RunKeepsInv(h: HashFn, ec: u64, s: System, acts: seq<Action>)
    requires Inv(s)
    ensures Inv(Run(h, ec, s, acts))
    decreases |acts|
  {
    hide Inv, Step;
    TakenBound(s);
    if acts != [] {
      StepKeepsInv(h, ec, s, acts[0]);
      RunKeepsInv(h, ec, Step(h, ec, s, acts[0]), acts[1..]);
    }
  }

  lemma TakenBound(s: System)
    requires Inv(s)
    ensures s.served <= s.taken <= |s.log|
  {
  }

  lemma StartKeepsInv(h: HashFn, chainId: string, clock: u64)
    requires HashesAreHex(h) && ChainIdOk(chainId)
    ensures Inv(Initial(h, chainId, clock))
  {
    hide SerializedLen, BodyFor, Records;
    FixedLengths();
    WriterRecordsFit(h, chainId, 0, clock, ChainStarted(), GENESIS_HASH);
  }

  // ----- durability -----

  /**
    * In every run and under every schedule of faults: when a confirm has returned and its failure
    * cell is still empty, every record accepted before it with that cell is on a line of its own
    * in the synced part of the file, however many batches it was deferred over.
    */
  lemma ConfirmMeansDurable(h: HashFn, ec: u64, chainId: string, clock: u64, acts: seq<Action>, p: nat, q: nat)
    requires HashesAreHex(h) && ChainIdOk(chainId)
    requires var s := Run(h, ec, Initial(h, chainId, clock), acts);
      && p in s.loop.returned && p < |s.log| && s.log[p].BarrierCmd? && s.log[p].cell !in s.loop.failed
      && q < p && s.log[q].RecordCmd? && s.log[q].cell == s.log[p].cell
    ensures var s := Run(h, ec, Initial(h, chainId, clock), acts);
      && q in s.loop.placed && s.loop.placed[q] < s.loop.w.durable <= |s.loop.w.lines|
      && PlacedAt(s.loop.w, s.loop.placed[q], s.log[q].event)
      && forall q' :: q' in s.loop.placed && q' != q ==> s.loop.placed[q'] != s.loop.placed[q]
  {
    hide Run, Initial, Records;
    StartKeepsInv(h, chainId, clock);
    RunKeepsInv(h, ec, Initial(h, chainId, clock), acts);
    var s := Run(h, ec, Initial(h, chainId, clock), acts);
    assert DurableBefore(s, p, s.log[p].cell);
  }

  // ----- poisoning -----

  /** What has become of the commands handled between s and s', when s was already poisoned. */
  predicate AllRefused(s: System, s': System)
    requires s.served <= s'.served <= |s'.log|
  {
    && s'.loop.w == s.loop.w && s'.loop.placed == s.loop.placed
    && (forall q :: s.served <= q < s'.served && s'.log[q].RecordCmd? ==> s'.log[q].cell in s'.loop.failed)
    && (forall p :: p in s'.loop.returned && p !in s.loop.returned ==> p < |s'.log| && s'.log[p].BarrierCmd? && s'.log[p].cell in s'.loop.failed)
    && NoNewSuccess(s.loop.results, s'.loop.results)
  }

  /** Every shutdown reply in `after` was already in `before`, or is an error. */
  predicate NoNewSuccess(before: map<nat, bool>, after: map<nat, bool>) {
    forall p :: p in after && after[p] ==> p in before && before[p]
  }

  ghost predicate Later(s: System, s': System) {
    s.served <= s'.served <= |s'.log| && s.log <= s'.log && s.loop.failed <= s'.loop.failed && s.loop.returned <= s'.loop.returned
    && s'.taken <= |s'.log|
  }

  lemma PoisonedStep(h: HashFn, ec: u64, s: System, act: Action)
    requires Inv(s) && s.loop.w.poisoned
    ensures var s' := Step(h, ec, s, act); Later(s, s') && AllRefused(s, s')
  {
    hide Process, Finish, Records, Capped;
    if act.Take? {
      if CanTake(s) {
        ProcessEffect(h, s.loop, s.taken, s.log[s.taken], act.env);
      }
    } else if act.End? {
      FinishEffect(s.loop, ec, act.end);
      var s', waiting := Step(h, ec, s, act), OpenBatch(s.loop).barriers;
      forall p | p in s'.loop.returned && p !in s.loop.returned
        ensures p < |s.log| && s.log[p].BarrierCmd? && s.log[p].cell in s'.loop.failed
      {
        var w :| w in waiting && w.position == p;
        assert w.cell in Cells(waiting);
      }
    } else {
      CallsAreQuiet(h, ec, s, act);
    }
  }

  /**
    * Poisoning is absorbing: from a poisoned state, whatever happens next, the file is never
    * written again, every record taken and every barrier answered from then on has its cell
    * marked, and every shutdown answered from then on is an error. A record that is dropped with
    * the receiver is not on file either, but nothing marks its cell.
    */
  lemma {:induction false} PoisonIsAbsorbing(h: HashFn, ec: u64, s: System, acts: seq<Action>)
    requires Inv(s) && s.loop.w.poisoned
    ensures var s' := Run(h, ec, s, acts); Later(s, s') && AllRefused(s, s')
    decreases |acts|
  {
    hide Inv, Step;
    TakenBound(s);
    if acts != [] {
      var mid := Step(h, ec, s, acts[0]);
      PoisonedStep(h, ec, s, acts[0]);
      StepKeepsInv(h, ec, s, acts[0]);
      PoisonIsAbsorbing(h, ec, mid, acts[1..]);
    }
  }

  // ----- the writer loop is one of these runs -----

  function CallFor(cmd: Command): Action {
    match cmd
    case RecordCmd(e, cell, standalone) => CallRecord(e, cell, standalone)
    case BarrierCmd(cell) => CallConfirm(cell)
    case ShutdownCmd => CallShutdown
  }

  /** The interleaving in which every command is sent just before the loop receives it. */
  function ActionsOf(h: HashFn, ec: u64, l: Loop, position: nat, items: seq<Item>): seq<Action>
    decreases |items|
  {
    if items == [] || l.stopped then []
    else
      var l1 := Process(h, l, position, items[0].cmd, items[0].env);
      var ends := BatchEnds(l1, items);
      var l2 := if ends then Finish(l1, ec, items[0].end) else l1;
      [CallFor(items[0].cmd), Take(items[0].env)] + (if ends then [Seal, End(items[0].end)] else [])
      + ActionsOf(h, ec, l2, position + 1, items[1..])
  }

  /** Nothing is queued, and the loop is about to receive. */
  predicate Ready(s: System, l: Loop, position: nat) {
    s.loop == l && !s.closed && !s.sealed && s.taken == |s.log| == position && !l.stopped && !Capped(OpenBatch(l))
  }

  lemma SendAndTake(h: HashFn, ec: u64, s: System, l: Loop, position: nat, cmd: Command, env: RecordEnv)
    requires Ready(s, l, position)
    ensures var s1 := Step(h, ec, s, CallFor(cmd));
      var l' := Process(h, l, position, cmd, env);
      Step(h, ec, s1, Take(env)) == s.(log := s.log + [cmd], taken := position + 1, served := s.served + 1, loop := l')
  {
    hide Process;
  }

  lemma {:induction false} DriveIsARun(h: HashFn, ec: u64, s: System, l: Loop, position: nat, items: seq<Item>)
    requires s.taken <= |s.log| && s.loop == l && (l.stopped || Ready(s, l, position))
    ensures Run(h, ec, s, ActionsOf(h, ec, l, position, items)).loop == Drive(h, ec, l, position, items)
    decreases |items|
  {
    hide Process, Finish, Step;
    if items != [] && !l.stopped {
      var cmd, env, end := items[0].cmd, items[0].env, items[0].end;
      var l1 := Process(h, l, position, cmd, env);
      var ends := BatchEnds(l1, items);
      var l2 := if ends then Finish(l1, ec, end) else l1;
      var acts, rest := ActionsOf(h, ec, l, position, items), ActionsOf(h, ec, l2, position + 1, items[1..]);
      SendAndTake(h, ec, s, l, position, cmd, env);
      ProcessShape(h, l, position, cmd, env);
      FinishShape(l1, ec, end);
      var s1 := Step(h, ec, s, CallFor(cmd));
      var s2 := Step(h, ec, s1, Take(env));
      assert acts[0] == CallFor(cmd) && acts[1..][0] == Take(env);
      assert Run(h, ec, s, acts) == Run(h, ec, s1, acts[1..]) == Run(h, ec, s2, acts[1..][1..]);
      if ends {
        EndsNow(h, ec, s2, end);
        var s3 := Step(h, ec, s2, Seal);
        var s4 := Step(h, ec, s3, End(end));
        var tail := acts[1..][1..];
        assert tail[0] == Seal && tail[1..][0] == End(end) && tail[1..][1..] == rest;
        assert Run(h, ec, s2, tail) == Run(h, ec, s3, tail[1..]) == Run(h, ec, s4, rest);
        DriveIsARun(h, ec, s4, l2, position + 1, items[1..]);
      } else {
        assert acts[1..][1..] == rest;
        DriveIsARun(h, ec, s2, l2, position + 1, items[1..]);
      }
    }
  }

  lemma EndsNow(h: HashFn, ec: u64, s: System, env: EndEnv)
    requires s.taken == |s.log| && !s.closed && !s.sealed && s.loop.batch.Some?
    ensures Step(h, ec, Step(h, ec, s, Seal), End(env)) == s.(loop := Finish(s.loop, ec, env))
  {
    hide Finish;
  }

  lemma ProcessShape(h: HashFn, l: Loop, position: nat, cmd: Command, env: RecordEnv)
    ensures var l' := Process(h, l, position, cmd, env); l'.batch.Some? && l'.stopped == l.stopped
  {
    hide EventWritten;
  }

  lemma FinishShape(l: Loop, ec: u64, env: EndEnv)
    ensures Finish(l, ec, env).batch.None?
  {
    hide CheckpointWritten;
  }
}
