/**
  * The single writer of the audit chain: write_event, append_checkpoint and the group-commit
  * loop of src/core/audit_chain.rs, over a sink that may fail.
  *
  * Clock readings, signing, write and sync outcomes, and whether try_recv finds the queue empty
  * are inputs. The functions give the meaning of each step; class WriterLoop runs them in place.
  */
module AuditWriter {
  import opened Text
  import opened AuditRecord

  const GROUP_COMMIT_MAX: nat := 256

  // ----- state -----

  /** What a failed write left behind in the file after the last complete line. */
  datatype Residue = Clean | Partial | Whole(line: Line)

  datatype ChainState = ChainState(chainId: string, nextSequence: u64, headHash: string,
                                   eventsSince: u64, lastCheckpoint: Option<u64>)

  /** durable counts the lines known to have reached the disk. */
  datatype Writer = Writer(chain: ChainState, lines: seq<Line>, durable: nat, residue: Residue, poisoned: bool, dirty: bool)

  datatype Fault = Works | LeavesNothing | LeavesPart | LeavesLine

  datatype RecordEnv = RecordEnv(clock: Option<u64>, fault: Fault)

  datatype EndEnv = EndEnv(clock: Option<u64>, signs: bool, fault: Fault, syncs: bool)

  datatype Written = Written(w: Writer, ok: bool)

  function ResidueOf(fault: Fault, line: Line): Residue {
    match fault
    case LeavesPart => Partial
    case LeavesLine => Whole(line)
    case _ => Clean
  }

  function NextBody(c: ChainState, clock: u64, e: Event): Body {
    BodyFor(c.chainId, c.nextSequence, clock, e, c.headHash)
  }

  function NextRecord(h: HashFn, c: ChainState, clock: u64, e: Event): Record {
    var b := NextBody(c, clock, e);
    Record(b, h(b))
  }

  /** State after a record line is on file; not ok when a counter is exhausted. */
  function Advance(c: ChainState, headHash: string): (ChainState, bool) {
    var c1 := c.(headHash := headHash);
    if c.nextSequence == U64_MAX then (c1, false)
    else
      var c2 := c1.(nextSequence := c.nextSequence + 1);
      if c2.nextSequence <= 1 then (c2, true)
      else if c.eventsSince == U64_MAX then (c2, false)
      else (c2.(eventsSince := c.eventsSince + 1), true)
  }

  function EventWritten(h: HashFn, w: Writer, e: Event, env: RecordEnv): Written {
    if env.clock.None? then Written(w, false)
    else
      var r := NextRecord(h, w.chain, env.clock.value, e);
      if SerializedLen(r) > RECORD_MAX_BYTES then Written(w, false)
      else if env.fault != Works then Written(w.(residue := ResidueOf(env.fault, RecordLine(r))), false)
      else
        var (c, ok) := Advance(w.chain, r.eventHash);
        Written(w.(chain := c, lines := w.lines + [RecordLine(r)]), ok)
  }

  function LastSequence(c: ChainState): u64 { if c.nextSequence == 0 then 0 else c.nextSequence - 1 }

  function PayloadFor(c: ChainState, clock: u64): Payload {
    Payload("v1", CHECKPOINT_TYPE, INIT_KEYS_KID, c.chainId, LastSequence(c), c.headHash, HASH_ALG, Decimal(clock))
  }

  function CheckpointWritten(w: Writer, env: EndEnv): Written {
    if env.clock.None? || !env.signs then Written(w, false)
    else
      var line := CheckpointLine(PayloadFor(w.chain, env.clock.value), true);
      if env.fault != Works then Written(w.(residue := ResidueOf(env.fault, line)), false)
      else Written(w.(lines := w.lines + [line],
                      chain := w.chain.(eventsSince := 0, lastCheckpoint := Some(LastSequence(w.chain)))), true)
  }

  // ----- the loop -----

  datatype Command = RecordCmd(event: Event, cell: nat, standalone: bool) | BarrierCmd(cell: nat) | ShutdownCmd

  datatype Pending = Pending(position: nat, cell: nat)

  datatype Batch = Batch(barriers: seq<Pending>, processed: nat, commit: bool, shutdown: Option<nat>)

  const NEW_BATCH: Batch := Batch([], 0, false, None)

  /**
    * A command is known by its position in the queue. `failed` holds the failure cells that are
    * set, `returned` the barriers whose confirm has returned, `results` the shutdown replies, and
    * `placed` where each recorded event went.
    */
  datatype Loop = Loop(w: Writer, batch: Option<Batch>, failed: set<nat>, returned: set<nat>,
                       results: map<nat, bool>, placed: map<nat, nat>, stopped: bool)

  function OpenBatch(l: Loop): Batch { if l.batch.Some? then l.batch.value else NEW_BATCH }

  function Process(h: HashFn, l: Loop, position: nat, cmd: Command, env: RecordEnv): Loop {
    var b := OpenBatch(l).(processed := OpenBatch(l).processed + 1);
    match cmd
    case RecordCmd(e, cell, standalone) =>
      if l.w.poisoned then l.(batch := Some(b), failed := l.failed + {cell})
      else
        var r := EventWritten(h, l.w, e, env);
        if r.ok then
          l.(w := r.w.(dirty := true), batch := Some(b.(commit := b.commit || standalone)),
             placed := l.placed[position := |l.w.lines|])
        else l.(w := r.w.(poisoned := true), batch := Some(b), failed := l.failed + {cell})
    case BarrierCmd(cell) =>
      l.(batch := Some(b.(barriers := b.barriers + [Pending(position, cell)], commit := true)))
    case ShutdownCmd =>
      // A second shutdown in the same drain replaces the first reply, whose caller then gets an error.
      l.(batch := Some(b.(shutdown := Some(position), commit := true)),
         results := if b.shutdown.Some? then l.results[b.shutdown.value := false] else l.results)
  }

  predicate Capped(b: Batch) { b.shutdown.None? && b.processed >= GROUP_COMMIT_MAX }

  predicate CheckpointDue(c: ChainState, b: Batch, eventCount: u64) {
    && c.eventsSince > 0
    && (c.eventsSince >= eventCount || (b.shutdown.Some? && c.lastCheckpoint != Some(LastSequence(c))))
  }

  function MaybeCheckpoint(w: Writer, b: Batch, eventCount: u64, env: EndEnv): (Writer, bool) {
    if w.poisoned || !CheckpointDue(w.chain, b, eventCount) then (w, b.commit)
    else
      var r := CheckpointWritten(w, env);
      (if r.ok then r.w.(dirty := true) else r.w.(poisoned := true), true)
  }

  function MaybeSync(w: Writer, commit: bool, env: EndEnv): Writer {
    if !commit || !w.dirty || w.poisoned then w
    else if env.syncs then w.(dirty := false, durable := |w.lines|)
    else w.(poisoned := true)
  }

  function Cells(ps: seq<Pending>): set<nat> { set p | p in ps :: p.cell }

  function Positions(ps: seq<Pending>): set<nat> { set p | p in ps :: p.position }

  /** The end of a batch: checkpoint if due, sync if asked for, release the barriers, answer a shutdown. */
  function Finish(l: Loop, eventCount: u64, env: EndEnv): Loop {
    var b := OpenBatch(l);
    var (w1, commit) := MaybeCheckpoint(l.w, b, eventCount, env);
    var w2 := MaybeSync(w1, commit, env);
    // A barrier that is not released is dropped, and its confirm then marks the cell as well.
    var l1 := l.(w := w2, batch := None, returned := l.returned + Positions(b.barriers),
                 failed := if w2.poisoned || !commit then l.failed + Cells(b.barriers) else l.failed);
    if b.shutdown.Some? then l1.(results := l1.results[b.shutdown.value := !w2.poisoned], stopped := true) else l1
  }

  /** One received command, and whether try_recv then finds the queue empty. */
  datatype Item = Item(cmd: Command, env: RecordEnv, empty: bool, end: EndEnv)

  predicate BatchEnds(l: Loop, items: seq<Item>)
    requires items != []
  {
    items[0].empty || |items| == 1 || Capped(OpenBatch(l))
  }

  /** The whole loop over the commands it will receive. */
  function Drive(h: HashFn, eventCount: u64, l: Loop, position: nat, items: seq<Item>): Loop
    decreases |items|
  {
    if items == [] || l.stopped then l
    else
      var l1 := Process(h, l, position, items[0].cmd, items[0].env);
      var l2 := if BatchEnds(l1, items) then Finish(l1, eventCount, items[0].end) else l1;
      Drive(h, eventCount, l2, position + 1, items[1..])
  }

  lemma FirstOfBatch(h: HashFn, l: Loop, position: nat, cmd: Command, env: RecordEnv)
    requires l.batch.None?
    ensures Process(h, l, position, cmd, env) == Process(h, l.(batch := Some(NEW_BATCH)), position, cmd, env)
  {
    hide EventWritten;
  }

  // ----- start -----

  /** The state AuditRuntime::start hands to the writer thread: genesis written and synced. */
  function Started(h: HashFn, chainId: string, clock: u64): Loop {
    var c := ChainState(chainId, 0, GENESIS_HASH, 0, None);
    var w := EventWritten(h, Writer(c, [], 0, Clean, false, false), ChainStarted(), RecordEnv(Some(clock), Works)).w;
    Loop(w.(durable := |w.lines|), None, {}, {}, map[], map[], false)
  }

  // ----- the loop as it runs -----

  class WriterLoop {
    const hash: HashFn
    const chainId: string
    var nextSequence: u64
    var headHash: string
    var eventsSince: u64
    var lastCheckpoint: Option<u64>
    var lines: seq<Line>
    var durable: nat
    var residue: Residue
    var poisoned: bool
    var dirty: bool
    var failed: set<nat>
    var returned: set<nat>
    var results: map<nat, bool>
    ghost var placed: map<nat, nat>

    ghost function Sink(): Writer
      reads this
    {
      Writer(ChainState(chainId, nextSequence, headHash, eventsSince, lastCheckpoint), lines, durable, residue, poisoned, dirty)
    }

    ghost function View(batch: Option<Batch>, stopped: bool): Loop
      reads this
    {
      Loop(Sink(), batch, failed, returned, results, placed, stopped)
    }

    constructor (hash: HashFn, chainId: string, clock: u64)
      ensures View(None, false) == Started(hash, chainId, clock) && this.hash == hash
    {
      hide BodyFor, SerializedLen, EventWritten;
      this.hash := hash;
      this.chainId := chainId;
      nextSequence, headHash, eventsSince, lastCheckpoint := 0, GENESIS_HASH, 0, None;
      lines, durable, residue, poisoned, dirty := [], 0, Clean, false, false;
      failed, returned, results, placed := {}, {}, map[], map[];
      new;
      var ok := WriteEvent(ChainStarted(), RecordEnv(Some(clock), Works));
      durable := |lines|;
    }

    method WriteEvent(e: Event, env: RecordEnv) returns (ok: bool)
      modifies this`nextSequence, this`headHash, this`eventsSince, this`lines, this`residue
      ensures var r := EventWritten(hash, old(Sink()), e, env); Sink() == r.w && ok == r.ok
      ensures ok ==> env.clock.Some? && |lines| == old(|lines|) + 1 && old(lines) <= lines && lines[old(|lines|)].RecordLine?
      ensures ok ==> var r := lines[old(|lines|)].record;
        RecordsAt(r, e, env.clock.value) && r.body.chainId == chainId && r.body.sequence == old(nextSequence)
        && r.body.prevHash == old(headHash) && r.eventHash == hash(r.body)
    {
      hide BodyFor, SerializedLen, RecordsAt;
      if env.clock.None? { return false; }
      var body := BodyFor(chainId, nextSequence, env.clock.value, e, headHash);
      var record := Record(body, hash(body));
      BodyRecords(chainId, nextSequence, env.clock.value, e, headHash, record.eventHash);
      if SerializedLen(record) > RECORD_MAX_BYTES { return false; }
      if env.fault != Works {
        residue := ResidueOf(env.fault, RecordLine(record));
        return false;
      }
      lines := lines + [RecordLine(record)];
      headHash := record.eventHash;
      if nextSequence == U64_MAX { return false; }
      nextSequence := nextSequence + 1;
      if nextSequence > 1 {
        if eventsSince == U64_MAX { return false; }
        eventsSince := eventsSince + 1;
      }
      return true;
    }

    method AppendCheckpoint(env: EndEnv) returns (ok: bool)
      modifies this`eventsSince, this`lastCheckpoint, this`lines, this`residue
      ensures var r := CheckpointWritten(old(Sink()), env); Sink() == r.w && ok == r.ok
    {
      if env.clock.None? { return false; }
      var payload := PayloadFor(ChainState(chainId, nextSequence, headHash, eventsSince, lastCheckpoint), env.clock.value);
      if !env.signs { return false; }
      var line := CheckpointLine(payload, true);
      if env.fault != Works {
        residue := ResidueOf(env.fault, line);
        return false;
      }
      lines := lines + [line];
      eventsSince := 0;
      lastCheckpoint := Some(payload.lastSequence);
      return true;
    }

    /** The body of the inner loop: one command of the current batch. */
    method Receive(batch: Batch, position: nat, cmd: Command, env: RecordEnv) returns (batch': Batch)
      modifies this
      ensures View(Some(batch'), false) == Process(hash, old(View(Some(batch), false)), position, cmd, env)
    {
      hide EventWritten, RecordsAt;
      batch' := batch.(processed := batch.processed + 1);
      match cmd
      case RecordCmd(event, cell, standalone) =>
        if poisoned {
          failed := failed + {cell};
        } else {
          ghost var at := |lines|;
          var ok := WriteEvent(event, env);
          if !ok {
            failed := failed + {cell};
            poisoned := true;
          } else {
            dirty := true;
            placed := placed[position := at];
            batch' := batch'.(commit := batch'.commit || standalone);
          }
        }
      case BarrierCmd(cell) =>
        batch' := batch'.(barriers := batch'.barriers + [Pending(position, cell)], commit := true);
      case ShutdownCmd =>
        if batch'.shutdown.Some? { results := results[batch'.shutdown.value := false]; }
        batch' := batch'.(shutdown := Some(position), commit := true);
    }

    /** After the inner loop: a checkpoint when one is due, and one sync for the whole batch. */
    method Commit(batch: Batch, eventCount: u64, env: EndEnv) returns (commit: bool)
      modifies this`eventsSince, this`lastCheckpoint, this`lines, this`residue, this`poisoned, this`dirty, this`durable
      ensures var (w, c) := MaybeCheckpoint(old(Sink()), batch, eventCount, env);
        commit == c && Sink() == MaybeSync(w, c, env)
    {
      hide CheckpointWritten;
      commit := batch.commit;
      var last := if nextSequence == 0 then 0 else nextSequence - 1;
      var due := eventsSince > 0 && (eventsSince >= eventCount || (batch.shutdown.Some? && lastCheckpoint != Some(last)));
      if !poisoned && due {
        commit := true;
        var ok := AppendCheckpoint(env);
        if ok { dirty := true; } else { poisoned := true; }
      }
      if commit && dirty && !poisoned {
        if env.syncs { dirty, durable := false, |lines|; } else { poisoned := true; }
      }
    }

    /** Commits, releases every barrier of the batch and answers a shutdown. */
    method EndBatch(batch: Batch, eventCount: u64, env: EndEnv) returns (stopped: bool)
      modifies this
      ensures View(None, stopped) == Finish(old(View(Some(batch), false)), eventCount, env)
    {
      hide MaybeCheckpoint, MaybeSync, Cells, Positions;
      var commit := Commit(batch, eventCount, env);
      if poisoned || !commit { failed := failed + Cells(batch.barriers); }
      returned := returned + Positions(batch.barriers);
      if batch.shutdown.Some? { results := results[batch.shutdown.value := !poisoned]; }
      return batch.shutdown.Some?;
    }

    /** writer_loop_with_policy */
    method Run(eventCount: u64, items: seq<Item>) returns (stopped: bool)
      modifies this
      ensures View(None, stopped) == Drive(hash, eventCount, old(View(None, false)), 0, items)
    {
      hide Process, Finish, Capped;
      ghost var goal := Drive(hash, eventCount, View(None, false), 0, items);
      var i := 0;
      stopped := false;
      while i < |items| && !stopped
        invariant i <= |items|
        invariant Drive(hash, eventCount, View(None, stopped), i, items[i..]) == goal
        decreases |items| - i
      {
        var batch := NEW_BATCH;
        FirstOfBatch(hash, View(None, false), i, items[i].cmd, items[i].env);
        batch := Receive(batch, i, items[i].cmd, items[i].env);
        i := i + 1;
        while !(items[i - 1].empty || i == |items| || Capped(batch))
          invariant 0 < i <= |items|
          invariant BatchGoal(eventCount, batch, i, items, goal)
          decreases |items| - i
        {
          batch := Receive(batch, i, items[i].cmd, items[i].env);
          i := i + 1;
        }
        stopped := EndBatch(batch, eventCount, items[i - 1].end);
      }
    }

    /** In the middle of a batch, with items[..i] received. */
    ghost predicate BatchGoal(eventCount: u64, batch: Batch, i: nat, items: seq<Item>, goal: Loop)
      requires 0 < i <= |items|
      reads this
    {
      var l := View(Some(batch), false);
      var l' := if BatchEnds(l, items[i - 1..]) then Finish(l, eventCount, items[i - 1].end) else l;
      Drive(hash, eventCount, l', i, items[i..]) == goal
    }
  }
}
