/** Sequence numbers and checkpoints over whole runs of the audit writer. */
module AuditAccounting {
  import opened Text
  import opened AuditRecord
  import opened AuditWriter
  import opened AuditSystem

  // ----- reading the file -----

  function RecordsIn(lines: seq<Line>): seq<Record> {
    if lines == [] then []
    else
      var before, last := RecordsIn(lines[..|lines| - 1]), lines[|lines| - 1];
      if last.RecordLine? then before + [last.record] else before
  }

  /** Records after the last checkpoint, the genesis record not counted. */
  function Since(lines: seq<Line>): nat {
    if lines == [] then 0
    else
      var front, last := lines[..|lines| - 1], lines[|lines| - 1];
      match last
      case RecordLine(_) => if RecordsIn(front) == [] then 0 else Since(front) + 1
      case CheckpointLine(_, _) => 0
      case Unreadable => Since(front)
  }

  /** The file as the process leaves it. */
  function FileLines(w: Writer): seq<Line> {
    match w.residue
    case Clean => w.lines
    case Partial => w.lines + [Unreadable]
    case Whole(line) => w.lines + [line]
  }

  lemma AppendLine(lines: seq<Line>, line: Line)
    ensures RecordsIn(lines + [line]) == if line.RecordLine? then RecordsIn(lines) + [line.record] else RecordsIn(lines)
    ensures Since(lines + [line]) == match line
      case RecordLine(_) => if RecordsIn(lines) == [] then 0 else Since(lines) + 1
      case CheckpointLine(_, _) => 0
      case Unreadable => Since(lines)
  {
    assert (lines + [line])[..|lines|] == lines;
  }

  // ----- the invariant on the writer -----

  /** Records are numbered 0, 1, 2, ... in file order. */
  predicate Numbered(rs: seq<Record>) { forall k :: 0 <= k < |rs| ==> rs[k].body.sequence == k }

  /** The record numbered 2^64 - 1 is on file and no further number exists. */
  predicate Exhausted(w: Writer) {
    w.poisoned && w.chain.nextSequence == U64_MAX && |RecordsIn(w.lines)| == U64_MAX + 1
  }

  function CheckpointedUpTo(c: ChainState): nat { if c.lastCheckpoint.Some? then c.lastCheckpoint.value else 0 }

  predicate EndsCovered(w: Writer) {
    && w.lines != []
    && var last := w.lines[|w.lines| - 1];
    && last.CheckpointLine? && last.genuine
    && last.payload.chainId == w.chain.chainId
    && last.payload.lastSequence == LastSequence(w.chain) && last.payload.headHash == w.chain.headHash
  }

  predicate Accounts(w: Writer) {
    && RecordsIn(w.lines) != [] && w.chain.nextSequence >= 1
    && Numbered(RecordsIn(FileLines(w)))
    && (|RecordsIn(w.lines)| == w.chain.nextSequence || Exhausted(w))
    && (w.residue != Clean ==> w.poisoned)
    && (!w.poisoned ==>
          && w.chain.eventsSince == Since(w.lines)
          && w.chain.nextSequence - 1 == CheckpointedUpTo(w.chain) + w.chain.eventsSince
          && (w.chain.eventsSince == 0 && |w.lines| > 1 ==> EndsCovered(w)))
  }

  lemma EventAccounts(h: HashFn, w: Writer, e: Event, env: RecordEnv)
    requires Accounts(w) && !w.poisoned
    ensures var r := EventWritten(h, w, e, env); Accounts(r.w.(poisoned := !r.ok))
    ensures var r := EventWritten(h, w, e, env); Since(r.w.lines) <= Since(w.lines) + 1
  {
    hide SerializedLen, BodyFor, RecordsIn, Since, NextBody, EndsCovered;
    var r := EventWritten(h, w, e, env);
    if env.clock.Some? {
      var rec := NextRecord(h, w.chain, env.clock.value, e);
      assert rec.body.sequence == w.chain.nextSequence by { BodySequence(w.chain, env.clock.value, e); }
      AppendLine(w.lines, RecordLine(rec));
      AppendLine(w.lines, Unreadable);
    }
  }

  lemma BodySequence(c: ChainState, clock: u64, e: Event)
    ensures NextBody(c, clock, e).sequence == c.nextSequence
  {
  }

  lemma CheckpointAccounts(w: Writer, env: EndEnv)
    requires Accounts(w) && !w.poisoned
    ensures var r := CheckpointWritten(w, env); Accounts(r.w.(poisoned := !r.ok))
    ensures var r := CheckpointWritten(w, env); r.ok ==> Since(r.w.lines) == 0 && r.w.chain.eventsSince == 0
    ensures var r := CheckpointWritten(w, env); !r.ok ==> r.w.lines == w.lines
  {
    hide RecordsIn, Since;
    if env.clock.Some? {
      AppendLine(w.lines, CheckpointLine(PayloadFor(w.chain, env.clock.value), true));
      AppendLine(w.lines, Unreadable);
    }
  }

  lemma ProcessAccounts(h: HashFn, l: Loop, position: nat, cmd: Command, env: RecordEnv)
    requires Accounts(l.w)
    ensures var l' := Process(h, l, position, cmd, env);
      Accounts(l'.w) && (l'.w.lines == l.w.lines || (|l'.w.lines| == |l.w.lines| + 1 && Since(l'.w.lines) <= Since(l.w.lines) + 1))
  {
    hide EventWritten, Since, RecordsIn;
    if cmd.RecordCmd? && !l.w.poisoned {
      EventAccounts(h, l.w, cmd.event, env);
      EventEffect(h, l.w, cmd.event, env);
      var r := EventWritten(h, l.w, cmd.event, env);
      DirtyIrrelevant(r.w.(poisoned := !r.ok), Process(h, l, position, cmd, env).w);
    }
  }

  lemma DirtyIrrelevant(w: Writer, w': Writer)
    requires Accounts(w) && w'.chain == w.chain && w'.lines == w.lines && w'.residue == w.residue
    requires w.poisoned ==> w'.poisoned
    ensures Accounts(w')
  {
  }

  lemma FinishAccounts(l: Loop, ec: u64, env: EndEnv)
    requires Accounts(l.w)
    ensures var l' := Finish(l, ec, env);
      && Accounts(l'.w)
      && (!l'.w.poisoned ==> Since(l'.w.lines) == 0 || Since(l'.w.lines) < ec)
      && (!l'.w.poisoned && OpenBatch(l).shutdown.Some? ==> l'.w.chain.eventsSince == 0)
      && (l'.w.lines == l.w.lines || (|l'.w.lines| == |l.w.lines| + 1 && Since(l'.w.lines) == 0))
  {
    hide CheckpointWritten, Since, RecordsIn, EndsCovered;
    var b := OpenBatch(l);
    var (w1, commit) := MaybeCheckpoint(l.w, b, ec, env);
    if !l.w.poisoned && CheckpointDue(l.w.chain, b, ec) {
      CheckpointAccounts(l.w, env);
      CheckpointLength(l.w, env);
      var r := CheckpointWritten(l.w, env);
      DirtyIrrelevant(r.w.(poisoned := !r.ok), w1);
    }
    assert Accounts(w1);
    DirtyIrrelevant(w1, MaybeSync(w1, commit, env));
  }

  lemma CheckpointLength(w: Writer, env: EndEnv)
    ensures var r := CheckpointWritten(w, env); r.ok ==> |r.w.lines| == |w.lines| + 1
  {
  }

  // ----- over runs -----

  predicate NoShutdown(s: System)
    requires s.served <= |s.log|
  {
    forall q :: 0 <= q < s.served ==> !s.log[q].ShutdownCmd?
  }

  function AtLeastOne(n: nat): nat { if n == 0 then 1 else n }

  /** No prefix of the file has more than `limit` records after its last checkpoint. */
  predicate GapsWithin(lines: seq<Line>, limit: nat) {
    forall n :: 0 <= n <= |lines| ==> Since(lines[..n]) <= limit
  }

  ghost predicate GapInv(s: System, ec: u64)
    requires s.served <= |s.log|
  {
    NoShutdown(s) ==>
      && GapsWithin(s.loop.w.lines, AtLeastOne(ec) + 255)
      && OpenBatch(s.loop).shutdown.None? && OpenBatch(s.loop).processed <= GROUP_COMMIT_MAX
      && (!s.loop.w.poisoned ==> Since(s.loop.w.lines) < AtLeastOne(ec) + OpenBatch(s.loop).processed)
  }

  /** A shutdown that succeeded left everything synced and nothing after the last checkpoint. */
  predicate ShutdownInv(s: System) {
    && (OpenBatch(s.loop).shutdown.Some? ==> OpenBatch(s.loop).commit && OpenBatch(s.loop).shutdown.value < s.served)
    && (forall p :: p in s.loop.results && s.loop.results[p] ==> s.loop.stopped && p < s.served)
    && ((exists p :: p in s.loop.results && s.loop.results[p]) ==>
          !s.loop.w.poisoned && s.loop.w.durable == |s.loop.w.lines| && s.loop.w.chain.eventsSince == 0)
  }

  ghost predicate AccountInv(s: System, ec: u64) {
    Inv(s) && Accounts(s.loop.w) && GapInv(s, ec) && ShutdownInv(s)
  }

  lemma GapsAppend(lines: seq<Line>, lines': seq<Line>, limit: nat)
    requires GapsWithin(lines, limit) && lines <= lines' && |lines'| <= |lines| + 1 && Since(lines') <= limit
    ensures GapsWithin(lines', limit)
  {
    forall n | 0 <= n <= |lines'| ensures Since(lines'[..n]) <= limit {
      if n <= |lines| { assert lines'[..n] == lines[..n]; } else { assert lines'[..n] == lines'; }
    }
  }

  lemma TakeAccounts(h: HashFn, ec: u64, s: System, env: RecordEnv)
    requires AccountInv(s, ec)
    ensures var s' := Step(h, ec, s, Take(env)); s'.served <= |s'.log| && Accounts(s'.loop.w) && GapInv(s', ec) && ShutdownInv(s')
  {
    hide Process, Since, RecordsIn, Accounts, Placement, ConfirmedDurable, BarrierPlaces;
    if CanTake(s) {
      var cmd, s' := s.log[s.taken], Step(h, ec, s, Take(env));
      ProcessEffect(h, s.loop, s.taken, cmd, env);
      ProcessAccounts(h, s.loop, s.taken, cmd, env);
      if NoShutdown(s') {
        assert NoShutdown(s);
        assert !cmd.ShutdownCmd?;
        GapsStep(s, s', ec);
      }
    }
  }

  lemma GapsStep(s: System, s': System, ec: u64)
    requires GapsWithin(s.loop.w.lines, AtLeastOne(ec) + 255) && Grew(s.loop.w, s'.loop.w)
    requires !s.loop.w.poisoned ==> Since(s.loop.w.lines) < AtLeastOne(ec) + OpenBatch(s.loop).processed
    requires OpenBatch(s.loop).processed < GROUP_COMMIT_MAX
    requires s'.loop.w.lines == s.loop.w.lines
      || (|s'.loop.w.lines| == |s.loop.w.lines| + 1 && Since(s'.loop.w.lines) <= Since(s.loop.w.lines) + 1)
    ensures GapsWithin(s'.loop.w.lines, AtLeastOne(ec) + 255)
  {
    hide Since;
    if s'.loop.w.lines != s.loop.w.lines {
      GapsAppend(s.loop.w.lines, s'.loop.w.lines, AtLeastOne(ec) + 255);
    }
  }

  lemma EndAccounts(h: HashFn, ec: u64, s: System, env: EndEnv)
    requires AccountInv(s, ec)
    ensures var s' := Step(h, ec, s, End(env)); s'.served <= |s'.log| && Accounts(s'.loop.w) && GapInv(s', ec) && ShutdownInv(s')
  {
    hide Finish, Since, RecordsIn, Accounts, Placement, ConfirmedDurable, BarrierPlaces, Capped;
    if s.sealed {
      var s' := Step(h, ec, s, End(env));
      FinishEffect(s.loop, ec, env);
      FinishAccounts(s.loop, ec, env);
      if NoShutdown(s') && s'.loop.w.lines != s.loop.w.lines {
        GapsAppend(s.loop.w.lines, s'.loop.w.lines, AtLeastOne(ec) + 255);
      }
    }
  }

  lemma QuietAccounts(s: System, s': System, ec: u64)
    requires AccountInv(s, ec) && Quiet(s, s')
    ensures s'.served <= |s'.log| && Accounts(s'.loop.w) && GapInv(s', ec) && ShutdownInv(s')
  {
    hide Since, RecordsIn, Accounts, Placement, ConfirmedDurable, BarrierPlaces;
    if NoShutdown(s') { assert NoShutdown(s); }
  }

  lemma StepAccounts(h: HashFn, ec: u64, s: System, act: Action)
    requires AccountInv(s, ec)
    ensures AccountInv(Step(h, ec, s, act), ec)
  {
    hide Step, Accounts, GapInv, ShutdownInv, Quiet, Placement, ConfirmedDurable, BarrierPlaces;
    StepKeepsInv(h, ec, s, act);
    match act
    case Take(env) => TakeAccounts(h, ec, s, env);
    case End(env) => EndAccounts(h, ec, s, env);
    case _ => CallsAreQuiet(h, ec, s, act); QuietAccounts(s, Step(h, ec, s, act), ec);
  }

  lemma {:induction false} RunAccounts(h: HashFn, ec: u64, s: System, acts: seq<Action>)
    requires AccountInv(s, ec)
    ensures s.taken <= |s.log| && AccountInv(Run(h, ec, s, acts), ec)
    decreases |acts|
  {
    hide AccountInv, Step;
    AccountBound(s, ec);
    if acts != [] {
      StepAccounts(h, ec, s, acts[0]);
      RunAccounts(h, ec, Step(h, ec, s, acts[0]), acts[1..]);
    }
  }

  lemma AccountBound(s: System, ec: u64)
    requires AccountInv(s, ec)
    ensures s.served <= s.taken <= |s.log|
  {
  }

  lemma StartAccounts(h: HashFn, ec: u64, chainId: string, clock: u64)
    requires HashesAreHex(h) && ChainIdOk(chainId)
    ensures AccountInv(Initial(h, chainId, clock), ec)
  {
    hide SerializedLen, BodyFor;
    StartKeepsInv(h, chainId, clock);
    FixedLengths();
    WriterRecordsFit(h, chainId, 0, clock, ChainStarted(), GENESIS_HASH);
    var c := ChainState(chainId, 0, GENESIS_HASH, 0, None);
    BodySequence(c, clock, ChainStarted());
    var line := RecordLine(NextRecord(h, c, clock, ChainStarted()));
    AppendLine([], line);
    assert [] + [line] == [line] == Initial(h, chainId, clock).loop.w.lines;
    assert forall n :: 0 <= n <= 1 ==> [line][..n] == [] || [line][..n] == [line];
  }

  // ----- theorems -----

  /** Whatever happens, the records in the file, a torn last write included, are numbered 0 .. n-1. */
  lemma SequenceNeverReused(h: HashFn, ec: u64, chainId: string, clock: u64, acts: seq<Action>)
    requires HashesAreHex(h) && ChainIdOk(chainId)
    ensures var w := Run(h, ec, Initial(h, chainId, clock), acts).loop.w;
      && Numbered(RecordsIn(FileLines(w)))
      && (!w.poisoned ==> w.chain.nextSequence == |RecordsIn(w.lines)|
                          && w.chain.nextSequence - 1 == CheckpointedUpTo(w.chain) + w.chain.eventsSince
                          && w.chain.eventsSince == Since(w.lines))
  {
    hide Run, Initial, FileLines, RecordsIn, Since;
    StartAccounts(h, ec, chainId, clock);
    RunAccounts(h, ec, Initial(h, chainId, clock), acts);
  }

  /** Before any shutdown, no stretch of the file goes without a checkpoint for longer than event_count + 255 records. */
  lemma CheckpointsKeepUp(h: HashFn, ec: u64, chainId: string, clock: u64, acts: seq<Action>)
    requires HashesAreHex(h) && ChainIdOk(chainId) && ec >= 1
    requires var s := Run(h, ec, Initial(h, chainId, clock), acts); s.served <= |s.log| && NoShutdown(s)
    ensures GapsWithin(Run(h, ec, Initial(h, chainId, clock), acts).loop.w.lines, ec + 255)
  {
    hide Run, Initial, GapsWithin, Since;
    StartAccounts(h, ec, chainId, clock);
    RunAccounts(h, ec, Initial(h, chainId, clock), acts);
  }

  /**
    * A successful shutdown has served every command queued before it, and leaves the whole file
    * synced and its head under a checkpoint unless only genesis exists.
    */
  lemma ShutdownCoversHead(h: HashFn, ec: u64, chainId: string, clock: u64, acts: seq<Action>, p: nat)
    requires HashesAreHex(h) && ChainIdOk(chainId)
    requires var s := Run(h, ec, Initial(h, chainId, clock), acts); p in s.loop.results && s.loop.results[p]
    ensures var s := Run(h, ec, Initial(h, chainId, clock), acts);
      && s.loop.stopped && p < s.served && s.loop.w.durable == |s.loop.w.lines|
      && (|s.loop.w.lines| == 1 || EndsCovered(s.loop.w))
  {
    hide Run, Initial, Since, EndsCovered;
    StartAccounts(h, ec, chainId, clock);
    RunAccounts(h, ec, Initial(h, chainId, clock), acts);
    var s := Run(h, ec, Initial(h, chainId, clock), acts);
    assert RecordsIn(s.loop.w.lines) != [];
  }
}
