/** The verifier accepts what the writer wrote, and reports the writer's own final state. */
module AuditAgreement {
  import opened Text
  import opened AuditRecord
  import opened AuditWriter
  import opened AuditSystem
  import opened AuditAccounting
  import opened AuditProvenance
  import opened AuditVerifier

  // ----- what the verifier will say about a file -----

  /** An event the verifier can take: name and outcome keep a character, and it does not claim to start a chain. */
  predicate GoodEvent(e: Event) {
    Sanitize(e.event) != "" && Sanitize(e.outcome) != "" && Sanitize(e.event) != GENESIS_EVENT
  }

  predicate GoodRecord(r: Record) { r.body.event != "" && r.body.outcome != "" && !IsGenesis(r) }

  predicate GoodLine(line: Line) { !line.Unreadable? && (line.RecordLine? ==> GoodRecord(line.record)) }

  predicate GoodAfterGenesis(lines: seq<Line>) { forall i :: 1 <= i < |lines| ==> GoodLine(lines[i]) }

  function CheckpointsIn(lines: seq<Line>): seq<Payload> {
    if lines == [] then []
    else
      var before, last := CheckpointsIn(lines[..|lines| - 1]), lines[|lines| - 1];
      if last.CheckpointLine? then before + [last.payload] else before
  }

  /** The writer's state, in the terms of the verifier's summary. */
  function SummaryOf(w: Writer): Chain {
    var ps, n := CheckpointsIn(w.lines), |RecordsIn(w.lines)|;
    Chain(w.chain.chainId, Saturated(n), if n == 0 then 0 else Saturated(n - 1), w.chain.headHash, Saturated(|ps|),
          w.chain.lastCheckpoint, if ps == [] then None else Some(ps[|ps| - 1].headHash))
  }

  /** The summary after one more line. */
  function WithLine(c: Chain, line: Line): Chain {
    match line
    case RecordLine(r) => c.(records := SaturatingNext(c.records), lastSequence := r.body.sequence, headHash := r.eventHash)
    case CheckpointLine(p, _) => c.(checkpoints := SaturatingNext(c.checkpoints),
                                    lastCheckpointSequence := Some(p.lastSequence), lastCheckpointHead := Some(p.headHash))
    case Unreadable => c
  }

  /** The writer's state and, when a write reported as failed did reach the file, the line it left. */
  function Reported(w: Writer): Chain {
    if w.residue.Whole? then WithLine(SummaryOf(w), w.residue.line) else SummaryOf(w)
  }

  lemma AppendCheckpointLine(lines: seq<Line>, line: Line)
    ensures CheckpointsIn(lines + [line]) == if line.CheckpointLine? then CheckpointsIn(lines) + [line.payload] else CheckpointsIn(lines)
  {
    assert (lines + [line])[..|lines|] == lines;
  }

  // ----- the invariant -----

  /** The lines are a genesis record followed by records and genuine checkpoints. */
  predicate FileShape(h: HashFn, w: Writer) {
    && ChainIdOk(w.chain.chainId) && HashHex(w.chain.headHash)
    && w.lines != [] && w.lines[0].RecordLine? && RecordOk(h, w.lines[0].record)
    && IsGenesis(w.lines[0].record) && GenesisOk(w.lines[0].record)
    && forall i :: 1 <= i < |w.lines| ==> LaterLine(w.lines[i])
  }

  predicate LaterLine(line: Line) {
    || (line.RecordLine? && line.record.body.sequence > 0)
    || (line.CheckpointLine? && line.genuine)
  }

  /** Replaying the lines from any state opens a chain with the writer's summary. */
  ghost predicate Verifies(h: HashFn, s: Replay, w: Writer) {
    GoodAfterGenesis(w.lines) ==> ReplayAll(h, s, w.lines) == Some(Replay(Finished(s), Some(SummaryOf(w))))
  }

  /** A line that was written although the write was reported as failed is the line that was due next. */
  ghost predicate ResidueIsNext(h: HashFn, w: Writer) {
    w.residue.Whole? ==> |RecordsIn(w.lines)| == w.chain.nextSequence && NextLine(h, w.chain, w.residue.line)
  }

  ghost predicate NextLine(h: HashFn, c: ChainState, line: Line) {
    || (exists clock: u64, e: Event :: line == RecordLine(NextRecord(h, c, clock, e)))
    || (exists clock: u64 :: line == CheckpointLine(PayloadFor(c, clock), true))
  }

  ghost predicate Faithful(h: HashFn, s: Replay, w: Writer) {
    FileShape(h, w) && Verifies(h, s, w) && ResidueIsNext(h, w)
  }

  // ----- one more line -----

  lemma NextRecordReplays(h: HashFn, s: Replay, w: Writer, clock: u64, e: Event)
    requires HashesAreHex(h) && FileShape(h, w) && Accounts(w) && |RecordsIn(w.lines)| == w.chain.nextSequence
    requires s.current == Some(SummaryOf(w))
    requires var r := NextRecord(h, w.chain, clock, e); GoodRecord(r)
    ensures var r := NextRecord(h, w.chain, clock, e);
      ReplayLine(h, s, RecordLine(r)) ==
        Some(s.(current := Some(SummaryOf(w).(records := Saturated(w.chain.nextSequence + 1),
                                             lastSequence := w.chain.nextSequence, headHash := r.eventHash))))
  {
    hide RecordOk, RecordsIn, CheckpointsIn, FileLines, Sanitize, EndsCovered, Numbered;
    WriterRecordsValidate(h, w.chain.chainId, w.chain.nextSequence, clock, e, w.chain.headHash);
  }

  lemma NextCheckpointReplays(h: HashFn, s: Replay, w: Writer, clock: u64)
    requires FileShape(h, w) && Accounts(w) && |RecordsIn(w.lines)| == w.chain.nextSequence
    requires s.current == Some(SummaryOf(w))
    ensures var p := PayloadFor(w.chain, clock);
      ReplayLine(h, s, CheckpointLine(p, true)) ==
        Some(s.(current := Some(SummaryOf(w).(checkpoints := SaturatingNext(SummaryOf(w).checkpoints),
                                             lastCheckpointSequence := Some(p.lastSequence), lastCheckpointHead := Some(p.headHash)))))
  {
    hide RecordOk, RecordsIn, CheckpointsIn, FileLines, EndsCovered, Numbered, PayloadOk, PayloadFor, ParsesAsU64;
    PayloadFields(w.chain, clock);
    PayloadIsOk(w.chain, clock);
  }

  lemma ReplaySnoc(h: HashFn, s: Replay, lines: seq<Line>, line: Line)
    ensures var before := ReplayAll(h, s, lines);
      ReplayAll(h, s, lines + [line]) == if before.None? then None else ReplayLine(h, before.value, line)
  {
    assert (lines + [line])[..|lines|] == lines;
  }

  lemma GoodPrefix(lines: seq<Line>, line: Line)
    requires lines != [] && GoodAfterGenesis(lines + [line])
    ensures GoodAfterGenesis(lines) && GoodLine(line)
  {
    assert forall i :: 1 <= i < |lines| ==> (lines + [line])[i] == lines[i];
    assert (lines + [line])[|lines|] == line;
  }

  /** The only ways write_event leaves the writer. */
  lemma EventCases(h: HashFn, w: Writer, e: Event, env: RecordEnv)
    ensures var w' := EventWritten(h, w, e, env).w;
      || w' == w
      || (env.clock.Some? && env.fault != Works && w' == w.(residue := ResidueOf(env.fault, RecordLine(NextRecord(h, w.chain, env.clock.value, e)))))
      || (env.clock.Some? && Appended(w, w', NextRecord(h, w.chain, env.clock.value, e)))
  {
    hide SerializedLen, NextRecord;
  }

  predicate Appended(w: Writer, w': Writer, r: Record) {
    && w'.lines == w.lines + [RecordLine(r)] && w'.residue == w.residue
    && w'.chain.chainId == w.chain.chainId && w'.chain.headHash == r.eventHash && w'.chain.lastCheckpoint == w.chain.lastCheckpoint
  }

  lemma ShapeGrows(h: HashFn, w: Writer, w': Writer, line: Line)
    requires FileShape(h, w) && LaterLine(line) && w'.lines == w.lines + [line]
    requires w'.chain.chainId == w.chain.chainId && HashHex(w'.chain.headHash)
    ensures FileShape(h, w')
  {
    hide RecordOk, HashHex, ChainIdOk, IsGenesis, GenesisOk, LaterLine;
  }

  lemma AppendedFaithful(h: HashFn, s: Replay, w: Writer, w': Writer, clock: u64, e: Event)
    requires HashesAreHex(h) && Faithful(h, s, w) && Accounts(w) && !w.poisoned
    requires Appended(w, w', NextRecord(h, w.chain, clock, e))
    ensures Faithful(h, s, w')
  {
    hide RecordsIn, CheckpointsIn, FileLines, EndsCovered, Numbered, NextBody, ReplayAll, ReplayLine, GoodAfterGenesis, FileShape, HashHex;
    var r := NextRecord(h, w.chain, clock, e);
    var line := RecordLine(r);
    BodySequence(w.chain, clock, e);
    assert HashHex(h(r.body));
    ShapeFacts(h, w);
    ShapeGrows(h, w, w', line);
    AppendLine(w.lines, line);
    AppendCheckpointLine(w.lines, line);
    if GoodAfterGenesis(w'.lines) {
      GoodPrefix(w.lines, line);
      ReplaySnoc(h, s, w.lines, line);
      NextRecordReplays(h, Replay(Finished(s), Some(SummaryOf(w))), w, clock, e);
    }
  }

  lemma EventFaithful(h: HashFn, s: Replay, w: Writer, e: Event, env: RecordEnv)
    requires HashesAreHex(h) && Faithful(h, s, w) && Accounts(w) && !w.poisoned
    ensures Faithful(h, s, EventWritten(h, w, e, env).w)
  {
    hide EventWritten, RecordOk, RecordsIn, CheckpointsIn, ReplayAll, GoodAfterGenesis, NextRecord, FileLines, EndsCovered, Numbered;
    var w' := EventWritten(h, w, e, env).w;
    EventCases(h, w, e, env);
    if env.clock.Some? {
      if Appended(w, w', NextRecord(h, w.chain, env.clock.value, e)) {
        AppendedFaithful(h, s, w, w', env.clock.value, e);
      } else if w' != w {
        assert NextLine(h, w.chain, RecordLine(NextRecord(h, w.chain, env.clock.value, e)));
      }
    }
  }

  lemma PayloadFields(c: ChainState, clock: u64)
    ensures var p := PayloadFor(c, clock); p.chainId == c.chainId && p.lastSequence == LastSequence(c) && p.headHash == c.headHash
  {
  }

  lemma PayloadIsOk(c: ChainState, clock: u64)
    requires ChainIdOk(c.chainId) && HashHex(c.headHash)
    ensures PayloadOk(PayloadFor(c, clock))
  {
    hide Decimal;
    ClockText(clock);
  }

  /** The only ways append_checkpoint leaves the writer. */
  lemma CheckpointCases(w: Writer, env: EndEnv)
    ensures var w' := CheckpointWritten(w, env).w;
      || w' == w
      || (env.clock.Some? && env.fault != Works && w' == w.(residue := ResidueOf(env.fault, CheckpointLine(PayloadFor(w.chain, env.clock.value), true))))
      || (env.clock.Some? && Checkpointed(w, w', PayloadFor(w.chain, env.clock.value)))
  {
    hide PayloadFor;
  }

  predicate Checkpointed(w: Writer, w': Writer, p: Payload) {
    && w'.lines == w.lines + [CheckpointLine(p, true)] && w'.residue == w.residue
    && w'.chain == w.chain.(eventsSince := 0, lastCheckpoint := Some(LastSequence(w.chain)))
  }

  lemma ShapeFacts(h: HashFn, w: Writer)
    requires FileShape(h, w)
    ensures HashHex(w.chain.headHash) && w.lines != []
  {
    hide HashHex, RecordOk, IsGenesis, GenesisOk, ChainIdOk;
  }

  lemma CheckpointedFaithful(h: HashFn, s: Replay, w: Writer, w': Writer, clock: u64)
    requires HashesAreHex(h) && Faithful(h, s, w) && Accounts(w) && !w.poisoned
    requires Checkpointed(w, w', PayloadFor(w.chain, clock))
    ensures Faithful(h, s, w')
  {
    hide RecordsIn, CheckpointsIn, FileLines, EndsCovered, Numbered, ReplayAll, ReplayLine, GoodAfterGenesis, PayloadFor, FileShape;
    PayloadFields(w.chain, clock);
    var line := CheckpointLine(PayloadFor(w.chain, clock), true);
    ShapeFacts(h, w);
    ShapeGrows(h, w, w', line);
    AppendLine(w.lines, line);
    AppendCheckpointLine(w.lines, line);
    if GoodAfterGenesis(w'.lines) {
      GoodPrefix(w.lines, line);
      ReplaySnoc(h, s, w.lines, line);
      NextCheckpointReplays(h, Replay(Finished(s), Some(SummaryOf(w))), w, clock);
    }
  }

  lemma CheckpointFaithful(h: HashFn, s: Replay, w: Writer, env: EndEnv)
    requires HashesAreHex(h) && Faithful(h, s, w) && Accounts(w) && !w.poisoned
    ensures Faithful(h, s, CheckpointWritten(w, env).w)
  {
    hide CheckpointWritten, RecordOk, RecordsIn, CheckpointsIn, ReplayAll, GoodAfterGenesis, PayloadFor, FileLines, EndsCovered, Numbered;
    var w' := CheckpointWritten(w, env).w;
    CheckpointCases(w, env);
    if env.clock.Some? {
      if Checkpointed(w, w', PayloadFor(w.chain, env.clock.value)) {
        CheckpointedFaithful(h, s, w, w', env.clock.value);
      } else if w' != w {
        assert NextLine(h, w.chain, CheckpointLine(PayloadFor(w.chain, env.clock.value), true));
      }
    }
  }

  // ----- over runs -----

  lemma FaithfulSame(h: HashFn, s: Replay, w: Writer, w': Writer)
    requires Faithful(h, s, w) && w'.chain == w.chain && w'.lines == w.lines && w'.residue == w.residue
    ensures Faithful(h, s, w')
  {
    hide RecordOk, ReplayAll, HashHex, ChainIdOk, IsGenesis, GenesisOk, LaterLine, NextLine, RecordsIn, GoodAfterGenesis;
  }

  lemma ProcessFaithful(h: HashFn, s: Replay, l: Loop, position: nat, cmd: Command, env: RecordEnv)
    requires HashesAreHex(h) && Faithful(h, s, l.w) && Accounts(l.w)
    ensures Faithful(h, s, Process(h, l, position, cmd, env).w)
  {
    hide EventWritten, Faithful, Accounts;
    var l' := Process(h, l, position, cmd, env);
    if cmd.RecordCmd? && !l.w.poisoned {
      EventFaithful(h, s, l.w, cmd.event, env);
      FaithfulSame(h, s, EventWritten(h, l.w, cmd.event, env).w, l'.w);
    }
  }

  lemma FinishFaithful(h: HashFn, s: Replay, l: Loop, ec: u64, env: EndEnv)
    requires HashesAreHex(h) && Faithful(h, s, l.w) && Accounts(l.w)
    ensures Faithful(h, s, Finish(l, ec, env).w)
  {
    hide CheckpointWritten, Faithful, Accounts;
    var l' := Finish(l, ec, env);
    if !l.w.poisoned && CheckpointDue(l.w.chain, OpenBatch(l), ec) {
      CheckpointFaithful(h, s, l.w, env);
      FaithfulSame(h, s, CheckpointWritten(l.w, env).w, l'.w);
    } else {
      FaithfulSame(h, s, l.w, l'.w);
    }
  }

  lemma StepFaithful(h: HashFn, ec: u64, t: Replay, s: System, act: Action)
    requires HashesAreHex(h) && AccountInv(s, ec) && Faithful(h, t, s.loop.w)
    ensures s.taken <= |s.log| && Faithful(h, t, Step(h, ec, s, act).loop.w)
  {
    hide Process, Finish, Faithful, Accounts, Placement, ConfirmedDurable, BarrierPlaces, GapInv, ShutdownInv, WriterSound;
    match act
    case Take(env) =>
      if s.taken < |s.log| { ProcessFaithful(h, t, s.loop, s.taken, s.log[s.taken], env); }
    case End(env) => FinishFaithful(h, t, s.loop, ec, env);
    case _ => CallsAreQuiet(h, ec, s, act);
  }

  lemma {:induction false} RunFaithful(h: HashFn, ec: u64, t: Replay, s: System, acts: seq<Action>)
    requires HashesAreHex(h) && AccountInv(s, ec) && Faithful(h, t, s.loop.w)
    ensures s.taken <= |s.log| && Faithful(h, t, Run(h, ec, s, acts).loop.w)
    decreases |acts|
  {
    hide AccountInv, Step, Faithful;
    AccountBound(s, ec);
    if acts != [] {
      StepFaithful(h, ec, t, s, acts[0]);
      StepAccounts(h, ec, s, acts[0]);
      RunFaithful(h, ec, t, Step(h, ec, s, acts[0]), acts[1..]);
    }
  }

  lemma GenesisFields(h: HashFn, chainId: string, clock: u64)
    requires HashesAreHex(h) && ChainIdOk(chainId)
    ensures var r := NextRecord(h, ChainState(chainId, 0, GENESIS_HASH, 0, None), clock, ChainStarted());
      RecordOk(h, r) && IsGenesis(r) && GenesisOk(r) && r.body.chainId == chainId && HashHex(r.eventHash)
  {
    hide RecordOk, Decimal, Sanitize, ChainIdOk, HashHex;
    var e := ChainStarted();
    FixedLengths();
    StartText();
    WriterRecordsValidate(h, chainId, 0, clock, e, GENESIS_HASH);
    assert HashHex(h(BodyFor(chainId, 0, clock, e, GENESIS_HASH)));
  }

  lemma StartWriter(h: HashFn, chainId: string, clock: u64)
    requires HashesAreHex(h) && ChainIdOk(chainId)
    ensures var r := NextRecord(h, ChainState(chainId, 0, GENESIS_HASH, 0, None), clock, ChainStarted());
      Initial(h, chainId, clock).loop.w == Writer(ChainState(chainId, 1, r.eventHash, 0, None), [RecordLine(r)], 1, Clean, false, false)
  {
    hide SerializedLen, BodyFor;
    FixedLengths();
    WriterRecordsFit(h, chainId, 0, clock, ChainStarted(), GENESIS_HASH);
  }

  lemma GenesisReplays(h: HashFn, t: Replay, r: Record)
    requires RecordOk(h, r) && IsGenesis(r) && GenesisOk(r)
    ensures ReplayAll(h, t, [RecordLine(r)]) == Some(Replay(Finished(t), Some(GenesisChain(r))))
  {
    hide RecordOk, IsGenesis, GenesisOk;
    ReplaySnoc(h, t, [], RecordLine(r));
    assert [] + [RecordLine(r)] == [RecordLine(r)];
  }

  lemma StartFaithful(h: HashFn, t: Replay, chainId: string, clock: u64)
    requires HashesAreHex(h) && ChainIdOk(chainId)
    ensures Faithful(h, t, Initial(h, chainId, clock).loop.w)
  {
    hide RecordOk, Initial, NextRecord, IsGenesis, GenesisOk, ReplayAll, HashHex, ChainIdOk;
    var r := NextRecord(h, ChainState(chainId, 0, GENESIS_HASH, 0, None), clock, ChainStarted());
    StartWriter(h, chainId, clock);
    GenesisFields(h, chainId, clock);
    GenesisReplays(h, t, r);
    AppendLine([], RecordLine(r));
    AppendCheckpointLine([], RecordLine(r));
    assert [] + [RecordLine(r)] == [RecordLine(r)];
  }

  // ----- one file, and several -----

  /** w is the final state of some run of the audit system, under any policy, calls and faults. */
  ghost predicate FromRun(h: HashFn, w: Writer) {
    exists ec: u64, chainId, clock: u64, acts :: ChainIdOk(chainId) && w == Run(h, ec, Initial(h, chainId, clock), acts).loop.w
  }

  lemma RunsAreFaithful(h: HashFn, t: Replay, w: Writer)
    requires HashesAreHex(h) && FromRun(h, w)
    ensures Faithful(h, t, w) && Accounts(w)
  {
    hide Run, Started, Faithful, Accounts;
    var ec: u64, chainId, clock: u64, acts :| ChainIdOk(chainId) && w == Run(h, ec, Initial(h, chainId, clock), acts).loop.w;
    StartFaithful(h, t, chainId, clock);
    StartAccounts(h, ec, chainId, clock);
    RunFaithful(h, ec, t, Initial(h, chainId, clock), acts);
    RunAccounts(h, ec, Initial(h, chainId, clock), acts);
  }

  lemma BadLineRefused(h: HashFn, t: Replay, lines: seq<Line>, i: nat)
    requires 1 <= i < |lines| && !GoodLine(lines[i])
    requires lines[i].RecordLine? ==> lines[i].record.body.sequence > 0
    ensures ReplayAll(h, t, lines).None?
  {
    PrefixStep(h, t, lines, i);
    RefusalStays(h, t, lines, i + 1);
  }

  /** No line is torn, and the verifier can take every line after genesis. */
  predicate ClearFile(w: Writer) { !w.residue.Partial? && GoodAfterGenesis(FileLines(w)) }

  lemma LaterLinesOf(h: HashFn, w: Writer, i: nat)
    requires FileShape(h, w) && ResidueIsNext(h, w) && Accounts(w) && 1 <= i < |FileLines(w)|
    ensures FileLines(w)[i].RecordLine? ==> FileLines(w)[i].record.body.sequence > 0
  {
    hide RecordOk, RecordsIn, BodyFor, Since, EndsCovered, Numbered;
    if i < |w.lines| {
      assert LaterLine(w.lines[i]);
    } else if w.residue.Whole? && w.residue.line.RecordLine? {
      var clock: u64, e: Event :| w.residue.line == RecordLine(NextRecord(h, w.chain, clock, e));
      BodySequence(w.chain, clock, e);
    }
  }

  lemma OneFile(h: HashFn, t: Replay, w: Writer)
    requires HashesAreHex(h) && FromRun(h, w)
    ensures var r := ReplayAll(h, t, FileLines(w));
      && (r.Some? <==> ClearFile(w))
      && (r.Some? ==> r.value == Replay(Finished(t), Some(Reported(w))))
  {
    hide RecordOk, ReplayAll, ReplayLine, RecordsIn, CheckpointsIn, FromRun;
    RunsAreFaithful(h, t, w);
    var lines := FileLines(w);
    if !ClearFile(w) {
      var i :| 1 <= i < |lines| && !GoodLine(lines[i]) by {
        if w.residue.Partial? { assert lines[|w.lines|] == Unreadable; }
      }
      LaterLinesOf(h, w, i);
      BadLineRefused(h, t, lines, i);
    } else if w.residue.Whole? {
      GoodPrefix(w.lines, w.residue.line);
      ReplaySnoc(h, t, w.lines, w.residue.line);
      WholeReplays(h, Replay(Finished(t), Some(SummaryOf(w))), w);
    }
  }

  lemma WholeReplays(h: HashFn, s: Replay, w: Writer)
    requires HashesAreHex(h) && FileShape(h, w) && ResidueIsNext(h, w) && Accounts(w)
    requires w.residue.Whole? && GoodLine(w.residue.line) && s.current == Some(SummaryOf(w))
    ensures ReplayLine(h, s, w.residue.line) == Some(s.(current := Some(Reported(w))))
  {
    hide RecordOk, ReplayLine, RecordsIn, CheckpointsIn, FileLines;
    if w.residue.line.RecordLine? {
      var clock: u64, e: Event :| w.residue.line == RecordLine(NextRecord(h, w.chain, clock, e));
      BodySequence(w.chain, clock, e);
      NextRecordReplays(h, s, w, clock, e);
    } else {
      var clock: u64 :| w.residue.line == CheckpointLine(PayloadFor(w.chain, clock), true);
      NextCheckpointReplays(h, s, w, clock);
    }
  }

  /** The file after several runs appended to it; a torn line swallows the line written after it. */
  function FileAfter(ws: seq<Writer>): seq<Line> {
    if ws == [] then []
    else
      var rest := FileAfter(ws[1..]);
      FileLines(ws[0]) + (if ws[0].residue.Partial? && rest != [] then rest[1..] else rest)
  }

  lemma {:induction false} RunsReplay(h: HashFn, t: Replay, ws: seq<Writer>)
    requires HashesAreHex(h) && forall i :: 0 <= i < |ws| ==> FromRun(h, ws[i])
    ensures var r := ReplayAll(h, t, FileAfter(ws));
      && (r.Some? <==> forall i :: 0 <= i < |ws| ==> ClearFile(ws[i]))
      && (r.Some? ==> |Finished(r.value)| == |Finished(t)| + |ws| && Finished(t) <= Finished(r.value))
      && (r.Some? ==> forall i :: 0 <= i < |ws| ==> Finished(r.value)[|Finished(t)| + i] == Reported(ws[i]))
    decreases |ws|
  {
    hide ReplayAll, ReplayLine, FromRun, FileLines, Reported;
    if ws == [] {
      NothingToReplay(h, t);
    } else {
      OneFile(h, t, ws[0]);
      var rest := FileAfter(ws[1..]);
      ReplayAppend(h, t, FileLines(ws[0]), if ws[0].residue.Partial? && rest != [] then rest[1..] else rest);
      var mid := ReplayAll(h, t, FileLines(ws[0]));
      if mid.Some? {
        RunsReplay(h, mid.value, ws[1..]);
        assert Finished(mid.value) == Finished(t) + [mid.value.current.value];
        var r := ReplayAll(h, t, FileAfter(ws));
        forall i | 0 <= i < |ws| && r.Some?
          ensures Finished(r.value)[|Finished(t)| + i] == Reported(ws[i])
        {
          if i > 0 { assert ws[i] == ws[1..][i - 1]; }
        }
        assert forall i :: 1 <= i < |ws| ==> ws[i] == ws[1..][i - 1];
      }
    }
  }

  lemma NothingToReplay(h: HashFn, t: Replay)
    ensures ReplayAll(h, t, []) == Some(t)
  {
  }

  /** s is a state of some run of the audit system, under any policy, calls and faults. */
  ghost predicate Reached(h: HashFn, s: System) {
    exists ec: u64, chainId, clock: u64, acts :: ChainIdOk(chainId) && s == Run(h, ec, Initial(h, chainId, clock), acts)
  }

  lemma ReachedFacts(h: HashFn, s: System)
    requires HashesAreHex(h) && Reached(h, s)
    ensures FromRun(h, s.loop.w) && Inv(s) && Sourced(s)
  {
    hide Run, Started, Sourced;
    var ec: u64, chainId, clock: u64, acts :| ChainIdOk(chainId) && s == Run(h, ec, Initial(h, chainId, clock), acts);
    EveryLineHasASource(h, ec, chainId, clock, acts);
  }

  /** Every event on the first k lines is one the verifier can take. */
  ghost predicate GoodUpTo(s: System, k: nat)
    requires s.served <= |s.log|
  {
    forall q: nat :: OnFirst(s, k, q) ==> GoodEvent(s.log[q].event)
  }

  /** No write left a torn line, and every event that is on file is one the verifier can take. */
  ghost predicate Clear(s: System)
    requires s.served <= |s.log|
  {
    !s.loop.w.residue.Partial? && forall q: nat :: OnFile(s, q) ==> GoodEvent(s.log[q].event)
  }

  lemma RecordOfEvent(r: Record, e: Event)
    requires Records(r, e)
    ensures GoodRecord(r) <==> GoodEvent(e)
  {
    hide Sanitize, Decimal;
  }

  lemma GoodLinesHaveGoodEvents(s: System, k: nat)
    requires s.served <= |s.log| && k <= |FileLines(s.loop.w)| && GoodAfterGenesis(FileLines(s.loop.w)[..k])
    ensures GoodUpTo(s, k)
  {
    hide Records, FileLines, GoodRecord, GoodEvent, NobodysLine;
    forall q: nat | OnFirst(s, k, q) ensures GoodEvent(s.log[q].event) {
      var i: nat :| 1 <= i < k && SourceOf(s, i, q);
      assert GoodLine(FileLines(s.loop.w)[..k][i]);
      RecordOfEvent(FileLines(s.loop.w)[i].record, s.log[q].event);
    }
  }

  lemma GoodEventsMakeGoodLines(s: System, k: nat, i: nat)
    requires s.served <= |s.log| && Sourced(s) && GoodUpTo(s, k)
    requires 1 <= i < k <= |FileLines(s.loop.w)| && FileLines(s.loop.w)[i].RecordLine?
    ensures GoodLine(FileLines(s.loop.w)[i])
  {
    hide Records, FileLines, GoodRecord, GoodEvent, NobodysLine;
    assert HasSource(s, i);
    var q: nat :| SourceOf(s, i, q);
    assert OnFirst(s, k, q);
    RecordOfEvent(FileLines(s.loop.w)[i].record, s.log[q].event);
  }

  /** The first k lines are good exactly when the events on them are. */
  lemma GoodIsAboutEvents(h: HashFn, s: System, k: nat)
    requires HashesAreHex(h) && Reached(h, s) && k <= |FileLines(s.loop.w)| && (k == |FileLines(s.loop.w)| ==> !s.loop.w.residue.Partial?)
    ensures s.served <= |s.log|
    ensures GoodAfterGenesis(FileLines(s.loop.w)[..k]) <==> GoodUpTo(s, k)
  {
    hide Reached, FromRun, FileShape, Verifies, ResidueIsNext, Accounts, FileLines, GoodRecord, GoodEvent, GoodUpTo, Sourced,
      BarrierPlaces, ConfirmedDurable, Placement, WriterSound;
    ReachedFacts(h, s);
    RunsAreFaithful(h, EMPTY, s.loop.w);
    var lines := FileLines(s.loop.w)[..k];
    if GoodAfterGenesis(lines) { GoodLinesHaveGoodEvents(s, k); }
    if GoodUpTo(s, k) {
      forall i | 1 <= i < |lines| ensures GoodLine(lines[i]) {
        if lines[i].RecordLine? { GoodEventsMakeGoodLines(s, k, i); } else { OtherLines(h, s.loop.w, k, i); }
      }
    }
  }

  /** What is wrong with a file is wrong with an event recorded in it, and the other way round. */
  lemma ClearIsAboutEvents(h: HashFn, s: System)
    requires HashesAreHex(h) && Reached(h, s)
    ensures s.served <= |s.log| && (Clear(s) <==> ClearFile(s.loop.w))
  {
    hide Reached, FromRun, FileLines, GoodAfterGenesis, GoodEvent, OnFirst, Sourced, BarrierPlaces, ConfirmedDurable, Placement, WriterSound;
    ReachedFacts(h, s);
    var lines := FileLines(s.loop.w);
    assert lines[..|lines|] == lines;
    if !s.loop.w.residue.Partial? { GoodIsAboutEvents(h, s, |lines|); }
  }

  /** Only a torn write leaves a line that cannot be read, and it is the last one. */
  lemma OtherLines(h: HashFn, w: Writer, k: nat, i: nat)
    requires FileShape(h, w) && ResidueIsNext(h, w) && 1 <= i < k <= |FileLines(w)|
    requires k == |FileLines(w)| ==> !w.residue.Partial?
    ensures !FileLines(w)[i].Unreadable?
  {
    hide RecordOk, RecordsIn, NextRecord, PayloadFor;
    if i < |w.lines| { assert LaterLine(w.lines[i]); }
  }

  function Writers(ss: seq<System>): (ws: seq<Writer>)
    ensures |ws| == |ss| && forall i :: 0 <= i < |ws| ==> ws[i] == ss[i].loop.w
  {
    seq(|ss|, i requires 0 <= i < |ss| => ss[i].loop.w)
  }

  /**
    * Writer and verifier agree. Take any number of process runs, each with any calls, batching and
    * faults, appending to one file. The verifier accepts the file exactly when no run left a torn
    * line and every event that reached the file kept a name and an outcome and did not claim to
    * start a chain. It then reports one summary per run, the writer's final state, with the line
    * of a write that was reported as failed but did reach the file.
    */
  lemma WriterVerifierAgree(h: HashFn, ss: seq<System>)
    requires HashesAreHex(h) && ss != [] && forall i :: 0 <= i < |ss| ==> Reached(h, ss[i])
    ensures forall i :: 0 <= i < |ss| ==> ss[i].served <= |ss[i].log|
    ensures var verdict := Verdict(h, FileAfter(Writers(ss)));
      && (verdict.Some? <==> forall i :: 0 <= i < |ss| ==> Clear(ss[i]))
      && (verdict.Some? ==> |verdict.value| == |ss| && forall i :: 0 <= i < |ss| ==> verdict.value[i] == Reported(ss[i].loop.w))
  {
    hide ReplayAll, FromRun, FileAfter, Reported, Reached, Clear, ClearFile, Sourced, BarrierPlaces, ConfirmedDurable, Placement;
    var ws := Writers(ss);
    forall i | 0 <= i < |ss| ensures FromRun(h, ws[i]) && ss[i].served <= |ss[i].log| && (Clear(ss[i]) <==> ClearFile(ws[i])) {
      ReachedFacts(h, ss[i]);
      ClearIsAboutEvents(h, ss[i]);
    }
    RunsReplay(h, EMPTY, ws);
    assert (forall i :: 0 <= i < |ss| ==> Clear(ss[i])) <==> (forall i :: 0 <= i < |ws| ==> ClearFile(ws[i]));
  }

  /** With no failed write or sync at all, everything depends on the events the writers took. */
  lemma HealthyRunsAgree(h: HashFn, ss: seq<System>)
    requires HashesAreHex(h) && ss != [] && forall i :: 0 <= i < |ss| ==> Reached(h, ss[i]) && !ss[i].loop.w.poisoned
    ensures forall i :: 0 <= i < |ss| ==> ss[i].served <= |ss[i].log|
    ensures var verdict := Verdict(h, FileAfter(Writers(ss)));
      && (verdict.Some? <==>
           forall i, q :: 0 <= i < |ss| && 0 <= q < ss[i].served && ss[i].log[q].RecordCmd? ==> GoodEvent(ss[i].log[q].event))
      && (verdict.Some? ==> |verdict.value| == |ss| && forall i :: 0 <= i < |ss| ==> verdict.value[i] == SummaryOf(ss[i].loop.w))
  {
    hide FileAfter, Verdict, Reached, GoodEvent, OnFile, SummaryOf, BarrierPlaces, ConfirmedDurable, Placement;
    WriterVerifierAgree(h, ss);
    forall i | 0 <= i < |ss|
      ensures ss[i].loop.w.residue == Clean
      ensures Clear(ss[i]) <==> forall q :: 0 <= q < ss[i].served && ss[i].log[q].RecordCmd? ==> GoodEvent(ss[i].log[q].event)
    {
      ReachedFacts(h, ss[i]);
      forall q: nat
        ensures OnFile(ss[i], q) <==> q < ss[i].served && ss[i].log[q].RecordCmd? { HealthyOnFile(ss[i], q); }
    }
  }

  /** The summary of a healthy run, field by field. */
  lemma SummaryIsFinalState(h: HashFn, w: Writer)
    requires HashesAreHex(h) && FromRun(h, w) && !w.poisoned
    ensures var c := SummaryOf(w);
      && c.records == w.chain.nextSequence && c.lastSequence == w.chain.nextSequence - 1
      && c.headHash == w.chain.headHash && c.chainId == w.chain.chainId
      && c.lastCheckpointSequence == w.chain.lastCheckpoint
  {
    hide FromRun, RecordsIn, FileLines, Since, EndsCovered;
    RunsAreFaithful(h, EMPTY, w);
  }

  /** What the writer loop itself leaves is the result of a run, so all of the above holds of it. */
  lemma LoopIsFromRun(h: HashFn, ec: u64, chainId: string, clock: u64, items: seq<Item>)
    requires ChainIdOk(chainId)
    ensures FromRun(h, Drive(h, ec, Started(h, chainId, clock), 0, items).w)
  {
    hide Drive, ActionsOf, Run, EventWritten;
    var s, l := Initial(h, chainId, clock), Started(h, chainId, clock);
    DriveIsARun(h, ec, s, l, 0, items);
    assert Drive(h, ec, l, 0, items).w == Run(h, ec, Initial(h, chainId, clock), ActionsOf(h, ec, l, 0, items)).loop.w;
  }

  /** A healthy writer with a sequence number left takes any record without an error. */
  lemma RecordIsTaken(h: HashFn, ec: u64, s: System, clock: u64)
    requires HashesAreHex(h) && AccountInv(s, ec) && FileShape(h, s.loop.w)
    requires CanTake(s) && s.log[s.taken].RecordCmd? && !s.loop.w.poisoned && s.loop.w.chain.nextSequence < U64_MAX
    ensures var s' := Step(h, ec, s, Take(RecordEnv(Some(clock), Works)));
      !s'.loop.w.poisoned && s'.loop.failed == s.loop.failed && s.taken in s'.loop.placed
  {
    hide SerializedLen, BodyFor, RecordsIn, Since, Numbered, EndsCovered, RecordOk, HashHex, ChainIdOk, FileLines,
      Placement, BarrierPlaces, ConfirmedDurable, GapInv, ShutdownInv, Capped;
    var c := s.loop.w.chain;
    WriterRecordsFit(h, c.chainId, c.nextSequence, clock, s.log[s.taken].event, c.headHash);
  }

  /** A placed event the verifier cannot take makes every file of this and other runs unacceptable. */
  lemma PlacedBadEventRefused(h: HashFn, s: System, q: nat, ss: seq<System>)
    requires HashesAreHex(h) && s in ss && forall i :: 0 <= i < |ss| ==> Reached(h, ss[i])
    requires q in s.loop.placed && q < |s.log| && s.log[q].RecordCmd? && !GoodEvent(s.log[q].event)
    ensures Verdict(h, FileAfter(Writers(ss))).None?
  {
    hide Reached, Verdict, FileAfter, GoodEvent, Records, BarrierPlaces, ConfirmedDurable, FromRun;
    var k :| 0 <= k < |ss| && ss[k] == s;
    ReachedFacts(h, s);
    assert PlacedAt(s.loop.w, s.loop.placed[q], s.log[q].event);
    assert SourceOf(s, s.loop.placed[q], q);
    assert OnFile(s, q);
    assert !Clear(s);
    WriterVerifierAgree(h, ss);
  }

  /**
    * Acceptance is not unconditional. At whatever point of a run an event the verifier cannot take
    * comes in, it is recorded without any error, and whatever follows, in this run or in others
    * before and after it, the file is refused.
    */
  lemma BadEventSpoilsFile(h: HashFn, ec: u64, chainId: string, start: u64, before: seq<Action>, clock: u64,
                           after: seq<Action>, ss: seq<System>)
    requires HashesAreHex(h) && ChainIdOk(chainId) && forall i :: 0 <= i < |ss| ==> Reached(h, ss[i])
    requires var s := Run(h, ec, Initial(h, chainId, start), before);
      && CanTake(s) && s.log[s.taken].RecordCmd? && !GoodEvent(s.log[s.taken].event)
      && !s.loop.w.poisoned && s.loop.w.chain.nextSequence < U64_MAX
    requires var s := Run(h, ec, Initial(h, chainId, start), before);
      Run(h, ec, Step(h, ec, s, Take(RecordEnv(Some(clock), Works))), after) in ss
    ensures var s := Run(h, ec, Initial(h, chainId, start), before);
      var s' := Step(h, ec, s, Take(RecordEnv(Some(clock), Works)));
      !s'.loop.w.poisoned && s'.loop.failed == s.loop.failed && s.taken in s'.loop.placed
    ensures Verdict(h, FileAfter(Writers(ss))).None?
  {
    hide Run, Initial, Step, Reached, Verdict, FileAfter, GoodEvent, Accounts, GapInv, ShutdownInv, Placement, BarrierPlaces,
      ConfirmedDurable, WriterSound, FileShape, Verifies, ResidueIsNext, Capped;
    var s0 := Initial(h, chainId, start);
    StartAccounts(h, ec, chainId, start);
    RunAccounts(h, ec, s0, before);
    var s, take := Run(h, ec, s0, before), Take(RecordEnv(Some(clock), Works));
    var s1 := Step(h, ec, s, take);
    StartFaithful(h, EMPTY, chainId, start);
    RunFaithful(h, ec, EMPTY, s0, before);
    RecordIsTaken(h, ec, s, clock);
    StepAccounts(h, ec, s, take);
    TakeKeepsLog(h, ec, s, take.env);
    PlacedForGood(h, ec, s1, after, s.taken);
    PlacedBadEventRefused(h, Run(h, ec, s1, after), s.taken, ss);
  }

  lemma TakeKeepsLog(h: HashFn, ec: u64, s: System, env: RecordEnv)
    requires s.taken <= |s.log|
    ensures Step(h, ec, s, Take(env)).log == s.log
  {
    hide Process, CanTake;
  }

  /** Two such inputs: a name of control characters only, and the name of the genesis event. */
  lemma BadEvents(e: Event)
    requires e.event == "\n" || e.event == GENESIS_EVENT
    ensures !GoodEvent(e)
  {
    hide Sanitize;
    OnlyNewline();
    StartText();
  }

  lemma OnlyNewline()
    ensures Sanitize("\n") == ""
  {
    assert "\n"[..0] == "";
  }
}
