/** The file as a chronicle: its records after genesis are the recorded events, in the order they were taken. */
module AuditChronicle {
  import opened Text
  import opened AuditRecord
  import opened AuditWriter
  import opened AuditSystem
  import opened AuditAccounting
  import opened AuditProvenance

  /** The events of the record commands, in queue order. */
  function Recorded(cmds: seq<Command>): seq<Event> {
    if cmds == [] then []
    else
      var before, last := Recorded(cmds[..|cmds| - 1]), cmds[|cmds| - 1];
      if last.RecordCmd? then before + [last.event] else before
  }

  /** A record command the writer took, and what the clock read then. */
  datatype Writing = Writing(event: Event, clock: Option<u64>)

  predicate TakesRecord(s: System, act: Action)
    requires s.taken <= |s.log|
  {
    act.Take? && CanTake(s) && s.log[s.taken].RecordCmd?
  }

  /** What one step adds to the list of writings. */
  function WritingOf(s: System, act: Action): seq<Writing>
    requires s.taken <= |s.log|
  {
    if TakesRecord(s, act) then [Writing(s.log[s.taken].event, act.env.clock)] else []
  }

  function Writings(h: HashFn, ec: u64, s: System, acts: seq<Action>): seq<Writing>
    requires s.taken <= |s.log|
    decreases |acts|
  {
    if acts == [] then [] else WritingOf(s, acts[0]) + Writings(h, ec, Step(h, ec, s, acts[0]), acts[1..])
  }

  predicate SameEvents(ws: seq<Writing>, es: seq<Event>) {
    |ws| == |es| && forall k :: 0 <= k < |ws| ==> ws[k].event == es[k]
  }

  /** After the genesis record g come the first writings, field by field, each with its clock reading. */
  predicate Tells(rs: seq<Record>, g: Record, ws: seq<Writing>) {
    && 1 <= |rs| <= |ws| + 1 && rs[0] == g
    && forall k :: 0 <= k < |rs| - 1 ==> ws[k].clock.Some? && RecordsAt(rs[k + 1], ws[k].event, ws[k].clock.value)
  }

  /** The file tells of the first writings; a healthy writer's file of all of them. */
  predicate Chronicle(s: System, g: Record, ws: seq<Writing>) {
    && s.served <= |s.log| && SameEvents(ws, Recorded(s.log[..s.served]))
    && Tells(RecordsIn(FileLines(s.loop.w)), g, ws)
    && (!s.loop.w.poisoned ==> |RecordsIn(FileLines(s.loop.w))| == |ws| + 1)
  }

  lemma RecordedOneMore(cmds: seq<Command>, n: nat)
    requires n < |cmds|
    ensures Recorded(cmds[..n + 1]) == Recorded(cmds[..n]) + (if cmds[n].RecordCmd? then [cmds[n].event] else [])
  {
    assert cmds[..n + 1][..n] == cmds[..n];
  }

  lemma {:induction false} NoRecordAdded(lines: seq<Line>, lines': seq<Line>)
    requires lines <= lines' && forall i :: |lines| <= i < |lines'| ==> !lines'[i].RecordLine?
    ensures RecordsIn(lines') == RecordsIn(lines)
    decreases |lines'|
  {
    if |lines| < |lines'| {
      NoRecordAdded(lines, lines'[..|lines'| - 1]);
    } else {
      assert lines == lines';
    }
  }

  lemma RecordAdded(lines: seq<Line>, lines': seq<Line>)
    requires lines <= lines' && |lines'| == |lines| + 1 && lines'[|lines|].RecordLine?
    ensures RecordsIn(lines') == RecordsIn(lines) + [lines'[|lines|].record]
  {
    AppendLine(lines, lines'[|lines|]);
    assert lines + [lines'[|lines|]] == lines';
  }

  lemma TellsMoreWritings(rs: seq<Record>, g: Record, ws: seq<Writing>, more: seq<Writing>)
    requires Tells(rs, g, ws)
    ensures Tells(rs, g, ws + more)
  {
    hide RecordsAt;
    var all := ws + more;
    forall k | 0 <= k < |rs| - 1 ensures all[k].clock.Some? && RecordsAt(rs[k + 1], all[k].event, all[k].clock.value) {
      assert all[k] == ws[k];
    }
  }

  lemma TellsOneMore(rs: seq<Record>, g: Record, ws: seq<Writing>, r: Record, e: Event, clock: u64)
    requires Tells(rs, g, ws) && |rs| == |ws| + 1 && RecordsAt(r, e, clock)
    ensures Tells(rs + [r], g, ws + [Writing(e, Some(clock))])
  {
    hide RecordsAt;
    TellsMoreWritings(rs, g, ws, [Writing(e, Some(clock))]);
  }

  lemma SameEventsOneMore(ws: seq<Writing>, cmds: seq<Command>, n: nat, clock: Option<u64>)
    requires n < |cmds| && SameEvents(ws, Recorded(cmds[..n]))
    ensures SameEvents(ws + (if cmds[n].RecordCmd? then [Writing(cmds[n].event, clock)] else []), Recorded(cmds[..n + 1]))
  {
    hide Recorded;
    RecordedOneMore(cmds, n);
  }

  lemma TakeTells(h: HashFn, ec: u64, s: System, env: RecordEnv, g: Record, ws: seq<Writing>)
    requires Inv(s) && Chronicle(s, g, ws) && CanTake(s)
    ensures Chronicle(Step(h, ec, s, Take(env)), g, ws + WritingOf(s, Take(env)))
  {
    hide Process, RecordsIn, Recorded, Tells, SameEvents, FileLines, Placement, ConfirmedDurable, BarrierPlaces, Capped;
    var cmd, rs := s.log[s.taken], RecordsIn(FileLines(s.loop.w));
    ProcessEffect(h, s.loop, s.taken, cmd, env);
    SameEventsOneMore(ws, s.log, s.taken, env.clock);
    TellsMoreWritings(rs, g, ws, WritingOf(s, Take(env)));
    if cmd.RecordCmd? && !s.loop.w.poisoned { RecordTells(h, ec, s, env, g, ws); }
  }

  lemma RecordTells(h: HashFn, ec: u64, s: System, env: RecordEnv, g: Record, ws: seq<Writing>)
    requires Inv(s) && Chronicle(s, g, ws) && CanTake(s) && !s.loop.w.poisoned && s.log[s.taken].RecordCmd?
    ensures Chronicle(Step(h, ec, s, Take(env)), g, ws + [Writing(s.log[s.taken].event, env.clock)])
  {
    hide Process, RecordsIn, Recorded, Tells, SameEvents, RecordsAt, ConfirmedDurable, BarrierPlaces, Capped;
    var n, s', e := s.served, Step(h, ec, s, Take(env)), s.log[s.taken].event;
    ProcessEffect(h, s.loop, n, s.log[n], env);
    assert n !in s.loop.placed;
    ProcessLeaves(h, s.loop, n, s.log[n], env);
    SameEventsOneMore(ws, s.log, n, env.clock);
    var lines, lines' := s.loop.w.lines, FileLines(s'.loop.w);
    if |lines'| > |lines| && lines'[|lines|].RecordLine? {
      RecordAdded(lines, lines');
      TellsOneMore(RecordsIn(lines), g, ws, lines'[|lines|].record, e, env.clock.value);
    } else {
      NoRecordAdded(lines, lines');
      TellsMoreWritings(RecordsIn(lines), g, ws, [Writing(e, env.clock)]);
    }
  }

  lemma EndTells(h: HashFn, ec: u64, s: System, env: EndEnv, g: Record, ws: seq<Writing>)
    requires Inv(s) && Chronicle(s, g, ws) && s.sealed
    ensures Chronicle(Step(h, ec, s, End(env)), g, ws)
  {
    hide Finish, RecordsIn, Recorded, Tells, FileLines, Placement, ConfirmedDurable, BarrierPlaces;
    FinishEffect(s.loop, ec, env);
    FinishLeaves(s.loop, ec, env);
    NoRecordAdded(FileLines(s.loop.w), FileLines(Step(h, ec, s, End(env)).loop.w));
  }

  lemma QuietTells(s: System, s': System, g: Record, ws: seq<Writing>)
    requires Inv(s) && Chronicle(s, g, ws) && Quiet(s, s')
    ensures Chronicle(s', g, ws)
  {
    hide RecordsIn, Recorded, Tells, FileLines, Placement, ConfirmedDurable, BarrierPlaces;
    assert s'.log[..s'.served] == s.log[..s.served];
  }

  lemma StepTells(h: HashFn, ec: u64, s: System, act: Action, g: Record, ws: seq<Writing>)
    requires Inv(s) && Chronicle(s, g, ws)
    ensures Chronicle(Step(h, ec, s, act), g, ws + WritingOf(s, act))
  {
    hide Process, Finish, Chronicle, Quiet, Placement, ConfirmedDurable, BarrierPlaces, Capped;
    if act.Take? && CanTake(s) {
      TakeTells(h, ec, s, act.env, g, ws);
    } else {
      assert ws + WritingOf(s, act) == ws;
      match act
      case Take(_) =>
      case End(env) => if s.sealed { EndTells(h, ec, s, env, g, ws); }
      case _ => CallsAreQuiet(h, ec, s, act); QuietTells(s, Step(h, ec, s, act), g, ws);
    }
  }

  lemma {:induction false} RunTells(h: HashFn, ec: u64, s: System, acts: seq<Action>, g: Record, ws: seq<Writing>)
    requires Inv(s) && s.taken <= |s.log| && Chronicle(s, g, ws)
    ensures Chronicle(Run(h, ec, s, acts), g, ws + Writings(h, ec, s, acts))
    decreases |acts|
  {
    hide Inv, Step, Chronicle, WritingOf;
    if acts == [] {
      assert ws + [] == ws;
    } else {
      var one, s1 := WritingOf(s, acts[0]), Step(h, ec, s, acts[0]);
      StepTells(h, ec, s, acts[0], g, ws);
      StepKeepsInv(h, ec, s, acts[0]);
      RunTells(h, ec, s1, acts[1..], g, ws + one);
      assert ws + one + Writings(h, ec, s1, acts[1..]) == ws + (one + Writings(h, ec, s1, acts[1..]));
    }
  }

  /** The genesis record, field by field. */
  function GenesisBody(chainId: string, clock: u64): Body {
    Body("audit-chain-v1", chainId, 0, Decimal(clock), "audit.chain.started", "success", "", "", false, false,
         "", "", "chain-start", "", "", "BLAKE2b(256)", GENESIS_HASH)
  }

  lemma StartTells(h: HashFn, chainId: string, clock: u64)
    requires HashesAreHex(h) && ChainIdOk(chainId)
    ensures var b := GenesisBody(chainId, clock); Chronicle(Initial(h, chainId, clock), Record(b, h(b)), [])
  {
    hide SerializedLen, RecordsIn, Sanitize, Decimal;
    FixedLengths();
    StartText();
    WriterRecordsFit(h, chainId, 0, clock, ChainStarted(), GENESIS_HASH);
    var s := Initial(h, chainId, clock);
    AppendLine([], s.loop.w.lines[0]);
    assert [] + [s.loop.w.lines[0]] == s.loop.w.lines;
    assert RecordsIn([]) == [] by { NoRecords(); }
    assert RecordsIn(s.loop.w.lines) == [s.loop.w.lines[0].record];
  }

  lemma NoRecords()
    ensures RecordsIn([]) == []
  {
  }

  /**
    * Nothing skipped, nothing invented, nothing reordered, nothing misplaced: in every reachable
    * state the file holds the genesis record of its chain and then one record for each of the first
    * commands taken, in the order of the queue, with every field of the event in its place and the
    * clock reading of that write. A line left by a failed write is included. As long as nothing has
    * failed these are all the record commands taken so far.
    */
  lemma FileTellsTheQueue(h: HashFn, ec: u64, chainId: string, clock: u64, acts: seq<Action>)
    requires HashesAreHex(h) && ChainIdOk(chainId)
    ensures var b := GenesisBody(chainId, clock);
      Chronicle(Run(h, ec, Initial(h, chainId, clock), acts), Record(b, h(b)), Writings(h, ec, Initial(h, chainId, clock), acts))
  {
    hide Run, Initial, Chronicle, Writings, GenesisBody;
    StartKeepsInv(h, chainId, clock);
    TakenBound(Initial(h, chainId, clock));
    StartTells(h, chainId, clock);
    var b, ws := GenesisBody(chainId, clock), Writings(h, ec, Initial(h, chainId, clock), acts);
    RunTells(h, ec, Initial(h, chainId, clock), acts, Record(b, h(b)), []);
    assert [] + ws == ws;
  }
}
