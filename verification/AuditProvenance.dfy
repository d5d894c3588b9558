/** Where the lines of the file come from: every record after genesis was written for one command. */
module AuditProvenance {
  import opened Text
  import opened AuditRecord
  import opened AuditWriter
  import opened AuditSystem
  import opened AuditAccounting

  /**
    * Line i carries the event of command q: the command was placed there, or the line is the last
    * of the file, of a write that was reported as failed, and the command's cell is marked.
    */
  ghost predicate SourceOf(s: System, i: nat, q: nat)
    requires s.served <= |s.log|
  {
    var lines := FileLines(s.loop.w);
    && q < s.served && s.log[q].RecordCmd?
    && i < |lines| && lines[i].RecordLine? && Records(lines[i].record, s.log[q].event)
    && (if q in s.loop.placed then s.loop.placed[q] == i
        else s.loop.w.poisoned && s.log[q].cell in s.loop.failed && i == |lines| - 1 && NobodysLine(s, i))
  }

  predicate NobodysLine(s: System, i: nat) { forall p :: p in s.loop.placed ==> s.loop.placed[p] != i }

  ghost predicate HasSource(s: System, i: nat)
    requires s.served <= |s.log|
  {
    exists q :: SourceOf(s, i, q)
  }

  /** Some record line after genesis, and before line k, carries the event of command q. */
  ghost predicate OnFirst(s: System, k: nat, q: nat)
    requires s.served <= |s.log|
  {
    exists i :: 1 <= i < k && SourceOf(s, i, q)
  }

  ghost predicate OnFile(s: System, q: nat)
    requires s.served <= |s.log|
  {
    OnFirst(s, |FileLines(s.loop.w)|, q)
  }

  /** Until the first failure every record taken is placed. */
  predicate AllPlaced(s: System)
    requires s.served <= |s.log|
  {
    forall q :: 0 <= q < s.served && s.log[q].RecordCmd? ==> q in s.loop.placed
  }

  ghost predicate Sourced(s: System)
    requires s.served <= |s.log|
  {
    var lines := FileLines(s.loop.w);
    && s.loop.w.lines != []
    && (forall i :: 1 <= i < |lines| && lines[i].RecordLine? ==> HasSource(s, i))
    && (forall q :: q in s.loop.placed ==> s.loop.placed[q] >= 1)
    && (!s.loop.w.poisoned ==> AllPlaced(s))
  }

  /** What write_event adds to the file: nothing, a torn line, or a record of this event. */
  lemma EventLeaves(h: HashFn, w: Writer, e: Event, env: RecordEnv)
    requires w.residue == Clean
    ensures var r := EventWritten(h, w, e, env);
      || (!r.ok && FileLines(r.w) == w.lines)
      || (!r.ok && FileLines(r.w) == w.lines + [Unreadable])
      || (|FileLines(r.w)| == |w.lines| + 1 && w.lines <= FileLines(r.w) && FileLines(r.w)[|w.lines|].RecordLine?
          && env.clock.Some? && RecordsAt(FileLines(r.w)[|w.lines|].record, e, env.clock.value)
          && (r.ok ==> FileLines(r.w) == r.w.lines))
  {
    hide SerializedLen, BodyFor, RecordsAt;
    if env.clock.Some? { RecordsItsEvent(h, w.chain, env.clock.value, e); }
  }

  lemma RecordsItsEvent(h: HashFn, c: ChainState, clock: u64, e: Event)
    ensures RecordsAt(NextRecord(h, c, clock, e), e, clock)
  {
    BodyRecords(c.chainId, c.nextSequence, clock, e, c.headHash, h(NextBody(c, clock, e)));
  }

  lemma ProcessLeaves(h: HashFn, l: Loop, position: nat, cmd: Command, env: RecordEnv)
    requires l.w.residue == Clean && !l.w.poisoned && cmd.RecordCmd? && position !in l.placed
    ensures var l' := Process(h, l, position, cmd, env); var lines := FileLines(l'.w);
      && l.w.lines <= lines && |lines| <= |l.w.lines| + 1 && l.w.lines <= l'.w.lines && l.failed <= l'.failed
      && (|lines| > |l.w.lines| && lines[|l.w.lines|].RecordLine? ==>
            env.clock.Some? && RecordsAt(lines[|l.w.lines|].record, cmd.event, env.clock.value))
      && (if l'.w.poisoned then l'.placed == l.placed && cmd.cell in l'.failed
          else l'.placed == l.placed[position := |l.w.lines|])
  {
    hide EventWritten, Records;
    EventLeaves(h, l.w, cmd.event, env);
    EventEffect(h, l.w, cmd.event, env);
  }

  /** The step adds to the log, the placed commands and the file; once poisoned, the file and the placed commands stay. */
  predicate Extends(s: System, s': System) {
    var l, l' := s.loop, s'.loop;
    && s.served <= |s.log| && s.served <= s'.served <= |s'.log| && s.log <= s'.log
    && l.failed <= l'.failed && FileLines(l.w) <= FileLines(l'.w)
    && (forall q :: q in l.placed ==> q in l'.placed && l'.placed[q] == l.placed[q])
    && (l.w.poisoned ==> l'.w.poisoned && l'.placed == l.placed && FileLines(l'.w) == FileLines(l.w))
  }

  lemma SourceStays(s: System, s': System, i: nat)
    requires Extends(s, s') && HasSource(s, i)
    ensures HasSource(s', i)
  {
    hide Records, FileLines;
    var q :| SourceOf(s, i, q);
    assert SourceOf(s', i, q);
  }

  /** A step that adds no record line. */
  lemma NoNewRecord(s: System, s': System)
    requires s.served <= |s.log| && Sourced(s) && Extends(s, s') && s'.loop.placed == s.loop.placed
    requires s.loop.w.lines <= s'.loop.w.lines && (s'.loop.w.poisoned || AllPlaced(s'))
    requires var lines, lines' := FileLines(s.loop.w), FileLines(s'.loop.w);
      forall i :: |lines| <= i < |lines'| ==> !lines'[i].RecordLine?
    ensures Sourced(s')
  {
    hide HasSource, FileLines, AllPlaced;
    forall i | 1 <= i < |FileLines(s'.loop.w)| && FileLines(s'.loop.w)[i].RecordLine? ensures HasSource(s', i) {
      assert FileLines(s'.loop.w)[i] == FileLines(s.loop.w)[i];
      SourceStays(s, s', i);
    }
  }

  lemma TakeIdle(h: HashFn, ec: u64, s: System, env: RecordEnv)
    requires Inv(s) && Sourced(s) && CanTake(s) && (s.loop.w.poisoned || !s.log[s.taken].RecordCmd?)
    ensures var s' := Step(h, ec, s, Take(env)); s'.served <= |s'.log| && Sourced(s')
  {
    hide Process, Records, ConfirmedDurable, BarrierPlaces, Capped, HasSource;
    ProcessEffect(h, s.loop, s.taken, s.log[s.taken], env);
    NoNewRecord(s, Step(h, ec, s, Take(env)));
  }

  lemma TakeRecord(h: HashFn, ec: u64, s: System, env: RecordEnv)
    requires Inv(s) && Sourced(s) && CanTake(s) && !s.loop.w.poisoned && s.log[s.taken].RecordCmd?
    ensures var s' := Step(h, ec, s, Take(env)); s'.served <= |s'.log| && Sourced(s')
  {
    hide Process, Records, ConfirmedDurable, BarrierPlaces, Capped, HasSource;
    var s', n, lines := Step(h, ec, s, Take(env)), s.taken, s.loop.w.lines;
    assert n !in s.loop.placed;
    ProcessLeaves(h, s.loop, n, s.log[n], env);
    assert Extends(s, s');
    forall i | 1 <= i < |FileLines(s'.loop.w)| && FileLines(s'.loop.w)[i].RecordLine? ensures HasSource(s', i) {
      if i < |lines| {
        SourceStays(s, s', i);
      } else {
        NewSource(s, s', i, n);
      }
    }
  }

  lemma NewSource(s: System, s': System, i: nat, n: nat)
    requires Inv(s) && s'.served <= |s'.log| && n == s.served < s'.served && s'.log[n].RecordCmd?
    requires i == |s.loop.w.lines| == |FileLines(s'.loop.w)| - 1
    requires FileLines(s'.loop.w)[i].RecordLine? && Records(FileLines(s'.loop.w)[i].record, s'.log[n].event)
    requires if s'.loop.w.poisoned then s'.loop.placed == s.loop.placed && s'.log[n].cell in s'.loop.failed
             else s'.loop.placed == s.loop.placed[n := i]
    ensures HasSource(s', i)
  {
    hide Records, ConfirmedDurable, BarrierPlaces, FileLines;
    assert forall p :: p in s.loop.placed ==> PlacedAt(s.loop.w, s.loop.placed[p], s.log[p].event);
    assert SourceOf(s', i, n);
  }

  lemma CheckpointLeaves(w: Writer, env: EndEnv)
    requires w.residue == Clean
    ensures var w' := CheckpointWritten(w, env).w;
      && w.lines <= w'.lines && w.lines <= FileLines(w')
      && forall i :: |w.lines| <= i < |FileLines(w')| ==> !FileLines(w')[i].RecordLine?
  {
    hide PayloadFor;
  }

  lemma FinishLeaves(l: Loop, ec: u64, env: EndEnv)
    requires l.w.residue != Clean ==> l.w.poisoned
    ensures var l' := Finish(l, ec, env); var lines, lines' := FileLines(l.w), FileLines(l'.w);
      && lines <= lines' && (l.w.poisoned ==> lines' == lines) && l.w.lines <= l'.w.lines
      && forall i :: |lines| <= i < |lines'| ==> !lines'[i].RecordLine?
  {
    hide CheckpointWritten, CheckpointDue, Positions, Cells;
    if !l.w.poisoned { CheckpointLeaves(l.w, env); }
  }

  lemma EndKeepsSourced(h: HashFn, ec: u64, s: System, env: EndEnv)
    requires Inv(s) && Sourced(s) && s.sealed
    ensures var s' := Step(h, ec, s, End(env)); s'.served <= |s'.log| && Sourced(s')
  {
    hide Finish, Records, Placement, ConfirmedDurable, BarrierPlaces, HasSource;
    FinishEffect(s.loop, ec, env);
    FinishLeaves(s.loop, ec, env);
    NoNewRecord(s, Step(h, ec, s, End(env)));
  }

  lemma QuietKeepsSourced(s: System, s': System)
    requires Inv(s) && Sourced(s) && Quiet(s, s')
    ensures s'.served <= |s'.log| && Sourced(s')
  {
    hide Records, Placement, ConfirmedDurable, BarrierPlaces, HasSource;
    NoNewRecord(s, s');
  }

  lemma StepKeepsSourced(h: HashFn, ec: u64, s: System, act: Action)
    requires Inv(s) && Sourced(s)
    ensures var s' := Step(h, ec, s, act); s'.served <= |s'.log| && Sourced(s')
  {
    hide Process, Finish, Sourced, Quiet, Placement, ConfirmedDurable, BarrierPlaces, Capped;
    match act
    case Take(env) =>
      if CanTake(s) {
        if s.loop.w.poisoned || !s.log[s.taken].RecordCmd? { TakeIdle(h, ec, s, env); } else { TakeRecord(h, ec, s, env); }
      }
    case End(env) => if s.sealed { EndKeepsSourced(h, ec, s, env); }
    case _ => CallsAreQuiet(h, ec, s, act); QuietKeepsSourced(s, Step(h, ec, s, act));
  }

  lemma {:induction false} RunKeepsSourced(h: HashFn, ec: u64, s: System, acts: seq<Action>)
    requires Inv(s) && s.served <= |s.log| && Sourced(s)
    ensures var s' := Run(h, ec, s, acts); s'.served <= |s'.log| && Sourced(s')
    decreases |acts|
  {
    hide Inv, Step, Sourced;
    TakenBound(s);
    if acts != [] {
      StepKeepsSourced(h, ec, s, acts[0]);
      StepKeepsInv(h, ec, s, acts[0]);
      RunKeepsSourced(h, ec, Step(h, ec, s, acts[0]), acts[1..]);
    }
  }

  /** A placed command keeps its line and its command. */
  lemma StepKeepsPlaced(h: HashFn, ec: u64, s: System, act: Action, q: nat)
    requires Inv(s) && q in s.loop.placed
    ensures var s' := Step(h, ec, s, act);
      s.log <= s'.log && q < |s.log| && q in s'.loop.placed && s'.loop.placed[q] == s.loop.placed[q]
  {
    hide Process, Finish, Records, ConfirmedDurable, BarrierPlaces, Capped;
    match act
    case Take(env) => if CanTake(s) { ProcessEffect(h, s.loop, s.taken, s.log[s.taken], env); }
    case End(env) => FinishEffect(s.loop, ec, env);
    case _ => CallsAreQuiet(h, ec, s, act);
  }

  lemma {:induction false} PlacedForGood(h: HashFn, ec: u64, s: System, acts: seq<Action>, q: nat)
    requires Inv(s) && s.taken <= |s.log| && q < |s.log| && q in s.loop.placed
    ensures var s' := Run(h, ec, s, acts);
      s.log <= s'.log && q in s'.loop.placed && s'.loop.placed[q] == s.loop.placed[q]
    decreases |acts|
  {
    hide Inv, Step;
    if acts != [] {
      StepKeepsPlaced(h, ec, s, acts[0], q);
      StepKeepsInv(h, ec, s, acts[0]);
      PlacedForGood(h, ec, Step(h, ec, s, acts[0]), acts[1..], q);
    }
  }

  lemma StartSourced(h: HashFn, chainId: string, clock: u64)
    requires HashesAreHex(h) && ChainIdOk(chainId)
    ensures Sourced(Initial(h, chainId, clock))
  {
    hide SerializedLen, BodyFor;
    FixedLengths();
    WriterRecordsFit(h, chainId, 0, clock, ChainStarted(), GENESIS_HASH);
  }

  /**
    * In every reachable state, each record line after genesis was written for a command the writer
    * took and carries that command's event, and before the first failure there is one for each.
    */
  lemma EveryLineHasASource(h: HashFn, ec: u64, chainId: string, clock: u64, acts: seq<Action>)
    requires HashesAreHex(h) && ChainIdOk(chainId)
    ensures var s := Run(h, ec, Initial(h, chainId, clock), acts); Inv(s) && Sourced(s)
  {
    hide Run, Initial, Sourced;
    StartKeepsInv(h, chainId, clock);
    RunKeepsInv(h, ec, Initial(h, chainId, clock), acts);
    StartSourced(h, chainId, clock);
    RunKeepsSourced(h, ec, Initial(h, chainId, clock), acts);
  }

  /** A healthy writer has exactly the records it placed on file. */
  lemma HealthyOnFile(s: System, q: nat)
    requires Inv(s) && Sourced(s) && !s.loop.w.poisoned
    ensures OnFile(s, q) <==> q < s.served && s.log[q].RecordCmd?
  {
    hide Records, ConfirmedDurable, BarrierPlaces;
    if q < s.served && s.log[q].RecordCmd? {
      assert PlacedAt(s.loop.w, s.loop.placed[q], s.log[q].event);
      assert SourceOf(s, s.loop.placed[q], q);
    }
  }
}
