/** How often the audit writer makes a checkpoint: never before one is due. */
module AuditCadence {
  import opened Text
  import opened AuditRecord
  import opened AuditWriter
  import opened AuditSystem
  import opened AuditAccounting
  import opened AuditRuns
  import opened AuditService

  /** The checkpoint on line i comes after enough records, or it is the last line, made for a shutdown. */
  predicate InTime(s: System, ec: u64, i: nat)
    requires i < |s.loop.w.lines|
  {
    var n := Since(s.loop.w.lines[..i]);
    n >= AtLeastOne(ec) || (n > 0 && s.loop.stopped && i == |s.loop.w.lines| - 1)
  }

  predicate CheckpointsInTime(s: System, ec: u64) {
    forall i :: 0 <= i < |s.loop.w.lines| && s.loop.w.lines[i].CheckpointLine? ==> InTime(s, ec, i)
  }

  lemma SameLinesInTime(s: System, s': System, ec: u64)
    requires CheckpointsInTime(s, ec) && s'.loop.w.lines == s.loop.w.lines && (s.loop.stopped ==> s'.loop.stopped)
    ensures CheckpointsInTime(s', ec)
  {
    hide Since;
    assert forall i :: 0 <= i < |s.loop.w.lines| && s.loop.w.lines[i].CheckpointLine? ==> InTime(s, ec, i);
  }

  lemma OneMoreLineInTime(s: System, s': System, ec: u64)
    requires CheckpointsInTime(s, ec) && !s.loop.stopped
    requires s.loop.w.lines <= s'.loop.w.lines && |s'.loop.w.lines| == |s.loop.w.lines| + 1
    requires s'.loop.w.lines[|s.loop.w.lines|].CheckpointLine? ==>
      Since(s.loop.w.lines) >= AtLeastOne(ec) || (Since(s.loop.w.lines) > 0 && s'.loop.stopped)
    ensures CheckpointsInTime(s', ec)
  {
    hide Since;
    var lines, lines' := s.loop.w.lines, s'.loop.w.lines;
    forall i | 0 <= i < |lines'| && lines'[i].CheckpointLine? ensures InTime(s', ec, i) {
      if i < |lines| {
        assert InTime(s, ec, i) && lines'[..i] == lines[..i];
      } else {
        assert lines'[..i] == lines;
      }
    }
  }

  lemma RecordAppended(h: HashFn, w: Writer, e: Event, env: RecordEnv)
    ensures var w' := EventWritten(h, w, e, env).w;
      w'.lines == w.lines || (|w'.lines| == |w.lines| + 1 && w.lines <= w'.lines && w'.lines[|w.lines|].RecordLine?)
  {
    hide SerializedLen, NextRecord;
  }

  lemma TakeInTime(h: HashFn, ec: u64, s: System, env: RecordEnv)
    requires AccountInv(s, ec) && CheckpointsInTime(s, ec) && CanTake(s)
    ensures CheckpointsInTime(Step(h, ec, s, Take(env)), ec)
  {
    hide EventWritten, CheckpointsInTime, AccountInv, Capped;
    var cmd, s' := s.log[s.taken], Step(h, ec, s, Take(env));
    if cmd.RecordCmd? && !s.loop.w.poisoned { RecordAppended(h, s.loop.w, cmd.event, env); }
    if s'.loop.w.lines == s.loop.w.lines { SameLinesInTime(s, s', ec); } else { OneMoreLineInTime(s, s', ec); }
  }

  lemma FinishAppends(l: Loop, ec: u64, env: EndEnv)
    requires Accounts(l.w)
    ensures var l' := Finish(l, ec, env);
      && (l'.w.lines == l.w.lines
          || (|l'.w.lines| == |l.w.lines| + 1 && l.w.lines <= l'.w.lines && Due(l.w, OpenBatch(l).shutdown.Some?, ec)))
      && (OpenBatch(l).shutdown.Some? ==> l'.stopped) && (l.stopped ==> l'.stopped)
  {
    hide Accounts, CheckpointWritten, CheckpointDue, Positions, Cells, Due;
    CheckpointAppends(l.w, env);
    if !l.w.poisoned { DueIff(l.w, OpenBatch(l), ec); }
  }

  lemma CheckpointAppends(w: Writer, env: EndEnv)
    ensures var w' := CheckpointWritten(w, env).w;
      w'.lines == w.lines || (|w'.lines| == |w.lines| + 1 && w.lines <= w'.lines)
  {
    hide PayloadFor;
  }

  lemma EndInTime(h: HashFn, ec: u64, s: System, env: EndEnv)
    requires AccountInv(s, ec) && CheckpointsInTime(s, ec) && s.sealed
    ensures CheckpointsInTime(Step(h, ec, s, End(env)), ec)
  {
    hide Finish, CheckpointsInTime, Accounts, GapInv, ShutdownInv, Placement, BarrierPlaces, ConfirmedDurable, Since;
    var s' := Step(h, ec, s, End(env));
    FinishAppends(s.loop, ec, env);
    if s'.loop.w.lines == s.loop.w.lines { SameLinesInTime(s, s', ec); } else { OneMoreLineInTime(s, s', ec); }
  }

  lemma StepInTime(h: HashFn, ec: u64, s: System, act: Action)
    requires AccountInv(s, ec) && CheckpointsInTime(s, ec)
    ensures CheckpointsInTime(Step(h, ec, s, act), ec)
  {
    hide Process, Finish, CheckpointsInTime, Accounts, GapInv, ShutdownInv, Placement, BarrierPlaces, ConfirmedDurable, Capped;
    match act
    case Take(env) => if CanTake(s) { TakeInTime(h, ec, s, env); }
    case End(env) => if s.sealed { EndInTime(h, ec, s, env); }
    case _ => CallsAreQuiet(h, ec, s, act); SameLinesInTime(s, Step(h, ec, s, act), ec);
  }

  lemma {:induction false} RunInTime(h: HashFn, ec: u64, s: System, acts: seq<Action>)
    requires AccountInv(s, ec) && s.taken <= |s.log| && CheckpointsInTime(s, ec)
    ensures CheckpointsInTime(Run(h, ec, s, acts), ec)
    decreases |acts|
  {
    hide AccountInv, Step, CheckpointsInTime;
    if acts != [] {
      StepInTime(h, ec, s, acts[0]);
      StepAccounts(h, ec, s, acts[0]);
      AccountBound(Step(h, ec, s, acts[0]), ec);
      RunInTime(h, ec, Step(h, ec, s, acts[0]), acts[1..]);
    }
  }

  lemma StartInTime(h: HashFn, ec: u64, chainId: string, clock: u64)
    ensures CheckpointsInTime(Initial(h, chainId, clock), ec)
  {
    hide SerializedLen, BodyFor;
  }

  /**
    * No checkpoint comes early: in every reachable state each checkpoint in the file follows at
    * least event_count records after the previous one, save the one that a shutdown makes, which is
    * the last line and still follows at least one record.
    */
  lemma NoCheckpointTooEarly(h: HashFn, ec: u64, chainId: string, clock: u64, acts: seq<Action>)
    requires HashesAreHex(h) && ChainIdOk(chainId)
    ensures CheckpointsInTime(Run(h, ec, Initial(h, chainId, clock), acts), ec)
  {
    hide Run, Initial, CheckpointsInTime, AccountInv;
    StartAccounts(h, ec, chainId, clock);
    AccountBound(Initial(h, chainId, clock), ec);
    StartInTime(h, ec, chainId, clock);
    RunInTime(h, ec, Initial(h, chainId, clock), acts);
  }
}
