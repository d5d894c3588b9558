/**
  * What each step of the limiter does for its caller, in terms of who holds permits and queue
  * positions and not of the counters: when a caller is dispatched at once, queued, granted or
  * refused, and that a queued caller is served as long as closures end.
  */
module LimiterOutcomes {
  import opened Sequences
  import opened Limiter

  /** Holders of execution permits, and of queue positions. */
  function Executing(s: State): nat { |s.granted| + |s.running| }

  function Queued(s: State): nat { |s.positioned| + |s.line| + |s.granted| }

  /** Nothing changes for caller x. */
  predicate Unmoved(s: State, s': State, x: nat) {
    && (x in s'.probing <==> x in s.probing) && (x in s'.positioned <==> x in s.positioned)
    && (x in s'.line <==> x in s.line) && (x in s'.granted <==> x in s.granted)
    && (x in s'.running <==> x in s.running) && (x in s'.dispatched <==> x in s.dispatched)
    && (x in s'.refused <==> x in s.refused) && (x in s'.admitted <==> x in s.admitted)
  }

  ghost predicate OthersUnmoved(s: State, s': State, id: nat) { forall x: nat :: x != id ==> Unmoved(s, s', x) }

  predicate SameMetrics(s: State, s': State) {
    s'.gauge == s.gauge && s'.waits == s.waits && s'.full == s.full && s'.timeouts == s.timeouts
  }

  predicate SameLimits(s: State, s': State) {
    s'.max == s.max && s'.queued == s.queued && s'.closed == s.closed && s'.shut == s.shut
  }

  // ----- getting in -----

  /** A permit is free exactly when fewer callers hold one than there are. */
  lemma FreeIffFewHold(s: State)
    requires Inv(s)
    ensures (s.execFree > 0 <==> Executing(s) < s.max) && (s.execFree == 0 <==> Executing(s) == s.max)
    ensures (s.waitFree > 0 <==> Queued(s) < s.queued) && (s.waitFree == 0 <==> Queued(s) == s.queued)
  {
  }

  lemma NewCaller(s: State)
    requires Inv(s)
    ensures var id := s.arrivals;
      id !in s.probing && id !in s.positioned && id !in s.line && id !in s.granted && id !in s.dispatched && id !in s.refused
      && id !in s.running
  {
    assert Places(s, s.arrivals) == 0;
  }

  lemma OnePlaceOnly(s: State, id: nat)
    requires Inv(s)
    ensures id in s.probing ==> id !in s.positioned && id !in s.refused
    ensures id in s.positioned ==> id !in s.line && id !in s.granted && id !in s.refused
    ensures id in s.granted ==> id !in s.running && id !in s.line
  {
    assert Places(s, id) <= 1;
  }

  lemma ArriveOthers(s: State)
    ensures OthersUnmoved(s, Step(s, Arrive), s.arrivals)
  {
    var s' := Step(s, Arrive);
    forall x: nat | x != s.arrivals ensures Unmoved(s, s', x) { }
  }

  /** A caller that arrives is dispatched at once exactly when a permit is free, and otherwise goes on to the queue. */
  lemma ArriveIff(s: State)
    requires Inv(s)
    ensures var s', id := Step(s, Arrive), s.arrivals;
      && (id in s'.dispatched <==> !s.closed && Executing(s) < s.max) && (id in s'.running <==> id in s'.dispatched)
      && (id in s'.probing <==> !s.closed && Executing(s) == s.max)
      && (id in s'.refused <==> s.closed)
      && s'.arrivals == s.arrivals + 1 && OthersUnmoved(s, s', id) && SameMetrics(s, s') && SameLimits(s, s')
  {
    hide Release, GiveUp, Run, Inv, OthersUnmoved;
    ArriveOthers(s);
    NewCaller(s);
    FreeIffFewHold(s);
  }

  lemma PositionOthers(s: State, id: nat)
    ensures OthersUnmoved(s, Step(s, Position(id)), id)
  {
    hide Release, GiveUp;
    var s' := Step(s, Position(id));
    forall x: nat | x != id ensures Unmoved(s, s', x) { }
  }

  /** A caller is refused for a full queue exactly when all positions are held, and otherwise gets one. */
  lemma PositionIff(s: State, id: nat)
    requires Inv(s) && id in s.probing
    ensures var s' := Step(s, Position(id));
      && id !in s'.probing
      && (id in s'.positioned <==> !s.shut && Queued(s) < s.queued)
      && (id in s'.refused <==> s.shut || Queued(s) == s.queued)
      && s'.full == s.full + (if !s.shut && Queued(s) == s.queued then 1 else 0)
      && s'.gauge == s.gauge && s'.waits == s.waits && s'.timeouts == s.timeouts
      && OthersUnmoved(s, s', id) && SameLimits(s, s')
  {
    hide Release, GiveUp, Run, Inv, OthersUnmoved;
    PositionOthers(s, id);
    FreeIffFewHold(s);
    OnePlaceOnly(s, id);
  }

  lemma JoinOthers(s: State, id: nat)
    ensures OthersUnmoved(s, Step(s, Join(id)), id)
  {
    hide Release, GiveUp;
    var s' := Step(s, Join(id));
    forall x: nat | x != id ensures Unmoved(s, s', x) { }
  }

  /** A queued caller is granted a permit exactly when one is free, and otherwise is the last in line. */
  lemma JoinIff(s: State, id: nat)
    requires Inv(s) && id in s.positioned
    ensures var s' := Step(s, Join(id));
      && id !in s'.positioned
      && (id in s'.granted <==> !s.closed && Executing(s) < s.max)
      && (id in s'.line <==> !s.closed && Executing(s) == s.max) && (id in s'.line ==> s'.line == s.line + [id])
      && (id in s'.refused <==> s.closed)
      && s'.gauge == s.gauge + (if s.closed then 0 else 1)
      && s'.waits == s.waits && s'.full == s.full && s'.timeouts == s.timeouts
      && OthersUnmoved(s, s', id) && SameLimits(s, s')
  {
    hide Release, GiveUp, Run, Inv, OthersUnmoved;
    JoinOthers(s, id);
    FreeIffFewHold(s);
    OnePlaceOnly(s, id);
    assert forall x :: x in s.line + [id] <==> x in s.line || x == id;
  }

  /** A granted caller that is polled runs, and its queue position is free again. */
  lemma ResumeOutcome(s: State, id: nat)
    requires Inv(s) && id in s.granted
    ensures var s' := Step(s, Resume(id));
      && id in s'.running && id in s'.dispatched && id in s'.admitted && id !in s'.granted
      && Executing(s') == Executing(s) && Queued(s') == Queued(s) - 1
      && s'.line == s.line && s'.waits == s.waits + 1 && s'.full == s.full && s'.timeouts == s.timeouts
      && OthersUnmoved(s, s', id) && SameLimits(s, s')
  {
    hide Release, GiveUp, Run, Inv;
    OnePlaceOnly(s, id);
    assert |s.granted - {id}| == |s.granted| - 1 && |s.running + {id}| == |s.running| + 1;
  }

  // ----- giving up, and ending -----

  /** Where a permit that comes back goes: to the first in line, or to the pool. */
  predicate PermitPassedOn(s: State, s': State) {
    if s.line != [] && !s.closed then
      s.line[0] in s'.granted && s'.line == s.line[1..] && Executing(s') == Executing(s)
    else s'.line == s.line && Executing(s') == Executing(s) - 1
  }

  lemma GiveUpOutcome(s: State, id: nat)
    requires Inv(s) && Waiting(s, id)
    ensures var s' := GiveUp(s, id);
      && id in s'.refused && !Waiting(s', id) && Queued(s') == Queued(s) - 1
      && (id in s.granted ==> PermitPassedOn(s, s'))
      && (id in s.line ==> s'.line == Without(s.line, id) && Executing(s') == Executing(s))
      && s'.gauge == s.gauge - 1 && s'.waits == s.waits && s'.full == s.full && s'.timeouts == s.timeouts && SameLimits(s, s')
  {
    hide Places;
    OnePlaceWaiting(s, id);
    if id in s.line {
      WithoutFacts(s.line, id);
    } else {
      HeadIsNew(s);
      assert |s.granted - {id}| == |s.granted| - 1;
      if s.line != [] && !s.closed {
        TailFacts(s.line);
        assert |s.granted - {id} + {s.line[0]}| == |s.granted - {id}| + 1;
      }
    }
  }

  lemma OnePlaceWaiting(s: State, id: nat)
    requires Inv(s) && Waiting(s, id)
    ensures !(id in s.line && id in s.granted) && id !in s.refused
  {
    assert Places(s, id) <= 1;
  }

  lemma HeadIsNew(s: State)
    requires Inv(s)
    ensures s.line != [] ==> s.line[0] !in s.granted
  {
    if s.line != [] { assert Places(s, s.line[0]) <= 1; }
  }

  /** The three ways to leave the queue without being served; only the deadline counts as a timeout. */
  lemma LeaveOutcome(s: State, id: nat, act: Action)
    requires Inv(s) && Waiting(s, id) && (act == Expire(id) || act == Cancel(id) || (act == WakeClosed(id) && s.closed))
    ensures var s' := Step(s, act);
      && id in s'.refused && !Waiting(s', id) && Queued(s') == Queued(s) - 1 && s'.gauge == s.gauge - 1
      && (id in s.granted ==> PermitPassedOn(s, s'))
      && (id in s.line ==> s'.line == Without(s.line, id) && Executing(s') == Executing(s))
      && s'.timeouts == s.timeouts + One(act.Expire?) && s'.waits == s.waits + One(act.Expire?) && s'.full == s.full
  {
    hide GiveUp;
    var timed := s.(waits := s.waits + 1, timeouts := s.timeouts + 1);
    if act.Expire? {
      assert Inv(timed) by { assert forall x: nat :: Places(timed, x) == Places(s, x); }
      GiveUpOutcome(timed, id);
    } else {
      GiveUpOutcome(s, id);
    }
  }

  /** A closure that ends frees its permit for the first in line, or for the pool. */
  lemma EndOutcome(s: State, id: nat)
    requires Inv(s) && id in s.running
    ensures var s' := Step(s, Ends(id));
      && id !in s'.running && PermitPassedOn(s, s') && SameMetrics(s, s') && SameLimits(s, s') && s'.positioned == s.positioned
  {
    HeadIsNew(s);
    assert |s.running - {id}| == |s.running| - 1;
    if s.line != [] && !s.closed { assert |s.granted + {s.line[0]}| == |s.granted| + 1; }
  }

  /** After closing nobody is dispatched from the queue or on arrival except callers already granted a permit. */
  lemma ClosedServesNobodyNew(s: State, act: Action, x: nat)
    requires Inv(s) && s.closed && x !in s.granted && x !in s.dispatched
    ensures var s' := Step(s, act); s'.closed && x !in s'.granted && x !in s'.dispatched
  {
    hide Inv, Without;
  }

  /** Closing takes nothing from those who hold a permit, and turns away whoever asks for one from then on. */
  lemma ClosingTurnsAway(s: State, id: nat)
    requires Inv(s)
    ensures var c := Step(s, Close);
      && c == s.(closed := true)
      && s.arrivals in Step(c, Arrive).refused
      && (id in s.positioned ==> id in Step(c, Join(id)).refused && id !in Step(c, Join(id)).positioned)
      && (Waiting(s, id) ==> id in Step(c, WakeClosed(id)).refused && !Waiting(Step(c, WakeClosed(id)), id))
  {
    hide GiveUp;
    var c := Step(s, Close);
    StepKeepsInv(s, Close);
    if Waiting(s, id) { LeaveOutcome(c, id, WakeClosed(id)); }
  }

  // ----- everyone in line can be served -----

  predicate Serving(act: Action) { act.Resume? || act.Ends? }

  lemma SomeHolder(s: State) returns (id: nat)
    requires Inv(s) && s.line != [] && !s.closed && s.max > 0
    ensures id in s.granted || id in s.running
  {
    if s.running == {} {
      assert |s.running| == 0 && |s.granted| > 0;
      id :| id in s.granted;
    } else {
      id :| id in s.running;
    }
  }

  /** One permit comes back, and the first in line has it. */
  lemma HeadServed(s: State) returns (acts: seq<Action>)
    requires Inv(s) && s.line != [] && !s.closed && s.max > 0
    ensures forall act :: act in acts ==> Serving(act)
    ensures var s' := Run(s, acts);
      Inv(s') && !s'.closed && s'.max == s.max && s'.line == s.line[1..] && s.line[0] in s'.granted
  {
    hide Inv, Step;
    var id := SomeHolder(s);
    HeadIsNew(s);
    if id in s.running {
      acts := [Ends(id)];
      EndOutcome(s, id);
      StepKeepsInv(s, Ends(id));
      assert Run(s, acts) == Run(Step(s, Ends(id)), []);
    } else {
      var s1 := Step(s, Resume(id));
      acts := [Resume(id), Ends(id)];
      ResumeOutcome(s, id);
      StepKeepsInv(s, Resume(id));
      EndOutcome(s1, id);
      StepKeepsInv(s1, Ends(id));
      assert acts[1..] == [Ends(id)];
      assert Run(s, acts) == Run(s1, [Ends(id)]) == Run(Step(s1, Ends(id)), []);
    }
  }

  lemma {:induction false} RunInPieces(s: State, a: seq<Action>, b: seq<Action>)
    ensures Run(s, a + b) == Run(Run(s, a), b)
    decreases |a|
  {
    hide Step;
    if a == [] {
      assert a + b == b;
    } else {
      assert (a + b)[0] == a[0] && (a + b)[1..] == a[1..] + b;
      RunInPieces(Step(s, a[0]), a[1..], b);
    }
  }

  /**
    * No waiter is stuck: whoever is in line of an open limiter is dispatched after closures ahead
    * of it have ended and callers that were granted a permit have been polled, with no arrival,
    * timeout or cancellation needed.
    */
  lemma {:induction false} EveryWaiterCanBeServed(s: State, k: nat) returns (acts: seq<Action>)
    requires Inv(s) && k < |s.line| && !s.closed && s.max > 0
    ensures forall act :: act in acts ==> Serving(act)
    ensures s.line[k] in Run(s, acts).dispatched
    decreases k
  {
    hide Inv, Step;
    var first := HeadServed(s);
    var s1 := Run(s, first);
    var rest: seq<Action>;
    if k == 0 {
      rest := [Resume(s.line[0])];
      ResumeOutcome(s1, s.line[0]);
      assert Run(s1, rest) == Run(Step(s1, Resume(s.line[0])), []);
    } else {
      rest := EveryWaiterCanBeServed(s1, k - 1);
    }
    acts := first + rest;
    RunInPieces(s, first, rest);
  }
}
