/**
  * The bounded admission queue for blocking crypto work: CryptoLimiter in src/core/blocking.rs with
  * the wait guard of src/core/metrics.rs, as an interleaving of atomic steps over two semaphores.
  *
  * Every access to a semaphore is a step of its own, so that permits may come and go between a
  * caller's attempts. Both semaphores are fair: a released permit goes to the caller that has
  * waited longest. A caller is known by its arrival number.
  */
module Limiter {
  import opened Sequences

  /**
    * probing: found no free permit, holds nothing yet. positioned: holds a queue position.
    * line: waiting for a permit, longest first. granted: given a permit but not yet resumed.
    * running: closures dispatched and not ended. gauge, waits, full and timeouts are the metrics.
    * admitted: callers that were dispatched after waiting. closed and shut: the execution and the
    * waiting semaphore have been closed.
    */
  datatype State = State(max: nat, queued: nat, execFree: nat, waitFree: nat, closed: bool, shut: bool, arrivals: nat,
                         probing: set<nat>, positioned: set<nat>, line: seq<nat>, granted: set<nat>, running: set<nat>,
                         dispatched: set<nat>, refused: set<nat>, admitted: set<nat>,
                         gauge: int, waits: nat, full: nat, timeouts: nat)

  datatype Action =
    | Arrive
    | Position(id: nat)
    | Join(id: nat)
    | Resume(id: nat)
    | Expire(id: nat)
    | Cancel(id: nat)
    | Ends(id: nat)
    | Close
    | Shut
    | WakeClosed(id: nat)

  function Initial(max: nat, queued: nat): State {
    State(max, queued, max, queued, false, false, 0, {}, {}, [], {}, {}, {}, {}, {}, 0, 0, 0, 0)
  }

  function Without(line: seq<nat>, id: nat): seq<nat> {
    if line == [] then [] else if line[0] == id then line[1..] else [line[0]] + Without(line[1..], id)
  }

  /** An execution permit comes back: to the head of the line, or to the free count. */
  function Release(s: State): State {
    if s.line != [] && !s.closed then s.(granted := s.granted + {s.line[0]}, line := s.line[1..])
    else s.(execFree := s.execFree + 1)
  }

  /** A waiter gives up: it leaves the line, or hands back a permit it was just given. Both its guards drop. */
  function GiveUp(s: State, id: nat): State {
    var s1 := s.(waitFree := s.waitFree + 1, gauge := s.gauge - 1, refused := s.refused + {id});
    if id in s.line then s1.(line := Without(s.line, id)) else Release(s1.(granted := s.granted - {id}))
  }

  predicate Waiting(s: State, id: nat) { id in s.line || id in s.granted }

  function Step(s: State, act: Action): State {
    match act
    case Arrive =>
      var id := s.arrivals;
      var s1 := s.(arrivals := id + 1);
      if s.closed then s1.(refused := s.refused + {id})
      else if s.execFree > 0 then
        s1.(execFree := s.execFree - 1, running := s.running + {id}, dispatched := s.dispatched + {id})
      else s1.(probing := s.probing + {id})
    case Position(id) =>
      if id !in s.probing then s
      else
        var s1 := s.(probing := s.probing - {id});
        if s.shut then s1.(refused := s.refused + {id})
        else if s.waitFree > 0 then s1.(waitFree := s.waitFree - 1, positioned := s.positioned + {id})
        else s1.(refused := s.refused + {id}, full := s.full + 1)
    case Join(id) =>
      if id !in s.positioned then s
      else
        var s1 := s.(positioned := s.positioned - {id});
        if s.closed then s1.(waitFree := s.waitFree + 1, refused := s.refused + {id})
        else if s.execFree > 0 then s1.(execFree := s.execFree - 1, granted := s.granted + {id}, gauge := s.gauge + 1)
        else s1.(line := s.line + [id], gauge := s.gauge + 1)
    case Resume(id) =>
      if id !in s.granted then s
      else s.(waitFree := s.waitFree + 1, gauge := s.gauge - 1, granted := s.granted - {id}, waits := s.waits + 1,
              admitted := s.admitted + {id}, running := s.running + {id}, dispatched := s.dispatched + {id})
    case Expire(id) =>
      // A permit may arrive between the last poll and the deadline; it is then handed on.
      if !Waiting(s, id) then s else GiveUp(s.(waits := s.waits + 1, timeouts := s.timeouts + 1), id)
    case Cancel(id) =>
      if !Waiting(s, id) then s else GiveUp(s, id)
    case Ends(id) =>
      if id !in s.running then s else Release(s.(running := s.running - {id}))
    case Close => s.(closed := true)
    case Shut => s.(shut := true)
    case WakeClosed(id) =>
      if !s.closed || !Waiting(s, id) then s else GiveUp(s, id)
  }

  function Run(s: State, acts: seq<Action>): State
    decreases |acts|
  {
    if acts == [] then s else Run(Step(s, acts[0]), acts[1..])
  }

  // ----- the invariant -----

  /** `out` execution permits are on their way from one holder to the next. */
  predicate Conserved(s: State, out: nat) {
    && s.execFree + |s.granted| + |s.running| + out == s.max
    && s.waitFree + |s.positioned| + |s.line| + |s.granted| == s.queued
    && s.gauge == |s.line| + |s.granted|
    && s.waits == |s.admitted| + s.timeouts
  }

  function One(b: bool): nat { if b then 1 else 0 }

  /** In how many of the six places a caller is. */
  function Places(s: State, id: nat): nat {
    One(id in s.probing) + One(id in s.positioned) + One(id in s.line) + One(id in s.granted)
    + One(id in s.dispatched) + One(id in s.refused)
  }

  /** Every caller that has arrived is in exactly one place; so a refused one was never dispatched. */
  ghost predicate Placed(s: State) {
    && Distinct(s.line)
    && (forall id: nat :: Places(s, id) == One(id < s.arrivals))
    && s.running <= s.dispatched && s.admitted <= s.dispatched
  }

  /** No permit lies idle while someone waits. */
  predicate NoIdlePermit(s: State) { s.line != [] && !s.closed ==> s.execFree == 0 }

  ghost predicate Inv(s: State) { Conserved(s, 0) && Placed(s) && NoIdlePermit(s) }

  lemma TailFacts(line: seq<nat>)
    requires Distinct(line) && line != []
    ensures Distinct(line[1..]) && line[0] !in line[1..] && forall x :: x in line <==> x == line[0] || x in line[1..]
  {
  }

  lemma {:induction false} WithoutFacts(line: seq<nat>, id: nat)
    requires Distinct(line) && id in line
    ensures var r := Without(line, id);
      |r| == |line| - 1 && Distinct(r) && forall x :: x in r <==> x in line && x != id
  {
    TailFacts(line);
    if line[0] != id { WithoutFacts(line[1..], id); }
  }

  lemma ReleaseKeepsInv(s: State)
    requires Conserved(s, 1) && Placed(s) && NoIdlePermit(s)
    ensures Inv(Release(s))
  {
    var s' := Release(s);
    if s.line != [] && !s.closed {
      TailFacts(s.line);
      var id := s.line[0];
      assert Places(s, id) <= 1;
      assert |s.granted + {id}| == |s.granted| + 1;
      forall x: nat ensures Places(s', x) == One(x < s'.arrivals) { assert Places(s, x) == One(x < s.arrivals); }
    } else {
      assert forall x: nat :: Places(s', x) == Places(s, x);
    }
  }

  lemma ArriveKeepsInv(s: State)
    requires Inv(s)
    ensures Inv(Step(s, Arrive))
  {
    var id, s' := s.arrivals, Step(s, Arrive);
    assert Places(s, id) == 0;
    assert id !in s.running;
    assert |s.running + {id}| == |s.running| + 1;
    forall x: nat ensures Places(s', x) == One(x < s'.arrivals) { assert Places(s, x) == One(x < s.arrivals); }
  }

  lemma PositionKeepsInv(s: State, id: nat)
    requires Inv(s) && id in s.probing
    ensures Inv(Step(s, Position(id)))
  {
    hide Placed, Places, Conserved;
    assert id !in s.positioned by { OnePlace(s, id); }
    PositionConserves(s, id);
    PositionPlaces(s, id);
  }

  lemma PositionConserves(s: State, id: nat)
    requires Conserved(s, 0) && id !in s.positioned
    ensures Conserved(Step(s, Position(id)), 0)
  {
    hide Release, GiveUp, Without, Run, Distinct, Waiting;
    if !s.shut && s.waitFree > 0 {
      assert |s.positioned + {id}| == |s.positioned| + 1;
    }
  }

  lemma OnePlace(s: State, id: nat)
    requires Placed(s)
    ensures Places(s, id) <= 1 && !(id in s.probing && id in s.positioned)
  {
  }

  lemma PositionPlaces(s: State, id: nat)
    requires Placed(s) && id in s.probing
    ensures Placed(Step(s, Position(id)))
  {
    var s' := Step(s, Position(id));
    assert Places(s, id) <= 1;
    forall x: nat ensures Places(s', x) == One(x < s'.arrivals) { assert Places(s, x) == One(x < s.arrivals); }
  }

  lemma JoinKeepsInv(s: State, id: nat)
    requires Inv(s) && id in s.positioned
    ensures Inv(Step(s, Join(id)))
  {
    var s' := Step(s, Join(id));
    assert Places(s, id) <= 1;
    assert |s.positioned - {id}| == |s.positioned| - 1 && |s.granted + {id}| == |s.granted| + 1;
    assert forall x: nat :: x in s.line + [id] <==> x in s.line || x == id;
    forall x: nat ensures Places(s', x) == One(x < s'.arrivals) { assert Places(s, x) == One(x < s.arrivals); }
  }

  lemma ResumeKeepsInv(s: State, id: nat)
    requires Inv(s) && id in s.granted
    ensures Inv(Step(s, Resume(id)))
  {
    var s' := Step(s, Resume(id));
    assert Places(s, id) <= 1;
    assert id !in s.running && id !in s.admitted;
    assert |s.granted - {id}| == |s.granted| - 1;
    assert |s.running + {id}| == |s.running| + 1 && |s.admitted + {id}| == |s.admitted| + 1;
    forall x: nat ensures Places(s', x) == One(x < s'.arrivals) { assert Places(s, x) == One(x < s.arrivals); }
  }

  lemma GiveUpKeepsInv(s: State, id: nat, timedOut: bool)
    requires Inv(s) && Waiting(s, id)
    ensures Inv(GiveUp(s.(waits := s.waits + One(timedOut), timeouts := s.timeouts + One(timedOut)), id))
  {
    hide Release, Inv, Places;
    var s0 := s.(waits := s.waits + One(timedOut), timeouts := s.timeouts + One(timedOut));
    if id in s.line { LineLeft(s, id, s0.waits, s0.timeouts); } else { PermitHandedOn(s, id, s0.waits, s0.timeouts); }
  }

  lemma LineLeft(s: State, id: nat, waits: nat, timeouts: nat)
    requires Inv(s) && id in s.line && waits - timeouts == s.waits - s.timeouts
    ensures Inv(s.(waitFree := s.waitFree + 1, gauge := s.gauge - 1, refused := s.refused + {id},
                   line := Without(s.line, id), waits := waits, timeouts := timeouts))
  {
    var s' := s.(waitFree := s.waitFree + 1, gauge := s.gauge - 1, refused := s.refused + {id},
                 line := Without(s.line, id), waits := waits, timeouts := timeouts);
    assert Places(s, id) <= 1;
    WithoutFacts(s.line, id);
    forall x: nat ensures Places(s', x) == One(x < s'.arrivals) { assert Places(s, x) == One(x < s.arrivals); }
  }

  lemma PermitHandedOn(s: State, id: nat, waits: nat, timeouts: nat)
    requires Inv(s) && id in s.granted && waits - timeouts == s.waits - s.timeouts
    ensures Inv(Release(s.(waitFree := s.waitFree + 1, gauge := s.gauge - 1, refused := s.refused + {id},
                           granted := s.granted - {id}, waits := waits, timeouts := timeouts)))
  {
    hide Release;
    var s' := s.(waitFree := s.waitFree + 1, gauge := s.gauge - 1, refused := s.refused + {id},
                 granted := s.granted - {id}, waits := waits, timeouts := timeouts);
    assert Places(s, id) <= 1;
    assert |s.granted - {id}| == |s.granted| - 1;
    forall x: nat ensures Places(s', x) == One(x < s'.arrivals) { assert Places(s, x) == One(x < s.arrivals); }
    ReleaseKeepsInv(s');
  }

  lemma EndKeepsInv(s: State, id: nat)
    requires Inv(s) && id in s.running
    ensures Inv(Step(s, Ends(id)))
  {
    hide Release;
    var s1 := s.(running := s.running - {id});
    assert |s.running - {id}| == |s.running| - 1;
    forall x: nat ensures Places(s1, x) == Places(s, x) { }
    ReleaseKeepsInv(s1);
  }

  lemma CloseKeepsInv(s: State, act: Action)
    requires Inv(s) && (act == Close || act == Shut)
    ensures Inv(Step(s, act))
  {
    forall x: nat ensures Places(Step(s, act), x) == Places(s, x) { }
  }

  lemma StepKeepsInv(s: State, act: Action)
    requires Inv(s)
    ensures Inv(Step(s, act))
  {
    hide Inv, GiveUp, Release;
    match act
    case Arrive => ArriveKeepsInv(s);
    case Position(id) => if id in s.probing { PositionKeepsInv(s, id); }
    case Join(id) => if id in s.positioned { JoinKeepsInv(s, id); }
    case Resume(id) => if id in s.granted { ResumeKeepsInv(s, id); }
    case Expire(id) => if Waiting(s, id) { GiveUpKeepsInv(s, id, true); }
    case Cancel(id) => if Waiting(s, id) { GiveUpKeepsInv(s, id, false); }
    case WakeClosed(id) => if Waiting(s, id) { GiveUpKeepsInv(s, id, false); }
    case Ends(id) => if id in s.running { EndKeepsInv(s, id); }
    case _ => CloseKeepsInv(s, act);
  }

  lemma {:induction false} RunKeepsInv(s: State, acts: seq<Action>)
    requires Inv(s)
    ensures Inv(Run(s, acts))
    decreases |acts|
  {
    hide Inv, Step;
    if acts != [] {
      StepKeepsInv(s, acts[0]);
      RunKeepsInv(Step(s, acts[0]), acts[1..]);
    }
  }

  // ----- theorems -----

  /**
    * Under every interleaving: permits and queue positions are conserved, the limits hold, the
    * gauge counts the waiters, every caller is in one place only and no permit lies idle while
    * someone waits for one.
    */
  lemma AdmissionSafety(max: nat, queued: nat, acts: seq<Action>)
    ensures var s := Run(Initial(max, queued), acts);
      && s.execFree + |s.granted| + |s.running| == max && |s.running| <= max
      && s.waitFree + |s.positioned| + |s.line| + |s.granted| == queued && |s.line| + |s.granted| <= queued
      && s.gauge == |s.line| + |s.granted| && s.waits == |s.admitted| + s.timeouts
      && (forall id: nat :: Places(s, id) == One(id < s.arrivals))
      && (s.line != [] && !s.closed ==> s.execFree == 0)
  {
    hide Run;
    var s0 := Initial(max, queued);
    assert Inv(s0);
    RunKeepsInv(s0, acts);
    RunKeepsLimits(s0, acts);
  }

  lemma {:induction false} RunKeepsLimits(s: State, acts: seq<Action>)
    ensures Run(s, acts).max == s.max && Run(s, acts).queued == s.queued
    decreases |acts|
  {
    if acts != [] { RunKeepsLimits(Step(s, acts[0]), acts[1..]); }
  }

  /** Once refused, timed out or cancelled before dispatch, a caller's closure never runs. */
  lemma RefusalIsFinal(s: State, acts: seq<Action>, id: nat)
    requires Inv(s) && id in s.refused
    ensures id in Run(s, acts).refused && id !in Run(s, acts).dispatched
  {
    hide Run;
    RunKeepsInv(s, acts);
    RefusedStays(s, acts, id);
    assert Places(Run(s, acts), id) <= 1;
  }

  lemma {:induction false} RefusedStays(s: State, acts: seq<Action>, id: nat)
    requires id in s.refused
    ensures id in Run(s, acts).refused
    decreases |acts|
  {
    if acts != [] { RefusedStays(Step(s, acts[0]), acts[1..], id); }
  }

  /** A dispatched closure keeps its permit until it ends, whatever happens to its caller or to anyone else. */
  lemma {:induction false} PermitHeldUntilEnd(s: State, acts: seq<Action>, id: nat)
    requires id in s.running && Ends(id) !in acts
    ensures id in Run(s, acts).running
    decreases |acts|
  {
    if acts != [] {
      assert acts[0] in acts && forall a :: a in acts[1..] ==> a in acts;
      PermitHeldUntilEnd(Step(s, acts[0]), acts[1..], id);
    }
  }

  // ----- first in, first out -----

  /** b comes somewhere after the first a. */
  predicate Precedes(line: seq<nat>, a: nat, b: nat) {
    line != [] && if line[0] == a then b in line[1..] else Precedes(line[1..], a, b)
  }

  /** a has left the line for good, or is still ahead of b, or b has given up. */
  ghost predicate NotOvertaken(s: State, a: nat, b: nat) {
    || a in s.granted || a in s.dispatched || a in s.refused
    || (a in s.line && (Precedes(s.line, a, b) || b in s.refused))
  }

  lemma {:induction false} PrecedesInLine(line: seq<nat>, a: nat, b: nat)
    requires Precedes(line, a, b)
    ensures a in line && b in line
  {
    if line[0] != a { PrecedesInLine(line[1..], a, b); }
  }

  lemma {:induction false} WithoutKeepsOrder(line: seq<nat>, id: nat, a: nat, b: nat)
    requires Distinct(line) && id in line && Precedes(line, a, b) && a != id && b != id
    ensures Precedes(Without(line, id), a, b)
  {
    TailFacts(line);
    if line[0] != id {
      WithoutFacts(line[1..], id);
      if line[0] != a { WithoutKeepsOrder(line[1..], id, a, b); }
    }
  }

  lemma {:induction false} JoinedBehind(line: seq<nat>, id: nat, a: nat, b: nat)
    requires Precedes(line, a, b)
    ensures Precedes(line + [id], a, b)
  {
    assert (line + [id])[1..] == line[1..] + [id];
    if line[0] != a { JoinedBehind(line[1..], id, a, b); }
  }

  lemma ReleaseKeepsOrder(s: State, a: nat, b: nat)
    requires NotOvertaken(s, a, b)
    ensures NotOvertaken(Release(s), a, b)
  {
  }

  lemma GiveUpKeepsOrder(s: State, id: nat, a: nat, b: nat)
    requires Placed(s) && Waiting(s, id) && NotOvertaken(s, a, b)
    ensures NotOvertaken(GiveUp(s, id), a, b)
  {
    hide Release;
    assert Places(s, a) <= 1 && Places(s, id) <= 1;
    var s1 := s.(waitFree := s.waitFree + 1, gauge := s.gauge - 1, refused := s.refused + {id});
    if id in s.line {
      WithoutFacts(s.line, id);
      if a != id && b != id && a in s.line && Precedes(s.line, a, b) { WithoutKeepsOrder(s.line, id, a, b); }
    } else {
      ReleaseKeepsOrder(s1.(granted := s.granted - {id}), a, b);
    }
  }

  lemma JoinKeepsOrder(s: State, id: nat, a: nat, b: nat)
    requires Placed(s) && id in s.positioned && NotOvertaken(s, a, b)
    ensures NotOvertaken(Step(s, Join(id)), a, b)
  {
    if Precedes(s.line, a, b) { JoinedBehind(s.line, id, a, b); }
  }

  lemma StepKeepsOrder(s: State, act: Action, a: nat, b: nat)
    requires Placed(s) && NotOvertaken(s, a, b)
    ensures NotOvertaken(Step(s, act), a, b)
  {
    hide GiveUp, Release, Precedes;
    var timed := s.(waits := s.waits + 1, timeouts := s.timeouts + 1);
    match act
    case Join(id) => if id in s.positioned { JoinKeepsOrder(s, id, a, b); }
    case Expire(id) =>
      if Waiting(s, id) {
        assert forall x: nat :: Places(timed, x) == Places(s, x);
        GiveUpKeepsOrder(timed, id, a, b);
      }
    case Cancel(id) => if Waiting(s, id) { GiveUpKeepsOrder(s, id, a, b); }
    case WakeClosed(id) => if Waiting(s, id) { GiveUpKeepsOrder(s, id, a, b); }
    case Ends(id) => ReleaseKeepsOrder(s.(running := s.running - {id}), a, b);
    case _ =>
  }

  lemma {:induction false} RunKeepsOrder(s: State, acts: seq<Action>, a: nat, b: nat)
    requires Inv(s) && NotOvertaken(s, a, b)
    ensures NotOvertaken(Run(s, acts), a, b)
    decreases |acts|
  {
    hide Step, NotOvertaken, Conserved;
    if acts != [] {
      StepKeepsInv(s, acts[0]);
      StepKeepsOrder(s, acts[0], a, b);
      RunKeepsOrder(Step(s, acts[0]), acts[1..], a, b);
    }
  }

  /** Nobody overtakes: while a waiter is still in line, no one behind it has been given a permit. */
  lemma FirstInFirstOut(s: State, acts: seq<Action>, a: nat, b: nat)
    requires Inv(s) && Precedes(s.line, a, b)
    ensures var s' := Run(s, acts); a in s'.line ==> b !in s'.granted && b !in s'.dispatched
  {
    hide Run;
    PrecedesInLine(s.line, a, b);
    RunKeepsInv(s, acts);
    RunKeepsOrder(s, acts, a, b);
    var s' := Run(s, acts);
    if Precedes(s'.line, a, b) { PrecedesInLine(s'.line, a, b); }
    assert Places(s', a) <= 1 && Places(s', b) <= 1;
  }

  // ----- the limiter as it runs -----

  datatype Metrics = Metrics(gauge: int, waits: nat, full: nat, timeouts: nat)

  /** What has become of the callers; the limiter itself does not keep this. */
  datatype Record = Record(dispatched: set<nat>, refused: set<nat>, admitted: set<nat>)

  class CryptoLimiter {
    const max: nat
    const queued: nat
    var execFree: nat
    var waitFree: nat
    var closed: bool
    var shut: bool
    var arrivals: nat
    var probing: set<nat>
    var positioned: set<nat>
    var line: seq<nat>
    var granted: set<nat>
    var running: set<nat>
    var metrics: Metrics
    ghost var record: Record

    ghost function View(): State
      reads this
    {
      State(max, queued, execFree, waitFree, closed, shut, arrivals, probing, positioned, line, granted, running,
            record.dispatched, record.refused, record.admitted,
            metrics.gauge, metrics.waits, metrics.full, metrics.timeouts)
    }

    constructor (max: nat, queued: nat)
      ensures View() == Initial(max, queued) && Inv(View())
    {
      this.max, this.queued := max, queued;
      execFree, waitFree, closed, shut, arrivals := max, queued, false, false, 0;
      probing, positioned, line, granted, running := {}, {}, [], {}, {};
      metrics, record := Metrics(0, 0, 0, 0), Record({}, {}, {});
    }

    /** The first attempt of acquire: a permit at once and straight to dispatch, or on to the queue. */
    method TryExecute() returns (id: nat)
      requires Inv(View())
      modifies this
      ensures View() == Step(old(View()), Arrive) && Inv(View()) && id == old(arrivals)
    {
      hide Inv, GiveUp, Release;
      StepKeepsInv(View(), Arrive);
      id := arrivals;
      arrivals := id + 1;
      if closed {
        record := record.(refused := record.refused + {id});
      } else if execFree > 0 {
        execFree := execFree - 1;
        running := running + {id};
        record := record.(dispatched := record.dispatched + {id});
      } else {
        probing := probing + {id};
      }
    }

    /** The attempt at a queue position, or the refusal of a full queue. */
    method TryPosition(id: nat)
      requires Inv(View()) && id in probing
      modifies this
      ensures View() == Step(old(View()), Position(id)) && Inv(View())
    {
      hide Inv, GiveUp, Release;
      StepKeepsInv(View(), Position(id));
      probing := probing - {id};
      if shut {
        record := record.(refused := record.refused + {id});
      } else if waitFree > 0 {
        waitFree := waitFree - 1;
        positioned := positioned + {id};
      } else {
        metrics := metrics.(full := metrics.full + 1);
        record := record.(refused := record.refused + {id});
      }
    }

    /** The wait guard is created and the execution semaphore asked: a permit, a place in line, or an error. */
    method StartWaiting(id: nat)
      requires Inv(View()) && id in positioned
      modifies this
      ensures View() == Step(old(View()), Join(id)) && Inv(View())
    {
      hide Inv, GiveUp, Release;
      StepKeepsInv(View(), Join(id));
      metrics := metrics.(gauge := metrics.gauge + 1);
      positioned := positioned - {id};
      if closed {
        DropGuards();
        record := record.(refused := record.refused + {id});
      } else if execFree > 0 {
        execFree := execFree - 1;
        granted := granted + {id};
      } else {
        line := line + [id];
      }
    }

    /** The wait guard and the queue position drop together. */
    method DropGuards()
      modifies this`waitFree, this`metrics
      ensures waitFree == old(waitFree) + 1 && metrics == old(metrics).(gauge := old(metrics.gauge) - 1)
    {
      metrics := metrics.(gauge := metrics.gauge - 1);
      waitFree := waitFree + 1;
    }

    /** A permit guard drops. */
    method DropPermit()
      modifies this`granted, this`line, this`execFree
      ensures View() == Release(old(View()))
    {
      if line != [] && !closed {
        granted, line := granted + {line[0]}, line[1..];
      } else {
        execFree := execFree + 1;
      }
    }

    /** The waiter is polled with its permit in hand; both guards drop and the closure is dispatched. */
    method Admit(id: nat)
      requires Inv(View()) && id in granted
      modifies this
      ensures View() == Step(old(View()), Resume(id)) && Inv(View())
    {
      hide Inv, GiveUp, Release;
      StepKeepsInv(View(), Resume(id));
      metrics := metrics.(waits := metrics.waits + 1);
      DropGuards();
      granted, running := granted - {id}, running + {id};
      record := record.(dispatched := record.dispatched + {id}, admitted := record.admitted + {id});
    }

    /** A wait ends without a permit for the caller: the pending request and both guards are dropped. */
    method DropWait(id: nat)
      requires Waiting(View(), id)
      modifies this
      ensures View() == GiveUp(old(View()), id)
    {
      hide Release;
      record := record.(refused := record.refused + {id});
      DropGuards();
      if id in line {
        line := Without(line, id);
      } else {
        granted := granted - {id};
        DropPermit();
      }
    }

    /** The deadline passes. */
    method TimeOut(id: nat)
      requires Inv(View()) && Waiting(View(), id)
      modifies this
      ensures View() == Step(old(View()), Expire(id)) && Inv(View())
    {
      hide Inv, GiveUp, Release;
      StepKeepsInv(View(), Expire(id));
      metrics := metrics.(waits := metrics.waits + 1, timeouts := metrics.timeouts + 1);
      DropWait(id);
    }

    /** The caller's future is dropped. */
    method Abandon(id: nat)
      requires Inv(View()) && Waiting(View(), id)
      modifies this
      ensures View() == Step(old(View()), Cancel(id)) && Inv(View())
    {
      hide Inv, GiveUp, Release;
      StepKeepsInv(View(), Cancel(id));
      DropWait(id);
    }

    /** The closure returns, fails or panics: its permit is dropped in every case. */
    method Complete(id: nat)
      requires Inv(View()) && id in running
      modifies this
      ensures View() == Step(old(View()), Ends(id)) && Inv(View())
    {
      hide Inv, GiveUp, Release;
      StepKeepsInv(View(), Ends(id));
      running := running - {id};
      DropPermit();
    }
  }
}
