/**
 * ShakeToFindCursor (main.cpp:255-408), reduced to the glue between its two
 * parts: a mouse-move sample goes to the detector, and to Enlarge when the
 * detector says so (main.cpp:357-361); a tick of the timer goes to
 * RestoreIfNeeded (main.cpp:381-385).
 */
module App {
  import opened Config
  import opened Clock
  import opened Detector
  import opened Platform
  import opened Cursors

  /** Everything the core changes: the detector's fields, the CursorState and the window station. */
  datatype System = System(sampler: Sampler, screen: Screen)

  /**
   * ProcessMouseMove: the detector reads the clock at sampledAt and, when
   * it answers true, Enlarge reads it again at enlargeAt.
   */
  function AfterMouseMove(sys: System, pos: Point, sampledAt: int, enlargeAt: int, calls: Calls): (r: System)
    // The sample always goes to the detector, and Enlarge runs exactly when the detector answers true.
    ensures r.sampler == AfterSample(sys.sampler, pos, sampledAt).next
    ensures !AfterSample(sys.sampler, pos, sampledAt).fast ==> r.screen == sys.screen
    ensures AfterSample(sys.sampler, pos, sampledAt).fast ==> r.screen == AfterEnlarge(sys.screen, enlargeAt, calls)
    // A mouse move never ends or re-arms an enlargement.
    ensures sys.screen.fields.isEnlarged ==> r.screen == sys.screen
    // A mouse move that enlarges was fast, and starts the timer at enlargeAt.
    ensures !sys.screen.fields.isEnlarged && r.screen.fields.isEnlarged ==>
              AfterSample(sys.sampler, pos, sampledAt).fast && r.screen.fields.enlargeStartTime == enlargeAt
    ensures Valid(sys.screen) ==> Valid(r.screen)
  {
    var sample := AfterSample(sys.sampler, pos, sampledAt);
    var screen := if sample.fast then AfterEnlarge(sys.screen, enlargeAt, calls) else sys.screen;
    System(sample.next, screen)
  }

  /** The WM_TIMER branch of WindowProc for a tick with the given id at instant at. */
  function AfterTimer(sys: System, timerId: int, at: int, calls: Calls): (r: System)
    // Only the core's own timer does anything, and it never touches the detector.
    ensures timerId != TimerId ==> r == sys
    ensures r.sampler == sys.sampler
    ensures timerId == TimerId ==> r.screen == AfterRestoreIfNeeded(sys.screen, at, calls)
    // A tick never enlarges.
    ensures !sys.screen.fields.isEnlarged ==> r == sys
    ensures Valid(sys.screen) ==> Valid(r.screen)
  {
    if timerId == TimerId then sys.(screen := AfterRestoreIfNeeded(sys.screen, at, calls))
    else sys
  }

  /** The two kinds of event the core reacts to, with the instants and the platform's answers. */
  datatype Event =
    | MouseMove(pos: Point, sampledAt: int, enlargeAt: int, calls: Calls)
    | Timer(id: int, at: int, calls: Calls)

  /** One event, routed as the hook callback and the window procedure route it. */
  function Step(sys: System, e: Event): (r: System)
    // Ticks never touch the detector, and never enlarge.
    ensures e.Timer? ==> r.sampler == sys.sampler
    ensures e.Timer? && !sys.screen.fields.isEnlarged ==> r == sys
    // Mouse moves never end or re-arm an enlargement.
    ensures e.MouseMove? && sys.screen.fields.isEnlarged ==> r.screen == sys.screen
    ensures r.sampler.lastTime >= sys.sampler.lastTime
    ensures Valid(sys.screen) ==> Valid(r.screen)
  {
    match e
    case MouseMove(pos, sampledAt, enlargeAt, calls) => AfterMouseMove(sys, pos, sampledAt, enlargeAt, calls)
    case Timer(id, at, calls) => AfterTimer(sys, id, at, calls)
  }

  /** The events delivered one after another on the dispatch thread. */
  function Run(sys: System, events: seq<Event>): (r: System)
    decreases |events|
  {
    if events == [] then sys else Run(Step(sys, events[0]), events[1..])
  }

  /** However the events arrive, the CursorState invariant holds throughout. */
  lemma {:induction false} RunPreservesValid(sys: System, events: seq<Event>)
    requires Valid(sys.screen)
    ensures Valid(Run(sys, events).screen)
    decreases |events|
  {
    if events != [] {
      RunPreservesValid(Step(sys, events[0]), events[1..]);
    }
  }

  /** A tick of the core's timer that comes too early to restore the cursor. */
  predicate EarlyTick(e: Event, start: int)
  {
    e.Timer? && e.id == TimerId ==> e.at - start < (EnlargeDurationMs + 1) * TicksPerMs
  }

  /**
   * Once Enlarged, neither further shakes nor ticks before the deadline change
   * anything about the cursor: the phase, the start time and the shown cursor
   * all stay as they are.
   */
  lemma {:induction false} EnlargedUntilDeadline(sys: System, events: seq<Event>)
    requires sys.screen.fields.isEnlarged
    requires forall i :: 0 <= i < |events| ==> EarlyTick(events[i], sys.screen.fields.enlargeStartTime)
    ensures Run(sys, events).screen == sys.screen
    decreases |events|
  {
    if events != [] {
      var next := Step(sys, events[0]);
      assert EarlyTick(events[0], sys.screen.fields.enlargeStartTime);
      assert next.screen == sys.screen;
      forall i | 0 <= i < |events[1..]|
        ensures EarlyTick(events[1..][i], next.screen.fields.enlargeStartTime)
      {
        assert events[1..][i] == events[i + 1];
      }
      EnlargedUntilDeadline(next, events[1..]);
    }
  }

  /** Timer ticks alone never enlarge the cursor and never touch the detector. */
  lemma {:induction false} TicksNeverEnlarge(sys: System, events: seq<Event>)
    requires !sys.screen.fields.isEnlarged
    requires forall i :: 0 <= i < |events| ==> events[i].Timer?
    ensures Run(sys, events) == sys
    decreases |events|
  {
    if events != [] {
      assert Step(sys, events[0]) == sys;
      assert forall i :: 0 <= i < |events[1..]| ==> events[1..][i] == events[i + 1];
      TicksNeverEnlarge(sys, events[1..]);
    }
  }

  /** Whatever order the clock readings come in, the detector's recorded instant never moves backwards. */
  lemma {:induction false} SamplerTimeNeverDecreases(sys: System, events: seq<Event>)
    ensures Run(sys, events).sampler.lastTime >= sys.sampler.lastTime
    decreases |events|
  {
    if events != [] {
      SamplerTimeNeverDecreases(Step(sys, events[0]), events[1..]);
    }
  }

  /**
   * Once Enlarged, a tick of the core's timer at or after the deadline whose
   * platform calls succeed always restores a fresh copy of the original arrow.
   */
  lemma RestoredAtDeadline(sys: System, at: int, calls: Calls)
    requires Valid(sys.screen) && sys.screen.fields.isEnlarged
    requires at - sys.screen.fields.enlargeStartTime >= (EnlargeDurationMs + 1) * TicksPerMs
    requires calls.copyOk && calls.setOk
    ensures var r := Step(sys, Timer(TimerId, at, calls)).screen;
            !r.fields.isEnlarged
            && r.desk.installed.Some? && r.desk.installed.value.image == Arrow
            && IsFreshCopy(r, r.desk.installed.value)
  {
  }

  class ShakeToFindCursor {
    const cursorState: CursorState
    const moveDetector: MouseMoveDetector

    /** The members in their declaration order (main.cpp:405-406). */
    constructor (cs: CursorState, md: MouseMoveDetector)
      ensures cursorState == cs && moveDetector == md
    {
      cursorState := cs;
      moveDetector := md;
    }

    function Snapshot(desk: Desktop): (s: System)
      reads moveDetector, cursorState, desk
    {
      System(moveDetector.State(), cursorState.Snapshot(desk))
    }

    method ProcessMouseMove(desk: Desktop, pos: Point, sampledAt: int, enlargeAt: int, calls: Calls)
      modifies moveDetector, cursorState, desk
      ensures Snapshot(desk) == AfterMouseMove(old(Snapshot(desk)), pos, sampledAt, enlargeAt, calls)
    {
      var fast := moveDetector.ShouldEnlargeCursor(pos, sampledAt);
      if fast {
        cursorState.Enlarge(desk, enlargeAt, calls);
      }
    }

    /** WM_TIMER; the instance pointer is set (main.cpp:291) before the timer is created (main.cpp:294). */
    method OnTimer(desk: Desktop, timerId: int, at: int, calls: Calls)
      modifies cursorState, desk
      ensures Snapshot(desk) == AfterTimer(old(Snapshot(desk)), timerId, at, calls)
    {
      if timerId == TimerId {
        cursorState.RestoreIfNeeded(desk, at, calls);
      }
    }
  }
}
