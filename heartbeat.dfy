/**
 * The heartbeat the client keeps up once the start-up pass is done:
 * `run_interval_check` and `client_alive_display`, which blink panel slot
 * `ALIVE_DISPLAY_UI_ID` about once a second from the main loop.
 *
 * `gettimeofday` is outside this model: every call takes the time it would
 * have read as a parameter `now`.
 */
module Heartbeat {
  import opened Panel

  const ALIVE_DISPLAY_UI_ID := 0
  /** The blink interval in milliseconds, handed to `run_interval_check` as a double. */
  const ALIVE_DISPLAY_INTERVAL := 1000.0

  /** A `struct timeval`: whole seconds and microseconds. */
  datatype TimeVal = TimeVal(sec: int, usec: int)

  /** The instant a `TimeVal` names, in microseconds. */
  function Micros(t: TimeVal): int
  {
    t.sec * 1000000 + t.usec
  }

  /**
   * The `difftime` of `run_interval_check`: how many seconds `now` lies past
   * `stamp + intervalMs`, computed in exact arithmetic. Scaled to
   * microseconds it is the time elapsed since the stamp less the interval.
   */
  function DiffTime(stamp: TimeVal, now: TimeVal, intervalMs: real): (d: real)
    ensures d * 1000000.0 == (Micros(now) - Micros(stamp)) as real - intervalMs * 1000.0
  {
    assert (Micros(now) - Micros(stamp)) as real
        == (now.sec - stamp.sec) as real * 1000000.0 + (now.usec - stamp.usec) as real;
    (now.sec - stamp.sec) as real + (now.usec as real - (stamp.usec as real + intervalMs * 1000.0)) / 1000000.0
  }

  /**
   * Whether `run_interval_check` answers 1: always for a zero interval, and
   * otherwise exactly when more than the interval has passed since the stamp.
   */
  predicate Due(stamp: TimeVal, now: TimeVal, intervalMs: real): (due: bool)
    ensures due <==> intervalMs == 0.0 || (Micros(now) - Micros(stamp)) as real > intervalMs * 1000.0
  {
    intervalMs == 0.0 || DiffTime(stamp, now, intervalMs) > 0.0
  }

  /** The `struct timeval` that `run_interval_check` reads and refreshes. */
  class IntervalTimer {
    var stamp: TimeVal

    /** A zero-initialised `static struct timeval`. */
    constructor ()
      ensures stamp == TimeVal(0, 0)
    {
      stamp := TimeVal(0, 0);
    }

    /**
     * `run_interval_check(&stamp, intervalMs)` when the clock reads `now`:
     * answers whether the interval is due and, if so, restarts it from `now`.
     */
    method Check(now: TimeVal, intervalMs: real) returns (fired: bool)
      modifies this
      ensures fired == Due(old(stamp), now, intervalMs)
      ensures stamp == if fired then now else old(stamp)
    {
      if intervalMs != 0.0 {
        var difftime := (now.sec - stamp.sec) as real
          + (now.usec as real - (stamp.usec as real + intervalMs * 1000.0)) / 1000000.0;
        if difftime > 0.0 {
          stamp := now;
          return true;
        }
        return false;
      }
      stamp := now;
      return true;
    }
  }

  // ---------------------------------------------------------------------
  // The alive display as a state machine
  // ---------------------------------------------------------------------

  /** The two statics of `client_alive_display`: its timer stamp and `onoff`. */
  datatype AliveState = AliveState(stamp: TimeVal, on: bool)

  /** Both statics start zeroed. */
  const AliveStart := AliveState(TimeVal(0, 0), false)

  /**
   * One call of `client_alive_display` at time `now`: when the interval is
   * due, paint the slot green if `onoff` was set and background otherwise,
   * flip `onoff`, and flush the panel when `onoff` has just become set.
   */
  function Step(s: AliveState, now: TimeVal): (r: (AliveState, seq<Event>))
    ensures r.0.on == (s.on != (r.1 != []))
    ensures r.0.stamp == if r.1 != [] then now else s.stamp
    ensures |r.1| <= 2
  {
    if Due(s.stamp, now, ALIVE_DISPLAY_INTERVAL) then
      (AliveState(now, !s.on),
       [SetColour(ALIVE_DISPLAY_UI_ID, if s.on then Green else Background)] + (if !s.on then [Flush] else []))
    else
      (s, [])
  }

  /** Successive calls at the times `nows`, their calls into the UI library concatenated. */
  function Run(s: AliveState, nows: seq<TimeVal>): (r: (AliveState, seq<Event>))
    ensures r.0.stamp == s.stamp || r.0.stamp in nows
    ensures |r.1| <= 2 * |nows|
  {
    if nows == [] then (s, [])
    else
      var r := Run(s, nows[..|nows| - 1]);
      var step := Step(r.0, nows[|nows| - 1]);
      (step.0, r.1 + step.1)
  }

  /** `client_alive_display` with its two statics. */
  class AliveDisplay {
    const timer: IntervalTimer
    var onoff: bool

    constructor ()
      ensures fresh(timer)
      ensures State() == AliveStart
    {
      timer := new IntervalTimer();
      onoff := false;
    }

    function State(): AliveState
      reads this, timer
    {
      AliveState(timer.stamp, onoff)
    }

    /** One call, with the clock reading `now`; returns the calls made into the UI library. */
    method Tick(now: TimeVal) returns (events: seq<Event>)
      modifies this, timer
      ensures (State(), events) == Step(old(State()), now)
    {
      ghost var s := State();
      events := [];
      var fired := timer.Check(now, ALIVE_DISPLAY_INTERVAL);
      assert fired == Due(s.stamp, now, ALIVE_DISPLAY_INTERVAL) && onoff == s.on;
      if fired {
        events := [SetColour(ALIVE_DISPLAY_UI_ID, if onoff then Green else Background)];
        onoff := !onoff;
        if onoff {
          events := events + [Flush];
        }
        assert State() == AliveState(now, !s.on);
        assert events == [SetColour(ALIVE_DISPLAY_UI_ID, if s.on then Green else Background)]
          + (if !s.on then [Flush] else []);
      } else {
        assert State() == s;
      }
    }

    /** The first `|nows|` turns of the main loop, the clock reading `nows[i]` on turn `i`. */
    method Ticks(nows: seq<TimeVal>) returns (events: seq<Event>)
      modifies this, timer
      ensures (State(), events) == Run(old(State()), nows)
    {
      ghost var s0 := State();
      events := [];
      var i := 0;
      while i < |nows|
        invariant 0 <= i <= |nows|
        invariant (State(), events) == Run(s0, nows[..i])
      {
        var es := Tick(nows[i]);
        assert nows[..i + 1][..i] == nows[..i];
        events := events + es;
        i := i + 1;
      }
      assert nows[..i] == nows;
    }
  }

  // ---------------------------------------------------------------------
  // What the heartbeat does
  // ---------------------------------------------------------------------

  /**
   * A call fires exactly when more than a second has passed since the last
   * firing (or since the zeroed start); firing restarts the interval from
   * `now` and flips `onoff`, and a call that does not fire changes nothing
   * and makes no call.
   */
  lemma StepFires(s: AliveState, now: TimeVal)
    ensures Step(s, now).1 != [] <==> Micros(now) - Micros(s.stamp) > 1000000
    ensures Step(s, now).1 != [] ==> Step(s, now).0 == AliveState(now, !s.on)
    ensures Step(s, now).1 == [] ==> Step(s, now).0 == s
  {
  }

  /**
   * From the zeroed statics, the first call fires as soon as the clock reads
   * more than one second past the epoch: it paints the background colour and
   * flushes.
   */
  lemma FirstTickFires(now: TimeVal)
    requires Micros(now) > 1000000
    ensures Step(AliveStart, now) == (AliveState(now, true), [SetColour(ALIVE_DISPLAY_UI_ID, Background), Flush])
  {
    assert Micros(AliveStart.stamp) == 0;
    assert [SetColour(ALIVE_DISPLAY_UI_ID, Background)] + [Flush] == [SetColour(ALIVE_DISPLAY_UI_ID, Background), Flush];
  }

  /** `onoff` before the j-th firing, when it was `on0` before the first. */
  function Phase(on0: bool, j: nat): bool
  {
    if j % 2 == 0 then on0 else !on0
  }

  /** One call paints at most once and flushes only when `onoff` turns on. */
  lemma StepProjections(s: AliveState, now: TimeVal)
    ensures var fired := Due(s.stamp, now, ALIVE_DISPLAY_INTERVAL);
      && Colours(Step(s, now).1) == (if fired then [(ALIVE_DISPLAY_UI_ID, if s.on then Green else Background)] else [])
      && Flushes(Step(s, now).1) == (if fired && !s.on then 1 else 0)
      && Texts(Step(s, now).1) == [] && Probes(Step(s, now).1) == []
  {
    var es := Step(s, now).1;
    if Due(s.stamp, now, ALIVE_DISPLAY_INTERVAL) {
      var c := [SetColour(ALIVE_DISPLAY_UI_ID, if s.on then Green else Background)];
      var f: seq<Event> := if !s.on then [Flush] else [];
      assert es == c + f;
      KeepAppend(c, f, PickColour);
      KeepAppend(c, f, PickFlush);
      KeepAppend(c, f, PickText);
      KeepAppend(c, f, PickProbe);
      assert Keep(c, PickFlush) == [];
      if !s.on {
        assert Keep(f, PickFlush) == [Flush];
      }
    }
  }

  /** The calls of `n + 1` turns are those of the first `n` followed by those of the last. */
  lemma RunStep(s: AliveState, nows: seq<TimeVal>)
    requires nows != []
    ensures var r := Run(s, nows[..|nows| - 1]);
      var step := Step(r.0, nows[|nows| - 1]);
      && Run(s, nows).0 == step.0
      && Colours(Run(s, nows).1) == Colours(r.1) + Colours(step.1)
      && Flushes(Run(s, nows).1) == Flushes(r.1) + Flushes(step.1)
      && Texts(Run(s, nows).1) == Texts(r.1) + Texts(step.1)
      && Probes(Run(s, nows).1) == Probes(r.1) + Probes(step.1)
  {
    var r := Run(s, nows[..|nows| - 1]);
    var step := Step(r.0, nows[|nows| - 1]);
    KeepAppend(r.1, step.1, PickColour);
    KeepAppend(r.1, step.1, PickFlush);
    KeepAppend(r.1, step.1, PickText);
    KeepAppend(r.1, step.1, PickProbe);
  }

  /**
   * The slot blinks: the j-th paint is green exactly when `onoff` was set
   * before it, alternating from the start value, and after f paints `onoff`
   * has flipped f times.
   */
  lemma {:induction false} RunBlinks(s: AliveState, nows: seq<TimeVal>)
    ensures var r := Run(s, nows);
      var f := |Colours(r.1)|;
      && (forall j :: 0 <= j < f ==>
            Colours(r.1)[j] == (ALIVE_DISPLAY_UI_ID, if Phase(s.on, j) then Green else Background))
      && r.0.on == Phase(s.on, f)
  {
    if nows != [] {
      var n := |nows| - 1;
      var r := Run(s, nows[..n]);
      RunBlinks(s, nows[..n]);
      RunStep(s, nows);
      StepProjections(r.0, nows[n]);
      var f := |Colours(r.1)|;
      if Due(r.0.stamp, nows[n], ALIVE_DISPLAY_INTERVAL) {
        assert Phase(s.on, f + 1) == !Phase(s.on, f);
      }
    }
  }

  /**
   * The panel is flushed once per paint that turns `onoff` on: after f
   * paints, f / 2 times if `onoff` started set and (f + 1) / 2 times if not.
   * Nothing but the slot's colour is drawn.
   */
  lemma {:induction false} RunFlushes(s: AliveState, nows: seq<TimeVal>)
    ensures var r := Run(s, nows);
      var f := |Colours(r.1)|;
      && Flushes(r.1) == (if s.on then f / 2 else (f + 1) / 2)
      && Texts(r.1) == [] && Probes(r.1) == []
  {
    if nows != [] {
      var n := |nows| - 1;
      var r := Run(s, nows[..n]);
      RunFlushes(s, nows[..n]);
      RunBlinks(s, nows[..n]);
      RunStep(s, nows);
      StepProjections(r.0, nows[n]);
      FlushCountStep(s.on, |Colours(r.1)|);
    }
  }

  /** One more paint adds a flush exactly when `onoff` was clear before it. */
  lemma FlushCountStep(on0: bool, f: nat)
    ensures (if on0 then (f + 1) / 2 else (f + 2) / 2)
         == (if on0 then f / 2 else (f + 1) / 2) + (if Phase(on0, f) then 0 else 1)
  {
  }

  /**
   * From the zeroed statics, the first paint is the background colour and
   * is flushed; then the slot alternates, and after f paints it has been
   * flushed (f + 1) / 2 times.
   */
  lemma StartBlinks(nows: seq<TimeVal>)
    ensures var r := Run(AliveStart, nows);
      var f := |Colours(r.1)|;
      && (f > 0 ==> Colours(r.1)[0] == (ALIVE_DISPLAY_UI_ID, Background))
      && (forall j :: 0 <= j < f ==> Colours(r.1)[j].1 == (if j % 2 == 0 then Background else Green))
      && Flushes(r.1) == (f + 1) / 2
  {
    RunBlinks(AliveStart, nows);
    RunFlushes(AliveStart, nows);
  }
}
