/**
 * The `lazy` gate: an intersection observer whose callback, on a positive
 * intersection ratio, awaits `createCanvas()` and only then disconnects the
 * observer. The observer's callbacks and the settling of each awaited
 * render are host events, given here as a sequence.
 */
module LazyTrigger {

  /** An observer callback with its intersection ratio, or the settling of one awaited `createCanvas()`. */
  datatype Event = Intersection(ratio: real) | RenderSettled

  /**
   * The observer is `connected` until a callback disconnects it;
   * `inFlight` callbacks are suspended in `await this.createCanvas()`;
   * `started` renders have been begun so far.
   */
  datatype Gate = Gate(connected: bool, inFlight: nat, started: nat)

  /** Observing, nothing rendered yet. */
  const Initial: Gate := Gate(true, 0, 0)

  /** A callback that would begin a render: a positive ratio reaching a connected observer. */
  predicate Begins(s: Gate, e: Event)
  {
    s.connected && e.Intersection? && e.ratio > 0.0
  }

  /**
   * The callback as written: a positive ratio starts a render and suspends;
   * the observer is disconnected only when that render settles, so it keeps
   * delivering callbacks meanwhile.
   */
  function Step(s: Gate, e: Event): (r: Gate)
    ensures r.started == s.started + (if Begins(s, e) then 1 else 0)
    ensures !s.connected ==> !r.connected
    ensures e.Intersection? ==> r.connected == s.connected
  {
    match e
    case Intersection(ratio) =>
      if s.connected && ratio > 0.0 then Gate(true, s.inFlight + 1, s.started + 1) else s
    case RenderSettled =>
      if s.inFlight > 0 then Gate(false, s.inFlight - 1, s.started) else s
  }

  function Run(s: Gate, es: seq<Event>): Gate
    decreases |es|
  {
    if es == [] then s else Run(Step(s, es[0]), es[1..])
  }

  /** A render settles only while some callback is suspended on one. */
  predicate Feasible(s: Gate, es: seq<Event>)
    decreases |es|
  {
    es == [] || ((es[0].RenderSettled? ==> s.inFlight > 0) && Feasible(Step(s, es[0]), es[1..]))
  }

  /** Positive intersection callbacks delivered before the first render settles. */
  function PositiveUntilSettled(es: seq<Event>): nat
    decreases |es|
  {
    if es == [] || es[0].RenderSettled? then 0
    else (if es[0].ratio > 0.0 then 1 else 0) + PositiveUntilSettled(es[1..])
  }

  /** A disconnected observer starts nothing more and stays disconnected. */
  lemma {:induction false} DisconnectedStaysIdle(s: Gate, es: seq<Event>)
    requires !s.connected
    ensures Run(s, es).started == s.started && !Run(s, es).connected
    decreases |es|
  {
    if es != [] {
      DisconnectedStaysIdle(Step(s, es[0]), es[1..]);
    }
  }

  /**
   * As written, every positive callback that arrives before the first
   * render settles starts a render of its own; after that, none does.
   */
  lemma {:induction false} RendersBeforeFirstSettle(s: Gate, es: seq<Event>)
    requires s.connected && Feasible(s, es)
    ensures Run(s, es).started == s.started + PositiveUntilSettled(es)
    decreases |es|
  {
    if es != [] {
      var t := Step(s, es[0]);
      if es[0].RenderSettled? {
        DisconnectedStaysIdle(t, es[1..]);
      } else {
        RendersBeforeFirstSettle(t, es[1..]);
      }
    }
  }

  /**
   * As written, the render runs at most once exactly when at most one
   * positive callback arrives before the first render settles.
   */
  lemma AtMostOnceIffNoOverlap(es: seq<Event>)
    requires Feasible(Initial, es)
    ensures Run(Initial, es).started <= 1 <==> PositiveUntilSettled(es) <= 1
  {
    RendersBeforeFirstSettle(Initial, es);
  }

  /**
   * Scrolling the placeholder in, out and in again while the first render
   * is still awaited starts a second render.
   */
  lemma TwoRendersBeforeDisconnect()
    ensures Run(Initial, [Intersection(1.0), Intersection(0.0), Intersection(0.5)]).started == 2
  {
  }

  // ---------------------------------------------------------------------
  // Disconnecting before the render is awaited

  /** The callback with the observer disconnected before `createCanvas()` is awaited. */
  function StepDisconnectFirst(s: Gate, e: Event): (r: Gate)
    ensures r.started == s.started + (if Begins(s, e) then 1 else 0)
    ensures Begins(s, e) ==> !r.connected
  {
    match e
    case Intersection(ratio) =>
      if s.connected && ratio > 0.0 then Gate(false, s.inFlight + 1, s.started + 1) else s
    case RenderSettled =>
      if s.inFlight > 0 then Gate(s.connected, s.inFlight - 1, s.started) else s
  }

  function RunDisconnectFirst(s: Gate, es: seq<Event>): Gate
    decreases |es|
  {
    if es == [] then s else RunDisconnectFirst(StepDisconnectFirst(s, es[0]), es[1..])
  }

  /** Some callback in `es` reports a positive intersection ratio. */
  predicate SomePositive(es: seq<Event>)
  {
    exists k :: 0 <= k < |es| && es[k].Intersection? && es[k].ratio > 0.0
  }

  /**
   * Disconnecting first, a connected observer starts exactly one render if
   * some callback reports a positive ratio and none otherwise; a
   * disconnected one starts none.
   */
  lemma {:induction false} DisconnectFirstFiresOnce(s: Gate, es: seq<Event>)
    ensures RunDisconnectFirst(s, es).started ==
      s.started + (if s.connected && SomePositive(es) then 1 else 0)
    decreases |es|
  {
    if es != [] {
      var t := StepDisconnectFirst(s, es[0]);
      DisconnectFirstFiresOnce(t, es[1..]);
      if SomePositive(es[1..]) {
        var k :| 0 <= k < |es[1..]| && es[1..][k].Intersection? && es[1..][k].ratio > 0.0;
        assert es[k + 1] == es[1..][k];
      }
      if SomePositive(es) && !Begins(s, es[0]) && s.connected {
        var k :| 0 <= k < |es| && es[k].Intersection? && es[k].ratio > 0.0;
        assert k > 0;
        assert es[1..][k - 1] == es[k];
      }
      if Begins(s, es[0]) {
        assert SomePositive(es) by {
          assert es[0].Intersection? && es[0].ratio > 0.0;
        }
      }
    }
  }

  /** Disconnecting first, the render starts at most once, whatever the callbacks. */
  lemma DisconnectFirstAtMostOnce(es: seq<Event>)
    ensures RunDisconnectFirst(Initial, es).started <= 1
  {
    DisconnectFirstFiresOnce(Initial, es);
  }
}
