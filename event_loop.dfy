/** The per-event handler passed to the window event loop: it keeps a
    `destroying` flag across events and writes the loop's control flow on
    every event. */
module EventLoop {

  /** The control-flow values the handler writes; `Wait` stands for the
      loop's other modes, which the handler never writes. */
  datatype ControlFlow = Poll | Wait | Exit

  /** The events the handler distinguishes. */
  datatype Event = MainEventsCleared | CloseRequested | OtherEvent

  /** What the handler does with the app on one event. */
  datatype Action = Render | Destroy | NoAction

  datatype HandlerState = HandlerState(destroying: bool, controlFlow: ControlFlow)

  /** One run of the handler: set control flow to Poll, then render on
      MainEventsCleared unless destroying, or on CloseRequested set
      destroying, set control flow to Exit and destroy the app. */
  function Step(s: HandlerState, e: Event): (r: (HandlerState, Action))
  {
    match e
    case MainEventsCleared =>
      if !s.destroying then (HandlerState(s.destroying, Poll), Render)
      else (HandlerState(s.destroying, Poll), NoAction)
    case CloseRequested => (HandlerState(true, Exit), Destroy)
    case OtherEvent => (HandlerState(s.destroying, Poll), NoAction)
  }

  /** The control flow after an event is Poll, except after CloseRequested. */
  lemma StepControlFlow(s: HandlerState, e: Event)
    ensures Step(s, e).0.controlFlow == (if e == CloseRequested then Exit else Poll)
  {}

  /** A render happens exactly on MainEventsCleared while not destroying. */
  lemma StepRendersIff(s: HandlerState, e: Event)
    ensures Step(s, e).1 == Render <==> e == MainEventsCleared && !s.destroying
  {}

  /** Destroy happens on every CloseRequested and on nothing else, and
      destroying is set exactly then or kept. */
  lemma StepDestroys(s: HandlerState, e: Event)
    ensures Step(s, e).1 == Destroy <==> e == CloseRequested
    ensures Step(s, e).0.destroying == (s.destroying || e == CloseRequested)
  {}

  /** The handler driven over a sequence of events, with the actions taken. */
  function Run(s: HandlerState, events: seq<Event>): (r: (HandlerState, seq<Action>))
    ensures |r.1| == |events|
    decreases events
  {
    if events == [] then (s, [])
    else
      var (s', a) := Step(s, events[0]);
      var (t, actions) := Run(s', events[1..]);
      (t, [a] + actions)
  }

  /** After any events, destroying is set exactly when it was set before or a
      CloseRequested arrived: it is never reset. */
  lemma {:induction false} RunDestroying(s: HandlerState, events: seq<Event>)
    ensures Run(s, events).0.destroying <==> s.destroying || CloseRequested in events
    decreases events
  {
    if events != [] {
      RunDestroying(Step(s, events[0]).0, events[1..]);
      assert events == [events[0]] + events[1..];
    }
  }

  /** The i-th action is Destroy exactly when the i-th event is CloseRequested:
      destroy is issued on every close request, not once. */
  lemma {:induction false} RunDestroysOnEveryClose(s: HandlerState, events: seq<Event>, i: nat)
    requires i < |events|
    ensures Run(s, events).1[i] == Destroy <==> events[i] == CloseRequested
    decreases i
  {
    if i > 0 {
      RunDestroysOnEveryClose(Step(s, events[0]).0, events[1..], i - 1);
    }
  }

  /** The i-th action is Render exactly when the i-th event is
      MainEventsCleared and no close request came before it (nor was the
      handler already destroying). */
  lemma {:induction false} RunRendersIff(s: HandlerState, events: seq<Event>, i: nat)
    requires i < |events|
    ensures Run(s, events).1[i] == Render
            <==> events[i] == MainEventsCleared && !s.destroying && CloseRequested !in events[..i]
    decreases i
  {
    if i > 0 {
      var s' := Step(s, events[0]).0;
      RunRendersIff(s', events[1..], i - 1);
      assert events[..i] == [events[0]] + events[1..][..i - 1];
    }
  }

  /** The handler as the event loop holds it: the captured `destroying` flag
      and the control-flow cell the loop passes in. */
  class EventHandler {
    var destroying: bool
    var controlFlow: ControlFlow

    function State(): HandlerState
      reads this
    {
      HandlerState(destroying, controlFlow)
    }

    /** The handler starts not destroying; the initial control flow is the
        event loop's. */
    constructor (initialFlow: ControlFlow)
      ensures State() == HandlerState(false, initialFlow)
    {
      destroying := false;
      controlFlow := initialFlow;
    }

    /** Handle one event and report the action taken on the app. */
    method HandleEvent(e: Event) returns (action: Action)
      modifies this
      ensures (State(), action) == Step(old(State()), e)
      ensures action == Render <==> e == MainEventsCleared && !old(destroying)
      ensures action == Destroy <==> e == CloseRequested
      ensures destroying == (old(destroying) || e == CloseRequested)
      ensures controlFlow == (if e == CloseRequested then Exit else Poll)
    {
      controlFlow := Poll;
      match e {
        case MainEventsCleared =>
          if !destroying {
            action := Render;
          } else {
            action := NoAction;
          }
        case CloseRequested =>
          destroying := true;
          controlFlow := Exit;
          action := Destroy;
        case OtherEvent =>
          action := NoAction;
      }
    }
  }
}
