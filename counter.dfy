/** `counterMachine`: a state machine with the single state `active` and a
    context holding `count`, which INCREMENT raises by one and RESET sets
    back to zero.  The running actor is an object whose context is updated
    by every event sent to it. */
module Counter {

  /** The events the machine accepts. */
  datatype Event = Increment | Reset

  /** The machine's states: there is only one. */
  datatype StateValue = Active

  /** The count after one event. */
  function Step(count: int, e: Event): (r: int)
    ensures e.Increment? ==> r == count + 1
    ensures e.Reset? ==> r == 0
  {
    match e
    case Increment => count + 1
    case Reset => 0
  }

  /** The count after the events `events`, sent in order to a fresh actor. */
  function Replay(events: seq<Event>): int {
    if events == [] then 0 else Step(Replay(events[..|events| - 1]), events[|events| - 1])
  }

  /** The events after the last RESET (all of them when there is none). */
  function SinceLastReset(events: seq<Event>): (r: seq<Event>)
    ensures forall i :: 0 <= i < |r| ==> r[i] == Increment
    ensures |r| <= |events| && r == events[|events| - |r|..]
    ensures |r| == |events| || events[|events| - |r| - 1] == Reset
  {
    if events == [] then []
    else if events[|events| - 1] == Reset then []
    else
      var rest := SinceLastReset(events[..|events| - 1]);
      SuffixStep(events, rest);
      rest + [Increment]
  }

  /** Extending the events with an INCREMENT extends the events since the
      last RESET by it. */
  lemma SuffixStep(events: seq<Event>, rest: seq<Event>)
    requires events != [] && events[|events| - 1] == Increment
    requires |rest| <= |events| - 1 && rest == events[..|events| - 1][|events| - 1 - |rest|..]
    requires |rest| == |events| - 1 || events[..|events| - 1][|events| - 2 - |rest|] == Reset
    ensures rest + [Increment] == events[|events| - 1 - |rest|..]
    ensures |rest| + 1 == |events| || events[|events| - 2 - |rest|] == Reset
  {
    var n := |events| - 1;
    assert events[..n][n - |rest|..] + [events[n]] == events[n - |rest|..];
  }

  /** The count is never negative and is the number of INCREMENTs since the
      last RESET. */
  lemma {:induction false} ReplayCountsIncrements(events: seq<Event>)
    ensures Replay(events) == |SinceLastReset(events)|
    ensures Replay(events) >= 0
  {
    if events != [] {
      ReplayCountsIncrements(events[..|events| - 1]);
    }
  }

  /** A RESET forgets everything sent before it. */
  lemma {:induction false} ResetForgets(before: seq<Event>, after: seq<Event>)
    ensures Replay(before + [Reset] + after) == Replay(after)
  {
    if after == [] {
      assert before + [Reset] + after == before + [Reset];
    } else {
      var n := |after| - 1;
      ResetForgets(before, after[..n]);
      assert (before + [Reset] + after)[..|before| + 1 + n] == before + [Reset] + after[..n];
    }
  }

  /** A started actor of `counterMachine`. */
  class CounterActor {
    var value: StateValue
    var count: int

    /** `createActor(counterMachine).start()`: the initial state and
        context. */
    constructor ()
      ensures value == Active && count == 0
    {
      value := Active;
      count := 0;
    }

    /** `actor.send(e)`: the transition on `e` stays in `active` and assigns
        the new count. */
    method Send(e: Event)
      modifies this
      ensures value == Active
      ensures count == Step(old(count), e)
    {
      match e {
        case Increment =>
          count := count + 1;
        case Reset =>
          count := 0;
      }
    }
  }

  /** A new actor to which `events` are sent in order is still `active`
      and holds the count `Replay(events)`: the number of INCREMENTs since
      the last RESET. */
  method SendAll(events: seq<Event>) returns (actor: CounterActor)
    ensures actor.value == Active
    ensures actor.count == Replay(events) == |SinceLastReset(events)|
  {
    actor := new CounterActor();
    for i := 0 to |events|
      invariant actor.value == Active
      invariant actor.count == Replay(events[..i])
    {
      assert events[..i + 1][..i] == events[..i];
      actor.Send(events[i]);
    }
    assert events[..|events|] == events;
    ReplayCountsIncrements(events);
  }
}
