/** view.ts createLatest: of several requests for the same view only the last one started is applied. */
module LatestRequest {

  // ----- any interleaving of calls -----

  datatype Event = Started | Settled(mine: nat)

  /** pending: calls waiting for their request; applied: the numbers of the calls applied so far, in order. */
  datatype State = State(counter: nat, pending: set<nat>, applied: seq<nat>)

  const START := State(0, {}, [])

  predicate Possible(s: State, e: Event) {
    e.Settled? ==> e.mine in s.pending
  }

  function Next(s: State, e: Event): State {
    match e
    case Started => State(s.counter + 1, s.pending + {s.counter + 1}, s.applied)
    case Settled(mine) =>
      State(s.counter, s.pending - {mine}, if mine == s.counter then s.applied + [mine] else s.applied)
  }

  function After(events: seq<Event>): State {
    if events == [] then START else Next(After(events[..|events| - 1]), events[|events| - 1])
  }

  predicate IsRun(events: seq<Event>) {
    events != [] ==> IsRun(events[..|events| - 1]) && Possible(After(events[..|events| - 1]), events[|events| - 1])
  }

  predicate Increasing(xs: seq<nat>) {
    forall j, k :: 0 <= j < k < |xs| ==> xs[j] < xs[k]
  }

  predicate Inv(s: State) {
    && (forall n | n in s.pending :: 1 <= n <= s.counter)
    && Increasing(s.applied)
    && (forall n | n in s.applied :: 1 <= n <= s.counter && n !in s.pending)
    && (s.counter > 0 && s.counter !in s.pending ==> s.applied != [] && s.applied[|s.applied| - 1] == s.counter)
  }

  lemma NextKeeps(s: State, e: Event)
    requires Inv(s) && Possible(s, e)
    ensures Inv(Next(s, e))
  {
    var t := Next(s, e);
    if e.Settled? && e.mine == s.counter {
      assert t.applied == s.applied + [e.mine];
      forall j | 0 <= j < |s.applied| ensures s.applied[j] < e.mine { assert s.applied[j] in s.applied; }
    }
  }

  lemma {:induction false} RunKeeps(events: seq<Event>)
    requires IsRun(events)
    ensures Inv(After(events))
  {
    if events != [] {
      RunKeeps(events[..|events| - 1]);
      NextKeeps(After(events[..|events| - 1]), events[|events| - 1]);
    }
  }

  /** How many calls were started among these events. */
  function Starts(events: seq<Event>): nat {
    if events == [] then 0 else Starts(events[..|events| - 1]) + if events[|events| - 1].Started? then 1 else 0
  }

  lemma {:induction false} CounterCounts(events: seq<Event>)
    ensures After(events).counter == Starts(events)
  {
    if events != [] { CounterCounts(events[..|events| - 1]); }
  }

  /** A call that settles is applied exactly if no call was started after it. */
  lemma AppliedIfNewest(events: seq<Event>, mine: nat)
    requires IsRun(events + [Settled(mine)])
    ensures var before, after := After(events), After(events + [Settled(mine)]);
            after.applied == (if Starts(events) == mine then before.applied + [mine] else before.applied)
  {
    assert (events + [Settled(mine)])[..|events|] == events;
    CounterCounts(events);
  }

  /**
   * In any run the applied calls come in the order of their start; when all have settled, the last started is the
   * last applied.
   */
  lemma LastStartedWins(events: seq<Event>)
    requires IsRun(events)
    ensures Increasing(After(events).applied)
    ensures After(events).pending == {} && Starts(events) > 0 ==>
              After(events).applied != [] && After(events).applied[|After(events).applied| - 1] == Starts(events)
  {
    RunKeeps(events);
    CounterCounts(events);
  }

  // ----- the closure -----

  /** One counter, shared by all calls; events: what has happened to them so far. */
  class Latest {
    var counter: nat
    ghost var events: seq<Event>

    ghost predicate Valid()
      reads this
    {
      IsRun(events) && counter == After(events).counter
    }

    constructor ()
      ensures Valid() && events == []
    {
      counter, events := 0, [];
    }

    /** A call, up to its await: it is the newest of all started. */
    method Begin() returns (mine: nat)
      requires Valid()
      modifies this
      ensures Valid() && events == old(events) + [Started]
      ensures mine == Starts(events) && mine in After(events).pending
    {
      counter := counter + 1;
      events := events + [Started];
      mine := counter;
      assert events[..|events| - 1] == old(events);
      CounterCounts(events);
    }

    /** The rest of a call that is still waiting, when its request is done; it failed or not. */
    method Settle(mine: nat) returns (applies: bool)
      requires Valid() && mine in After(events).pending
      modifies this`events
      ensures Valid() && events == old(events) + [Settled(mine)]
      ensures applies <==> Starts(old(events)) == mine
      ensures After(events).applied == old(After(events).applied) + if applies then [mine] else []
      ensures After(events).pending == {} ==>
                After(events).applied != [] && After(events).applied[|After(events).applied| - 1] == Starts(events)
    {
      applies := mine == counter;
      events := events + [Settled(mine)];
      assert events[..|events| - 1] == old(events);
      CounterCounts(old(events));
      RunKeeps(old(events));
      LastStartedWins(events);
    }
  }
}
