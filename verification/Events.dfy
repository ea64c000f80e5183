/**
  Places at events (`createRegistration`, `update` and `unregister` of
  apps/api/src/events/events.service.ts). The lock on the event row makes a registration one step.
 */
module Events {
  import opened Wrappers
  import opened Sums

  type Id = nat

  datatype Registration = Registration(event: Id, member: Id)

  /** Each event's capacity, if it has one, and who is registered. */
  datatype Tables = Tables(capacity: map<Id, Option<nat>>, registrations: seq<Registration>)

  datatype EventError = NotFound | Full | AlreadyRegistered

  function OfEvent(e: Id): Registration -> int { (r: Registration) => if r.event == e then 1 else 0 }

  function Seats(registrations: seq<Registration>, e: Id): int { Sum(registrations, OfEvent(e)) }

  function Registered(t: Tables, e: Id, m: Id): (Tables, Option<EventError>) {
    if e !in t.capacity then (t, Some(NotFound))
    else if t.capacity[e].Some? && Seats(t.registrations, e) >= t.capacity[e].value then (t, Some(Full))
    else if Registration(e, m) in t.registrations then (t, Some(AlreadyRegistered))
    else (t.(registrations := t.registrations + [Registration(e, m)]), None)
  }

  function Position(registrations: seq<Registration>, r: Registration): (i: Option<nat>)
    ensures i.Some? ==> i.value < |registrations| && registrations[i.value] == r
    ensures i.None? ==> r !in registrations
  {
    FindFirst(registrations, (x: Registration) => x == r)
  }

  function Unregistered(t: Tables, e: Id, m: Id): Tables {
    match Position(t.registrations, Registration(e, m))
    case None => t
    case Some(i) => t.(registrations := t.registrations[..i] + t.registrations[i + 1..])
  }

  class EventTable {
    var capacity: map<Id, Option<nat>>
    var registrations: seq<Registration>

    function View(): Tables
      reads this
    {
      Tables(capacity, registrations)
    }

    method CreateRegistration(e: Id, m: Id) returns (error: Option<EventError>)
      modifies this`registrations
      ensures (View(), error) == Registered(old(View()), e, m)
    {
      if e !in capacity { return Some(NotFound); }
      if capacity[e].Some? {
        var count := Seats(registrations, e);
        if count >= capacity[e].value { return Some(Full); }
      }
      if Registration(e, m) in registrations { return Some(AlreadyRegistered); }
      registrations := registrations + [Registration(e, m)];
      return None;
    }
  }

  // ---- Runs ----

  datatype Action =
    | Open(event: Id, capacity: Option<nat>)
    | SetCapacity(event: Id, capacity: Option<nat>)
    | Join(event: Id, member: Id)
    | Leave(event: Id, member: Id)

  function Apply(t: Tables, a: Action): Tables {
    match a
    case Open(e, c) => if e in t.capacity then t else t.(capacity := t.capacity[e := c])
    case SetCapacity(e, c) => if e in t.capacity then t.(capacity := t.capacity[e := c]) else t
    case Join(e, m) => Registered(t, e, m).0
    case Leave(e, m) => Unregistered(t, e, m)
  }

  function Run(t: Tables, actions: seq<Action>): Tables {
    if actions == [] then t else Apply(Run(t, actions[..|actions| - 1]), actions[|actions| - 1])
  }

  /** Nobody is registered twice for an event, and only for events that exist. */
  ghost predicate Inv(t: Tables) {
    && (forall i, j :: 0 <= i < j < |t.registrations| ==> t.registrations[i] != t.registrations[j])
    && (forall i :: 0 <= i < |t.registrations| ==> t.registrations[i].event in t.capacity)
  }

  lemma ApplyKeepsInv(t: Tables, a: Action)
    requires Inv(t)
    ensures Inv(Apply(t, a))
  {
    hide Seats, Position;
  }

  lemma {:induction false} RunKeepsInv(t: Tables, actions: seq<Action>)
    requires Inv(t)
    ensures Inv(Run(t, actions))
  {
    if actions != [] {
      hide Inv, Apply;
      RunKeepsInv(t, actions[..|actions| - 1]);
      ApplyKeepsInv(Run(t, actions[..|actions| - 1]), actions[|actions| - 1]);
    }
  }

  /** No more members are registered than there are places. */
  ghost predicate Fits(t: Tables, e: Id) {
    e in t.capacity && t.capacity[e].Some? ==> Seats(t.registrations, e) <= t.capacity[e].value
  }

  /** The action lowers the capacity of `e` below the number of members registered. */
  ghost predicate Cuts(t: Tables, a: Action, e: Id) {
    && a.SetCapacity? && a.event == e && e in t.capacity
    && a.capacity.Some? && a.capacity.value < Seats(t.registrations, e)
  }

  lemma NoSeats(t: Tables, e: Id)
    requires Inv(t) && e !in t.capacity
    ensures Seats(t.registrations, e) == 0
  {
    CountRange(t.registrations, OfEvent(e));
  }

  /** From a state that fits, one step leads to one that does not exactly if it is such a cut. */
  lemma StepFits(t: Tables, a: Action, e: Id)
    requires Inv(t) && Fits(t, e)
    ensures Fits(Apply(t, a), e) <==> !Cuts(t, a, e)
  {
    match a
    case Open(k, c) => if e !in t.capacity { NoSeats(t, e); }
    case SetCapacity(k, c) =>
    case Join(k, m) => SumAdd(t.registrations, OfEvent(e), Registration(k, m));
    case Leave(k, m) =>
      var i := Position(t.registrations, Registration(k, m));
      if i.Some? { SumWithout(t.registrations, OfEvent(e), i.value); }
  }

  lemma RunNext(t: Tables, actions: seq<Action>, k: nat)
    requires k < |actions|
    ensures Run(t, actions[..k + 1]) == Apply(Run(t, actions[..k]), actions[k])
  {
    hide Apply;
    assert actions[..k + 1][..k] == actions[..k];
  }

  /** An event is never overbooked exactly if its capacity is never set below the number registered. */
  lemma NeverOverbookedExactly(t: Tables, actions: seq<Action>, e: Id)
    requires Inv(t) && Fits(t, e)
    ensures (forall k: nat :: k <= |actions| ==> Fits(Run(t, actions[..k]), e))
       <==> (forall k: nat :: k < |actions| ==> !Cuts(Run(t, actions[..k]), actions[k], e))
  {
    hide Fits, Cuts, Apply, Inv;
    if forall k: nat :: k <= |actions| ==> Fits(Run(t, actions[..k]), e) {
      forall k: nat | k < |actions|
        ensures !Cuts(Run(t, actions[..k]), actions[k], e)
      {
        RunKeepsInv(t, actions[..k]);
        RunNext(t, actions, k);
        StepFits(Run(t, actions[..k]), actions[k], e);
        assert Fits(Run(t, actions[..k + 1]), e);
      }
    }
    if forall k: nat :: k < |actions| ==> !Cuts(Run(t, actions[..k]), actions[k], e) {
      forall k: nat | k <= |actions|
        ensures Fits(Run(t, actions[..k]), e)
      {
        StaysFitting(t, actions, e, k);
      }
    }
  }

  lemma {:induction false} StaysFitting(t: Tables, actions: seq<Action>, e: Id, k: nat)
    requires Inv(t) && Fits(t, e) && k <= |actions|
    requires forall i: nat :: i < |actions| ==> !Cuts(Run(t, actions[..i]), actions[i], e)
    ensures Fits(Run(t, actions[..k]), e)
  {
    hide Fits, Cuts, Apply, Inv;
    if k > 0 {
      StaysFitting(t, actions, e, k - 1);
      RunKeepsInv(t, actions[..k - 1]);
      RunNext(t, actions, k - 1);
      StepFits(Run(t, actions[..k - 1]), actions[k - 1], e);
    } else {
      assert actions[..0] == [];
    }
  }

  const OneSeat: seq<Registration> := [Registration(0, 1)]
  const TwoSeats: seq<Registration> := OneSeat + [Registration(0, 2)]

  lemma SeatsTaken()
    ensures Seats([], 0) == 0 && Seats(OneSeat, 0) == 1 && Seats(TwoSeats, 0) == 2
  {
    SumAdd([], OfEvent(0), Registration(0, 1));
    SumAdd(OneSeat, OfEvent(0), Registration(0, 2));
    assert [] + [Registration(0, 1)] == OneSeat;
  }

  lemma SixSteps()
    ensures Apply(Tables(map[], []), Open(0, Some(1))) == Tables(map[0 := Some(1)], [])
    ensures Apply(Tables(map[0 := Some(1)], []), Join(0, 1)) == Tables(map[0 := Some(1)], OneSeat)
    ensures Registered(Tables(map[0 := Some(1)], OneSeat), 0, 2) == (Tables(map[0 := Some(1)], OneSeat), Some(Full))
    ensures Apply(Tables(map[0 := Some(1)], OneSeat), SetCapacity(0, Some(2))) == Tables(map[0 := Some(2)], OneSeat)
    ensures Apply(Tables(map[0 := Some(2)], OneSeat), Join(0, 2)) == Tables(map[0 := Some(2)], TwoSeats)
    ensures Apply(Tables(map[0 := Some(2)], TwoSeats), SetCapacity(0, Some(1))) == Tables(map[0 := Some(1)], TwoSeats)
  {
    SeatsTaken();
    hide Seats;
  }

  lemma RunStep(t: Tables, actions: seq<Action>, a: Action)
    ensures Run(t, actions + [a]) == Apply(Run(t, actions), a)
  {
    assert (actions + [a])[..|actions|] == actions;
  }

  /** A refused registration, a raised capacity that lets it in, and a lowered one that overbooks the event. */
  lemma EditOverbooks()
    ensures var start, before := Tables(map[], []), [Open(0, Some(1)), Join(0, 1)];
      var after := before + [Join(0, 2)] + [SetCapacity(0, Some(2))] + [Join(0, 2)];
      && Registered(Run(start, before), 0, 2).1 == Some(Full)
      && Fits(Run(start, after), 0)
      && !Fits(Run(start, after + [SetCapacity(0, Some(1))]), 0)
  {
    var start, before := Tables(map[], []), [Open(0, Some(1)), Join(0, 1)];
    assert before == [] + [Open(0, Some(1))] + [Join(0, 1)];
    assert Run(start, []) == start;
    SeatsTaken();
    SixSteps();
    hide Seats, Run, Apply, Registered;
    RunStep(start, [], Open(0, Some(1)));
    RunStep(start, [] + [Open(0, Some(1))], Join(0, 1));
    RunStep(start, before, Join(0, 2));
    RunStep(start, before + [Join(0, 2)], SetCapacity(0, Some(2)));
    RunStep(start, before + [Join(0, 2)] + [SetCapacity(0, Some(2))], Join(0, 2));
    RunStep(start, before + [Join(0, 2)] + [SetCapacity(0, Some(2))] + [Join(0, 2)], SetCapacity(0, Some(1)));
  }

  /**
    A member gets a place exactly at an event that exists, where fewer places are taken than there are,
    if it has none there yet.
   */
  lemma JoinExactly(t: Tables, e: Id, m: Id)
    ensures var (t', error) := Registered(t, e, m);
      && (error.None? <==>
            && e in t.capacity && Registration(e, m) !in t.registrations
            && (t.capacity[e].Some? ==> Seats(t.registrations, e) < t.capacity[e].value))
      && t' == t.(registrations := t.registrations + if error.None? then [Registration(e, m)] else [])
      && (error == Some(NotFound) <==> e !in t.capacity)
      && (error == Some(Full) <==>
            e in t.capacity && t.capacity[e].Some? && Seats(t.registrations, e) >= t.capacity[e].value)
  {
    assert t.registrations + [] == t.registrations;
  }

  /** Leaving gives up exactly one's own place, and nobody else's. */
  lemma LeaveExactly(t: Tables, e: Id, m: Id)
    ensures var t' := Unregistered(t, e, m);
      && t' == t.(registrations := t'.registrations)
      && multiset(t'.registrations) == multiset(t.registrations) - multiset{Registration(e, m)}
  {
    var i := Position(t.registrations, Registration(e, m));
    if i.Some? {
      var r := t.registrations;
      assert r == r[..i.value] + [r[i.value]] + r[i.value + 1..];
    }
  }

  /** Seats are counted per event, one for each registration. */
  lemma SeatsAdd(registrations: seq<Registration>, e: Id, r: Registration)
    ensures Seats([], e) == 0
    ensures Seats(registrations + [r], e) == Seats(registrations, e) + if r.event == e then 1 else 0
  {
    SumAdd(registrations, OfEvent(e), r);
  }

  /** An event is opened once, and its capacity is set as asked; neither touches the registrations. */
  lemma CapacityExactly(t: Tables, e: Id, c: Option<nat>)
    ensures Apply(t, Open(e, c)) == if e in t.capacity then t else t.(capacity := t.capacity[e := c])
    ensures e in t.capacity ==> Apply(t, SetCapacity(e, c)) == t.(capacity := t.capacity[e := c])
    ensures e !in t.capacity ==> Apply(t, SetCapacity(e, c)) == t
  {
  }
}
