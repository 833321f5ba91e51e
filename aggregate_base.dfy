/** `AggregateBase<TId>`: an identity and a list of pending domain events
    that `PopPendingEvents` hands over and clears. */
module AggregateRoot {
  import opened Incidents

  class AggregateBase<TId(0)> {
    /** The protected `_events` list. */
    var pending: seq<Event>
    var id: TId

    /** `id` starts at `default(TId)`, a value of `TId` the model leaves
        unnamed since `TId` is generic; `SetId` gives it its value. */
    constructor ()
      ensures pending == []
    {
      pending := [];
    }

    /** The public `Id` setter. */
    method SetId(v: TId)
      modifies this
      ensures id == v && pending == old(pending)
    {
      id := v;
    }

    /** Returns the pending events and leaves none behind; the id is untouched. */
    method PopPendingEvents() returns (events: seq<Event>)
      modifies this
      ensures events == old(pending)
      ensures pending == [] && id == old(id)
    {
      events := pending;
      pending := [];
    }
  }

  /** Popping twice in a row: the second call returns nothing, so no event is
      handed over twice. */
  method PopTwice<TId(0)>(a: AggregateBase<TId>) returns (first: seq<Event>, second: seq<Event>)
    modifies a
    ensures first == old(a.pending) && second == []
    ensures a.pending == [] && a.id == old(a.id)
  {
    first := a.PopPendingEvents();
    second := a.PopPendingEvents();
  }
}
