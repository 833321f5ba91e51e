/** An in-memory stand-in for the Marten document store that both variants
    share: the event streams keyed by incident id, the table of Incident
    documents, and the audit-log rows that the inline history projection
    writes in the same step as each append. */
module DocumentStore {
  import opened Wrappers
  import opened SystemTypes
  import opened Incidents
  import opened IncidentAggregate
  import opened HistoryProjection

  /** The document table's key: no two stored incidents share an id. */
  ghost predicate UniqueIds(docs: seq<Incident>)
  {
    forall i, j | 0 <= i < j < |docs| :: docs[i].id != docs[j].id
  }

  /** `rowId` names no existing audit-log row (what `Guid.NewGuid()` stands for). */
  predicate FreshRowId(rows: seq<IncidentHistoryEntry>, rowId: Guid)
  {
    forall i | 0 <= i < |rows| :: rows[i].id != rowId
  }

  class Store {
    var streams: map<Guid, seq<Event>>
    var incidents: seq<Incident>
    var history: seq<IncidentHistoryEntry>
    /** Every event appended so far, in the order the appends happened. */
    ghost var appended: seq<Event>

    /** The table is keyed by id, and the audit log holds exactly one row per
        appended event, in append order, each the projection of its event. */
    ghost predicate Valid()
      reads this
    {
      && UniqueIds(incidents)
      && DistinctRowIds(history)
      && |history| == |appended|
      && forall i | 0 <= i < |history| :: history[i] == Project(appended[i], history[i].id)
    }

    /** Every stream is one IncidentLogged followed by events naming its incident. */
    ghost predicate StreamsWellFormed()
      reads this
    {
      forall id | id in streams :: WellFormedStream(id, streams[id])
    }

    constructor ()
      ensures Valid() && StreamsWellFormed()
      ensures streams == map[] && incidents == [] && history == [] && appended == []
    {
      streams, incidents, history, appended := map[], [], [], [];
    }

    /** `Events.StartStream` and `SaveChangesAsync`: a new stream holding `e`,
        and the inline projection's row for it. */
    method StartStream(id: Guid, e: Event, rowId: Guid)
      requires Valid()
      requires id !in streams
      requires FreshRowId(history, rowId)
      modifies this
      ensures Valid()
      ensures streams == old(streams)[id := [e]]
      ensures history == old(history) + [Project(e, rowId)]
      ensures appended == old(appended) + [e]
      ensures incidents == old(incidents)
    {
      streams := streams[id := [e]];
      history := history + [Project(e, rowId)];
      appended := appended + [e];
    }

    /** `Events.Append` with no expected version, and `SaveChangesAsync`: the
        event goes at the end of the stream (which it starts if there is
        none), and the inline projection adds its row. */
    method Append(id: Guid, e: Event, rowId: Guid)
      requires Valid()
      requires FreshRowId(history, rowId)
      modifies this
      ensures Valid()
      ensures streams == old(streams)[id := StreamOf(old(streams), id) + [e]]
      ensures history == old(history) + [Project(e, rowId)]
      ensures appended == old(appended) + [e]
      ensures incidents == old(incidents)
    {
      streams := streams[id := StreamOf(streams, id) + [e]];
      history := history + [Project(e, rowId)];
      appended := appended + [e];
    }
  }

  /** The events of stream `id`; a missing stream reads as empty. */
  function StreamOf(streams: map<Guid, seq<Event>>, id: Guid): seq<Event>
  {
    if id in streams then streams[id] else []
  }
}
