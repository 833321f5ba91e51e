/** The read side of the event-sourced variant. Each query is a function of
    the store's contents, so none of them can change the store. */
module EventSourcedQueries {
  import opened Wrappers
  import opened SystemTypes
  import opened Incidents
  import opened IncidentAggregate
  import opened Ordering
  import opened Dtos

  function NotFoundMessage(id: Guid): string
  {
    "Incident " + FormatGuid(id) + " not found"
  }

  /** `GetIncidentQueryHandler`: `AggregateStreamAsync` gives null for a
      missing or empty stream, which fails with the not-found message;
      otherwise the DTO of the replayed stream. */
  function GetIncident(streams: map<Guid, seq<Event>>, id: Guid): (r: Result<IncidentDto>)
    ensures r.Fail? <==> id !in streams || streams[id] == []
    ensures r.Fail? ==> r.errors == [NotFoundMessage(id)]
    ensures r.Ok? ==> FromDto(r.value) == Some(Replay(id, streams[id]))
  {
    if id !in streams || streams[id] == [] then Fail([NotFoundMessage(id)])
    else Ok(ToDto(Replay(id, streams[id])))
  }

  /** On a well-formed stream the DTO shows the logged fields, the last
      assignee, the last status and every comment in order. */
  lemma GetIncidentShowsHistory(streams: map<Guid, seq<Event>>, id: Guid)
    requires id in streams && WellFormedStream(id, streams[id])
    ensures GetIncident(streams, id).Ok?
    ensures var d := GetIncident(streams, id).value; var es := streams[id];
            && d.id == id && d.title == es[0].title && d.description == es[0].description
            && d.reportedBy == es[0].reportedBy && d.reportedAt == es[0].reportedAt
            && d.priority == PriorityName(es[0].priority)
            && LastStatus(es).Some? && d.status == StatusName(LastStatus(es).value)
            && d.assignedTo == (if LastAssignee(es).Some? then LastAssignee(es).value else "")
            && d.comments == CommentDtos(CommentsOf(es))
  {
    ReplayWellFormed(id, streams[id]);
    var s := Replay(id, streams[id]);
    assert GetIncident(streams, id).value == ToDto(s);
  }

  /** `GetAllIncidentsQueryHandler`: always Ok, one DTO per stored incident,
      in the table's order. */
  function GetAllIncidents(docs: seq<Incident>): (r: Result<seq<IncidentDto>>)
    ensures r.Ok?
    ensures |r.value| == |docs|
    ensures forall i | 0 <= i < |docs| :: FromDto(r.value[i]) == Some(docs[i])
  {
    Ok(ToDtos(docs))
  }

  /** `GetAllIncidentHistory`'s handler: always Ok, every entry of every
      incident, newest first, nothing added or dropped. */
  function GetAllIncidentHistory(rows: seq<IncidentHistoryEntry>): (r: Result<seq<IncidentHistoryEntry>>)
    ensures r.Ok?
    ensures NewestFirst(r.value)
    ensures multiset(r.value) == multiset(rows)
  {
    OrderedIsNewestFirst(rows);
    Ok(OrderByTimestampDescending(rows))
  }
}
