/** The audit-log projection, registered inline: every event, of each of the
    four kinds, opens its own fresh entry document (the identity rule is a new
    Guid per event), which the matching `Apply` then fills in. Entries are
    never merged and never updated. */
module HistoryProjection {
  import opened Wrappers
  import opened SystemTypes
  import opened Incidents

  /** The document a fresh identity opens: `IncidentHistoryEntry`'s
      initialisers (empty strings, the empty Guid, the zero time). */
  function FreshEntry(): IncidentHistoryEntry
  {
    IncidentHistoryEntry(EmptyGuid, EmptyGuid, "", "", Some(""), 0)
  }

  /** The event's own time field. */
  function OccurredAt(e: Event): DateTime
  {
    match e
    case IncidentLogged(_, _, _, reportedAt, _) => reportedAt
    case IncidentAssigned(_, _, assignedAt) => assignedAt
    case CommentAdded(_, _, _, addedAt) => addedAt
    case IncidentStatusChanged(_, _, _, changedAt) => changedAt
  }

  /** The four `Apply` methods, each setting the fields of `entry` from one
      event; `rowId` is the `Guid.NewGuid()` each of them assigns to Id. */
  function Apply(e: Event, entry: IncidentHistoryEntry, rowId: Guid): (row: IncidentHistoryEntry)
    ensures row.id == rowId
    ensures row.timestamp == OccurredAt(e)
    ensures row.incidentId == if e.IncidentLogged? then entry.incidentId else e.incidentId
    ensures e.IncidentLogged? ==>
              && row.eventType == "IncidentLogged"
              && row.description == "Incident '" + e.title + "' was created with "
                                    + PriorityName(e.priority) + " priority"
              && row.performedBy == Some(e.reportedBy)
    ensures e.IncidentAssigned? ==>
              && row.eventType == "IncidentAssigned"
              && row.description == "Incident was assigned to " + e.assignedTo
              && row.performedBy == Some(e.assignedTo)
    ensures e.CommentAdded? ==>
              && row.eventType == "CommentAdded"
              && row.description == "Comment added: " + e.comment
              && row.performedBy == e.addedBy
    ensures e.IncidentStatusChanged? ==>
              && row.eventType == "StatusChanged"
              && row.description == "Status changed to " + StatusName(e.newStatus)
              && row.performedBy == e.changedBy
  {
    match e
    case IncidentLogged(title, _, reportedBy, reportedAt, priority) =>
      entry.(id := rowId, eventType := "IncidentLogged",
             description := "Incident '" + title + "' was created with " + PriorityName(priority) + " priority",
             performedBy := Some(reportedBy), timestamp := reportedAt)
    case IncidentAssigned(incidentId, assignedTo, assignedAt) =>
      entry.(id := rowId, incidentId := incidentId, eventType := "IncidentAssigned",
             description := "Incident was assigned to " + assignedTo,
             performedBy := Some(assignedTo), timestamp := assignedAt)
    case CommentAdded(incidentId, comment, addedBy, addedAt) =>
      entry.(id := rowId, incidentId := incidentId, eventType := "CommentAdded",
             description := "Comment added: " + comment,
             performedBy := addedBy, timestamp := addedAt)
    case IncidentStatusChanged(incidentId, newStatus, changedBy, changedAt) =>
      entry.(id := rowId, incidentId := incidentId, eventType := "StatusChanged",
             description := "Status changed to " + StatusName(newStatus),
             performedBy := changedBy, timestamp := changedAt)
  }

  /** The row one event produces: its own fresh document, filled in. */
  function Project(e: Event, rowId: Guid): IncidentHistoryEntry
  {
    Apply(e, FreshEntry(), rowId)
  }

  /** The projection with the creation row keyed to its stream: as `Project`,
      except that the IncidentLogged row's IncidentId is the id of the stream
      the event was appended to. Every row of a stream then carries the
      stream's id. */
  function ProjectInStream(e: Event, streamId: Guid, rowId: Guid): (row: IncidentHistoryEntry)
    ensures row == Project(e, rowId).(incidentId := row.incidentId)
    ensures e.IncidentLogged? ==> row.incidentId == streamId
    ensures !e.IncidentLogged? ==> row.incidentId == e.incidentId
  {
    if e.IncidentLogged? then Project(e, rowId).(incidentId := streamId) else Project(e, rowId)
  }

  /** The creation row never names its incident: IncidentLogged carries no
      incident id, and the fresh document's IncidentId is left at the empty Guid. */
  lemma LoggedRowHasEmptyIncidentId(e: Event, rowId: Guid)
    requires e.IncidentLogged?
    ensures Project(e, rowId).incidentId == EmptyGuid
  {
  }

  /** The EventType column tells the four kinds of event apart. */
  lemma EventTypeIdentifiesKind(e1: Event, e2: Event, id1: Guid, id2: Guid)
    requires Project(e1, id1).eventType == Project(e2, id2).eventType
    ensures e1.IncidentLogged? <==> e2.IncidentLogged?
    ensures e1.IncidentAssigned? <==> e2.IncidentAssigned?
    ensures e1.CommentAdded? <==> e2.CommentAdded?
    ensures e1.IncidentStatusChanged? <==> e2.IncidentStatusChanged?
  {
  }

  predicate DistinctRowIds(rows: seq<IncidentHistoryEntry>)
  {
    forall i, j | 0 <= i < j < |rows| :: rows[i].id != rows[j].id
  }

}
