/** The read side of the repository-based variant: each handler asks the
    repository and maps what it gets to DTOs. */
module RepositoryQueries {
  import opened Wrappers
  import opened SystemTypes
  import opened Incidents
  import opened IncidentAggregate
  import opened Ordering
  import opened Repository
  import opened Dtos
  import HistoryProjection

  /** `GetIncidentQueryHandler`: a `GetById` failure is passed on with its
      errors; otherwise the DTO of the incident stored under `id`. */
  function GetIncident(docs: seq<Incident>, id: Guid): (r: Result<IncidentDto>)
    ensures r.Fail? <==> GetById(docs, id).Fail?
    ensures r.Fail? ==> r.errors == GetById(docs, id).errors
    ensures r.Ok? ==> r.value.id == id && FromDto(r.value) == Some(GetById(docs, id).value)
  {
    match GetById(docs, id)
    case Fail(errors) => Fail(errors)
    case Ok(incident) => Ok(ToDto(incident))
  }

  /** `GetAllIncidentsQueryHandler`: one summary per stored incident, in order. */
  function GetAllIncidents(docs: seq<Incident>): (r: seq<IncidentSummaryDto>)
    ensures |r| == |docs|
    ensures forall i | 0 <= i < |docs| :: r[i] == ToSummary(docs[i])
  {
    ToSummaries(GetAll(docs))
  }

  /** `GetAssignedIncidentsQueryHandler`: every summary belongs to the user
      and none is Closed; the summaries are those of the repository's answer. */
  function GetAssignedIncidents(docs: seq<Incident>, userId: string): (r: seq<IncidentSummaryDto>)
    ensures |r| == |Repository.GetAssignedIncidents(docs, userId)|
    ensures forall i | 0 <= i < |r| :: r[i] == ToSummary(Repository.GetAssignedIncidents(docs, userId)[i])
    ensures forall i | 0 <= i < |r| :: r[i].assignedTo == userId && r[i].status != "Closed"
  {
    var found := Repository.GetAssignedIncidents(docs, userId);
    var r := ToSummaries(found);
    assert forall i | 0 <= i < |r| :: found[i].status != Closed;
    r
  }

  /** Every stored incident assigned to the user and not Closed is listed. */
  lemma OpenAssignmentListed(docs: seq<Incident>, userId: string, d: Incident)
    requires d in docs && d.assignedTo == userId && d.status != Closed
    ensures ToSummary(d) in GetAssignedIncidents(docs, userId)
  {
    AssignedIncidentsComplete(docs, userId, d);
    var found := Repository.GetAssignedIncidents(docs, userId);
    var k :| 0 <= k < |found| && found[k] == d;
    assert GetAssignedIncidents(docs, userId)[k] == ToSummary(d);
  }

  /** Every listed summary is that of a stored incident assigned to the user
      and not Closed. */
  lemma ListedIsOpenAssignment(docs: seq<Incident>, userId: string, k: nat)
    requires k < |GetAssignedIncidents(docs, userId)|
    ensures var d := Repository.GetAssignedIncidents(docs, userId)[k];
            d in docs && d.assignedTo == userId && d.status != Closed
            && GetAssignedIncidents(docs, userId)[k] == ToSummary(d)
  {
    AssignedIncidentsSound(docs, userId, Repository.GetAssignedIncidents(docs, userId)[k]);
  }

  /** `GetAllIncidentHistoryQueryHandler`: one DTO per entry of the
      repository's answer, in its order: only the queried incident's entries,
      newest first; no entries gives the empty list. */
  function GetAllIncidentHistory(rows: seq<IncidentHistoryEntry>, id: Guid): (r: seq<IncidentHistoryDto>)
    ensures |r| == |GetIncidentHistory(rows, id)|
    ensures forall i | 0 <= i < |r| :: FromHistoryDto(r[i]) == GetIncidentHistory(rows, id)[i]
    ensures forall i | 0 <= i < |r| :: r[i].incidentId == id
    ensures forall i, j | 0 <= i < j < |r| :: r[i].timestamp >= r[j].timestamp
  {
    var history := GetIncidentHistory(rows, id);
    if |history| == 0 then []
    else
      var r := ToHistoryDtos(history);
      HistoryOnlyOfIncident(rows, id);
      r
  }

  lemma HistoryOnlyOfIncident(rows: seq<IncidentHistoryEntry>, id: Guid)
    ensures forall i | 0 <= i < |GetIncidentHistory(rows, id)| :: GetIncidentHistory(rows, id)[i].incidentId == id
  {
    var h := GetIncidentHistory(rows, id);
    forall i | 0 <= i < |h| ensures h[i].incidentId == id {
      IncidentHistoryExactly(rows, id, h[i]);
    }
  }

  /** The creation row keeps the history document's default incident id, so
      the per-incident history never shows it for a real incident id. */
  lemma LoggedRowNotInIncidentHistory(rows: seq<IncidentHistoryEntry>, id: Guid, e: Event, rowId: Guid)
    requires e.IncidentLogged? && id != EmptyGuid
    ensures HistoryProjection.Project(e, rowId) !in GetIncidentHistory(rows, id)
  {
    HistoryProjection.LoggedRowHasEmptyIncidentId(e, rowId);
    IncidentHistoryExactly(rows, id, HistoryProjection.Project(e, rowId));
  }

  /** With the creation row keyed to its stream, an incident's history shows
      the row of every event of its stream, the IncidentLogged included. */
  lemma CorrectedHistoryShowsEveryEvent(rows: seq<IncidentHistoryEntry>, id: Guid, es: seq<Event>,
                                        k: nat, rowId: Guid)
    requires WellFormedStream(id, es) && k < |es|
    requires HistoryProjection.ProjectInStream(es[k], id, rowId) in rows
    ensures HistoryProjection.ProjectInStream(es[k], id, rowId) in GetIncidentHistory(rows, id)
  {
    IncidentHistoryExactly(rows, id, HistoryProjection.ProjectInStream(es[k], id, rowId));
  }
}
