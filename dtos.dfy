/** The read models the query handlers return: `IncidentDto` with its
    `CommentDto`s, `IncidentSummaryDto` and `IncidentHistoryDto`. The two
    variants declare `IncidentDto` and `CommentDto` with the same fields, so
    they are defined once here. Enums travel as their member names. */
module Dtos {
  import opened Wrappers
  import opened SystemTypes
  import opened Incidents
  import opened IncidentAggregate

  datatype CommentDto = CommentDto(text: string, addedBy: Option<string>, addedAt: DateTime)

  datatype IncidentDto = IncidentDto(
    id: Guid, title: string, description: string, reportedBy: string, reportedAt: DateTime,
    priority: string, status: string, assignedTo: string, comments: seq<CommentDto>)

  datatype IncidentSummaryDto = IncidentSummaryDto(
    id: Guid, title: string, status: string, priority: string, reportedBy: string,
    reportedAt: DateTime, assignedTo: string)

  datatype IncidentHistoryDto = IncidentHistoryDto(
    id: Guid, incidentId: Guid, eventType: string, description: string,
    performedBy: Option<string>, timestamp: DateTime)

  function CommentToDto(c: Comment): CommentDto
  {
    CommentDto(c.text, c.addedBy, c.addedAt)
  }

  /** `Comments.Select(c => new CommentDto(...))`: one DTO per comment, in order. */
  function CommentDtos(cs: seq<Comment>): (r: seq<CommentDto>)
    ensures |r| == |cs|
    ensures forall i | 0 <= i < |cs| ::
              r[i].text == cs[i].text && r[i].addedBy == cs[i].addedBy && r[i].addedAt == cs[i].addedAt
  {
    if cs == [] then [] else [CommentToDto(cs[0])] + CommentDtos(cs[1..])
  }

  /** The incident's scalar fields copied, the enums by name, the comments one to one. */
  function ToDto(s: Incident): (r: IncidentDto)
    ensures FromDto(r) == Some(s)
  {
    DtoRoundTrip(s);
    IncidentDto(s.id, s.title, s.description, s.reportedBy, s.reportedAt,
                PriorityName(s.priority), StatusName(s.status), s.assignedTo, CommentDtos(s.comments))
  }

  /** The inverse reading of an `IncidentDto`: it fails only on a priority or
      status that is not a member name. */
  function FromDto(d: IncidentDto): (r: Option<Incident>)
    ensures r.Some? <==> ParsePriority(d.priority).Some? && ParseStatus(d.status).Some?
  {
    match (ParsePriority(d.priority), ParseStatus(d.status))
    case (Some(p), Some(st)) =>
      Some(Incident(d.id, d.title, d.description, d.reportedBy, d.reportedAt, p, st,
                    d.assignedTo, CommentsFromDtos(d.comments)))
    case _ => None
  }

  function CommentsFromDtos(ds: seq<CommentDto>): (r: seq<Comment>)
    ensures |r| == |ds|
    ensures forall i | 0 <= i < |ds| :: r[i] == Comment(ds[i].text, ds[i].addedBy, ds[i].addedAt)
  {
    if ds == [] then [] else [Comment(ds[0].text, ds[0].addedBy, ds[0].addedAt)] + CommentsFromDtos(ds[1..])
  }

  lemma {:induction false} CommentsRoundTrip(cs: seq<Comment>)
    ensures CommentsFromDtos(CommentDtos(cs)) == cs
  {
    if cs != [] {
      CommentsRoundTrip(cs[1..]);
      assert CommentDtos(cs)[1..] == CommentDtos(cs[1..]);
      assert cs == [cs[0]] + cs[1..];
    }
  }

  /** Mapping an incident to its DTO loses nothing: reading the DTO back gives
      the incident. */
  lemma DtoRoundTrip(s: Incident)
    ensures FromDto(IncidentDto(s.id, s.title, s.description, s.reportedBy, s.reportedAt,
                                PriorityName(s.priority), StatusName(s.status), s.assignedTo,
                                CommentDtos(s.comments))) == Some(s)
  {
    CommentsRoundTrip(s.comments);
  }

  /** Two incidents with the same DTO are the same incident. */
  lemma ToDtoInjective(s: Incident, t: Incident)
    requires ToDto(s) == ToDto(t)
    ensures s == t
  {
    assert FromDto(ToDto(s)) == Some(s) && FromDto(ToDto(t)) == Some(t);
  }

  /** `new IncidentSummaryDto(...)`: the list view of one incident. */
  function ToSummary(s: Incident): (r: IncidentSummaryDto)
    ensures r.id == s.id && r.title == s.title && r.reportedBy == s.reportedBy
    ensures r.reportedAt == s.reportedAt && r.assignedTo == s.assignedTo
    ensures ParseStatus(r.status) == Some(s.status) && ParsePriority(r.priority) == Some(s.priority)
  {
    IncidentSummaryDto(s.id, s.title, StatusName(s.status), PriorityName(s.priority),
                       s.reportedBy, s.reportedAt, s.assignedTo)
  }

  /** The summary shows the same values as the full DTO for every field it shares with it. */
  lemma SummaryAgreesWithDto(s: Incident)
    ensures var d := ToDto(s); var m := ToSummary(s);
            && m.id == d.id && m.title == d.title && m.status == d.status && m.priority == d.priority
            && m.reportedBy == d.reportedBy && m.reportedAt == d.reportedAt && m.assignedTo == d.assignedTo
  {
  }

  /** `new IncidentHistoryDto(...)`: every field of the entry, copied. */
  function ToHistoryDto(e: IncidentHistoryEntry): (r: IncidentHistoryDto)
    ensures FromHistoryDto(r) == e
  {
    IncidentHistoryDto(e.id, e.incidentId, e.eventType, e.description, e.performedBy, e.timestamp)
  }

  function FromHistoryDto(d: IncidentHistoryDto): IncidentHistoryEntry
  {
    IncidentHistoryEntry(d.id, d.incidentId, d.eventType, d.description, d.performedBy, d.timestamp)
  }

  /** `incidents.Select(ToDto)`: one DTO per incident, in order. */
  function ToDtos(docs: seq<Incident>): (r: seq<IncidentDto>)
    ensures |r| == |docs|
    ensures forall i | 0 <= i < |docs| :: FromDto(r[i]) == Some(docs[i])
  {
    if docs == [] then [] else [ToDto(docs[0])] + ToDtos(docs[1..])
  }

  /** `incidents.Select(ToSummary)`: one summary per incident, in order. */
  function ToSummaries(docs: seq<Incident>): (r: seq<IncidentSummaryDto>)
    ensures |r| == |docs|
    ensures forall i | 0 <= i < |docs| :: r[i] == ToSummary(docs[i])
  {
    if docs == [] then [] else [ToSummary(docs[0])] + ToSummaries(docs[1..])
  }

  /** `history.Select(ToHistoryDto)`: one DTO per entry, in order. */
  function ToHistoryDtos(rows: seq<IncidentHistoryEntry>): (r: seq<IncidentHistoryDto>)
    ensures |r| == |rows|
    ensures forall i | 0 <= i < |rows| :: FromHistoryDto(r[i]) == rows[i]
  {
    if rows == [] then [] else [ToHistoryDto(rows[0])] + ToHistoryDtos(rows[1..])
  }
}
