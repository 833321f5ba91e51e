/** The incident domain's value types: the two enums, the four events, the
    comment record and the audit-log entry. */
module Incidents {
  import opened Wrappers
  import opened SystemTypes

  datatype Priority = Low | Medium | High | Critical

  datatype IncidentStatus = New | InProgress | OnHold | Resolved | Closed

  /** `Priority.ToString()`: the member's name. */
  function PriorityName(p: Priority): string
  {
    match p
    case Low => "Low"
    case Medium => "Medium"
    case High => "High"
    case Critical => "Critical"
  }

  /** `IncidentStatus.ToString()`: the member's name. */
  function StatusName(s: IncidentStatus): string
  {
    match s
    case New => "New"
    case InProgress => "InProgress"
    case OnHold => "OnHold"
    case Resolved => "Resolved"
    case Closed => "Closed"
  }

  /** `Enum.Parse<Priority>` on a member name; the inverse of `PriorityName`. */
  function ParsePriority(name: string): (r: Option<Priority>)
    ensures forall p: Priority :: r == Some(p) <==> PriorityName(p) == name
  {
    if name == "Low" then Some(Low)
    else if name == "Medium" then Some(Medium)
    else if name == "High" then Some(High)
    else if name == "Critical" then Some(Critical)
    else None
  }

  /** `Enum.Parse<IncidentStatus>` on a member name; the inverse of `StatusName`. */
  function ParseStatus(name: string): (r: Option<IncidentStatus>)
    ensures forall s: IncidentStatus :: r == Some(s) <==> StatusName(s) == name
  {
    if name == "New" then Some(New)
    else if name == "InProgress" then Some(InProgress)
    else if name == "OnHold" then Some(OnHold)
    else if name == "Resolved" then Some(Resolved)
    else if name == "Closed" then Some(Closed)
    else None
  }

  /** The underlying integer of each status, in declaration order. */
  function StatusValue(s: IncidentStatus): int
  {
    match s
    case New => 0
    case InProgress => 1
    case OnHold => 2
    case Resolved => 3
    case Closed => 4
  }

  /** `Enum.IsDefined(typeof(IncidentStatus), v)`. */
  predicate IsDefinedStatus(v: int)
  {
    0 <= v <= 4
  }

  lemma IsDefinedStatusExactly(v: int)
    ensures IsDefinedStatus(v) <==> exists s: IncidentStatus :: StatusValue(s) == v
  {
    if IsDefinedStatus(v) {
      var s := if v == 0 then New else if v == 1 then InProgress else if v == 2 then OnHold
               else if v == 3 then Resolved else Closed;
      assert StatusValue(s) == v;
    }
  }

  /** The four domain events. Only the three that extend a stream carry the
      incident's id; `IncidentLogged` has none. A user id read from the current
      request may be absent (`None` for C#'s null). */
  datatype Event =
    | IncidentLogged(title: string, description: string, reportedBy: string,
                     reportedAt: DateTime, priority: Priority)
    | IncidentAssigned(incidentId: Guid, assignedTo: string, assignedAt: DateTime)
    | CommentAdded(incidentId: Guid, comment: string, addedBy: Option<string>, addedAt: DateTime)
    | IncidentStatusChanged(incidentId: Guid, newStatus: IncidentStatus,
                            changedBy: Option<string>, changedAt: DateTime)

  datatype Comment = Comment(text: string, addedBy: Option<string>, addedAt: DateTime)

  /** One row of the audit log that the history projection writes. */
  datatype IncidentHistoryEntry = IncidentHistoryEntry(
    id: Guid,
    incidentId: Guid,
    eventType: string,
    description: string,
    performedBy: Option<string>,
    timestamp: DateTime)
}
