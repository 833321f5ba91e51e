/** The four command records and their FluentValidation validators. Both the
    event-sourced and the repository variants declare the same records with
    the same rules. */
module Commands {
  import opened Wrappers
  import opened SystemTypes
  import opened Incidents
  import IncidentAggregate

  datatype LogIncidentCommand = LogIncidentCommand(
    title: string, description: string, reportedBy: string, priority: Priority)

  datatype AssignIncidentCommand = AssignIncidentCommand(incidentId: Guid, assignedTo: string)

  datatype AddCommentCommand = AddCommentCommand(incidentId: Guid, comment: string)

  datatype ChangeStatusCommand = ChangeStatusCommand(incidentId: Guid, newStatus: IncidentStatus)

  /** FluentValidation's `NotEmpty` on a string: not null, not empty and not
      whitespace only. */
  predicate NotEmpty(s: string)
  {
    !IsBlank(s)
  }

  /** FluentValidation's `NotEmpty` on a Guid: not `Guid.Empty`. */
  predicate NotEmptyId(g: Guid)
  {
    g != EmptyGuid
  }

  predicate ValidLogIncident(c: LogIncidentCommand)
  {
    && NotEmpty(c.title) && |c.title| <= 200
    && NotEmpty(c.description) && |c.description| <= 2000
    && NotEmpty(c.reportedBy)
  }

  predicate ValidAssignIncident(c: AssignIncidentCommand)
  {
    NotEmptyId(c.incidentId) && NotEmpty(c.assignedTo)
  }

  predicate ValidAddComment(c: AddCommentCommand)
  {
    NotEmptyId(c.incidentId) && NotEmpty(c.comment) && |c.comment| <= 2000
  }

  /** `IsInEnum` asks that the status's underlying value be a declared member. */
  predicate ValidChangeStatus(c: ChangeStatusCommand)
  {
    NotEmptyId(c.incidentId) && IsDefinedStatus(StatusValue(c.newStatus))
  }

  /** The event both LogIncident handlers build from the command, stamped `now`. */
  function LoggedEvent(c: LogIncidentCommand, now: DateTime): (e: Event)
    ensures e.IncidentLogged?
    ensures e.title == c.title && e.description == c.description && e.reportedBy == c.reportedBy
    ensures e.reportedAt == now && e.priority == c.priority
  {
    IncidentLogged(c.title, c.description, c.reportedBy, now, c.priority)
  }

  /** A blank title is exactly what `NotEmpty` on Title rejects and what
      `Incident.Create` throws on: a command that passes its validator never
      makes Create throw. */
  lemma ValidLogIncidentNeverThrows(c: LogIncidentCommand, now: DateTime, newId: Guid)
    requires ValidLogIncident(c)
    ensures IncidentAggregate.Create(LoggedEvent(c, now), newId).Returned?
  {
  }

  /** What the validators leave for the aggregate to decide on an incident
      that has just been logged from a valid command: its title is not blank,
      a valid comment is accepted and recorded as given, a valid status
      change is refused only for New, and a valid assignee (never the empty
      initial assignee) is refused only by the uniqueness check. */
  lemma ValidCommandsOnLoggedIncident(lc: LogIncidentCommand, ac: AddCommentCommand,
                                      sc: ChangeStatusCommand, asg: AssignIncidentCommand,
                                      newId: Guid, now: DateTime, t: DateTime, user: Option<string>,
                                      validator: string -> Outcome)
    requires ValidLogIncident(lc) && ValidAddComment(ac) && ValidChangeStatus(sc) && ValidAssignIncident(asg)
    ensures var s := IncidentAggregate.Replay(newId, [LoggedEvent(lc, now)]);
            && !IsBlank(s.title)
            && IncidentAggregate.AddComment(s, ac.comment, user, t) == Ok(CommentAdded(newId, ac.comment, user, t))
            && (IncidentAggregate.ChangeStatus(s, sc.newStatus, user, t).Ok? <==> sc.newStatus != New)
            && (IncidentAggregate.Assign(s, asg.assignedTo, validator, t).Ok? <==> validator(asg.assignedTo).Pass?)
  {
    var e := LoggedEvent(lc, now);
    assert IncidentAggregate.Create(e, newId).Returned?;
    assert IsBlank("");
  }
}
