/** The command handlers of the event-sourced variant: replay the incident's
    stream, take the decision, and on success append the one new event (the
    inline history projection writes its row in the same step). A failed
    decision writes nothing. */
module EventSourcedCommands {
  import opened Wrappers
  import opened SystemTypes
  import opened Incidents
  import opened IncidentAggregate
  import HistoryProjection
  import opened DocumentStore
  import opened IncidentValidation
  import opened Commands

  /** After appending the decided event `e` to a well-formed stream of `id`,
      the stream is still well formed and replays to `e` applied to the old state. */
  lemma AppendDecided(id: Guid, es: seq<Event>, e: Event)
    requires WellFormedStream(id, es)
    requires !e.IncidentLogged? && e.incidentId == Replay(id, es).id
    ensures WellFormedStream(id, es + [e])
    ensures Replay(id, es + [e]) == Apply(Replay(id, es), e)
  {
    FoldCharacterised(Initial(id), es);
    FoldAppend(Initial(id), es, e);
    var es' := es + [e];
    forall i | 1 <= i < |es'| ensures !es'[i].IncidentLogged? && es'[i].incidentId == id {
      if i < |es| { assert es'[i] == es[i]; }
    }
  }

  /** `LogIncidentCommandHandler`: a blank title throws from `Incident.Create`
      before any stream is started; otherwise a new stream keyed by the new
      incident's id holds exactly the IncidentLogged event, whose replay is a
      New, unassigned incident without comments. */
  method LogIncident(store: Store, cmd: LogIncidentCommand, now: DateTime, newId: Guid, rowId: Guid)
    returns (c: Completion<Result<Guid>>)
    requires store.Valid()
    requires newId !in store.streams
    requires FreshRowId(store.history, rowId)
    modifies store
    ensures store.Valid()
    ensures old(store.StreamsWellFormed()) ==> store.StreamsWellFormed()
    ensures c.Threw? <==> IsBlank(cmd.title)
    ensures c.Threw? ==> c.message == TitleRequiredMessage && unchanged(store)
    ensures c.Returned? ==>
              && c.value == Ok(newId)
              && store.streams == old(store.streams)[newId := [LoggedEvent(cmd, now)]]
              && store.history == old(store.history) + [HistoryProjection.Project(LoggedEvent(cmd, now), rowId)]
              && store.incidents == old(store.incidents)
    ensures c.Returned? ==>
              var s := Replay(newId, store.streams[newId]);
              && s.id == newId && s.title == cmd.title && s.description == cmd.description
              && s.reportedBy == cmd.reportedBy && s.reportedAt == now && s.priority == cmd.priority
              && s.status == New && s.assignedTo == "" && s.comments == []
  {
    var evt := LoggedEvent(cmd, now);
    var created := Create(evt, newId);
    if created.Threw? {
      return Threw(created.message);
    }
    var incident := created.value;
    store.StartStream(incident.id, evt, rowId);
    c := Returned(Ok(incident.id));
  }

  /** `AssignIncidentCommandHandler`. The handler does not guard against a
      missing stream (the replayed aggregate would be null), so the stream
      must exist. The decision is taken against the replay, with the
      repository-backed uniqueness validator; a failure is returned with its
      errors and nothing is appended; otherwise exactly one IncidentAssigned
      is appended and its replay changes only the assignee. */
  method AssignIncident(store: Store, cmd: AssignIncidentCommand, now: DateTime, rowId: Guid)
    returns (r: Outcome)
    requires store.Valid() && store.StreamsWellFormed()
    requires cmd.incidentId in store.streams
    requires FreshRowId(store.history, rowId)
    modifies store
    ensures store.Valid() && store.StreamsWellFormed()
    ensures var s := Replay(cmd.incidentId, old(store.streams[cmd.incidentId]));
            var d := Assign(s, cmd.assignedTo, Validator(old(store.incidents)), now);
            && (d.Fail? ==> r == Failed(d.errors) && unchanged(store))
            && (d.Ok? ==>
                  && r == Pass
                  && store.streams == old(store.streams)[cmd.incidentId := old(store.streams[cmd.incidentId]) + [d.value]]
                  && store.history == old(store.history) + [HistoryProjection.Project(d.value, rowId)]
                  && store.incidents == old(store.incidents))
    ensures r.Pass? ==>
              Replay(cmd.incidentId, store.streams[cmd.incidentId])
              == Replay(cmd.incidentId, old(store.streams[cmd.incidentId])).(assignedTo := cmd.assignedTo)
  {
    var id := cmd.incidentId;
    var stream := store.streams[id];
    var incident := Replay(id, stream);
    var result := Assign(incident, cmd.assignedTo, Validator(store.incidents), now);
    if result.Fail? {
      return Failed(result.errors);
    }
    AppendDecided(id, stream, result.value);
    AssignThenApply(incident, cmd.assignedTo, Validator(store.incidents), now);
    store.Append(id, result.value, rowId);
    r := Pass;
  }

  /** `AddCommentCommandHandler`: on a Closed incident it fails and appends
      nothing; otherwise one CommentAdded by the current user is appended, the
      replayed comments gain it at the end, and the success value is the
      empty Guid (`Result.Ok()` converted to `Result<Guid>`). */
  method AddComment(store: Store, cmd: AddCommentCommand, currentUser: Option<string>, now: DateTime,
                    rowId: Guid)
    returns (r: Result<Guid>)
    requires store.Valid() && store.StreamsWellFormed()
    requires cmd.incidentId in store.streams
    requires FreshRowId(store.history, rowId)
    modifies store
    ensures store.Valid() && store.StreamsWellFormed()
    ensures var s := Replay(cmd.incidentId, old(store.streams[cmd.incidentId]));
            && (s.status == Closed ==> r == Fail([ClosedCommentMessage]) && unchanged(store))
            && (s.status != Closed ==>
                  && r == Ok(EmptyGuid)
                  && store.streams == old(store.streams)[cmd.incidentId := old(store.streams[cmd.incidentId])
                                        + [CommentAdded(cmd.incidentId, cmd.comment, currentUser, now)]]
                  && store.history == old(store.history)
                                      + [HistoryProjection.Project(CommentAdded(cmd.incidentId, cmd.comment, currentUser, now), rowId)]
                  && store.incidents == old(store.incidents))
    ensures r.Ok? ==>
              Replay(cmd.incidentId, store.streams[cmd.incidentId]).comments
              == Replay(cmd.incidentId, old(store.streams[cmd.incidentId])).comments
                 + [Comment(cmd.comment, currentUser, now)]
  {
    var id := cmd.incidentId;
    var stream := store.streams[id];
    var incident := Replay(id, stream);
    FoldCharacterised(Initial(id), stream);
    var result := IncidentAggregate.AddComment(incident, cmd.comment, currentUser, now);
    if result.Fail? {
      return Fail(result.errors);
    }
    AppendDecided(id, stream, result.value);
    store.Append(id, result.value, rowId);
    r := Ok(EmptyGuid);
  }

  /** `ChangeStatusCommandCommandHandler`: asking for the current status fails
      and appends nothing; otherwise one IncidentStatusChanged by the current
      user is appended, the replay has the new status, and the handler
      returns the command's incident id. */
  method ChangeStatus(store: Store, cmd: ChangeStatusCommand, currentUser: Option<string>, now: DateTime,
                      rowId: Guid)
    returns (r: Result<Guid>)
    requires store.Valid() && store.StreamsWellFormed()
    requires cmd.incidentId in store.streams
    requires FreshRowId(store.history, rowId)
    modifies store
    ensures store.Valid() && store.StreamsWellFormed()
    ensures var s := Replay(cmd.incidentId, old(store.streams[cmd.incidentId]));
            && (cmd.newStatus == s.status ==> r == Fail([SameStatusMessage]) && unchanged(store))
            && (cmd.newStatus != s.status ==>
                  && r == Ok(cmd.incidentId)
                  && store.streams == old(store.streams)[cmd.incidentId := old(store.streams[cmd.incidentId])
                                        + [IncidentStatusChanged(cmd.incidentId, cmd.newStatus, currentUser, now)]]
                  && store.history == old(store.history)
                                      + [HistoryProjection.Project(IncidentStatusChanged(cmd.incidentId, cmd.newStatus, currentUser, now), rowId)]
                  && store.incidents == old(store.incidents))
    ensures r.Ok? ==>
              Replay(cmd.incidentId, store.streams[cmd.incidentId])
              == Replay(cmd.incidentId, old(store.streams[cmd.incidentId])).(status := cmd.newStatus)
  {
    var id := cmd.incidentId;
    var stream := store.streams[id];
    var incident := Replay(id, stream);
    FoldCharacterised(Initial(id), stream);
    var result := IncidentAggregate.ChangeStatus(incident, cmd.newStatus, currentUser, now);
    if result.Fail? {
      return Fail(result.errors);
    }
    AppendDecided(id, stream, result.value);
    store.Append(id, result.value, rowId);
    r := Ok(id);
  }
}
