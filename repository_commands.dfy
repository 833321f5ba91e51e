/** The command handlers of the repository-based variant: load the incident
    document, take the decision on it, and write the loaded document back.
    The decision functions return an event and do not change the incident,
    so what is written back is the document that was loaded. */
module RepositoryCommands {
  import opened Wrappers
  import opened SystemTypes
  import opened Incidents
  import opened IncidentAggregate
  import opened DocumentStore
  import opened Repository
  import opened IncidentValidation
  import opened Commands

  /** `LogIncidentCommandHandler`: `Incident.Create` throws on a blank title
      before anything is stored; otherwise the created incident (New,
      unassigned, no comments, id `newId`) is stored and its id returned. */
  method LogIncident(store: Store, cmd: LogIncidentCommand, now: DateTime, newId: Guid)
    returns (c: Completion<Result<Guid>>)
    requires store.Valid()
    modifies store
    ensures store.Valid()
    ensures old(AsCreated(store.incidents)) ==> AsCreated(store.incidents)
    ensures c.Threw? <==> IsBlank(cmd.title)
    ensures c.Threw? ==> c.message == TitleRequiredMessage && unchanged(store)
    ensures c.Returned? ==>
              && c.value == Ok(newId)
              && store.incidents == Upsert(old(store.incidents), Replay(newId, [LoggedEvent(cmd, now)]))
              && store.streams == old(store.streams) && store.history == old(store.history)
    ensures c.Returned? ==>
              && GetById(store.incidents, newId).Ok?
              && var s := GetById(store.incidents, newId).value;
                 && s.title == cmd.title && s.description == cmd.description
                 && s.reportedBy == cmd.reportedBy && s.reportedAt == now && s.priority == cmd.priority
                 && s.status == New && s.assignedTo == "" && s.comments == []
  {
    var evt := LoggedEvent(cmd, now);
    var created := IncidentAggregate.Create(evt, newId);
    if created.Threw? {
      return Threw(created.message);
    }
    var incident := created.value;
    if AsCreated(store.incidents) {
      UpsertKeepsAsCreated(store.incidents, incident);
    }
    var idResult := Repository.Create(store, incident);
    GetByIdAfterUpsert(old(store.incidents), incident);
    if idResult.Fail? {
      return Returned(idResult);
    }
    c := Returned(Ok(idResult.value));
  }

  /** `AssignIncidentCommandHandler`: a missing incident's not-found error and
      a failed decision are passed on with nothing written; a successful
      decision writes the loaded document back, so the stored incidents are
      the same as before. */
  method AssignIncident(store: Store, cmd: AssignIncidentCommand, now: DateTime)
    returns (r: Outcome)
    requires store.Valid()
    modifies store
    ensures store.Valid()
    ensures store.incidents == old(store.incidents)
    ensures store.streams == old(store.streams) && store.history == old(store.history)
    ensures var loaded := GetById(old(store.incidents), cmd.incidentId);
            && (loaded.Fail? ==> r == Failed(loaded.errors))
            && (loaded.Ok? ==>
                  var d := Assign(loaded.value, cmd.assignedTo, Validator(old(store.incidents)), now);
                  r == if d.Fail? then Failed(d.errors) else Pass)
  {
    var incidentResult := GetById(store.incidents, cmd.incidentId);
    if incidentResult.Fail? {
      return Failed(incidentResult.errors);
    }
    var incident := incidentResult.value;
    var result := Assign(incident, cmd.assignedTo, Validator(store.incidents), now);
    if result.Fail? {
      return Failed(result.errors);
    }
    UpsertStoredIsIdentity(store.incidents, incident);
    var updateResult := Update(store, incident);
    if updateResult.Failed? {
      return updateResult;
    }
    r := Pass;
  }

  /** `AddCommentCommandHandler`: as for assignment, with the closed-incident
      failure; success returns the loaded incident's id. */
  method AddComment(store: Store, cmd: AddCommentCommand, currentUser: Option<string>, now: DateTime)
    returns (r: Result<Guid>)
    requires store.Valid()
    modifies store
    ensures store.Valid()
    ensures store.incidents == old(store.incidents)
    ensures store.streams == old(store.streams) && store.history == old(store.history)
    ensures var loaded := GetById(old(store.incidents), cmd.incidentId);
            && (loaded.Fail? ==> r == Fail(loaded.errors))
            && (loaded.Ok? && loaded.value.status == Closed ==> r == Fail([ClosedCommentMessage]))
            && (loaded.Ok? && loaded.value.status != Closed ==> r == Ok(cmd.incidentId))
  {
    var incidentResult := GetById(store.incidents, cmd.incidentId);
    if incidentResult.Fail? {
      return Fail(incidentResult.errors);
    }
    var incident := incidentResult.value;
    var result := IncidentAggregate.AddComment(incident, cmd.comment, currentUser, now);
    if result.Fail? {
      return Fail(result.errors);
    }
    UpsertStoredIsIdentity(store.incidents, incident);
    var updateResult := Update(store, incident);
    match updateResult {
      case Failed(errors) => return Fail(errors);
      case Pass =>
    }
    r := Ok(incident.id);
  }

  /** `ChangeStatusCommandCommandHandler`: as for assignment, with the
      same-status failure; success returns the command's incident id. */
  method ChangeStatus(store: Store, cmd: ChangeStatusCommand, currentUser: Option<string>, now: DateTime)
    returns (r: Result<Guid>)
    requires store.Valid()
    modifies store
    ensures store.Valid()
    ensures store.incidents == old(store.incidents)
    ensures store.streams == old(store.streams) && store.history == old(store.history)
    ensures var loaded := GetById(old(store.incidents), cmd.incidentId);
            && (loaded.Fail? ==> r == Fail(loaded.errors))
            && (loaded.Ok? && loaded.value.status == cmd.newStatus ==> r == Fail([SameStatusMessage]))
            && (loaded.Ok? && loaded.value.status != cmd.newStatus ==> r == Ok(cmd.incidentId))
  {
    var incidentResult := GetById(store.incidents, cmd.incidentId);
    if incidentResult.Fail? {
      return Fail(incidentResult.errors);
    }
    var incident := incidentResult.value;
    var result := IncidentAggregate.ChangeStatus(incident, cmd.newStatus, currentUser, now);
    if result.Fail? {
      return Fail(result.errors);
    }
    UpsertStoredIsIdentity(store.incidents, incident);
    var updateResult := Update(store, incident);
    match updateResult {
      case Failed(errors) => return Fail(errors);
      case Pass =>
    }
    r := Ok(cmd.incidentId);
  }

  /** Every stored incident is still as `Incident.Create` made it. */
  ghost predicate AsCreated(docs: seq<Incident>)
  {
    forall i | 0 <= i < |docs| :: docs[i].assignedTo == "" && docs[i].status == New && docs[i].comments == []
  }

  /** Storing a freshly created incident keeps every stored incident as created. */
  lemma {:induction false} UpsertKeepsAsCreated(docs: seq<Incident>, incident: Incident)
    requires UniqueIds(docs) && AsCreated(docs)
    requires incident.assignedTo == "" && incident.status == New && incident.comments == []
    ensures AsCreated(Upsert(docs, incident))
  {
    var r := Upsert(docs, incident);
    forall i | 0 <= i < |r| ensures r[i].assignedTo == "" && r[i].status == New && r[i].comments == [] {
      assert r[i] in r;
      if r[i] != incident {
        var k :| 0 <= k < |docs| && docs[k] == r[i];
      }
    }
  }

  /** Since no handler of this variant writes a changed incident back, a store
      built by these handlers blocks no non-empty user: the uniqueness check
      passes for all of them. */
  lemma AsCreatedNeverBlocks(docs: seq<Incident>, userId: string)
    requires AsCreated(docs) && userId != ""
    ensures CheckNotAssignedToIncidentAlready(docs, userId) == Pass
  {
  }

  /** On such a store, assigning any non-empty user to a stored incident
      succeeds, however many incidents that user already holds. */
  lemma AssignAlwaysSucceedsAsCreated(docs: seq<Incident>, id: Guid, userId: string, now: DateTime)
    requires AsCreated(docs) && userId != ""
    requires GetById(docs, id).Ok?
    ensures Assign(GetById(docs, id).value, userId, Validator(docs), now) == Ok(IncidentAssigned(id, userId, now))
  {
    AsCreatedNeverBlocks(docs, userId);
    var s := GetById(docs, id).value;
    var k :| 0 <= k < |docs| && docs[k] == s;
  }

  /** A command that passes `AssignIncidentCommandValidator` and names a stored
      incident always decides IncidentAssigned on a table the handlers built:
      `NotEmpty` rules out the one assignee the table blocks. */
  lemma ValidAssignSucceedsAsCreated(docs: seq<Incident>, cmd: AssignIncidentCommand, now: DateTime)
    requires AsCreated(docs) && ValidAssignIncident(cmd)
    requires GetById(docs, cmd.incidentId).Ok?
    ensures Assign(GetById(docs, cmd.incidentId).value, cmd.assignedTo, Validator(docs), now)
            == Ok(IncidentAssigned(cmd.incidentId, cmd.assignedTo, now))
  {
    assert IsBlank("");
    AssignAlwaysSucceedsAsCreated(docs, cmd.incidentId, cmd.assignedTo, now);
  }
}
