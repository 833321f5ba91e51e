# HelpDesk incident management, modelled in Dafny

HelpDesk.Management tracks support incidents. An incident is logged with a
title, a description, a reporter and a priority; it can then be assigned to
a user, commented on and moved through the statuses New, InProgress, OnHold,
Resolved and Closed. Two variants of the application layer share the
`Incident` aggregate:

- the **event-sourced variant** keeps one event stream per incident in a
  Marten document store. A command handler replays the stream into an
  `Incident`, asks the aggregate for a decision, and appends the decided
  event. An inline projection writes one audit-log row
  (`IncidentHistoryEntry`) for every event;
- the **repository variant** keeps `Incident` documents behind
  `IIncidentRepository`. A handler loads the document, asks the aggregate
  for a decision, and stores the loaded document again.

The aggregate's decision methods (`Assign`, `AddComment`, `ChangeStatus`)
never change the incident: they return the event to record, or the errors.
State changes only when an event is applied. A user may take a new
assignment only when no stored incident assigned to them is still open
(`IncidentValidator`).

What the model proves, in outline:

- each decision fails exactly in the source's cases, with its messages;
- replaying a stream is characterised field by field;
- every event kind has its history row wording;
- each event-sourced handler appends exactly the decided event, or nothing;
- the history row of the event-sourced handlers is written in the same step;
- the repository handlers write back the incident they loaded, so the table
  never changes after creation. From this, assigning any non-empty user
  always passes the uniqueness check (`RepositoryCommands.AssignAlwaysSucceedsAsCreated`).
  The event-sourced variant never writes `Incident` documents either: their
  registration is commented out at `src/HelpDesk.Management.Api/Program.cs:34`;
- the audit-log row of an `IncidentLogged` keeps the empty Guid as its
  incident id, so the per-incident history never shows the creation row
  (`RepositoryQueries.LoggedRowNotInIncidentHistory`, recorded under "## Findings");
- the queries' DTO mappings read back to the incident they came from;
- both history orderings are newest first and are permutations of the
  stored rows.

Layout, one module per file:

- `Wrappers`: Option, FluentResults' `Result`/`Result<T>`, and a thrown exception.
- `SystemTypes`: `Guid` and its 8-4-4-4-12 text, `DateTime`, and .NET's white-space test.
- `Incidents`, `IncidentAggregate`, `AggregateRoot`: the domain.
- `HistoryProjection`, `Ordering`: the audit log.
- `DocumentStore`: the Marten store: event streams, the incident table and the history rows.
- `Repository`, `IncidentValidation`: the repository and the validator.
- `Commands`, `EventSourcedCommands`, `RepositoryCommands`: the command records, their validators and both sets of handlers.
- `Dtos`, `EventSourcedQueries`, `RepositoryQueries`: the read side.

Inputs that the running program takes from outside become parameters:

- `Guid.NewGuid()` becomes `newId` for an incident and `rowId` for a history row;
- `DateTime.UtcNow` becomes `now`;
- the authenticated user becomes `currentUser: Option<string>`, where `None` is the provider's null.

## Model

| member | source | states |
|---|---|---|
| SystemTypes.IsWhiteSpace | src/HelpDesk.Management.Domain/Incidents/Aggregates/Incident.cs:22 | the characters `char.IsWhiteSpace` accepts: tab to carriage return, space, next line, no-break space and the Unicode space, line and paragraph separators |
| SystemTypes.IsBlank | src/HelpDesk.Management.Domain/Incidents/Aggregates/Incident.cs:22 | `string.IsNullOrWhiteSpace` on a non-null string: every character is white space, so the empty string is blank |
| SystemTypes.FormatGuid | src/HelpDesk.Management.Infrastructure/Incidents/DocumentStoreIncidentRepository.cs:25 | the id in the not-found message is 36 characters, dashes at 8, 13, 18 and 23, and the other characters are the 32 lower-case hex digits of the id |
| SystemTypes.FormatGuidInjective | src/HelpDesk.Management.Infrastructure/Incidents/DocumentStoreIncidentRepository.cs:25 | different ids give different texts, so the message names the missing incident unambiguously |
| Incidents.PriorityName | HelpDesk.Management.Domain/Incidents/Enums.cs:3-9 | `Priority.ToString()`: each member's declared name |
| Incidents.StatusName | HelpDesk.Management.Domain/Incidents/Enums.cs:11-18 | `IncidentStatus.ToString()`: each member's declared name |
| Incidents.ParsePriority | HelpDesk.Management.Domain/Incidents/Enums.cs:3-9 | a name parses to a priority exactly when that priority's `ToString()` is the name |
| Incidents.ParseStatus | HelpDesk.Management.Domain/Incidents/Enums.cs:11-18 | a name parses to a status exactly when that status's `ToString()` is the name |
| Incidents.StatusValue | HelpDesk.Management.Domain/Incidents/Enums.cs:11-18 | the underlying integers 0 to 4, in declaration order |
| Incidents.IsDefinedStatus | HelpDesk.Management.Application/Incidents/Commands/ChangeStatusCommand.cs:21-22 | `IsInEnum`: the value is one of 0 to 4 |
| Incidents.IsDefinedStatusExactly | HelpDesk.Management.Application/Incidents/Commands/ChangeStatusCommand.cs:21-23 | `IsInEnum` accepts an underlying value exactly when some declared status has it |
| IncidentAggregate.Initial | src/HelpDesk.Management.Domain/Incidents/Aggregates/Incident.cs:8-18 | the private constructor's initialisers: empty strings, the zero time, the first enum members, no comments, carrying the given id |
| IncidentAggregate.Create | src/HelpDesk.Management.Domain/Incidents/Aggregates/Incident.cs:20-37 | throws "Title cannot be empty or whitespace." exactly on a null-or-white-space title; otherwise the incident is the replay of the single IncidentLogged under the new id |
| IncidentAggregate.Assign | src/HelpDesk.Management.Domain/Incidents/Aggregates/Incident.cs:39-58 | Ok exactly when not Closed, a different assignee and the validator passes; the Closed check comes first, then the same-user check, then the validator's errors unchanged; success is IncidentAssigned(id, assignee, now) |
| IncidentAggregate.AddComment | src/HelpDesk.Management.Domain/Incidents/Aggregates/Incident.cs:60-68 | fails "Cannot add comments to closed incidents" exactly on a Closed incident; otherwise CommentAdded with the given author and time |
| IncidentAggregate.ChangeStatus | src/HelpDesk.Management.Domain/Incidents/Aggregates/Incident.cs:70-78 | fails "Incident is already in this status" exactly when the status is unchanged; otherwise IncidentStatusChanged with the new status |
| IncidentAggregate.Apply | src/HelpDesk.Management.Domain/Incidents/Aggregates/Incident.cs:80-97 | each event changes only its own fields: IncidentLogged the creation fields and status New, IncidentAssigned the assignee, CommentAdded one comment at the end, IncidentStatusChanged the status; the id never changes |
| IncidentAggregate.Fold | src/HelpDesk.Management.Domain/Incidents/Aggregates/Incident.cs:80-97 | the events applied in stream order, oldest first |
| IncidentAggregate.Replay | HelpDesk.Management.Application/Incidents/Commands/AssignIncidentCommand.cs:45 | `AggregateStreamAsync`: the fold of the stream from a fresh aggregate with the stream id |
| IncidentAggregate.FoldAppend | src/HelpDesk.Management.Domain/Incidents/Aggregates/Incident.cs:80-97 | replaying a stream with one more event is applying that event to the replay of the stream |
| IncidentAggregate.FoldCharacterised | src/HelpDesk.Management.Domain/Incidents/Aggregates/Incident.cs:80-97 | a replay keeps the id, its comments are the CommentAdded events in order, its assignee the last IncidentAssigned, its status the last event that sets one, and its creation fields the last IncidentLogged |
| IncidentAggregate.WellFormedLastLogged | src/HelpDesk.Management.Domain/Incidents/Aggregates/Incident.cs:80-88 | in a stream that starts with its only IncidentLogged, the last IncidentLogged is that first event |
| IncidentAggregate.LastStatusOfWellFormed | src/HelpDesk.Management.Domain/Incidents/Aggregates/Incident.cs:87-97 | such a stream always has a status-setting event, so its replay has a defined status |
| IncidentAggregate.ReplayWellFormed | src/HelpDesk.Management.Domain/Incidents/Aggregates/Incident.cs:80-97 | the replay of such a stream has the stream's id and the first event's creation fields, and its comments, assignee and status are those of the events |
| IncidentAggregate.AssignThenApply | src/HelpDesk.Management.Domain/Incidents/Aggregates/Incident.cs:57-91 | applying a successful assignment's event changes the assignee and nothing else |
| IncidentAggregate.AddCommentThenApply | src/HelpDesk.Management.Domain/Incidents/Aggregates/Incident.cs:67-94 | applying a successful comment's event appends exactly that comment |
| IncidentAggregate.ChangeStatusThenApply | src/HelpDesk.Management.Domain/Incidents/Aggregates/Incident.cs:77-97 | applying a successful status change's event sets the status and nothing else |
| IncidentAggregate.ChangeStatusTwice | src/HelpDesk.Management.Domain/Incidents/Aggregates/Incident.cs:72-75 | once a status change is applied, asking for that status again is refused |
| IncidentAggregate.AssignTwice | src/HelpDesk.Management.Domain/Incidents/Aggregates/Incident.cs:46-49 | once an assignment is applied, assigning the same user again is refused, whatever the validator says |
| AggregateRoot.AggregateBase.constructor | src/HelpDesk.Management.Domain/Incidents/AggregateBase.cs:6 | a new aggregate has no pending events |
| AggregateRoot.AggregateBase.SetId | src/HelpDesk.Management.Domain/Incidents/AggregateBase.cs:8 | the id setter changes the id and leaves the pending events alone |
| AggregateRoot.AggregateBase.PopPendingEvents | src/HelpDesk.Management.Domain/Incidents/AggregateBase.cs:10-15 | returns the pending events and leaves none; the id is unchanged |
| AggregateRoot.PopTwice | src/HelpDesk.Management.Domain/Incidents/AggregateBase.cs:10-15 | a second pop right after the first returns no events |
| HistoryProjection.FreshEntry | HelpDesk.Management.Domain/Incidents/AuditLog/IncidentHistoryEntry.cs:5-10 | a new entry document: empty Guids, empty strings, the zero time |
| HistoryProjection.OccurredAt | HelpDesk.Management.Application/Incidents/Projections/IncidentHistoryProjection.cs:22-52 | each event's own time field: ReportedAt, AssignedAt, AddedAt or ChangedAt |
| HistoryProjection.Apply | HelpDesk.Management.Application/Incidents/Projections/IncidentHistoryProjection.cs:16-53 | each event fills a row with the fresh id, its EventType ("IncidentLogged", "IncidentAssigned", "CommentAdded", "StatusChanged"), its Description wording, its PerformedBy (reporter, assignee, author, changer) and its own time; only the three later events set IncidentId |
| HistoryProjection.Project | HelpDesk.Management.Application/Incidents/Projections/IncidentHistoryProjection.cs:10-13 | every event opens its own fresh entry document, which its `Apply` fills in |
| HistoryProjection.ProjectInStream | HelpDesk.Management.Application/Incidents/Projections/IncidentHistoryProjection.cs:16-23 | the corrected projection of the finding below: as `Project`, but the IncidentLogged row carries the id of its stream |
| HistoryProjection.LoggedRowHasEmptyIncidentId | HelpDesk.Management.Application/Incidents/Projections/IncidentHistoryProjection.cs:16-23 | the IncidentLogged row's IncidentId is the empty Guid |
| HistoryProjection.EventTypeIdentifiesKind | HelpDesk.Management.Application/Incidents/Projections/IncidentHistoryProjection.cs:19-49 | two rows with the same EventType come from events of the same kind |
| Ordering.InsertNewestFirst | HelpDesk.Management.Application/Incidents/Queries/GetAllIncidentHistory.cs:23 | inserting into a newest-first list keeps it newest first and adds exactly the one row |
| Ordering.OrderByTimestampDescending | HelpDesk.Management.Application/Incidents/Queries/GetAllIncidentHistory.cs:22-24 | the result is newest first from one row to the next and is a permutation of the input |
| Ordering.StepwiseIsNewestFirst | HelpDesk.Management.Application/Incidents/Queries/GetAllIncidentHistory.cs:23 | newest first between neighbours is newest first between any two rows |
| Ordering.OrderedIsNewestFirst | HelpDesk.Management.Application/Incidents/Queries/GetAllIncidentHistory.cs:23 | every row of the ordered result is at least as new as every later row |
| DocumentStore.Store.Valid | src/HelpDesk.Management.Api/Program.cs:31 | the store's invariant: incident ids are unique, history row ids are distinct, and each history row is the inline projection of the event appended at that position |
| DocumentStore.Store.constructor | src/HelpDesk.Management.Api/Program.cs:28-35 | an empty store: no streams, documents or history rows |
| DocumentStore.Store.StartStream | src/HelpDesk.Management.Api/Program.cs:31 | starting a stream holds exactly the one event, and the inline projection adds that event's row with the given fresh id; nothing else changes |
| DocumentStore.Store.Append | src/HelpDesk.Management.Api/Program.cs:31 | appending adds the event at the end of that stream only, the projection adds its row, the documents stay as they were |
| DocumentStore.StreamOf | HelpDesk.Management.Application/Incidents/Commands/AssignIncidentCommand.cs:53 | the events of a stream, none for a stream not yet started |
| Repository.NotFoundMessage | src/HelpDesk.Management.Infrastructure/Incidents/DocumentStoreIncidentRepository.cs:25 | "Incident with id {id} not found", with the id in its text form |
| Repository.Load | src/HelpDesk.Management.Infrastructure/Incidents/DocumentStoreIncidentRepository.cs:21 | gives nothing exactly when no stored incident has the id, otherwise a stored incident with that id |
| Repository.LoadFindsStored | src/HelpDesk.Management.Infrastructure/Incidents/DocumentStoreIncidentRepository.cs:21 | with unique ids, loading a stored incident's id gives that incident |
| Repository.GetById | src/HelpDesk.Management.Infrastructure/Incidents/DocumentStoreIncidentRepository.cs:18-29 | fails "Incident with id {id} not found" exactly when no incident has the id, otherwise returns the stored one |
| Repository.GetAll | src/HelpDesk.Management.Infrastructure/Incidents/DocumentStoreIncidentRepository.cs:31-35 | every stored incident, each once |
| Repository.IsOpenAssignment | src/HelpDesk.Management.Infrastructure/Incidents/DocumentStoreIncidentRepository.cs:41 | assigned to the user and not Closed |
| Repository.GetAssignedIncidents | src/HelpDesk.Management.Infrastructure/Incidents/DocumentStoreIncidentRepository.cs:37-43 | every result is assigned to the user and not Closed, and there are no more results than stored incidents |
| Repository.AssignedIncidentsSound | HelpDesk.Management.Infrastructure/Incidents/DocumentStoreIncidentRepository.cs:20-22 | a listed incident is stored, assigned to the user and not Closed |
| Repository.AssignedIncidentsComplete | HelpDesk.Management.Infrastructure/Incidents/DocumentStoreIncidentRepository.cs:20-22 | every stored incident assigned to the user and not Closed is listed |
| Repository.RowsOf | src/HelpDesk.Management.Infrastructure/Incidents/DocumentStoreIncidentRepository.cs:65 | every kept row belongs to the incident |
| Repository.RowsOfExactly | src/HelpDesk.Management.Infrastructure/Incidents/DocumentStoreIncidentRepository.cs:64-65 | a row is kept exactly when it is stored and belongs to the incident |
| Repository.GetIncidentHistory | src/HelpDesk.Management.Infrastructure/Incidents/DocumentStoreIncidentRepository.cs:61-68 | newest first, and a permutation of that incident's rows |
| Repository.IncidentHistoryExactly | src/HelpDesk.Management.Infrastructure/Incidents/DocumentStoreIncidentRepository.cs:61-68 | a row is in the history exactly when it is stored and belongs to the incident |
| Repository.Upsert | src/HelpDesk.Management.Infrastructure/Incidents/DocumentStoreIncidentRepository.cs:48-56 | ids stay unique, the incident is stored, it replaces the one with its id only, and other incidents are kept |
| Repository.GetByIdAfterUpsert | src/HelpDesk.Management.Infrastructure/Incidents/DocumentStoreIncidentRepository.cs:45-51 | after storing an incident, `GetById` of its id returns it |
| Repository.UpsertStoredIsIdentity | src/HelpDesk.Management.Infrastructure/Incidents/DocumentStoreIncidentRepository.cs:53-59 | storing an incident that is already stored leaves the table as it was |
| Repository.Create | src/HelpDesk.Management.Infrastructure/Incidents/DocumentStoreIncidentRepository.cs:45-51 | stores the incident and returns Ok of its id; streams and history untouched |
| Repository.Update | src/HelpDesk.Management.Infrastructure/Incidents/DocumentStoreIncidentRepository.cs:53-59 | replaces the stored incident with the same id and returns Ok; nothing else changes |
| IncidentValidation.CheckNotAssignedToIncidentAlready | src/HelpDesk.Management.Domain/Incidents/Validation/IncidentValidator.cs:14-24 | fails "User {userId} already has active incidents assigned" exactly when a stored incident assigned to the user is not Closed |
| IncidentValidation.Validator | src/HelpDesk.Management.Api/Program.cs:53-54 | the validator the aggregate is handed: the uniqueness check over the document repository's table |
| IncidentValidation.ClosedIncidentsDoNotBlock | src/HelpDesk.Management.Domain/Incidents/Validation/IncidentValidator.cs:16-23 | a user whose incidents are all Closed passes |
| IncidentValidation.AssignBlockedByOpenIncident | src/HelpDesk.Management.Domain/Incidents/Aggregates/Incident.cs:51-55 | assigning a user who holds an open incident fails with the validator's message once the earlier checks pass |
| Commands.NotEmpty | HelpDesk.Management.Application/Incidents/Commands/LogIncidentCommand.cs:21-23 | FluentValidation's `NotEmpty` on a string: not blank |
| Commands.NotEmptyId | HelpDesk.Management.Application/Incidents/Commands/AssignIncidentCommand.cs:21 | `NotEmpty` on a Guid: not the empty Guid |
| Commands.ValidLogIncident | HelpDesk.Management.Application/Incidents/Commands/LogIncidentCommand.cs:17-25 | title not blank and at most 200 characters, description not blank and at most 2000, reporter not blank |
| Commands.ValidAssignIncident | HelpDesk.Management.Application/Incidents/Commands/AssignIncidentCommand.cs:17-24 | incident id not empty, assignee not blank |
| Commands.ValidAddComment | HelpDesk.Management.Application/Incidents/Commands/AddCommentCommand.cs:15-22 | incident id not empty, comment not blank and at most 2000 characters |
| Commands.ValidChangeStatus | HelpDesk.Management.Application/Incidents/Commands/ChangeStatusCommand.cs:16-25 | incident id not empty, status a declared member |
| Commands.LoggedEvent | HelpDesk.Management.Application/Incidents/Commands/LogIncidentCommand.cs:40-46 | the IncidentLogged copies the command's fields and is stamped now |
| Commands.ValidLogIncidentNeverThrows | HelpDesk.Management.Application/Incidents/Commands/LogIncidentCommand.cs:21 | a command that passes its validator never makes `Incident.Create` throw |
| Commands.ValidCommandsOnLoggedIncident | src/HelpDesk.Management.Domain/Incidents/Aggregates/Incident.cs:39-78 | on an incident just logged from a valid command: the title is not blank, a valid comment is accepted as given, a valid status change is refused only for New, and a valid assignee is refused only by the uniqueness check |
| EventSourcedCommands.AppendDecided | HelpDesk.Management.Application/Incidents/Commands/AssignIncidentCommand.cs:53 | appending a decided event keeps the stream well formed, and its replay is the event applied to the old replay |
| EventSourcedCommands.LogIncident | HelpDesk.Management.Application/Incidents/Commands/LogIncidentCommand.cs:36-53 | throws exactly on a blank title with nothing written; otherwise a new stream holding only the IncidentLogged, its history row, Ok of the new id, and a replay that is New, unassigned and without comments |
| EventSourcedCommands.AssignIncident | HelpDesk.Management.Application/Incidents/Commands/AssignIncidentCommand.cs:42-56 | decides on the replay with the uniqueness validator; a failure returns its errors and writes nothing; success appends exactly the IncidentAssigned and its row, returns Ok, and the replay differs only in the assignee |
| EventSourcedCommands.AddComment | HelpDesk.Management.Application/Incidents/Commands/AddCommentCommand.cs:35-48 | on a Closed incident fails and writes nothing; otherwise appends exactly the CommentAdded by the current user, returns Ok with the empty Guid, and the replay gains that comment last |
| EventSourcedCommands.ChangeStatus | HelpDesk.Management.Application/Incidents/Commands/ChangeStatusCommand.cs:38-52 | the current status fails and writes nothing; otherwise appends exactly the IncidentStatusChanged by the current user, returns Ok of the command's id, and the replay has the new status |
| EventSourcedQueries.NotFoundMessage | HelpDesk.Management.Application/Incidents/Queries/GetIncidentQuery.cs:26 | "Incident {id} not found", the event-sourced variant's wording, without "with id" |
| EventSourcedQueries.GetIncident | HelpDesk.Management.Application/Incidents/Queries/GetIncidentQuery.cs:19-40 | fails "Incident {id} not found" exactly on a missing or empty stream; otherwise a DTO that reads back to the replayed incident |
| EventSourcedQueries.GetIncidentShowsHistory | HelpDesk.Management.Application/Incidents/Queries/GetIncidentQuery.cs:29-39 | on a well-formed stream the DTO shows the logged fields, the priority and last status by name, the last assignee and every comment in order |
| EventSourcedQueries.GetAllIncidents | HelpDesk.Management.Application/Incidents/Queries/GetAllIncidentsQuery.cs:19-37 | always Ok, one DTO per stored incident in order, each reading back to its incident |
| EventSourcedQueries.GetAllIncidentHistory | HelpDesk.Management.Application/Incidents/Queries/GetAllIncidentHistory.cs:19-27 | always Ok, newest first, and a permutation of all stored rows |
| RepositoryCommands.LogIncident | src/HelpDesk.Management.Application/Incidents/Commands/LogIncidentCommand.cs:35-53 | throws exactly on a blank title before the repository is called; otherwise stores the created incident (the command's fields, New, unassigned, no comments) and returns the repository's id |
| RepositoryCommands.AssignIncident | src/HelpDesk.Management.Application/Incidents/Commands/AssignIncidentCommand.cs:40-61 | a `GetById` failure and a decision failure are returned with their errors; success returns Ok; the stored incidents are the same as before in every case |
| RepositoryCommands.AddComment | src/HelpDesk.Management.Application/Incidents/Commands/AddCommentCommand.cs:34-55 | a `GetById` failure is passed on, a Closed incident fails; success returns the incident's id; the stored incidents never change |
| RepositoryCommands.ChangeStatus | src/HelpDesk.Management.Application/Incidents/Commands/ChangeStatusCommand.cs:37-58 | a `GetById` failure is passed on, the current status fails; success returns the command's id; the stored incidents never change |
| RepositoryCommands.AsCreated | src/HelpDesk.Management.Domain/Incidents/Aggregates/Incident.cs:27-36 | every stored incident is as `Incident.Create` made it: unassigned, New, no comments |
| RepositoryCommands.UpsertKeepsAsCreated | src/HelpDesk.Management.Domain/Incidents/Aggregates/Incident.cs:27-36 | storing a newly created incident keeps every stored incident unassigned, New and without comments |
| RepositoryCommands.AsCreatedNeverBlocks | src/HelpDesk.Management.Domain/Incidents/Validation/IncidentValidator.cs:14-24 | on such a table the uniqueness check passes for every non-empty user |
| RepositoryCommands.AssignAlwaysSucceedsAsCreated | src/HelpDesk.Management.Application/Incidents/Commands/AssignIncidentCommand.cs:42-54 | on such a table, assigning a non-empty user to a stored incident always decides IncidentAssigned |
| RepositoryCommands.ValidAssignSucceedsAsCreated | src/HelpDesk.Management.Application/Incidents/Commands/AssignIncidentCommand.cs:15-22 | on such a table, a command that passes its validator and names a stored incident always decides IncidentAssigned |
| RepositoryQueries.GetIncident | src/HelpDesk.Management.Application/Incidents/Queries/GetIncidentQuery.cs:19-38 | fails with `GetById`'s errors exactly when it fails; otherwise a DTO with the id that reads back to the stored incident |
| RepositoryQueries.GetAllIncidents | src/HelpDesk.Management.Application/Incidents/Queries/GetAllIncidentsQuery.cs:19-32 | one summary per stored incident, in order; none for an empty table |
| RepositoryQueries.GetAssignedIncidents | src/HelpDesk.Management.Application/Incidents/Queries/GetAssignedIncidentsQuery.cs:17-30 | one summary per incident of the repository's answer, in order, each assigned to the user with a status other than "Closed" |
| RepositoryQueries.OpenAssignmentListed | src/HelpDesk.Management.Application/Incidents/Queries/GetAssignedIncidentsQuery.cs:19 | every stored incident assigned to the user and not Closed has its summary listed |
| RepositoryQueries.ListedIsOpenAssignment | src/HelpDesk.Management.Application/Incidents/Queries/GetAssignedIncidentsQuery.cs:19 | every listed summary is that of a stored incident assigned to the user and not Closed |
| RepositoryQueries.GetAllIncidentHistory | src/HelpDesk.Management.Application/Incidents/Queries/GetAllIncidentHistory.cs:17-34 | one DTO per entry of the repository's answer with the same fields, in order: only that incident's rows, newest first, and nothing when there are none |
| RepositoryQueries.HistoryOnlyOfIncident | src/HelpDesk.Management.Infrastructure/Incidents/DocumentStoreIncidentRepository.cs:65 | every row in an incident's history belongs to that incident |
| RepositoryQueries.LoggedRowNotInIncidentHistory | src/HelpDesk.Management.Infrastructure/Incidents/DocumentStoreIncidentRepository.cs:64-67 | for a non-empty incident id, the history never holds an IncidentLogged row |
| RepositoryQueries.CorrectedHistoryShowsEveryEvent | HelpDesk.Management.Application/Incidents/Projections/IncidentHistoryProjection.cs:16-23 | with the corrected projection, an incident's history holds the row of every event of its stream, the IncidentLogged included |
| Dtos.CommentToDto | src/HelpDesk.Management.Application/Incidents/Queries/GetIncidentQuery.cs:36 | a comment's text, author and time copied |
| Dtos.CommentDtos | src/HelpDesk.Management.Application/Incidents/Queries/GetIncidentQuery.cs:36 | one comment DTO per comment, in order, with the same text, author and time |
| Dtos.ToDto | src/HelpDesk.Management.Application/Incidents/Queries/GetIncidentQuery.cs:27-37 | reading the DTO back gives the incident: the fields are copied, the enums are by name, the comments are one to one |
| Dtos.FromDto | src/HelpDesk.Management.Application/Incidents/Queries/GetIncidentQuery.cs:41-57 | a DTO reads back exactly when its priority and status are member names |
| Dtos.CommentsFromDtos | src/HelpDesk.Management.Application/Incidents/Queries/GetIncidentQuery.cs:53-57 | one comment per DTO, with the same text, author and time |
| Dtos.CommentsRoundTrip | src/HelpDesk.Management.Application/Incidents/Queries/GetIncidentQuery.cs:36 | reading the comment DTOs back gives the comments |
| Dtos.DtoRoundTrip | HelpDesk.Management.Application/Incidents/Queries/GetIncidentQuery.cs:29-39 | reading an incident's DTO back gives the incident |
| Dtos.ToDtoInjective | HelpDesk.Management.Application/Incidents/Queries/GetIncidentQuery.cs:29-39 | two incidents with the same DTO are equal |
| Dtos.ToSummary | src/HelpDesk.Management.Application/Incidents/Queries/GetAllIncidentsQuery.cs:23-31 | the summary copies the id, title, reporter, time and assignee, and its status and priority names parse back to the incident's |
| Dtos.SummaryAgreesWithDto | src/HelpDesk.Management.Application/Incidents/Queries/GetAllIncidentsQuery.cs:35-43 | the summary and the full DTO agree on every field they share |
| Dtos.ToHistoryDto | src/HelpDesk.Management.Application/Incidents/Queries/GetAllIncidentHistory.cs:26-33 | reading the DTO back gives the history entry |
| Dtos.FromHistoryDto | src/HelpDesk.Management.Application/Incidents/Queries/GetAllIncidentHistory.cs:37-44 | reads every field of a history DTO back into an entry |
| Dtos.ToDtos | HelpDesk.Management.Application/Incidents/Queries/GetAllIncidentsQuery.cs:24-34 | one DTO per incident, in order, each reading back to its incident |
| Dtos.ToSummaries | src/HelpDesk.Management.Application/Incidents/Queries/GetAllIncidentsQuery.cs:23-31 | one summary per incident, in order |
| Dtos.ToHistoryDtos | src/HelpDesk.Management.Application/Incidents/Queries/GetAllIncidentHistory.cs:26-33 | one DTO per entry, in order, each reading back to its entry |

## Left out

- IncidentAggregate.Apply: the source mutates the incident in place (`Comments.Add`, property setters). The model returns an updated value, so aliasing of the mutable comment list is not captured.
- HistoryProjection.Apply: the projection mutates a fresh `IncidentHistoryEntry` document in place. The model builds the row as a value from the document's defaults.
- The projection's per-event identity (`Identity<...>(e => Guid.NewGuid())`) and the `entry.Id = Guid.NewGuid()` inside each `Apply` are both represented by one fresh `rowId`. The store requires that id to be unused, which is the uniqueness the random Guid gives in practice.
- Marten internals (sessions, `SaveChangesAsync`, LINQ translation, schema setup) are replaced by one in-memory store of streams, the incident table and the history rows. Each handler's writes happen together, as one `SaveChangesAsync` does.
- Async, `Task` and `CancellationToken`: each handler is one sequential method.
- Concurrency, expected versions and retries are not modelled: `Append` carries no version check.
- EventSourcedCommands.AssignIncident, AddComment and ChangeStatus require the stream to exist. The source dereferences the replayed aggregate without a null check, so a missing stream ends in a NullReferenceException, which is not modelled as a result.
- Repository.Create and Repository.Update always succeed, as the concrete repository does. The handlers' failure branches for them are kept but cannot be taken. Repository.Update requires the incident to be stored; every handler passes an incident it has just loaded.
- EventSourcedCommands.LogIncident requires the new id to name no existing stream; a fresh random Guid does not.
- Strings other than the current user and the event authors built from it are never null in the model. Null command fields (which the validators reject) are not represented.
- `MaximumLength` counts UTF-16 code units. The model counts characters of `seq<char>`, which is the same for text without surrogate pairs.
- Ordering.OrderByTimestampDescending: the contract does not fix the order of rows with equal timestamps; the database's tie order is unspecified.
- Commands: `IsInEnum` on an undefined integer status cannot arise, because a status in the model is always a declared member.
- The controllers, routing, API versioning, Swagger, health checks and dependency injection are not modelled. The only wiring kept is that the history projection is inline and that the validator reads the document repository.
- `CurrentUserProvider` reads HTTP claims; the model takes its result as a parameter.
- `Guid.NewGuid()` and `DateTime.UtcNow` are parameters. `Incident.Create` draws its own Guid; the model passes it in as `newId`.
- `Guid.ToString()` is modelled for the default "D" format only, which is the one string interpolation uses.

## Findings

| source | as written | input that shows it | evidently intended | confidence | as-written member | corrected member |
|---|---|---|---|---|---|---|
| HelpDesk.Management.Application/Incidents/Projections/IncidentHistoryProjection.cs:16-23 | the IncidentLogged `Apply` never sets IncidentId, so the creation row keeps the empty Guid; `GetIncidentHistory` keeps only rows whose IncidentId is the queried id (src/HelpDesk.Management.Infrastructure/Incidents/DocumentStoreIncidentRepository.cs:65) | log any incident, then ask for its history: the row with EventType "IncidentLogged" is not returned | the creation row carries the id of its stream and shows in that incident's history | not executed; medium, since IncidentLogged has no incident id to copy and the omission may be deliberate | RepositoryQueries.LoggedRowNotInIncidentHistory | HistoryProjection.ProjectInStream, with RepositoryQueries.CorrectedHistoryShowsEveryEvent |

The store and the handlers keep the projection as written, since they model the code; the corrected projection stands beside it with its own property.
