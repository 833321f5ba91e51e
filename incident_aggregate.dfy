/** The incident aggregate: its state, the decision operations that turn a
    request into one event or a failure without touching the state, and the
    fold that rebuilds the state from a stream of events. */
module IncidentAggregate {
  import opened Wrappers
  import opened SystemTypes
  import opened Incidents

  datatype Incident = Incident(
    id: Guid,
    title: string,
    description: string,
    reportedBy: string,
    reportedAt: DateTime,
    priority: Priority,
    status: IncidentStatus,
    assignedTo: string,
    comments: seq<Comment>)

  const TitleRequiredMessage: string := "Title cannot be empty or whitespace."
  const ClosedAssignMessage: string := "Cannot assign to closed incident"
  const SameUserMessage: string := "Cannot assign to same user"
  const ClosedCommentMessage: string := "Cannot add comments to closed incidents"
  const SameStatusMessage: string := "Incident is already in this status"

  /** The aggregate as the private constructor leaves it (empty strings, no
      comments, the enums' first members, the zero time), carrying `id`. */
  function Initial(id: Guid): Incident
  {
    Incident(id, "", "", "", 0, Low, New, "", [])
  }

  // ---------------------------------------------------------------------------
  // Decision operations. Each reads the state and returns a value; none of them
  // changes the aggregate, which is a value here.
  // ---------------------------------------------------------------------------

  /** `Incident.Create`: a blank title throws an ArgumentException; otherwise
      the new incident, with the fresh id `newId`, is exactly what replaying
      the creation event on a fresh aggregate gives. */
  function Create(evt: Event, newId: Guid): (r: Completion<Incident>)
    requires evt.IncidentLogged?
    ensures r.Threw? <==> IsBlank(evt.title)
    ensures r.Threw? ==> r.message == TitleRequiredMessage
    ensures r.Returned? ==> r.value == Replay(newId, [evt])
  {
    if IsBlank(evt.title) then
      Threw(TitleRequiredMessage)
    else
      assert [evt][1..] == [];
      assert Replay(newId, [evt]) == Fold(Apply(Initial(newId), evt), []);
      Returned(Incident(newId, evt.title, evt.description, evt.reportedBy, evt.reportedAt,
                        evt.priority, New, "", []))
  }

  /** `Incident.Assign`: closed first, then the same assignee, and only then
      the uniqueness validator, whose errors are passed on unchanged. */
  function Assign(s: Incident, assignedTo: string, validator: string -> Outcome, now: DateTime)
    : (r: Result<Event>)
    ensures r.Ok? <==> s.status != Closed && assignedTo != s.assignedTo && validator(assignedTo).Pass?
    ensures s.status == Closed ==> r == Fail([ClosedAssignMessage])
    ensures s.status != Closed && assignedTo == s.assignedTo ==> r == Fail([SameUserMessage])
    ensures s.status != Closed && assignedTo != s.assignedTo && validator(assignedTo).Failed? ==>
              r == Fail(validator(assignedTo).errors)
    ensures r.Ok? ==> r.value == IncidentAssigned(s.id, assignedTo, now)
  {
    if s.status == Closed then
      Fail([ClosedAssignMessage])
    else if assignedTo == s.assignedTo then
      Fail([SameUserMessage])
    else
      match validator(assignedTo)
      case Failed(errors) => Fail(errors)
      case Pass => Ok(IncidentAssigned(s.id, assignedTo, now))
  }

  /** `Incident.AddComment`: refused exactly on a closed incident. */
  function AddComment(s: Incident, comment: string, addedBy: Option<string>, now: DateTime)
    : (r: Result<Event>)
    ensures r.Fail? <==> s.status == Closed
    ensures r.Fail? ==> r.errors == [ClosedCommentMessage]
    ensures r.Ok? ==> r.value == CommentAdded(s.id, comment, addedBy, now)
  {
    if s.status == Closed then
      Fail([ClosedCommentMessage])
    else
      Ok(CommentAdded(s.id, comment, addedBy, now))
  }

  /** `Incident.ChangeStatus`: refused exactly when the status would not
      change; any other target is allowed, also out of Closed. */
  function ChangeStatus(s: Incident, newStatus: IncidentStatus, changedBy: Option<string>, now: DateTime)
    : (r: Result<Event>)
    ensures r.Fail? <==> newStatus == s.status
    ensures r.Fail? ==> r.errors == [SameStatusMessage]
    ensures r.Ok? ==> r.value == IncidentStatusChanged(s.id, newStatus, changedBy, now)
  {
    if s.status == newStatus then
      Fail([SameStatusMessage])
    else
      Ok(IncidentStatusChanged(s.id, newStatus, changedBy, now))
  }

  // ---------------------------------------------------------------------------
  // The fold
  // ---------------------------------------------------------------------------

  /** The four `Apply` overloads: each event changes only its own fields, and
      none changes the id. */
  function Apply(s: Incident, e: Event): (r: Incident)
    ensures r.id == s.id
    ensures e.IncidentLogged? ==>
              r.title == e.title && r.description == e.description && r.reportedBy == e.reportedBy
              && r.reportedAt == e.reportedAt && r.priority == e.priority && r.status == New
    ensures !e.IncidentLogged? ==>
              r.title == s.title && r.description == s.description && r.reportedBy == s.reportedBy
              && r.reportedAt == s.reportedAt && r.priority == s.priority
    ensures r.assignedTo == if e.IncidentAssigned? then e.assignedTo else s.assignedTo
    ensures r.comments == if e.CommentAdded? then s.comments + [Comment(e.comment, e.addedBy, e.addedAt)]
                          else s.comments
    ensures e.IncidentStatusChanged? ==> r.status == e.newStatus
    ensures e.IncidentAssigned? || e.CommentAdded? ==> r.status == s.status
  {
    match e
    case IncidentLogged(title, description, reportedBy, reportedAt, priority) =>
      s.(title := title, description := description, reportedBy := reportedBy,
         reportedAt := reportedAt, priority := priority, status := New)
    case IncidentAssigned(_, assignedTo, _) =>
      s.(assignedTo := assignedTo)
    case CommentAdded(_, comment, addedBy, addedAt) =>
      s.(comments := s.comments + [Comment(comment, addedBy, addedAt)])
    case IncidentStatusChanged(_, newStatus, _, _) =>
      s.(status := newStatus)
  }

  /** Applies the events in order, oldest first. */
  function Fold(s: Incident, es: seq<Event>): Incident
    decreases |es|
  {
    if es == [] then s else Fold(Apply(s, es[0]), es[1..])
  }

  /** Marten's `AggregateStreamAsync`: the fold of the stream over a fresh
      aggregate that carries the stream id. */
  function Replay(id: Guid, es: seq<Event>): Incident
  {
    Fold(Initial(id), es)
  }

  /** Appending one event to a stream applies it to the state replayed so far. */
  lemma {:induction false} FoldAppend(s: Incident, es: seq<Event>, e: Event)
    ensures Fold(s, es + [e]) == Apply(Fold(s, es), e)
    decreases |es|
  {
    if es == [] {
      assert es + [e] == [e];
    } else {
      assert (es + [e])[0] == es[0];
      assert (es + [e])[1..] == es[1..] + [e];
      FoldAppend(Apply(s, es[0]), es[1..], e);
    }
  }

  // ---------------------------------------------------------------------------
  // Reference definitions of what a stream determines, read from its end
  // ---------------------------------------------------------------------------

  /** The comments that the stream's CommentAdded events carry, in order. */
  function CommentsOf(es: seq<Event>): seq<Comment>
  {
    if es == [] then []
    else
      var e := es[|es| - 1];
      CommentsOf(es[..|es| - 1]) + if e.CommentAdded? then [Comment(e.comment, e.addedBy, e.addedAt)] else []
  }

  /** The assignee of the stream's last IncidentAssigned event, if it has one. */
  function LastAssignee(es: seq<Event>): Option<string>
  {
    if es == [] then None
    else if es[|es| - 1].IncidentAssigned? then Some(es[|es| - 1].assignedTo)
    else LastAssignee(es[..|es| - 1])
  }

  /** The status set by the stream's last status-setting event: New for
      IncidentLogged, the target for IncidentStatusChanged. */
  function LastStatus(es: seq<Event>): Option<IncidentStatus>
  {
    if es == [] then None
    else if es[|es| - 1].IncidentLogged? then Some(New)
    else if es[|es| - 1].IncidentStatusChanged? then Some(es[|es| - 1].newStatus)
    else LastStatus(es[..|es| - 1])
  }

  /** The stream's last IncidentLogged event, if it has one. */
  function LastLogged(es: seq<Event>): (r: Option<Event>)
    ensures r.Some? ==> r.value.IncidentLogged?
  {
    if es == [] then None
    else if es[|es| - 1].IncidentLogged? then Some(es[|es| - 1])
    else LastLogged(es[..|es| - 1])
  }

  /** What folding a stream does to each field: the id never changes, the
      comments grow by exactly the stream's comments, and every other field
      holds what the last event that sets it says. */
  lemma {:induction false} FoldCharacterised(s: Incident, es: seq<Event>)
    ensures Fold(s, es).id == s.id
    ensures Fold(s, es).comments == s.comments + CommentsOf(es)
    ensures Fold(s, es).assignedTo == if LastAssignee(es).Some? then LastAssignee(es).value else s.assignedTo
    ensures Fold(s, es).status == if LastStatus(es).Some? then LastStatus(es).value else s.status
    ensures LastLogged(es).None? ==>
              Fold(s, es).title == s.title && Fold(s, es).description == s.description
              && Fold(s, es).reportedBy == s.reportedBy && Fold(s, es).reportedAt == s.reportedAt
              && Fold(s, es).priority == s.priority
    ensures LastLogged(es).Some? ==>
              var l := LastLogged(es).value;
              Fold(s, es).title == l.title && Fold(s, es).description == l.description
              && Fold(s, es).reportedBy == l.reportedBy && Fold(s, es).reportedAt == l.reportedAt
              && Fold(s, es).priority == l.priority
    decreases |es|
  {
    if es != [] {
      var p, e := es[..|es| - 1], es[|es| - 1];
      assert es == p + [e];
      FoldAppend(s, p, e);
      FoldCharacterised(s, p);
    }
  }

  /** A stream as the event-sourced handlers write it: one IncidentLogged
      first, then only events that name this incident. */
  ghost predicate WellFormedStream(id: Guid, es: seq<Event>)
  {
    && |es| >= 1
    && es[0].IncidentLogged?
    && forall i | 1 <= i < |es| :: !es[i].IncidentLogged? && es[i].incidentId == id
  }

  lemma {:induction false} WellFormedLastLogged(id: Guid, es: seq<Event>)
    requires WellFormedStream(id, es)
    ensures LastLogged(es) == Some(es[0])
    decreases |es|
  {
    if |es| > 1 {
      var p := es[..|es| - 1];
      assert WellFormedStream(id, p) by {
        forall i | 1 <= i < |p| ensures !p[i].IncidentLogged? && p[i].incidentId == id {
          assert p[i] == es[i];
        }
      }
      WellFormedLastLogged(id, p);
    }
  }

  /** Replaying a well-formed stream: the id is the stream id, the descriptive
      fields come from the creation event, and the comments are the stream's. */
  lemma ReplayWellFormed(id: Guid, es: seq<Event>)
    requires WellFormedStream(id, es)
    ensures Replay(id, es).id == id
    ensures Replay(id, es).title == es[0].title && Replay(id, es).description == es[0].description
    ensures Replay(id, es).reportedBy == es[0].reportedBy && Replay(id, es).reportedAt == es[0].reportedAt
    ensures Replay(id, es).priority == es[0].priority
    ensures Replay(id, es).comments == CommentsOf(es)
    ensures Replay(id, es).assignedTo == if LastAssignee(es).Some? then LastAssignee(es).value else ""
    ensures LastStatus(es).Some? && Replay(id, es).status == LastStatus(es).value
  {
    FoldCharacterised(Initial(id), es);
    WellFormedLastLogged(id, es);
    LastStatusOfWellFormed(id, es);
  }

  lemma {:induction false} LastStatusOfWellFormed(id: Guid, es: seq<Event>)
    requires WellFormedStream(id, es)
    ensures LastStatus(es).Some?
    decreases |es|
  {
    if |es| > 1 && !es[|es| - 1].IncidentStatusChanged? {
      var p := es[..|es| - 1];
      assert WellFormedStream(id, p) by {
        forall i | 1 <= i < |p| ensures !p[i].IncidentLogged? && p[i].incidentId == id {
          assert p[i] == es[i];
        }
      }
      LastStatusOfWellFormed(id, p);
    }
  }

  // ---------------------------------------------------------------------------
  // Decisions and the fold together
  // ---------------------------------------------------------------------------

  /** A successful assignment, once applied, changes the assignee and nothing else. */
  lemma AssignThenApply(s: Incident, assignedTo: string, validator: string -> Outcome, now: DateTime)
    requires Assign(s, assignedTo, validator, now).Ok?
    ensures Apply(s, Assign(s, assignedTo, validator, now).value) == s.(assignedTo := assignedTo)
  {
  }

  /** A successful comment, once applied, appends exactly that comment. */
  lemma AddCommentThenApply(s: Incident, comment: string, addedBy: Option<string>, now: DateTime)
    requires AddComment(s, comment, addedBy, now).Ok?
    ensures Apply(s, AddComment(s, comment, addedBy, now).value)
            == s.(comments := s.comments + [Comment(comment, addedBy, now)])
  {
  }

  /** A successful status change, once applied, sets the status and nothing else. */
  lemma ChangeStatusThenApply(s: Incident, newStatus: IncidentStatus, changedBy: Option<string>, now: DateTime)
    requires ChangeStatus(s, newStatus, changedBy, now).Ok?
    ensures Apply(s, ChangeStatus(s, newStatus, changedBy, now).value) == s.(status := newStatus)
  {
  }

  /** Asking twice in a row for the same status: the second request is refused. */
  lemma ChangeStatusTwice(s: Incident, newStatus: IncidentStatus, by1: Option<string>, by2: Option<string>,
                          t1: DateTime, t2: DateTime)
    requires ChangeStatus(s, newStatus, by1, t1).Ok?
    ensures ChangeStatus(Apply(s, ChangeStatus(s, newStatus, by1, t1).value), newStatus, by2, t2)
            == Fail([SameStatusMessage])
  {
  }

  /** Once the assignment is applied, assigning the same user again is refused. */
  lemma AssignTwice(s: Incident, assignedTo: string, validator: string -> Outcome, t1: DateTime, t2: DateTime)
    requires Assign(s, assignedTo, validator, t1).Ok?
    ensures Assign(Apply(s, Assign(s, assignedTo, validator, t1).value), assignedTo, validator, t2)
            == Fail([SameUserMessage])
  {
  }
}
