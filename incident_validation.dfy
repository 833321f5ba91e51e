/** `IncidentValidator.CheckNotAssignedToIncidentAlready`, over the
    repository it is constructed with: a user may not take a new incident
    while any incident stored as assigned to them is still open. */
module IncidentValidation {
  import opened Wrappers
  import opened SystemTypes
  import opened Incidents
  import opened IncidentAggregate
  import opened Repository

  function AlreadyAssignedMessage(userId: string): string
  {
    "User " + userId + " already has active incidents assigned"
  }

  /** Fails, with "User {userId} already has active incidents assigned",
      exactly when some stored incident is assigned to `userId` and not
      Closed; it only reads the table. */
  function CheckNotAssignedToIncidentAlready(docs: seq<Incident>, userId: string): (r: Outcome)
    ensures r.Failed? <==> exists i | 0 <= i < |docs| :: docs[i].assignedTo == userId && docs[i].status != Closed
    ensures r.Failed? ==> r.errors == [AlreadyAssignedMessage(userId)]
  {
    var open := GetAssignedIncidents(docs, userId);
    if |open| > 0 then
      AssignedIncidentsSound(docs, userId, open[0]);
      Failed([AlreadyAssignedMessage(userId)])
    else
      assert forall i | 0 <= i < |docs| :: !(docs[i].assignedTo == userId && docs[i].status != Closed) by {
        forall i | 0 <= i < |docs| && docs[i].assignedTo == userId && docs[i].status != Closed
          ensures false
        {
          AssignedIncidentsComplete(docs, userId, docs[i]);
        }
      }
      Pass
  }

  /** The validator as the aggregate consults it, bound to one table. */
  function Validator(docs: seq<Incident>): string -> Outcome
  {
    u => CheckNotAssignedToIncidentAlready(docs, u)
  }

  /** A user whose stored incidents are all Closed passes the check. */
  lemma ClosedIncidentsDoNotBlock(docs: seq<Incident>, userId: string)
    requires forall i | 0 <= i < |docs| :: docs[i].assignedTo == userId ==> docs[i].status == Closed
    ensures CheckNotAssignedToIncidentAlready(docs, userId) == Pass
  {
  }

  /** With this validator, assigning a user who already holds an open incident
      fails with the validator's message, unless an earlier check fails first. */
  lemma AssignBlockedByOpenIncident(s: Incident, docs: seq<Incident>, userId: string, k: nat,
                                    now: DateTime)
    requires k < |docs| && docs[k].assignedTo == userId && docs[k].status != Closed
    requires s.status != Closed && s.assignedTo != userId
    ensures Assign(s, userId, Validator(docs), now) == Fail([AlreadyAssignedMessage(userId)])
  {
  }
}
