/** `DocumentStoreIncidentRepository`: queries over the Incident documents and
    the audit-log rows, and the two writes to the document table. */
module Repository {
  import opened Wrappers
  import opened SystemTypes
  import opened Incidents
  import opened IncidentAggregate
  import opened Ordering
  import opened DocumentStore

  function NotFoundMessage(id: Guid): string
  {
    "Incident with id " + FormatGuid(id) + " not found"
  }

  /** `LoadAsync<Incident>(id)`: the document stored under `id`, or null. */
  function Load(docs: seq<Incident>, id: Guid): (r: Option<Incident>)
    ensures r.None? <==> forall i | 0 <= i < |docs| :: docs[i].id != id
    ensures r.Some? ==> r.value in docs && r.value.id == id
  {
    if docs == [] then None
    else if docs[0].id == id then Some(docs[0])
    else
      var r := Load(docs[1..], id);
      assert forall i | 1 <= i < |docs| :: docs[i] == docs[1..][i - 1];
      r
  }

  /** The stored document is the only one with its id. */
  lemma LoadFindsStored(docs: seq<Incident>, k: nat)
    requires UniqueIds(docs) && k < |docs|
    ensures Load(docs, docs[k].id) == Some(docs[k])
  {
    var r := Load(docs, docs[k].id);
    var j :| 0 <= j < |docs| && docs[j] == r.value;
  }

  /** `GetById`: fails with "Incident with id {id} not found" exactly when no
      incident is stored under `id`; otherwise returns the stored incident. */
  function GetById(docs: seq<Incident>, id: Guid): (r: Result<Incident>)
    ensures r.Fail? <==> forall i | 0 <= i < |docs| :: docs[i].id != id
    ensures r.Fail? ==> r.errors == [NotFoundMessage(id)]
    ensures r.Ok? ==> r.value in docs && r.value.id == id
  {
    match Load(docs, id)
    case None => Fail([NotFoundMessage(id)])
    case Some(incident) => Ok(incident)
  }

  /** `GetAll`: every stored incident, each once, in the table's order. */
  function GetAll(docs: seq<Incident>): (r: seq<Incident>)
    ensures multiset(r) == multiset(docs)
  {
    docs
  }

  predicate IsOpenAssignment(d: Incident, userId: string)
  {
    d.assignedTo == userId && d.status != Closed
  }

  /** `GetAssignedIncidents`: the stored incidents assigned to `userId` that
      are not Closed, in table order. */
  function GetAssignedIncidents(docs: seq<Incident>, userId: string): (r: seq<Incident>)
    ensures forall i | 0 <= i < |r| :: IsOpenAssignment(r[i], userId)
    ensures |r| <= |docs|
  {
    if docs == [] then []
    else if IsOpenAssignment(docs[0], userId) then [docs[0]] + GetAssignedIncidents(docs[1..], userId)
    else GetAssignedIncidents(docs[1..], userId)
  }

  /** Only stored incidents assigned to the user and not Closed are returned. */
  lemma {:induction false} AssignedIncidentsSound(docs: seq<Incident>, userId: string, d: Incident)
    requires d in GetAssignedIncidents(docs, userId)
    ensures d in docs && d.assignedTo == userId && d.status != Closed
  {
    if docs[0] != d {
      AssignedIncidentsSound(docs[1..], userId, d);
    }
  }

  /** Every stored incident assigned to the user and not Closed is returned. */
  lemma {:induction false} AssignedIncidentsComplete(docs: seq<Incident>, userId: string, d: Incident)
    requires d in docs && d.assignedTo == userId && d.status != Closed
    ensures d in GetAssignedIncidents(docs, userId)
  {
    if docs[0] != d {
      AssignedIncidentsComplete(docs[1..], userId, d);
    }
  }

  /** The audit-log rows of one incident, in stored order. */
  function RowsOf(rows: seq<IncidentHistoryEntry>, id: Guid): (r: seq<IncidentHistoryEntry>)
    ensures forall i | 0 <= i < |r| :: r[i].incidentId == id
  {
    if rows == [] then []
    else if rows[0].incidentId == id then [rows[0]] + RowsOf(rows[1..], id)
    else RowsOf(rows[1..], id)
  }

  lemma {:induction false} RowsOfExactly(rows: seq<IncidentHistoryEntry>, id: Guid, e: IncidentHistoryEntry)
    ensures e in RowsOf(rows, id) <==> e in rows && e.incidentId == id
  {
    if rows != [] {
      RowsOfExactly(rows[1..], id, e);
      assert rows == [rows[0]] + rows[1..];
    }
  }

  /** `GetIncidentHistory`: the rows of incident `id`, newest first. */
  function GetIncidentHistory(rows: seq<IncidentHistoryEntry>, id: Guid): (r: seq<IncidentHistoryEntry>)
    ensures NewestFirst(r)
    ensures multiset(r) == multiset(RowsOf(rows, id))
  {
    OrderedIsNewestFirst(RowsOf(rows, id));
    OrderByTimestampDescending(RowsOf(rows, id))
  }

  /** The history of `id` holds every row of `id` and no other row. */
  lemma IncidentHistoryExactly(rows: seq<IncidentHistoryEntry>, id: Guid, e: IncidentHistoryEntry)
    ensures e in GetIncidentHistory(rows, id) <==> e in rows && e.incidentId == id
  {
    RowsOfExactly(rows, id, e);
    assert e in GetIncidentHistory(rows, id) <==> e in multiset(GetIncidentHistory(rows, id));
    assert e in RowsOf(rows, id) <==> e in multiset(RowsOf(rows, id));
  }

  /** Marten's `Store`/`Update` on the table: the document with the same id is
      replaced where it stands; a new id goes at the end. */
  function Upsert(docs: seq<Incident>, incident: Incident): (r: seq<Incident>)
    requires UniqueIds(docs)
    ensures UniqueIds(r)
    ensures incident in r
    ensures forall d | d in r :: d == incident || (d in docs && d.id != incident.id)
    ensures forall d | d in docs && d.id != incident.id :: d in r
  {
    if docs == [] then [incident]
    else
      assert forall i | 1 <= i < |docs| :: docs[i] == docs[1..][i - 1];
      if docs[0].id == incident.id then
        assert forall d | d in docs[1..] :: d.id != incident.id;
        [incident] + docs[1..]
      else
        [docs[0]] + Upsert(docs[1..], incident)
  }

  /** After a write, `GetById` of that id returns what was written. */
  lemma GetByIdAfterUpsert(docs: seq<Incident>, incident: Incident)
    requires UniqueIds(docs)
    ensures GetById(Upsert(docs, incident), incident.id) == Ok(incident)
  {
    var r := Upsert(docs, incident);
    var k :| 0 <= k < |r| && r[k] == incident;
    LoadFindsStored(r, k);
  }

  /** Writing back an incident exactly as it is stored leaves the table as it was. */
  lemma {:induction false} UpsertStoredIsIdentity(docs: seq<Incident>, incident: Incident)
    requires UniqueIds(docs)
    requires incident in docs
    ensures Upsert(docs, incident) == docs
  {
    if docs[0] != incident {
      assert docs == [docs[0]] + docs[1..];
      assert docs[0].id != incident.id by {
        var k :| 0 <= k < |docs| && docs[k] == incident;
      }
      UpsertStoredIsIdentity(docs[1..], incident);
    }
  }

  /** `Create`: stores the incident and returns its id. */
  method Create(store: Store, incident: Incident) returns (r: Result<Guid>)
    requires store.Valid()
    modifies store
    ensures store.Valid()
    ensures store.incidents == Upsert(old(store.incidents), incident)
    ensures store.streams == old(store.streams) && store.history == old(store.history)
    ensures store.appended == old(store.appended)
    ensures r == Ok(incident.id)
  {
    store.incidents := Upsert(store.incidents, incident);
    r := Ok(incident.id);
  }

  /** `Update`: replaces the stored incident that has the same id. Marten's
      update-only write needs that document to exist. */
  method Update(store: Store, incident: Incident) returns (r: Outcome)
    requires store.Valid()
    requires Load(store.incidents, incident.id).Some?
    modifies store
    ensures store.Valid()
    ensures store.incidents == Upsert(old(store.incidents), incident)
    ensures store.streams == old(store.streams) && store.history == old(store.history)
    ensures store.appended == old(store.appended)
    ensures r == Pass
  {
    store.incidents := Upsert(store.incidents, incident);
    r := Pass;
  }
}
