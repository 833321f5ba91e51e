/** `OrderByDescending(e => e.Timestamp)` over audit-log entries. */
module Ordering {
  import opened Incidents

  /** Every entry is at least as new as every entry after it. */
  ghost predicate NewestFirst(rows: seq<IncidentHistoryEntry>)
  {
    forall i, j | 0 <= i < j < |rows| :: rows[i].timestamp >= rows[j].timestamp
  }

  /** Every entry is at least as new as the next one. */
  ghost predicate StepwiseNewestFirst(rows: seq<IncidentHistoryEntry>)
  {
    forall i | 0 < i < |rows| :: rows[i - 1].timestamp >= rows[i].timestamp
  }

  lemma {:induction false} StepwiseIsNewestFirst(rows: seq<IncidentHistoryEntry>)
    requires StepwiseNewestFirst(rows)
    ensures NewestFirst(rows)
    decreases |rows|
  {
    if |rows| > 1 {
      StepwiseIsNewestFirst(rows[1..]);
      forall j | 0 < j < |rows| ensures rows[0].timestamp >= rows[j].timestamp {
        assert rows[0].timestamp >= rows[1].timestamp;
        if j > 1 { assert rows[1..][0] == rows[1] && rows[1..][j - 1] == rows[j]; }
      }
      forall i, j | 0 <= i < j < |rows| ensures rows[i].timestamp >= rows[j].timestamp {
        if i > 0 { assert rows[1..][i - 1] == rows[i] && rows[1..][j - 1] == rows[j]; }
      }
    }
  }

  /** Places `x` before the first entry that is not newer than it. */
  function InsertNewestFirst(x: IncidentHistoryEntry, rows: seq<IncidentHistoryEntry>)
    : (r: seq<IncidentHistoryEntry>)
    requires StepwiseNewestFirst(rows)
    ensures StepwiseNewestFirst(r)
    ensures |r| == |rows| + 1
    ensures r[0] == x || (rows != [] && r[0] == rows[0])
    ensures multiset(r) == multiset(rows) + multiset{x}
  {
    if rows == [] || x.timestamp >= rows[0].timestamp then
      [x] + rows
    else
      assert rows == [rows[0]] + rows[1..];
      [rows[0]] + InsertNewestFirst(x, rows[1..])
  }

  /** The entries ordered by Timestamp, newest first; nothing added or dropped. */
  function OrderByTimestampDescending(rows: seq<IncidentHistoryEntry>): (r: seq<IncidentHistoryEntry>)
    ensures StepwiseNewestFirst(r)
    ensures multiset(r) == multiset(rows)
    ensures |r| == |rows|
  {
    if rows == [] then []
    else
      assert rows == [rows[0]] + rows[1..];
      InsertNewestFirst(rows[0], OrderByTimestampDescending(rows[1..]))
  }

  /** The ordered entries are newest first in the strong, all-pairs sense. */
  lemma OrderedIsNewestFirst(rows: seq<IncidentHistoryEntry>)
    ensures NewestFirst(OrderByTimestampDescending(rows))
  {
    StepwiseIsNewestFirst(OrderByTimestampDescending(rows));
  }
}
