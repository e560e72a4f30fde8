/** The read queries the dashboard and the admin page issue against
    `elections` and `candidates`, and the choice of the current election. */
module Queries {
  import opened Common
  import opened Store

  /** Ordered by `created_at` descending: every row is no later than the
      one before it. */
  ghost predicate NewestFirst(rows: seq<ElectionRow>) {
    forall i, j :: 0 <= i < j < |rows| ==> NoLaterThan(rows[j].createdAt, rows[i].createdAt)
  }

  /** Places `e` in front of the first row that sorts no later than it. */
  function InsertByCreatedDesc(e: ElectionRow, rows: seq<ElectionRow>): (r: seq<ElectionRow>)
    requires NewestFirst(rows)
    ensures NewestFirst(r)
    ensures multiset(r) == multiset(rows) + multiset{e}
    decreases |rows|
  {
    if rows == [] then [e]
    else if NoLaterThan(rows[0].createdAt, e.createdAt) then
      assert rows == [rows[0]] + rows[1..];
      [e] + rows
    else
      var rest := InsertByCreatedDesc(e, rows[1..]);
      PrependKeepsNewestFirst(rows, e, rest);
      [rows[0]] + rest
  }

  lemma PrependKeepsNewestFirst(rows: seq<ElectionRow>, e: ElectionRow, rest: seq<ElectionRow>)
    requires rows != [] && NewestFirst(rows) && NewestFirst(rest)
    requires NoLaterThan(e.createdAt, rows[0].createdAt)
    requires multiset(rest) == multiset(rows[1..]) + multiset{e}
    ensures NewestFirst([rows[0]] + rest)
    ensures multiset([rows[0]] + rest) == multiset(rows) + multiset{e}
  {
    assert rows == [rows[0]] + rows[1..];
    var r := [rows[0]] + rest;
    forall j | 0 < j < |r|
      ensures NoLaterThan(r[j].createdAt, r[0].createdAt)
    {
      assert r[j] in multiset(rest);
      if r[j] != e {
        assert r[j] in multiset(rows[1..]);
        var k :| 0 <= k < |rows[1..]| && rows[1..][k] == r[j];
        assert rows[k + 1] == r[j];
      }
    }
    assert forall i, j :: 0 < i < j < |r| ==> r[i] == rest[i - 1] && r[j] == rest[j - 1];
  }

  /** `.from('elections').select('*').order('created_at', { ascending: false })`:
      the table's rows, newest first (NULL `created_at` first). */
  function ElectionsNewestFirst(rows: seq<ElectionRow>): (r: seq<ElectionRow>)
    ensures NewestFirst(r)
    ensures multiset(r) == multiset(rows)
    decreases |rows|
  {
    if rows == [] then []
    else
      assert rows == [rows[0]] + rows[1..];
      InsertByCreatedDesc(rows[0], ElectionsNewestFirst(rows[1..]))
  }

  /** `elections[0]`, or none when the list is empty. */
  function CurrentElection(elections: seq<ElectionRow>): (current: Option<ElectionRow>)
    ensures current.Some? <==> elections != []
    ensures current.Some? ==> current.value == elections[0] && current.value in elections
  {
    if |elections| > 0 then Some(elections[0]) else None
  }

  /** Taken from a list ordered newest first, the current election is one of
      the table's rows and no row was created after it. */
  lemma {:induction false} CurrentElectionIsNewest(table: seq<ElectionRow>)
    requires table != []
    ensures CurrentElection(ElectionsNewestFirst(table)).Some?
    ensures CurrentElection(ElectionsNewestFirst(table)).value in table
    ensures forall e :: e in table ==> NoLaterThan(e.createdAt, CurrentElection(ElectionsNewestFirst(table)).value.createdAt)
  {
    var sorted := ElectionsNewestFirst(table);
    assert |sorted| == |multiset(sorted)| == |multiset(table)| == |table|;
    assert sorted[0] in multiset(sorted);
    forall e | e in table
      ensures NoLaterThan(e.createdAt, sorted[0].createdAt)
    {
      assert e in multiset(sorted);
      var j :| 0 <= j < |sorted| && sorted[j] == e;
      if j > 0 { assert NoLaterThan(sorted[j].createdAt, sorted[0].createdAt); }
    }
  }

  /** `.from('candidates').select('*').eq('election_id', id)`: the rows of
      that election, in table order. */
  function CandidatesOf(rows: seq<CandidateRow>, electionId: string): (r: seq<CandidateRow>)
    ensures forall c :: c in r <==> c in rows && c.electionId == Some(electionId)
    ensures |r| <= |rows|
    decreases |rows|
  {
    if rows == [] then []
    else if rows[0].electionId == Some(electionId) then [rows[0]] + CandidatesOf(rows[1..], electionId)
    else CandidatesOf(rows[1..], electionId)
  }
}
