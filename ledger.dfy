/** The `votes` table read as a hash-linked ledger: the row the tail query
    returns, the `previous_hash` derived from it, and the link invariant that
    sequential appends keep. */
module Ledger {
  import opened Common

  /** A row of the `votes` table. Every column but `id` is nullable in the
      schema. */
  datatype VoteRow = VoteRow(
    id: string,
    voterId: Option<string>,
    candidateId: Option<string>,
    electionId: Option<string>,
    voteHash: Option<string>,
    previousHash: Option<string>,
    timestamp: Option<Timestamp>)

  /** The object serialised and hashed into `vote_hash`, fields in this order. */
  datatype VoteData = VoteData(
    voterId: string, candidateId: string, electionId: string, timestamp: Timestamp)

  /** The `previous_hash` written when there is no usable predecessor. */
  const GENESIS_HASH: string := "0"

  /** The row returned by the tail query: the whole table (every election)
      ordered by `timestamp` descending, first row. Of several rows that
      share the latest position, the one appended last is taken. */
  function LatestVote(votes: seq<VoteRow>): (r: Option<VoteRow>)
    ensures r.None? <==> votes == []
    ensures r.Some? ==> r.value in votes
    ensures r.Some? ==> forall i :: 0 <= i < |votes| ==> NoLaterThan(votes[i].timestamp, r.value.timestamp)
    decreases |votes|
  {
    if votes == [] then None
    else
      var last := votes[|votes| - 1];
      var before := LatestVote(votes[..|votes| - 1]);
      if before.None? || NoLaterThan(before.value.timestamp, last.timestamp) then Some(last)
      else before
  }

  /** `lastVote?.vote_hash || "0"`: the tail row's hash, or the genesis
      sentinel when the tail read failed, the table is empty, or the tail's
      hash is null or empty. */
  function PreviousHash(votes: seq<VoteRow>, tailReadOk: bool): (h: string)
    ensures h != ""
    ensures h == GENESIS_HASH || (tailReadOk && LatestVote(votes).Some? && LatestVote(votes).value.voteHash == Some(h))
    ensures (tailReadOk && LatestVote(votes).Some? && LatestVote(votes).value.voteHash.Some?
             && LatestVote(votes).value.voteHash.value != "") ==> Some(h) == LatestVote(votes).value.voteHash
  {
    if !tailReadOk then GENESIS_HASH
    else match LatestVote(votes)
      case None => GENESIS_HASH
      case Some(row) =>
        if row.voteHash.Some? && row.voteHash.value != "" then row.voteHash.value else GENESIS_HASH
  }

  /** Every row is stamped, and insertion order is strict timestamp order, so
      the seq order is the order the tail query sees. */
  ghost predicate Increasing(votes: seq<VoteRow>) {
    && (forall i :: 0 <= i < |votes| ==> votes[i].timestamp.Some?)
    && (forall i, j :: 0 <= i < j < |votes| ==> StampedBefore(votes[i].timestamp, votes[j].timestamp))
  }

  /** Every row carries a non-empty `vote_hash`. */
  ghost predicate HashesPresent(votes: seq<VoteRow>) {
    forall i :: 0 <= i < |votes| ==> votes[i].voteHash.Some? && votes[i].voteHash.value != ""
  }

  /** The first row links to the sentinel and every later row to its
      predecessor's `vote_hash`. */
  ghost predicate ChainLinked(votes: seq<VoteRow>) {
    && (|votes| > 0 ==> votes[0].previousHash == Some(GENESIS_HASH))
    && (forall i :: 0 < i < |votes| ==> votes[i].previousHash == votes[i - 1].voteHash)
  }

  /** The ledger invariant that sequential vote casts maintain. */
  ghost predicate WellChained(votes: seq<VoteRow>) {
    Increasing(votes) && HashesPresent(votes) && ChainLinked(votes)
  }

  /** `t` is strictly later than every row's timestamp. */
  ghost predicate StampedAfterAll(votes: seq<VoteRow>, t: Timestamp) {
    forall i :: 0 <= i < |votes| ==> StampedBefore(votes[i].timestamp, Some(t))
  }

  /** In a ledger kept in strict timestamp order the tail query returns the
      most recently appended row. */
  lemma {:induction false} LatestOfIncreasing(votes: seq<VoteRow>)
    requires Increasing(votes) && votes != []
    ensures LatestVote(votes) == Some(votes[|votes| - 1])
  {
    var n := |votes|;
    var r := LatestVote(votes).value;
    var k :| 0 <= k < n && votes[k] == r;
    assert NoLaterThan(votes[n - 1].timestamp, votes[k].timestamp);
    assert k == n - 1;
  }

  /** On a well-chained ledger `previous_hash` is the last row's hash. */
  lemma {:induction false} PreviousHashOfChain(votes: seq<VoteRow>)
    requires WellChained(votes) && votes != []
    ensures PreviousHash(votes, true) == votes[|votes| - 1].voteHash.value
  {
    LatestOfIncreasing(votes);
  }

  /** Appending a row stamped after every existing row, with a non-empty
      hash and the `previous_hash` the tail query yields, keeps the ledger
      well chained. */
  lemma {:induction false} AppendKeepsChain(votes: seq<VoteRow>, row: VoteRow, t: Timestamp)
    requires WellChained(votes)
    requires StampedAfterAll(votes, t) && row.timestamp == Some(t)
    requires row.voteHash.Some? && row.voteHash.value != ""
    requires row.previousHash == Some(PreviousHash(votes, true))
    ensures WellChained(votes + [row])
  {
    var after := votes + [row];
    var n := |votes|;
    if n > 0 {
      PreviousHashOfChain(votes);
      assert after[n].previousHash == after[n - 1].voteHash;
    }
    assert forall i :: 0 <= i < n ==> after[i] == votes[i];
    assert ChainLinked(after);
    assert forall i, j :: 0 <= i < j < |after| ==> StampedBefore(after[i].timestamp, after[j].timestamp) by {
      forall i, j | 0 <= i < j < |after|
        ensures StampedBefore(after[i].timestamp, after[j].timestamp)
      {
        if j < n { assert after[i] == votes[i] && after[j] == votes[j]; }
      }
    }
  }

  /** The tail read's error is ignored: when it fails on a ledger whose last
      hash is not the sentinel, the appended row restarts the chain at "0" and
      the link to its predecessor is broken. */
  lemma {:induction false} FailedTailReadBreaksLink(votes: seq<VoteRow>, row: VoteRow)
    requires votes != [] && votes[|votes| - 1].voteHash != Some(GENESIS_HASH)
    requires row.previousHash == Some(PreviousHash(votes, false))
    ensures !ChainLinked(votes + [row])
  {
    var after := votes + [row];
    assert after[|votes|].previousHash != after[|votes| - 1].voteHash;
  }
}
