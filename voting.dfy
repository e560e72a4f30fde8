/** The vote-cast procedure shared by both `handleVote` handlers: scan,
    biometric gate, hash, tail lookup, insert, audit. */
module Voting {
  import opened Common
  import opened Ledger
  import opened Biometric
  import opened Store

  /** How the store answers the calls of one attempt. The unique-vote
      constraint and every other reason to refuse the insert are folded into
      `insertError`; the tail read's own error is ignored by the code. */
  datatype StoreReplies = StoreReplies(
    biometricReadOk: bool, tailReadOk: bool, insertError: Option<string>, auditAccepted: bool)

  /** How one click on "Cast Vote" ends. */
  datatype VoteOutcome =
    | Skipped                       // guard: no candidate, user or election
    | ScanFailed(message: string)   // the scan threw
    | NoBiometricData               // no stored row, or its read failed
    | FingerprintMismatch           // stored digest differs from the scan
    | InsertFailed(message: string) // the store refused the row
    | VoteCast(row: VoteRow)

  const MISMATCH_MESSAGE: string := "Scanned fingerprint does not match registered fingerprint. Voting denied."

  /** The toast text a failed attempt shows. A skipped attempt shows nothing. */
  function FailureMessage(o: VoteOutcome): (m: Option<string>)
    ensures m.Some? <==> !o.Skipped? && !o.VoteCast?
    ensures o == NoBiometricData ==> m == Some(NO_BIOMETRIC_MESSAGE)
    ensures o == FingerprintMismatch ==> m == Some(MISMATCH_MESSAGE)
    ensures o.ScanFailed? || o.InsertFailed? ==> m == Some(o.message)
  {
    match o
    case Skipped => None
    case ScanFailed(msg) => Some(msg)
    case NoBiometricData => Some(NO_BIOMETRIC_MESSAGE)
    case FingerprintMismatch => Some(MISMATCH_MESSAGE)
    case InsertFailed(msg) => Some(msg)
    case VoteCast(_) => None
  }

  /** The row the insert carries. `vote_hash` hashes the first clock reading;
      `timestamp` stores the second; `previous_hash` comes from the tail of
      the whole table, across every election. */
  function NewVoteRow(
    votes: seq<VoteRow>, voterId: string, candidateId: string, electionId: string,
    tailReadOk: bool, digest: VoteData -> string, hashedAt: Timestamp, storedAt: Timestamp, newId: string): (row: VoteRow)
    ensures row.id == newId && row.voterId == Some(voterId)
    ensures row.candidateId == Some(candidateId) && row.electionId == Some(electionId)
    ensures row.voteHash == Some(digest(VoteData(voterId, candidateId, electionId, hashedAt)))
    ensures row.timestamp == Some(storedAt)
    ensures row.previousHash == Some(PreviousHash(votes, tailReadOk))
    ensures row.previousHash.Some? && row.previousHash.value != ""
    ensures !tailReadOk || votes == [] ==> row.previousHash == Some(GENESIS_HASH)
    ensures tailReadOk && votes != [] && WellChained(votes) ==> row.previousHash == votes[|votes| - 1].voteHash
  {
    assert tailReadOk && votes != [] && WellChained(votes) ==>
             Some(PreviousHash(votes, tailReadOk)) == votes[|votes| - 1].voteHash by {
      if tailReadOk && votes != [] && WellChained(votes) {
        PreviousHashOfChain(votes);
      }
    }
    VoteRow(newId, Some(voterId), Some(candidateId), Some(electionId),
            Some(digest(VoteData(voterId, candidateId, electionId, hashedAt))),
            Some(PreviousHash(votes, tailReadOk)), Some(storedAt))
  }

  /** The outcome of an attempt that passed the input guard. */
  function Decide(scan: Result<string>, stored: Option<string>, insertError: Option<string>, row: VoteRow): (o: VoteOutcome)
    ensures o != Skipped
    ensures scan.Err? ==> o == ScanFailed(scan.message)
    ensures scan.Ok? ==> (o == NoBiometricData <==> stored.None?)
    ensures scan.Ok? ==> (o == FingerprintMismatch <==> stored.Some? && stored.value != scan.value)
    ensures o.InsertFailed? <==> scan.Ok? && stored == Some(scan.value) && insertError.Some?
    ensures o.InsertFailed? ==> o.message == insertError.value
    ensures o.VoteCast? <==> scan.Ok? && stored == Some(scan.value) && insertError.None?
    ensures o.VoteCast? ==> o.row == row
  {
    match scan
    case Err(m) => ScanFailed(m)
    case Ok(scanned) =>
      match Verify(stored, scanned)
      case NoCredential => NoBiometricData
      case Mismatch => FingerprintMismatch
      case Match => if insertError.Some? then InsertFailed(insertError.value) else VoteCast(row)
  }

  /** The `votes` rows an outcome adds: the one new row on success, none otherwise. */
  function VotesWritten(o: VoteOutcome): (w: seq<VoteRow>)
    ensures |w| <= 1 && (w != [] <==> o.VoteCast?)
    ensures o.VoteCast? ==> w == [o.row]
  {
    if o.VoteCast? then [o.row] else []
  }

  /** The `VOTE_CAST` event for a cast vote. */
  function VoteCastEvent(voterId: string, candidateId: string, electionId: string, voteHash: string): (e: AuditEvent)
    ensures e.userId == voterId && e.action == VOTE_CAST_ACTION
    ensures e.details.electionId == electionId && e.details.candidateId == candidateId
    ensures e.details.voteHash == voteHash
  {
    AuditEvent(voterId, VOTE_CAST_ACTION, VoteCastDetails(electionId, candidateId, voteHash))
  }

  /** The audit events an outcome adds: the event only after a successful
      insert, and only if the unchecked audit call went through. */
  function AuditWritten(o: VoteOutcome, auditAccepted: bool, event: AuditEvent): (w: seq<AuditEvent>)
    ensures w != [] <==> o.VoteCast? && auditAccepted
    ensures w != [] ==> w == [event]
  {
    if o.VoteCast? && auditAccepted then [event] else []
  }

  /** Sequential casts keep the ledger well chained when each new row is
      stamped after every existing one, its hash is non-empty and the tail
      read succeeded — whatever the scan, the gate and the insert decide. */
  lemma {:induction false} CastKeepsChain(
    votes: seq<VoteRow>, voterId: string, candidateId: string, electionId: string,
    scan: Result<string>, stored: Option<string>, insertError: Option<string>,
    digest: VoteData -> string, hashedAt: Timestamp, storedAt: Timestamp, newId: string)
    requires WellChained(votes) && StampedAfterAll(votes, storedAt)
    requires digest(VoteData(voterId, candidateId, electionId, hashedAt)) != ""
    ensures WellChained(votes + VotesWritten(Decide(scan, stored, insertError,
              NewVoteRow(votes, voterId, candidateId, electionId, true, digest, hashedAt, storedAt, newId))))
  {
    var row := NewVoteRow(votes, voterId, candidateId, electionId, true, digest, hashedAt, storedAt, newId);
    var o := Decide(scan, stored, insertError, row);
    if o.VoteCast? {
      AppendKeepsChain(votes, row, storedAt);
    } else {
      assert votes + VotesWritten(o) == votes;
    }
  }

  /** A scan whose digest differs from the stored one never produces a vote
      row, whatever candidate was chosen and whatever the store would do. */
  lemma MismatchNeverWrites(scanned: string, stored: string, insertError: Option<string>, row: VoteRow)
    requires scanned != stored
    ensures VotesWritten(Decide(Ok(scanned), Some(stored), insertError, row)) == []
  {
  }

  /** The steps of `handleVote` after its input guard. */
  method CastVote(
    db: Database, voterId: string, candidateId: string, electionId: string,
    scan: Result<string>, replies: StoreReplies,
    digest: VoteData -> string, hashedAt: Timestamp, storedAt: Timestamp, newId: string)
    returns (outcome: VoteOutcome)
    modifies db`votes, db`audit
    ensures outcome == Decide(scan, StoredDigest(db.biometrics, voterId, replies.biometricReadOk), replies.insertError,
                              NewVoteRow(old(db.votes), voterId, candidateId, electionId, replies.tailReadOk,
                                         digest, hashedAt, storedAt, newId))
    ensures db.votes == old(db.votes) + VotesWritten(outcome)
    ensures db.audit == old(db.audit) + AuditWritten(outcome, replies.auditAccepted,
              VoteCastEvent(voterId, candidateId, electionId, digest(VoteData(voterId, candidateId, electionId, hashedAt))))
    ensures (WellChained(old(db.votes)) && replies.tailReadOk && StampedAfterAll(old(db.votes), storedAt)
             && digest(VoteData(voterId, candidateId, electionId, hashedAt)) != "") ==> WellChained(db.votes)
  {
    if scan.Err? {
      return ScanFailed(scan.message);
    }
    var stored := StoredDigest(db.biometrics, voterId, replies.biometricReadOk);
    if stored.None? {
      return NoBiometricData;
    }
    if stored.value != scan.value {
      return FingerprintMismatch;
    }
    var voteHash := digest(VoteData(voterId, candidateId, electionId, hashedAt));
    var previousHash := PreviousHash(db.votes, replies.tailReadOk);
    var row := VoteRow(newId, Some(voterId), Some(candidateId), Some(electionId),
                       Some(voteHash), Some(previousHash), Some(storedAt));
    if replies.insertError.Some? {
      return InsertFailed(replies.insertError.value);
    }
    ghost var before := db.votes;
    db.votes := db.votes + [row];
    if replies.auditAccepted {
      db.audit := db.audit + [VoteCastEvent(voterId, candidateId, electionId, voteHash)];
    }
    outcome := VoteCast(row);
    if WellChained(before) && replies.tailReadOk && StampedAfterAll(before, storedAt) && voteHash != "" {
      CastKeepsChain(before, voterId, candidateId, electionId, scan, stored, replies.insertError,
                     digest, hashedAt, storedAt, newId);
    }
  }
}
