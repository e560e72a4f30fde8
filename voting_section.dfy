/** The voting section rendered by the dashboard: the ballot gate and the
    vote handler wired to the "Cast Vote" button. */
module VotingSection {
  import opened Common
  import opened Ledger
  import opened Biometric
  import opened Store
  import opened Voting
  import opened DashboardPage

  /** What the section shows. */
  datatype SectionView = VotedBanner | NoCandidates | Ballot(candidates: seq<CandidateRow>)

  /** Once `hasVoted` holds the ballot is replaced by the confirmation; with
      no candidates there is nothing to choose. */
  function View(hasVoted: bool, candidates: seq<CandidateRow>): (v: SectionView)
    ensures v.Ballot? <==> !hasVoted && candidates != []
    ensures v.Ballot? ==> v.candidates == candidates
    ensures hasVoted ==> v == VotedBanner
  {
    if hasVoted then VotedBanner
    else if |candidates| == 0 then NoCandidates
    else Ballot(candidates)
  }

  /** The input guard of `handleVote`: a candidate is selected and both the
      user and the election are present. */
  predicate Admitted(selectedCandidate: string, user: Option<string>, election: Option<ElectionRow>)
    ensures Admitted(selectedCandidate, user, election) ==> |selectedCandidate| > 0 && user.Some? && election.Some?
  {
    selectedCandidate != "" && user.Some? && election.Some?
  }

  /** `handleVote`. `user` and `election` are the section's props and
      `parent.hasVoted` is what `setHasVoted` writes. */
  method HandleVote(
    db: Database, parent: Dashboard, selectedCandidate: string,
    user: Option<string>, election: Option<ElectionRow>,
    env: Platform, sha256: string -> string, replies: StoreReplies,
    digest: VoteData -> string, hashedAt: Timestamp, storedAt: Timestamp, newId: string)
    returns (outcome: VoteOutcome)
    requires user == parent.user && election == parent.SectionElection()
    modifies db`votes, db`audit, parent`hasVoted
    ensures !Admitted(selectedCandidate, user, election) ==>
              outcome == Skipped && db.votes == old(db.votes) && db.audit == old(db.audit)
              && parent.hasVoted == old(parent.hasVoted)
    ensures Admitted(selectedCandidate, user, election) ==>
              && outcome == Decide(Authenticate(env, sha256),
                                   StoredDigest(db.biometrics, user.value, replies.biometricReadOk), replies.insertError,
                                   NewVoteRow(old(db.votes), user.value, selectedCandidate, election.value.id,
                                              replies.tailReadOk, digest, hashedAt, storedAt, newId))
              && db.votes == old(db.votes) + VotesWritten(outcome)
              && db.audit == old(db.audit) + AuditWritten(outcome, replies.auditAccepted,
                   VoteCastEvent(user.value, selectedCandidate, election.value.id,
                                 digest(VoteData(user.value, selectedCandidate, election.value.id, hashedAt))))
    ensures parent.hasVoted == (old(parent.hasVoted) || outcome.VoteCast?)
    ensures (Admitted(selectedCandidate, user, election) && WellChained(old(db.votes)) && replies.tailReadOk
             && StampedAfterAll(old(db.votes), storedAt)
             && digest(VoteData(user.value, selectedCandidate, election.value.id, hashedAt)) != "")
            ==> WellChained(db.votes)
  {
    if !Admitted(selectedCandidate, user, election) {
      return Skipped;
    }
    var scannedHash := Authenticate(env, sha256);
    outcome := CastVote(db, user.value, selectedCandidate, election.value.id, scannedHash, replies,
                        digest, hashedAt, storedAt, newId);
    if outcome.VoteCast? {
      parent.hasVoted := true;
    }
  }
}
