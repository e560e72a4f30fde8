/** The voter dashboard: its state, the fetches that fill it, and its own
    (unwired) copy of the vote handler. */
module DashboardPage {
  import opened Common
  import opened Ledger
  import opened Biometric
  import opened Store
  import opened Queries
  import opened Voting

  /** `handleBiometricAuthentication`: the scan's result, failures rethrown
      unchanged after their toast. */
  function HandleBiometricAuthentication(env: Platform, sha256: string -> string): (r: Result<string>)
    ensures r == Authenticate(env, sha256)
  {
    match Authenticate(env, sha256)
    case Ok(hash) => Ok(hash)
    case Err(m) => Err(m)
  }

  class Dashboard {
    var user: Option<string>
    var elections: seq<ElectionRow>
    var candidates: seq<CandidateRow>
    var hasVoted: bool
    var voteCounts: seq<VoteCount>

    constructor ()
      ensures user == None && elections == [] && candidates == [] && !hasVoted && voteCounts == []
    {
      user, elections, candidates, hasVoted, voteCounts := None, [], [], false, [];
    }

    /** The election handed to the voting section: `elections[0]` or null. */
    function SectionElection(): Option<ElectionRow>
      reads this
    {
      CurrentElection(elections)
    }

    /** `checkUser`: adopt the session's user; without one the page
        navigates away and keeps its state. */
    method CheckUser(db: Database)
      modifies this`user
      ensures user == if db.session.Some? then db.session else old(user)
    {
      if db.session.Some? {
        user := db.session;
      }
    }

    /** `fetchElections`: the table newest first; a failed read keeps the list. */
    method FetchElections(db: Database, readOk: bool)
      modifies this`elections
      ensures elections == if readOk then ElectionsNewestFirst(db.elections) else old(elections)
    {
      if readOk {
        elections := ElectionsNewestFirst(db.elections);
      }
    }

    /** `fetchCandidates`: the candidates of the current election. Nothing
        happens without an election or when the read fails. */
    method FetchCandidates(db: Database, readOk: bool)
      modifies this`candidates
      ensures elections == [] || !readOk ==> candidates == old(candidates)
      ensures elections != [] && readOk ==> candidates == CandidatesOf(db.candidates, elections[0].id)
    {
      if |elections| == 0 {
        return;
      }
      if readOk {
        candidates := CandidatesOf(db.candidates, elections[0].id);
      }
    }

    /** `checkVotingStatus`: `reply` is `has_user_voted(elections[0].id, user.id)`.
        Nothing happens without a user or an election, or when the call errs. */
    method CheckVotingStatus(reply: Result<bool>)
      modifies this`hasVoted
      ensures user.None? || elections == [] || reply.Err? ==> hasVoted == old(hasVoted)
      ensures user.Some? && elections != [] && reply.Ok? ==> hasVoted == reply.value
    {
      if user.None? || |elections| == 0 {
        return;
      }
      if reply.Ok? {
        hasVoted := reply.value;
      }
    }

    /** `fetchVoteCounts`: `reply` is `get_vote_counts(elections[0].id)`.
        Nothing happens without an election or when the call errs. */
    method FetchVoteCounts(reply: Result<seq<VoteCount>>)
      modifies this`voteCounts
      ensures elections == [] || reply.Err? ==> voteCounts == old(voteCounts)
      ensures elections != [] && reply.Ok? ==> voteCounts == reply.value
    {
      if |elections| == 0 {
        return;
      }
      if reply.Ok? {
        voteCounts := reply.value;
      }
    }

    /** `handleSignOut`: the session ends; the page navigates away. */
    method HandleSignOut(db: Database)
      modifies db`session
      ensures db.session == None
    {
      db.session := None;
    }

    /** The dashboard's own `handleVote`, which the page never renders (the
        voting section's handler is the one wired to the button). It runs the
        same steps on `elections[0]` with the rethrowing scan wrapper. */
    method HandleVote(
      db: Database, selectedCandidate: string, env: Platform, sha256: string -> string,
      replies: StoreReplies, digest: VoteData -> string, hashedAt: Timestamp, storedAt: Timestamp, newId: string)
      returns (outcome: VoteOutcome)
      modifies db`votes, db`audit, this`hasVoted
      ensures selectedCandidate == "" || user.None? || elections == [] ==>
                outcome == Skipped && db.votes == old(db.votes) && db.audit == old(db.audit) && hasVoted == old(hasVoted)
      ensures selectedCandidate != "" && user.Some? && elections != [] ==>
                && outcome == Decide(HandleBiometricAuthentication(env, sha256),
                                     StoredDigest(db.biometrics, user.value, replies.biometricReadOk), replies.insertError,
                                     NewVoteRow(old(db.votes), user.value, selectedCandidate, elections[0].id,
                                                replies.tailReadOk, digest, hashedAt, storedAt, newId))
                && db.votes == old(db.votes) + VotesWritten(outcome)
                && db.audit == old(db.audit) + AuditWritten(outcome, replies.auditAccepted,
                     VoteCastEvent(user.value, selectedCandidate, elections[0].id,
                                   digest(VoteData(user.value, selectedCandidate, elections[0].id, hashedAt))))
      ensures hasVoted == (old(hasVoted) || outcome.VoteCast?)
    {
      if selectedCandidate == "" || user.None? || |elections| == 0 {
        return Skipped;
      }
      var scan := HandleBiometricAuthentication(env, sha256);
      outcome := CastVote(db, user.value, selectedCandidate, elections[0].id, scan, replies,
                          digest, hashedAt, storedAt, newId);
      if outcome.VoteCast? {
        hasVoted := true;
      }
    }
  }
}
