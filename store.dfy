/** The Supabase tables the core reads and writes, held in memory, and the
    auth service's account list and session. */
module Store {
  import opened Common
  import opened Ledger

  /** `device_info` written at enrollment. */
  datatype DeviceInfo = DeviceInfo(userAgent: string, timestamp: Timestamp)

  /** A `users_biometrics` row, keyed by `user_id`. */
  datatype BiometricRow = BiometricRow(fingerprintHash: string, deviceInfo: Option<DeviceInfo>)

  /** An `elections` row. */
  datatype ElectionRow = ElectionRow(
    id: string, name: Option<string>, createdAt: Option<Timestamp>, createdBy: Option<string>)

  /** A `candidates` row. */
  datatype CandidateRow = CandidateRow(id: string, name: Option<string>, electionId: Option<string>)

  /** A `user_profiles` row, keyed by `user_id`. */
  datatype ProfileRow = ProfileRow(
    id: string, userId: string, fullName: string, rollNumber: string,
    isAdmin: Option<bool>, createdAt: Option<Timestamp>)

  /** The `details` of a `VOTE_CAST` audit event. */
  datatype VoteCastDetails = VoteCastDetails(electionId: string, candidateId: string, voteHash: string)

  /** One `log_audit_event` call that the store accepted. */
  datatype AuditEvent = AuditEvent(userId: string, action: string, details: VoteCastDetails)

  /** A row returned by the `get_vote_counts` function. */
  datatype VoteCount = VoteCount(candidateId: string, candidateName: string, voteCount: int)

  const VOTE_CAST_ACTION: string := "VOTE_CAST"

  class Database {
    var votes: seq<VoteRow>
    var biometrics: map<string, BiometricRow>
    var audit: seq<AuditEvent>
    var elections: seq<ElectionRow>
    var candidates: seq<CandidateRow>
    var profiles: map<string, ProfileRow>
    /** The auth service's registered user ids. */
    var accounts: set<string>
    /** The signed-in user, if any. */
    var session: Option<string>

    constructor Empty()
      ensures votes == [] && biometrics == map[] && audit == []
      ensures elections == [] && candidates == [] && profiles == map[]
      ensures accounts == {} && session == None
    {
      votes, biometrics, audit := [], map[], [];
      elections, candidates, profiles := [], [], map[];
      accounts, session := {}, None;
    }
  }

  /** The stored `fingerprint_hash` for `userId` as `.select(...).eq(...).single()`
      delivers it: absent when the read errs or no row exists. */
  function StoredDigest(biometrics: map<string, BiometricRow>, userId: string, readOk: bool): (d: Option<string>)
    ensures d.Some? <==> readOk && userId in biometrics
    ensures d.Some? ==> d.value == biometrics[userId].fingerprintHash
  {
    if readOk && userId in biometrics then Some(biometrics[userId].fingerprintHash) else None
  }

  /** The `user_profiles` row for `userId` as `.maybeSingle()` delivers it. */
  function ProfileOf(profiles: map<string, ProfileRow>, userId: string, readOk: bool): (r: Result<Option<ProfileRow>>)
    ensures r.Ok? <==> readOk
    ensures r.Ok? ==> (r.value.Some? <==> userId in profiles)
    ensures r.Ok? && r.value.Some? ==> r.value.value == profiles[userId]
  {
    if !readOk then Err("profile read failed")
    else if userId in profiles then Ok(Some(profiles[userId]))
    else Ok(None)
  }
}
