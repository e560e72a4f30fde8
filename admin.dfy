/** The admin page: the authorization decision, the guarded election and
    candidate inserts, the delete offer and the results total. */
module AdminPage {
  import opened Common
  import opened Text
  import opened Store
  import opened Queries

  /** `checkAdminStatus`'s test: `profile && profile.is_admin === true`. */
  predicate StrictlyAdmin(profile: Option<ProfileRow>)
    ensures StrictlyAdmin(profile) ==> profile.Some?
    ensures profile.Some? && profile.value.isAdmin.None? ==> !StrictlyAdmin(profile)
  {
    profile.Some? && profile.value.isAdmin == Some(true)
  }

  /** JavaScript truthiness of a nullable boolean column. */
  predicate Truthy(b: Option<bool>)
    ensures Truthy(b) <==> b == Some(true)
  {
    match b
    case None => false
    case Some(v) => v
  }

  /** `handleAdminLogin`'s test: a profile exists and `!profile.is_admin`
      does not hold. */
  predicate TruthyAdmin(profile: Option<ProfileRow>)
    ensures TruthyAdmin(profile) <==> StrictlyAdmin(profile)
  {
    profile.Some? && Truthy(profile.value.isAdmin)
  }

  /** The two pages' tests agree on every profile the table can hold: a
      missing profile, a null flag and `false` are all denials. */
  lemma AdminTestsAgree(profile: Option<ProfileRow>)
    ensures StrictlyAdmin(profile) <==> TruthyAdmin(profile)
    ensures profile.None? ==> !StrictlyAdmin(profile)
    ensures profile.Some? && profile.value.isAdmin != Some(true) ==> !TruthyAdmin(profile)
  {
  }

  /** `election.created_by === user?.id`: an absent user yields `undefined`,
      which no stored id or null equals. */
  function CanDelete(election: ElectionRow, user: Option<string>): (offered: bool)
    ensures offered <==> user.Some? && election.createdBy == user
  {
    match user
    case None => false
    case Some(id) => election.createdBy == Some(id)
  }

  /** `reduce((sum, count) => sum + count.vote_count, acc)`. */
  function SumFrom(acc: int, counts: seq<VoteCount>): (total: int)
    ensures (forall i :: 0 <= i < |counts| ==> counts[i].voteCount >= 0) ==> total >= acc
    decreases |counts|
  {
    if counts == [] then acc else SumFrom(acc + counts[0].voteCount, counts[1..])
  }

  /** The "Total Votes Cast" figure: the sum of the returned counts. */
  function TotalVotes(counts: seq<VoteCount>): (total: int)
    ensures total == CountSum(counts)
    ensures (forall i :: 0 <= i < |counts| ==> counts[i].voteCount >= 0) ==> total >= 0
  {
    SumFromShifts(0, counts);
    SumFrom(0, counts)
  }

  /** The sum of `vote_count`, defined from the back of the list. */
  function CountSum(counts: seq<VoteCount>): int {
    if counts == [] then 0 else CountSum(counts[..|counts| - 1]) + counts[|counts| - 1].voteCount
  }

  lemma {:induction false} SumFromShifts(acc: int, counts: seq<VoteCount>)
    ensures SumFrom(acc, counts) == acc + CountSum(counts)
    decreases |counts|
  {
    if counts != [] {
      var n := |counts|;
      SumFromShifts(acc + counts[0].voteCount, counts[1..]);
      if n > 1 {
        CountSumSplitsFirst(counts);
      } else {
        assert counts[..n - 1] == [];
      }
    }
  }

  lemma {:induction false} CountSumSplitsFirst(counts: seq<VoteCount>)
    requires counts != []
    ensures CountSum(counts) == counts[0].voteCount + CountSum(counts[1..])
    decreases |counts|
  {
    var n := |counts|;
    if n == 1 {
      assert counts[..n - 1] == [] && counts[1..] == [];
    } else {
      CountSumSplitsFirst(counts[..n - 1]);
      assert counts[..n - 1][1..] == counts[1..][..n - 2];
      assert counts[..n - 1][0] == counts[0];
    }
  }

  lemma {:induction false} CountSumConcat(a: seq<VoteCount>, b: seq<VoteCount>)
    ensures CountSum(a + b) == CountSum(a) + CountSum(b)
    decreases |b|
  {
    if b == [] {
      assert a + b == a;
    } else {
      var n := |b|;
      assert (a + b)[..|a + b| - 1] == a + b[..n - 1];
      CountSumConcat(a, b[..n - 1]);
    }
  }

  /** Splitting the count rows anywhere splits the total. */
  lemma TotalOfConcat(a: seq<VoteCount>, b: seq<VoteCount>)
    ensures TotalVotes(a + b) == TotalVotes(a) + TotalVotes(b)
  {
    CountSumConcat(a, b);
  }

  /** The table without the rows whose id is `id`. */
  function WithoutId(rows: seq<ElectionRow>, id: string): (r: seq<ElectionRow>)
    ensures forall e :: e in r <==> e in rows && e.id != id
    ensures |r| <= |rows|
  {
    if rows == [] then []
    else if rows[0].id == id then WithoutId(rows[1..], id)
    else [rows[0]] + WithoutId(rows[1..], id)
  }

  class Admin {
    var user: Option<string>
    var isAdmin: bool
    var elections: seq<ElectionRow>
    var candidates: seq<CandidateRow>
    var voteCounts: seq<VoteCount>
    var newCandidate: string
    var newElection: string

    constructor ()
      ensures user == None && !isAdmin && elections == [] && candidates == [] && voteCounts == []
      ensures newCandidate == "" && newElection == ""
    {
      user, isAdmin, elections, candidates, voteCounts := None, false, [], [], [];
      newCandidate, newElection := "", "";
    }

    /** The panel renders only for `user && isAdmin`; everyone else sees
        the login form. */
    predicate PanelVisible()
      reads this
      ensures PanelVisible() ==> user.Some? && isAdmin
    {
      user.Some? && isAdmin
    }

    /** `checkAdminStatus`: a failed profile read keeps the flag; otherwise
        it is granted exactly when the strict test holds. */
    method CheckAdminStatus(db: Database, userId: string, profileReadOk: bool)
      modifies this`isAdmin
      ensures !profileReadOk ==> isAdmin == old(isAdmin)
      ensures profileReadOk ==> (isAdmin <==> StrictlyAdmin(ProfileOf(db.profiles, userId, true).value))
      ensures profileReadOk ==> (isAdmin <==> userId in db.profiles && db.profiles[userId].isAdmin == Some(true))
    {
      var profile := ProfileOf(db.profiles, userId, profileReadOk);
      if profile.Err? {
        return;
      }
      isAdmin := StrictlyAdmin(profile.value);
    }

    /** `checkUser`: adopt the session's user and check it; a failed session
        read or no session changes nothing. */
    method CheckUser(db: Database, sessionReadOk: bool, profileReadOk: bool)
      modifies this`user, this`isAdmin
      ensures !sessionReadOk || db.session.None? ==> user == old(user) && isAdmin == old(isAdmin)
      ensures sessionReadOk && db.session.Some? ==>
                && user == db.session
                && (!profileReadOk ==> isAdmin == old(isAdmin))
                && (profileReadOk ==> (isAdmin <==> StrictlyAdmin(ProfileOf(db.profiles, db.session.value, true).value)))
    {
      if !sessionReadOk || db.session.None? {
        return;
      }
      user := db.session;
      CheckAdminStatus(db, db.session.value, profileReadOk);
    }

    /** `handleAdminLogin`. `password` is `signInWithPassword`'s reply. A
        password error changes nothing; every denial signs out and clears
        the user and the flag; only the truthy test keeps both. */
    method HandleAdminLogin(db: Database, password: Result<Option<string>>, profileReadOk: bool)
      modifies this`user, this`isAdmin, db`session
      ensures password.Err? ==> user == old(user) && isAdmin == old(isAdmin) && db.session == old(db.session)
      ensures password == Ok(None) ==> user == None && !isAdmin && db.session == old(db.session)
      ensures password.Ok? && password.value.Some? ==>
                var granted := profileReadOk && TruthyAdmin(ProfileOf(db.profiles, password.value.value, true).value);
                && isAdmin == granted
                && user == (if granted then password.value else None)
                && db.session == (if granted then password.value else None)
      ensures password.Ok? ==>
                (PanelVisible() <==> password.value.Some? && profileReadOk && password.value.value in db.profiles
                                     && db.profiles[password.value.value].isAdmin == Some(true))
    {
      if password.Err? {
        return;
      }
      if password.value.None? {
        user, isAdmin := None, false;
        return;
      }
      var u := password.value.value;
      db.session := Some(u);
      user := Some(u);
      var profile := ProfileOf(db.profiles, u, profileReadOk);
      if profile.Err? || !TruthyAdmin(profile.value) {
        db.session := None;
        isAdmin, user := false, None;
        return;
      }
      AdminTestsAgree(profile.value);
      isAdmin := true;
    }

    /** `handleSignOut`. */
    method HandleSignOut(db: Database)
      modifies db`session, this`user, this`isAdmin
      ensures db.session == None && user == None && !isAdmin
      ensures !PanelVisible()
    {
      db.session := None;
      user, isAdmin := None, false;
    }

    /** `fetchElections`: the table newest first; a failed read keeps the list. */
    method FetchElections(db: Database, readOk: bool)
      modifies this`elections
      ensures elections == if readOk then ElectionsNewestFirst(db.elections) else old(elections)
    {
      if readOk {
        elections := ElectionsNewestFirst(db.elections);
      }
    }

    /** `fetchCandidates`: the candidates of `elections[0]`. */
    method FetchCandidates(db: Database, readOk: bool)
      modifies this`candidates
      ensures elections == [] || !readOk ==> candidates == old(candidates)
      ensures elections != [] && readOk ==> candidates == CandidatesOf(db.candidates, elections[0].id)
    {
      if |elections| == 0 {
        return;
      }
      if readOk {
        candidates := CandidatesOf(db.candidates, elections[0].id);
      }
    }

    /** `fetchVoteCounts`: `reply` is `get_vote_counts(elections[0].id)`. */
    method FetchVoteCounts(reply: Result<seq<VoteCount>>)
      modifies this`voteCounts
      ensures elections == [] || reply.Err? ==> voteCounts == old(voteCounts)
      ensures elections != [] && reply.Ok? ==> voteCounts == reply.value
    {
      if |elections| == 0 {
        return;
      }
      if reply.Ok? {
        voteCounts := reply.value;
      }
    }

    /** `handleAddCandidate`. `insertError` is the insert's refusal, if any;
        `newId` the id the table assigns. */
    method HandleAddCandidate(db: Database, insertError: Option<string>, newId: string)
      modifies db`candidates, this`newCandidate
      ensures Trim(old(newCandidate)) == "" || elections == [] || insertError.Some? ==>
                db.candidates == old(db.candidates) && newCandidate == old(newCandidate)
      ensures Trim(old(newCandidate)) != "" && elections != [] && insertError.None? ==>
                && db.candidates == old(db.candidates) + [CandidateRow(newId, Some(Trim(old(newCandidate))), Some(elections[0].id))]
                && newCandidate == ""
    {
      var name := Trim(newCandidate);
      if name == "" || |elections| == 0 {
        return;
      }
      if insertError.Some? {
        return;
      }
      db.candidates := db.candidates + [CandidateRow(newId, Some(name), Some(elections[0].id))];
      newCandidate := "";
    }

    /** `handleCreateElection`. `createdAt` is the table's default timestamp. */
    method HandleCreateElection(db: Database, insertError: Option<string>, newId: string, createdAt: Timestamp)
      modifies db`elections, this`newElection
      ensures Trim(old(newElection)) == "" || user.None? || insertError.Some? ==>
                db.elections == old(db.elections) && newElection == old(newElection)
      ensures Trim(old(newElection)) != "" && user.Some? && insertError.None? ==>
                && db.elections == old(db.elections) + [ElectionRow(newId, Some(Trim(old(newElection))), Some(createdAt), user)]
                && newElection == ""
    {
      var name := Trim(newElection);
      if name == "" || user.None? {
        return;
      }
      if insertError.Some? {
        return;
      }
      db.elections := db.elections + [ElectionRow(newId, Some(name), Some(createdAt), user)];
      newElection := "";
    }

    /** The delete button's handler, offered only when `CanDelete` holds. */
    method DeleteElection(db: Database, election: ElectionRow, deleteError: Option<string>)
      requires CanDelete(election, user)
      modifies db`elections
      ensures deleteError.Some? ==> db.elections == old(db.elections)
      ensures deleteError.None? ==> db.elections == WithoutId(old(db.elections), election.id)
    {
      if deleteError.None? {
        db.elections := WithoutId(db.elections, election.id);
      }
    }
  }

  /** An election created by the signed-in admin is offered for deletion to
      that admin and to no one else. */
  lemma CreatorMayDelete(newId: string, name: string, createdAt: Timestamp, creator: string, viewer: Option<string>)
    ensures CanDelete(ElectionRow(newId, Some(name), Some(createdAt), Some(creator)), viewer) <==> viewer == Some(creator)
  {
  }
}
