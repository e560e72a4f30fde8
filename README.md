# Vote Secure Campus: vote admission and the vote chain

This project models the client-side decision logic of the Vote Secure Campus
web app. In that app a student signs in with a password and a biometric scan,
then casts one vote per election. Each vote row carries a `vote_hash` and a
`previous_hash` that links it to the row before it, like a small blockchain.
Administrators create elections, add candidates and read the totals.

The Supabase tables the code touches are fields of `Store.Database`:

- `votes`
- `users_biometrics`
- `audit_logs`
- `elections`
- `candidates`
- `user_profiles`
- the auth accounts
- the current session

Each handler is a method over that state. The store's own answers are
parameters of the method:

- whether a read failed
- whether an insert was refused, and its message
- the result of an RPC such as `has_user_voted` or `get_vote_counts`

The model states what the code does with those answers. The bodies of the
server functions are not visible, so nothing here invents them.

Modules:

- `Common`: `Option`, `Result` and the opaque, ordered `Timestamp`. This is
  the PostgreSQL `ORDER BY ... DESC` order, in which NULL sorts first.
- `Text`: ECMAScript `String.prototype.trim`.
- `Ledger`: the vote rows, the tail query, the `"0"` sentinel and the chain
  invariant.
  - `Increasing`: strictly increasing timestamps.
  - `ChainLinked`: the first `previous_hash` is `"0"` and each later one is
    its predecessor's `vote_hash`.
  - `WellChained`: both of the above, with every hash present.
- `Biometric`: `biometricAuthenticate` and the native helper, as a
  mapping from platform probes to a digest or an error, plus the
  comparison with the stored digest. SHA-256 is a parameter
  `sha256: string -> string`. `Array.from(buffer).toString()` is modelled
  exactly, as comma-joined decimals.
- `Store`: the row types of the tables and the `.single()` and
  `.maybeSingle()` reads.
- `Queries`: the `created_at`-descending election list, the current
  election (`elections[0]`) and the candidate filter.
- `Voting`: the vote-cast procedure that both `handleVote` handlers share.
  Its method `CastVote` is proved against the pure `Decide`, `NewVoteRow`,
  `VotesWritten` and `AuditWritten`.
- `VotingSection`, `DashboardPage`, `SignInForm`, `SignUpForm`,
  `AdminPage`: the page handlers over `Database` and over the page's own
  state, held in the classes `Dashboard` and `Admin`.

Modelling choices:

- **Tail query.** The most recent vote is the row that is maximal in
  descending-timestamp order over the whole table, across every election.
  PostgreSQL leaves the order of rows with equal `timestamp` unspecified
  under `ORDER BY timestamp DESC LIMIT 1`. The model resolves such a tie
  by taking the row appended last, which is a modelling choice and not
  the source's promise. The
  chain lemmas assume each new row is stamped after every existing one,
  which is `Ledger.StampedAfterAll`.
- **Timestamps.** The hashed timestamp (`hashedAt`) and the stored one
  (`storedAt`) come from two separate clock readings. They are two
  independent parameters.
- **Vote hash.** `generateVoteHash` is the parameter
  `digest: VoteData -> string`.
- **Ignored tail-read error.** An error on the tail read is ignored by the
  code and yields `"0"`. `Ledger.FailedTailReadBreaksLink` shows the
  appended row then breaks the chain.
- **Sign-in leaves the session open.** At sign-in, the password session is
  opened before the scan. Only a digest mismatch signs out again. A failed
  scan or a missing biometric row reports "Login Failed" and leaves the
  session signed in. `SignInForm.HandleSignIn` states this as the code
  does it.
- **Native digests.** Every successful native scan yields the same
  constant digest. So the equality gate cannot tell natively enrolled users
  apart (`Biometric.NativeScanPassesEveryNativeEnrollment`).

## Model

| member | source | states |
|---|---|---|
| Ledger.LatestVote | src/components/dashboard/VotingSection.tsx:83-88 | the tail query returns a row exactly when the table is non-empty; that row is in the table and no row sorts after it by `timestamp` descending |
| Ledger.PreviousHash | src/components/dashboard/VotingSection.tsx:90 | never empty; either `"0"` or the tail row's `vote_hash`; the tail's hash whenever the read succeeded and that hash is present and non-empty |
| Ledger.LatestOfIncreasing | src/components/dashboard/VotingSection.tsx:83-88 | on a ledger in strict timestamp order the tail query returns the last appended row |
| Ledger.PreviousHashOfChain | src/components/dashboard/VotingSection.tsx:83-90 | on a well-chained ledger the new `previous_hash` is the last row's `vote_hash` |
| Ledger.AppendKeepsChain | src/components/dashboard/VotingSection.tsx:83-102 | appending a row stamped after all others, with a non-empty hash and the tail-derived `previous_hash`, keeps the ledger well chained |
| Ledger.FailedTailReadBreaksLink | src/components/dashboard/VotingSection.tsx:83-90 | when the ignored tail read fails on a ledger whose last hash is not `"0"`, the appended row's link is broken |
| Voting.Decide | src/components/dashboard/VotingSection.tsx:49-104 | after the guard: a scan error fails first; then, exactly as the stored digest is missing or differs, the outcome is no-biometric-data or mismatch; a vote is cast iff the digests are equal and the insert is accepted, and it carries the prepared row |
| Voting.FailureMessage | src/components/dashboard/VotingSection.tsx:58-66 | every failed attempt, and only those, shows a message; a scan or insert failure shows its own error message; the missing-row and mismatch messages are the source's texts |
| Voting.NewVoteRow | src/components/dashboard/VotingSection.tsx:73-102 | the inserted row carries the voter, candidate and election, the hash of the first clock reading and the second reading as `timestamp`; `previous_hash` is never empty, is `"0"` after a failed tail read or on an empty table, and on a well-chained ledger is the last row's `vote_hash` |
| Voting.VoteCastEvent | src/components/dashboard/VotingSection.tsx:107-115 | the audit event names the voter, the `VOTE_CAST` action, and the election, candidate and vote hash of the cast |
| Voting.VotesWritten | src/components/dashboard/VotingSection.tsx:93-104 | at most one row is added, exactly when the vote is cast, and it is the inserted row |
| Voting.AuditWritten | src/components/dashboard/VotingSection.tsx:104-115 | the `VOTE_CAST` event is logged only after a successful insert and is dropped if the call fails |
| Voting.CastKeepsChain | src/components/dashboard/VotingSection.tsx:73-102 | whatever the scan, gate and insert decide, a cast keeps the ledger well chained when stamped after every row, hashed non-empty and with a successful tail read |
| Voting.MismatchNeverWrites | src/components/dashboard/VotingSection.tsx:62-70 | a scan differing from the stored digest never writes a vote row, whatever the store would do |
| Voting.CastVote | src/components/dashboard/VotingSection.tsx:49-115 | the outcome is `Decide` of the scan, stored digest and insert reply; `votes` grows by exactly the rows written and `audit_logs` by the events written; existing rows are untouched; a well-chained ledger stays well chained |
| VotingSection.Admitted | src/components/dashboard/VotingSection.tsx:44 | an attempt is admitted only with a non-empty selected candidate, a user and an election |
| VotingSection.HandleVote | src/components/dashboard/VotingSection.tsx:43-133 | called with the dashboard's user and current election as props; a missing candidate, user or election changes nothing; otherwise the attempt is `CastVote` on the scan; `hasVoted` becomes true only on a cast vote |
| VotingSection.View | src/components/dashboard/VotingSection.tsx:141-190 | the ballot is offered iff the user has not voted and there are candidates; once voted, only the confirmation shows |
| DashboardPage.HandleBiometricAuthentication | src/pages/Dashboard.tsx:131-147 | the scan's result with every failure rethrown unchanged, so no vote proceeds past a failed scan |
| DashboardPage.Dashboard.CheckUser | src/pages/Dashboard.tsx:56-63 | the session's user is adopted; without a session the state is kept |
| DashboardPage.Dashboard.FetchElections | src/pages/Dashboard.tsx:65-80 | the list becomes the table ordered newest first; a failed read keeps it |
| DashboardPage.Dashboard.FetchCandidates | src/pages/Dashboard.tsx:82-99 | with no election or a failed read nothing changes; otherwise exactly the current election's candidates |
| DashboardPage.Dashboard.CheckVotingStatus | src/pages/Dashboard.tsx:101-114 | without a user or an election, or on an RPC error, `hasVoted` is unchanged; otherwise it is the RPC's answer |
| DashboardPage.Dashboard.FetchVoteCounts | src/pages/Dashboard.tsx:116-128 | with no election or an RPC error nothing changes; otherwise the returned counts |
| DashboardPage.Dashboard.HandleSignOut | src/pages/Dashboard.tsx:247-250 | the session ends |
| DashboardPage.Dashboard.HandleVote | src/pages/Dashboard.tsx:149-239 | the unwired duplicate: same guard on `elections[0]`, same gate, sentinel, insert and audit rules as `CastVote` |
| Queries.InsertByCreatedDesc | src/pages/Dashboard.tsx:65-69 | inserting into a newest-first list keeps it newest first and adds exactly that row |
| Queries.ElectionsNewestFirst | src/pages/Dashboard.tsx:65-69 | the query result is ordered by `created_at` descending and is a permutation of the table |
| Queries.CurrentElection | src/pages/Dashboard.tsx:282 | there is a current election iff the list is non-empty, and it is the list's first row |
| Queries.CurrentElectionIsNewest | src/pages/Dashboard.tsx:282 | for a non-empty table `elections[0]` exists, is one of its rows, and no election was created after it |
| Queries.CandidatesOf | src/pages/Dashboard.tsx:85-88 | a candidate is listed iff it is in the table and its `election_id` is the given election's id |
| Biometric.NativeAuthenticate | src/hooks/nativeBiometricAuth.js:7-31 | succeeds iff the plugin loads, reports biometry available and a successful prompt, and then returns `"native_biometric_verified"`; unavailable and cancelled give their messages; a failing import, `checkBiometry` or `authenticate` gives its own message after the prefix; every error carries the prefix |
| Biometric.UnavailableDoesNotPrompt | src/hooks/nativeBiometricAuth.js:10-27 | when biometry is unavailable the prompt's result plays no part |
| Biometric.NativeFailureIsPrefixedTwice | src/hooks/nativeBiometricAuth.js:28-30 | a native failure reaches the caller with "Native biometric authentication failed: " written twice |
| Biometric.Authenticate | src/hooks/useBiometric.tsx:5-43 | under Capacitor the native result (constant digest, or the helper's error prefixed once more); outside it without `PublicKeyCredential`, "No biometric hardware available"; a returned response gives SHA-256 of the serialised signed bytes; a `credentials.get` error passes its message through; a missing assertion or response is the unexpected-problem error |
| Biometric.SignedBytes | src/hooks/useBiometric.tsx:35-38 | the hashed buffer is `authenticatorData` when the response has it, and `clientDataJSON` otherwise |
| Biometric.ByteListText | src/hooks/useBiometric.tsx:39 | the serialised buffer is empty iff the buffer is, and holds only digits and commas |
| Biometric.WebAuthnUnusedUnderCapacitor | src/hooks/useBiometric.tsx:9-18 | under Capacitor the WebAuthn path is never taken: the outcome does not depend on the hash function |
| Biometric.DecimalText | src/hooks/useBiometric.tsx:39 | the decimal rendering of a byte is digits only and a single digit exactly below ten |
| Biometric.DecimalTextInjective | src/hooks/useBiometric.tsx:39 | distinct numbers render as distinct decimal strings |
| Biometric.ByteListTextInjective | src/hooks/useBiometric.tsx:36-39 | `Array.from(buffer).toString()` is injective, so distinct signed buffers reach SHA-256 as distinct strings |
| Biometric.Verify | src/components/dashboard/VotingSection.tsx:58-62 | match iff a digest is stored and equals the scan; no credential iff none is stored; mismatch otherwise |
| Biometric.NativeScanPassesEveryNativeEnrollment | src/components/dashboard/VotingSection.tsx:62 | any successful native scan matches any native enrollment |
| Store.StoredDigest | src/components/dashboard/VotingSection.tsx:52-60 | a digest is delivered iff the read succeeds and the user has a row, and it is that row's `fingerprint_hash` |
| Store.ProfileOf | src/pages/Admin.tsx:99-103 | a failed read is an error; otherwise the user's profile if the table has one, else null |
| SignInForm.SignInVerdict | src/components/auth/SignInForm.tsx:30-48 | logged in iff the scan succeeds and equals the stored digest; scan errors, a missing row and a mismatch each give their own message |
| SignInForm.HandleSignIn | src/components/auth/SignInForm.tsx:17-59 | a password error fails before any scan and leaves the session; on a returned user the session opens and is closed again only on a mismatch; login succeeds iff the stored hash equals the scanned one |
| SignUpForm.Enrolled | src/components/auth/SignUpForm.tsx:40-47 | an accepted enrollment of a user without a row stores the scanned digest untransformed with the device info, adds only that key and leaves other users' rows; a refused insert, or a user who already has a row, leaves the table unchanged |
| SignUpForm.HandleSignUp | src/components/auth/SignUpForm.tsx:19-63 | the scan comes first: a scan error or a `signUp` error creates no account and no biometric row; registration is reported whenever a user is returned, whether or not the enrollment insert was accepted |
| SignUpForm.EnrolledScanPassesGate | src/components/auth/SignUpForm.tsx:40-43 | after the enrollment of a user without a row the gate admits exactly the enrolling digest; a user who already had a row keeps the digest stored before |
| SignUpForm.RefusedEnrollmentLeavesNoDigest | src/components/auth/SignUpForm.tsx:39-52 | a refused, unchecked enrollment leaves a new user with no stored digest, although success was reported |
| AdminPage.StrictlyAdmin | src/pages/Admin.tsx:116 | admin only with a profile; a profile whose `is_admin` is null is not admin |
| AdminPage.TruthyAdmin | src/pages/Admin.tsx:193 | the login's truthiness test holds exactly when the strict `=== true` test does |
| AdminPage.AdminTestsAgree | src/pages/Admin.tsx:116 | the strict `=== true` test and the login's truthiness test agree; a missing profile, null or false is a denial |
| AdminPage.Admin.CheckAdminStatus | src/pages/Admin.tsx:97-134 | a failed read keeps the flag; otherwise admin iff a profile exists with `is_admin` true |
| AdminPage.Admin.CheckUser | src/pages/Admin.tsx:77-95 | a session error or no session changes nothing; otherwise the user is adopted and checked |
| AdminPage.Admin.HandleAdminLogin | src/pages/Admin.tsx:136-228 | a password error changes nothing; no user clears user and flag; a profile error, missing profile or falsy `is_admin` signs out and clears both; only `is_admin` true keeps the session and sets the flag; the panel shows iff so |
| AdminPage.Admin.PanelVisible | src/pages/Admin.tsx:372 | the admin panel shows only to a signed-in user whose admin flag is set; anyone else gets the login form |
| AdminPage.Admin.HandleSignOut | src/pages/Admin.tsx:365-370 | the session, user and flag are cleared and the panel hides |
| AdminPage.Admin.FetchElections | src/pages/Admin.tsx:230-253 | the list becomes the table newest first; a failed read keeps it |
| AdminPage.Admin.FetchCandidates | src/pages/Admin.tsx:255-272 | with no election or a failed read nothing changes; otherwise exactly the current election's candidates |
| AdminPage.Admin.FetchVoteCounts | src/pages/Admin.tsx:274-286 | with no election or an RPC error nothing changes; otherwise the returned counts |
| AdminPage.Admin.HandleAddCandidate | src/pages/Admin.tsx:301-331 | an empty trimmed name or no election is a no-op, as is a refused insert; otherwise one row with the trimmed name under `elections[0].id` is added and the field cleared |
| AdminPage.Admin.HandleCreateElection | src/pages/Admin.tsx:333-363 | an empty trimmed name or no user is a no-op, as is a refused insert; otherwise one row with the trimmed name and `created_by` the user id is added and the field cleared |
| AdminPage.Admin.DeleteElection | src/pages/Admin.tsx:495-519 | on success the table loses exactly the rows with that id; an error leaves it |
| AdminPage.CanDelete | src/pages/Admin.tsx:491 | delete is offered iff there is a user and the election's `created_by` is that user's id |
| AdminPage.CreatorMayDelete | src/pages/Admin.tsx:333-343 | an election created by a user is offered for deletion to that user and no one else |
| AdminPage.WithoutId | src/pages/Admin.tsx:498-501 | the rows kept are exactly those whose id differs |
| AdminPage.SumFrom | src/pages/Admin.tsx:613 | folding non-negative counts never lowers the accumulator |
| AdminPage.TotalVotes | src/pages/Admin.tsx:613 | the displayed total equals the sum of `vote_count` over the returned rows, and is never negative when no count is |
| AdminPage.TotalOfConcat | src/pages/Admin.tsx:613 | the total of two runs of rows is the sum of their totals |
| Text.Trim | src/pages/Admin.tsx:302 | the trimmed name is the input with some leading and some trailing characters cut, and every cut character is whitespace; it has no whitespace at either end, and is empty iff the input is all whitespace |
| Text.TrimIdempotent | src/pages/Admin.tsx:309 | trimming an already trimmed name changes nothing |

## Left out

- Rendering, toasts, navigation, loading flags and console logging. Only the ballot gate (`VotingSection.View`) and the admin-panel gate (`Admin.PanelVisible`) are modelled.
- The Supabase client and HTTP. Tables are in-memory fields. Read failures, insert refusals and RPC results are parameters.
- `has_user_voted`, `get_vote_counts`, `log_audit_event` and `is_current_user_admin` are server functions whose bodies are not visible. Their replies are parameters.
- The unique-vote constraint, row-level security and cascades are server-side. They appear only as an insert or delete error. No uniqueness rule is assumed for votes. A SELECT policy that hid rows silently is not modelled: the tail query sees the whole `votes` table, and the biometric and profile reads see the whole table.
- SHA-256, `JSON.stringify` and `uuid`/`now()` defaults are uninterpreted. A row id is a parameter.
- `window.crypto.getRandomValues`, the WebAuthn options and the plugin prompts. Only their outcomes are modelled: bytes, no assertion, or an error.
- Concurrency. The async handlers are modelled as sequential runs. The read-tail-then-insert sequence is not locked, so nothing is claimed about forks or double votes under interleaving.
- The follow-up fetches after a successful action (`fetchVoteCounts`, `fetchCandidates`, `fetchElections`) are not chained into the handlers. They exist as separate methods.
- The React effect scheduling that decides when each fetch runs (Dashboard.tsx:43-54, Admin.tsx:59-75).
- `fetchUserProfiles` and the users tab: display only, no decision.
- `loading` disables the buttons; it is not modelled.
- The sign-up form's extra fields (`full_name`, `roll_number`) go into account metadata only. They are not modelled.
- Biometric.NativeAuthenticate: the `e.message || e` fallback for an error with an empty message is not modelled. The message is taken as given.
- `users_biometrics` is keyed by `user_id`, so `.single()` sees at most one row per user. Duplicate rows, which make `.single()` fail, appear only as a failed read.
- SignUpForm.HandleSignUp: a session that `signUp` may open is not modelled. An account is an id in `Database.accounts`.
- AdminPage.Admin.DeleteElection: requires the delete button to be shown (`CanDelete`), because the handler exists only inside that branch.
- src/utils/blockchain.ts is not part of this model. It is a network client with mock results and is off the vote path.
- src/hooks/useNativeBiometric.ts, capacitor.config.ts, Index.tsx and AuthForm.tsx are not part of this model. They are unused wrappers, configuration, or UI only.
- Dates are opaque natural numbers. Their ISO string form is not modelled.
