/** The sign-up form: biometric scan, account creation, enrollment. */
module SignUpForm {
  import opened Common
  import opened Biometric
  import opened Store

  /** What the form reports: the "Registration Failed" toast with its
      message, a sign-up that returned no user (nothing is shown), or the
      "Registration Successful" toast. */
  datatype SignUpOutcome = RegistrationFailed(message: string) | NoUserReturned | Registered(userId: string)

  /** The biometrics table after the enrollment insert: the new row holds the
      scanned digest as delivered, with the device's user agent and time. A
      refused insert, and a plain insert on a `user_id` that already has a
      row, leave the table as it was. */
  function Enrolled(
    biometrics: map<string, BiometricRow>, userId: string, fingerprintHash: string,
    userAgent: string, now: Timestamp, insertAccepted: bool)
    : (r: map<string, BiometricRow>)
    ensures !insertAccepted || userId in biometrics ==> r == biometrics
    ensures insertAccepted && userId !in biometrics ==> r.Keys == biometrics.Keys + {userId}
    ensures insertAccepted && userId !in biometrics ==> r[userId] == BiometricRow(fingerprintHash, Some(DeviceInfo(userAgent, now)))
    ensures forall v :: v in biometrics && v != userId ==> v in r && r[v] == biometrics[v]
  {
    if insertAccepted && userId !in biometrics then biometrics[userId := BiometricRow(fingerprintHash, Some(DeviceInfo(userAgent, now)))]
    else biometrics
  }

  /** `handleSignUp`. The scan comes first; `signUp` is `auth.signUp`'s
      reply; the enrollment insert's result is never inspected, so
      `insertAccepted` changes the table but not the outcome. */
  method HandleSignUp(
    db: Database, env: Platform, sha256: string -> string, signUp: Result<Option<string>>,
    insertAccepted: bool, userAgent: string, now: Timestamp)
    returns (o: SignUpOutcome)
    modifies db`accounts, db`biometrics
    ensures Authenticate(env, sha256).Err? ==>
              && o == RegistrationFailed(Authenticate(env, sha256).message)
              && db.accounts == old(db.accounts) && db.biometrics == old(db.biometrics)
    ensures Authenticate(env, sha256).Ok? && signUp.Err? ==>
              && o == RegistrationFailed(signUp.message)
              && db.accounts == old(db.accounts) && db.biometrics == old(db.biometrics)
    ensures Authenticate(env, sha256).Ok? && signUp == Ok(None) ==>
              && o == NoUserReturned
              && db.accounts == old(db.accounts) && db.biometrics == old(db.biometrics)
    ensures Authenticate(env, sha256).Ok? && signUp.Ok? && signUp.value.Some? ==>
              && o == Registered(signUp.value.value)
              && db.accounts == old(db.accounts) + {signUp.value.value}
              && db.biometrics == Enrolled(old(db.biometrics), signUp.value.value, Authenticate(env, sha256).value,
                                           userAgent, now, insertAccepted)
  {
    var scan := Authenticate(env, sha256);
    if scan.Err? {
      return RegistrationFailed(scan.message);
    }
    if signUp.Err? {
      return RegistrationFailed(signUp.message);
    }
    if signUp.value.None? {
      return NoUserReturned;
    }
    var u := signUp.value.value;
    db.accounts := db.accounts + {u};
    db.biometrics := Enrolled(db.biometrics, u, scan.value, userAgent, now, insertAccepted);
    o := Registered(u);
  }

  /** An accepted enrollment is what the gate later reads back: a repeat of
      the enrolling scan passes, and any other digest is refused. A user who
      already had a row keeps the digest stored before. */
  lemma EnrolledScanPassesGate(
    biometrics: map<string, BiometricRow>, userId: string, enrolled: string, scanned: string,
    userAgent: string, now: Timestamp)
    ensures userId !in biometrics ==>
              StoredDigest(Enrolled(biometrics, userId, enrolled, userAgent, now, true), userId, true) == Some(enrolled)
    ensures userId !in biometrics ==>
              (Verify(StoredDigest(Enrolled(biometrics, userId, enrolled, userAgent, now, true), userId, true), scanned) == Match
               <==> scanned == enrolled)
    ensures userId in biometrics ==>
              StoredDigest(Enrolled(biometrics, userId, enrolled, userAgent, now, true), userId, true)
              == Some(biometrics[userId].fingerprintHash)
  {
  }

  /** "Registration Successful" is reported even when the enrollment insert
      is refused, leaving an account the gate will never admit. */
  lemma RefusedEnrollmentLeavesNoDigest(biometrics: map<string, BiometricRow>, userId: string,
                                         digest: string, userAgent: string, now: Timestamp)
    requires userId !in biometrics
    ensures StoredDigest(Enrolled(biometrics, userId, digest, userAgent, now, false), userId, true).None?
  {
  }
}
