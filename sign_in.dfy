/** The sign-in form: password sign-in followed by the biometric gate. */
module SignInForm {
  import opened Common
  import opened Biometric
  import opened Store

  const SIGN_IN_MISMATCH_MESSAGE: string := "Fingerprint did not match. Access denied."

  /** What the form reports: the "Login Failed" toast with its message, a
      sign-in that returned no user (nothing is shown), or success. */
  datatype SignInOutcome = LoginFailed(message: string) | NoUserReturned | LoggedIn(userId: string)

  /** The gate after a password sign-in that returned `userId`. */
  function SignInVerdict(scan: Result<string>, stored: Option<string>, userId: string): (o: SignInOutcome)
    ensures o == LoggedIn(userId) <==> scan.Ok? && stored == Some(scan.value)
    ensures o.LoginFailed? <==> !(scan.Ok? && stored == Some(scan.value))
    ensures scan.Err? ==> o == LoginFailed(scan.message)
    ensures scan.Ok? && stored.None? ==> o == LoginFailed(NO_BIOMETRIC_MESSAGE)
    ensures scan.Ok? && stored.Some? && stored.value != scan.value ==> o == LoginFailed(SIGN_IN_MISMATCH_MESSAGE)
  {
    match scan
    case Err(m) => LoginFailed(m)
    case Ok(scanned) =>
      match Verify(stored, scanned)
      case NoCredential => LoginFailed(NO_BIOMETRIC_MESSAGE)
      case Mismatch => LoginFailed(SIGN_IN_MISMATCH_MESSAGE)
      case Match => LoggedIn(userId)
  }

  /** Only a mismatch signs the password session out again. */
  predicate SignsOut(scan: Result<string>, stored: Option<string>) {
    scan.Ok? && Verify(stored, scan.value) == Mismatch
  }

  /** `handleSignIn`. `password` is `signInWithPassword`'s reply (its error
      message, or the returned user if any); a successful sign-in opens the
      session before the scan. */
  method HandleSignIn(
    db: Database, password: Result<Option<string>>, env: Platform, sha256: string -> string,
    biometricReadOk: bool)
    returns (o: SignInOutcome)
    modifies db`session
    ensures password.Err? ==> o == LoginFailed(password.message) && db.session == old(db.session)
    ensures password == Ok(None) ==> o == NoUserReturned && db.session == old(db.session)
    ensures password.Ok? && password.value.Some? ==>
              var u := password.value.value;
              var scan := Authenticate(env, sha256);
              var stored := StoredDigest(db.biometrics, u, biometricReadOk);
              && o == SignInVerdict(scan, stored, u)
              && db.session == if SignsOut(scan, stored) then None else Some(u)
    ensures o.LoggedIn? <==>
              && password.Ok? && password.value.Some?
              && Authenticate(env, sha256).Ok?
              && StoredDigest(db.biometrics, password.value.value, biometricReadOk) == Some(Authenticate(env, sha256).value)
    ensures o.LoggedIn? ==> db.session == Some(o.userId)
  {
    if password.Err? {
      return LoginFailed(password.message);
    }
    if password.value.None? {
      return NoUserReturned;
    }
    var u := password.value.value;
    db.session := Some(u);
    var scan := Authenticate(env, sha256);
    var stored := StoredDigest(db.biometrics, u, biometricReadOk);
    if SignsOut(scan, stored) {
      db.session := None;
    }
    o := SignInVerdict(scan, stored, u);
  }
}
