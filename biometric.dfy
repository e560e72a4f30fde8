/** `biometricAuthenticate` and the native helper it loads, as outcome
    mappings over what the platform probes and prompts report, plus the
    stored-versus-scanned comparison every caller applies to the digest. */
module Biometric {
  import opened Common

  /** The digest the native helper returns for every successful prompt. */
  const NATIVE_DIGEST: string := "native_biometric_verified"
  /** Prepended to a native failure, once by the helper and once by its caller. */
  const NATIVE_PREFIX: string := "Native biometric authentication failed: "
  const CANCELLED_MESSAGE: string := "Biometric authentication failed or cancelled."
  const UNAVAILABLE_MESSAGE: string := "Biometric authentication unavailable on this device."
  const NO_HARDWARE_MESSAGE: string := "No biometric hardware available"
  const UNEXPECTED_MESSAGE: string := "Unexpected biometric authentication problem"

  type byte = b: int | 0 <= b < 256

  /** What the Capacitor biometric plugin does when the helper calls it:
      loading the plugin, `checkBiometry()` (its `isAvailable`) and
      `authenticate(...)` (its `success`). Each may also throw. */
  datatype NativePlugin = NativePlugin(
    load: Result<()>, checkBiometry: Result<bool>, authenticate: Result<bool>)

  /** The `response` of a WebAuthn assertion. */
  datatype AssertionResponse = AssertionResponse(
    authenticatorData: Option<seq<byte>>, clientDataJSON: seq<byte>)

  /** What `navigator.credentials.get` resolved to: null, or a credential,
      possibly without a response. */
  datatype Assertion = NoAssertion | Credential(response: Option<AssertionResponse>)

  /** The runtime environment, as the capability probes see it. */
  datatype Platform =
    | Capacitor(helper: Result<NativePlugin>)         // `window.Capacitor` is set; Err: the helper's require threw
    | Web(hasPublicKeyCredential: bool, get: Result<Assertion>)

  function DigitChar(d: nat): char
    requires d < 10
  {
    ('0' as int + d) as char
  }

  /** The decimal text of `n`, as `Number.prototype.toString` writes it. */
  function DecimalText(n: nat): (r: string)
    ensures |r| >= 1 && (|r| == 1 <==> n < 10)
    ensures forall k :: 0 <= k < |r| ==> '0' <= r[k] <= '9'
    decreases n
  {
    if n < 10 then [DigitChar(n)] else DecimalText(n / 10) + [DigitChar(n % 10)]
  }

  /** `Array.from(buffer).toString()`: the byte values in decimal, joined by
      commas. This is the string that is hashed. */
  function ByteListText(bytes: seq<byte>): (text: string)
    ensures text == [] <==> bytes == []
    ensures forall k :: 0 <= k < |text| ==> text[k] == ',' || '0' <= text[k] <= '9'
    decreases |bytes|
  {
    if |bytes| == 0 then ""
    else if |bytes| == 1 then DecimalText(bytes[0])
    else DecimalText(bytes[0]) + "," + ByteListText(bytes[1..])
  }

  lemma {:induction false} DecimalTextInjective(m: nat, n: nat)
    requires DecimalText(m) == DecimalText(n)
    ensures m == n
    decreases n
  {
    if m >= 10 && n >= 10 {
      var a, b := DecimalText(m), DecimalText(n);
      assert a[..|a| - 1] == DecimalText(m / 10) && b[..|b| - 1] == DecimalText(n / 10);
      DecimalTextInjective(m / 10, n / 10);
      assert DigitChar(m % 10) == a[|a| - 1] == b[|b| - 1] == DigitChar(n % 10);
    }
  }

  /** The text starts with the first byte's digits, which end at a comma
      exactly when more bytes follow. */
  lemma FirstNumberOf(a: seq<byte>)
    ensures |a| == 0 <==> ByteListText(a) == ""
    ensures |a| >= 1 ==> |DecimalText(a[0])| <= |ByteListText(a)|
                         && ByteListText(a)[..|DecimalText(a[0])|] == DecimalText(a[0])
    ensures |a| == 1 ==> ByteListText(a) == DecimalText(a[0])
    ensures |a| >= 2 ==> |DecimalText(a[0])| < |ByteListText(a)|
                         && ByteListText(a)[|DecimalText(a[0])|] == ','
                         && ByteListText(a)[|DecimalText(a[0])| + 1..] == ByteListText(a[1..])
  {
  }

  /** The hashed text determines the buffer: distinct authenticator data (or
      client data) never serialise to the same string. */
  lemma {:induction false} ByteListTextInjective(a: seq<byte>, b: seq<byte>)
    requires ByteListText(a) == ByteListText(b)
    ensures a == b
    decreases |a|
  {
    FirstNumberOf(a);
    FirstNumberOf(b);
    if |a| >= 1 && |b| >= 1 {
      var da, db := DecimalText(a[0]), DecimalText(b[0]);
      var t := ByteListText(a);
      // Neither number can run past the comma that ends the other.
      assert |da| == |db|;
      assert da == t[..|da|] == db;
      DecimalTextInjective(a[0], b[0]);
      if |a| >= 2 && |b| >= 2 {
        ByteListTextInjective(a[1..], b[1..]);
        assert a == [a[0]] + a[1..] && b == [b[0]] + b[1..];
      }
    }
  }

  /** `nativeBiometricAuth.authenticate`: the constant digest when the plugin
      reports biometry available and a successful prompt; otherwise every
      failure, its own and the plugin's, rethrown once prefixed. */
  function NativeAuthenticate(p: NativePlugin): (r: Result<string>)
    ensures r.Ok? <==> p.load.Ok? && p.checkBiometry == Ok(true) && p.authenticate == Ok(true)
    ensures r.Ok? ==> r.value == NATIVE_DIGEST
    ensures p.load.Err? ==> r == Err(NATIVE_PREFIX + p.load.message)
    ensures p.load.Ok? && p.checkBiometry.Err? ==> r == Err(NATIVE_PREFIX + p.checkBiometry.message)
    ensures (p.load.Ok? && p.checkBiometry == Ok(true) && p.authenticate.Err?)
              ==> r == Err(NATIVE_PREFIX + p.authenticate.message)
    ensures p.load.Ok? && p.checkBiometry == Ok(false) ==> r == Err(NATIVE_PREFIX + UNAVAILABLE_MESSAGE)
    ensures (p.load.Ok? && p.checkBiometry == Ok(true) && p.authenticate == Ok(false))
              ==> r == Err(NATIVE_PREFIX + CANCELLED_MESSAGE)
    ensures r.Err? ==> |r.message| >= |NATIVE_PREFIX| && r.message[..|NATIVE_PREFIX|] == NATIVE_PREFIX
  {
    match p.load
    case Err(m) => Err(NATIVE_PREFIX + m)
    case Ok(_) =>
      match p.checkBiometry
      case Err(m) => Err(NATIVE_PREFIX + m)
      case Ok(available) =>
        if !available then Err(NATIVE_PREFIX + UNAVAILABLE_MESSAGE)
        else match p.authenticate
          case Err(m) => Err(NATIVE_PREFIX + m)
          case Ok(success) =>
            if success then Ok(NATIVE_DIGEST) else Err(NATIVE_PREFIX + CANCELLED_MESSAGE)
  }

  /** The bytes the WebAuthn path hashes: `authenticatorData` when present,
      otherwise `clientDataJSON`. */
  function SignedBytes(response: AssertionResponse): (signed: seq<byte>)
    ensures response.authenticatorData.Some? ==> signed == response.authenticatorData.value
    ensures response.authenticatorData.None? ==> signed == response.clientDataJSON
  {
    if response.authenticatorData.Some? then response.authenticatorData.value
    else response.clientDataJSON
  }

  /** `biometricAuthenticate`: Capacitor first (the native helper's result,
      failures prefixed once more), else WebAuthn when `PublicKeyCredential`
      exists (SHA-256 of the serialised signed bytes), else no hardware. */
  function Authenticate(env: Platform, sha256: string -> string): (r: Result<string>)
    ensures env.Capacitor? && r.Ok? ==> r.value == NATIVE_DIGEST
    ensures env.Capacitor? && r.Err? ==> |r.message| >= |NATIVE_PREFIX| && r.message[..|NATIVE_PREFIX|] == NATIVE_PREFIX
    ensures env.Capacitor? ==> (r.Ok? <==> env.helper.Ok? && NativeAuthenticate(env.helper.value).Ok?)
    ensures env.Web? && !env.hasPublicKeyCredential ==> r == Err(NO_HARDWARE_MESSAGE)
    ensures env.Web? && r.Ok? ==>
              env.hasPublicKeyCredential && env.get.Ok? && env.get.value.Credential?
              && env.get.value.response.Some?
              && r.value == sha256(ByteListText(SignedBytes(env.get.value.response.value)))
    ensures (env.Web? && env.hasPublicKeyCredential && env.get.Ok?
             && (env.get.value.NoAssertion? || env.get.value.response.None?)) ==> r == Err(UNEXPECTED_MESSAGE)
    ensures (env.Web? && env.hasPublicKeyCredential && env.get.Ok? && env.get.value.Credential?
             && env.get.value.response.Some?)
            ==> r == Ok(sha256(ByteListText(SignedBytes(env.get.value.response.value))))
    ensures env.Web? && env.hasPublicKeyCredential && env.get.Err? ==> r == Err(env.get.message)
    ensures env.Capacitor? && env.helper.Err? ==> r == Err(NATIVE_PREFIX + env.helper.message)
  {
    match env
    case Capacitor(helper) =>
      (match helper
       case Err(m) => Err(NATIVE_PREFIX + m)
       case Ok(plugin) =>
         match NativeAuthenticate(plugin)
         case Ok(digest) => Ok(digest)
         case Err(m) => Err(NATIVE_PREFIX + m))
    case Web(hasPublicKeyCredential, get) =>
      if !hasPublicKeyCredential then Err(NO_HARDWARE_MESSAGE)
      else match get
        case Err(m) => Err(m)
        case Ok(assertion) =>
          if assertion.Credential? && assertion.response.Some? then
            Ok(sha256(ByteListText(SignedBytes(assertion.response.value))))
          else Err(UNEXPECTED_MESSAGE)
  }

  /** A failure of the native helper reaches the caller with the prefix
      written twice. */
  lemma NativeFailureIsPrefixedTwice(p: NativePlugin, sha256: string -> string)
    requires NativeAuthenticate(p).Err?
    ensures Authenticate(Capacitor(Ok(p)), sha256).Err?
    ensures Authenticate(Capacitor(Ok(p)), sha256).message
              == NATIVE_PREFIX + NATIVE_PREFIX + NativeAuthenticate(p).message[|NATIVE_PREFIX|..]
  {
  }

  /** When biometry is unavailable the plugin's prompt is never consulted:
      the outcome is the same whatever the prompt would have reported. */
  lemma UnavailableDoesNotPrompt(p: NativePlugin, prompt: Result<bool>)
    requires p.load.Ok? && p.checkBiometry == Ok(false)
    ensures NativeAuthenticate(p) == NativeAuthenticate(p.(authenticate := prompt))
  {
  }

  /** In a Capacitor environment the WebAuthn inputs play no part: the
      outcome depends on the native helper alone. */
  lemma {:induction false} WebAuthnUnusedUnderCapacitor(helper: Result<NativePlugin>, f: string -> string, g: string -> string)
    ensures Authenticate(Capacitor(helper), f) == Authenticate(Capacitor(helper), g)
  {
  }

  /** Thrown by every caller of the gate when no stored row could be read. */
  const NO_BIOMETRIC_MESSAGE: string := "No biometric data found. Please register first."

  /** The verdict of comparing the stored `fingerprint_hash` (absent when the
      row is missing or could not be read) with the scanned digest. */
  datatype Verdict = NoCredential | Mismatch | Match

  function Verify(stored: Option<string>, scanned: string): (v: Verdict)
    ensures v == Match <==> stored == Some(scanned)
    ensures v == NoCredential <==> stored.None?
    ensures v == Mismatch <==> stored.Some? && stored.value != scanned
  {
    if stored.None? then NoCredential
    else if stored.value == scanned then Match
    else Mismatch
  }

  /** Every native enrollment stores the same digest, so a successful native
      scan on any device passes the gate for any natively enrolled user:
      the gate then cannot tell voters apart. */
  lemma NativeScanPassesEveryNativeEnrollment(
    enrolledWith: Platform, scannedWith: Platform, sha256: string -> string)
    requires enrolledWith.Capacitor? && Authenticate(enrolledWith, sha256).Ok?
    requires scannedWith.Capacitor? && Authenticate(scannedWith, sha256).Ok?
    ensures Verify(Some(Authenticate(enrolledWith, sha256).value), Authenticate(scannedWith, sha256).value) == Match
  {
  }
}
