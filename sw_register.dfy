/** src/scripts/utils/sw-register.js: the worker registration that runs at
    most once per page, the push-subscription gate behind it, the key
    decoder that fills a byte array in a loop, and the outcome table of
    `disableNotifications` and `getSubscription`. Every awaited browser
    call is an oracle field of an environment value. */
module SwRegister {
  import opened JsModel
  import opened Base64Url

  /** What the decoder returns: `null` for an empty key, the filled array,
      or the exception `atob` raises. */
  datatype KeyDecode = NullKey | KeyBytes(bytes: array<byte>) | DecodeThrows

  /** urlBase64ToUint8Array of sw-register.js: the same padding, translation
      and `atob` as the index.js version, then a loop copying character codes
      into a `Uint8Array` of the decoded length. */
  method UrlBase64ToUint8Array(s: string) returns (r: KeyDecode)
    ensures r.NullKey? <==> s == ""
    ensures r.DecodeThrows? <==> s != "" && UrlBase64ToBytes(s).None?
    ensures r.KeyBytes? ==> UrlBase64ToBytes(s) == Some(r.bytes[..])
  {
    if s == "" {
      return NullKey;
    }
    var decoded := Atob(ToStdAlphabet(Padded(s)));
    if decoded.None? {
      return DecodeThrows;
    }
    var raw := decoded.value;
    var out := new byte[|raw|];
    var i := 0;
    while i < |raw|
      invariant 0 <= i <= |raw|
      invariant forall j :: 0 <= j < i ==> out[j] == (raw[j] as int) % 256
    {
      out[i] := (raw[i] as int) % 256;
      i := i + 1;
    }
    assert out[..] == CharCodes(raw);
    r := KeyBytes(out);
  }

  // ---------------------------------------------------------------------------
  // registerSW

  /** The key the module is configured with: none. */
  const VapidPublicKey: string := ""

  /** Result of `Notification.requestPermission()`; a rejection reads as `Denied`. */
  datatype Permission = Granted | Denied | Default

  /** The browser, one field per awaited step of registerSW. */
  datatype SwEnv = SwEnv(
    swSupported: bool,     // 'serviceWorker' in navigator
    registerOk: bool,      // register('/service-worker.js') resolves
    pushManager: bool,     // 'PushManager' in window
    permission: Permission,
    subscribeOk: bool)     // pushManager.subscribe(...) resolves

  datatype RegisterOutcome =
    | AlreadyStarted       // the once-guard returned
    | Unsupported
    | RegistrationFailed   // register rejected; caught and logged
    | ReadyWithoutPush     // registered, no PushManager
    | PermissionNotGranted
    | NoKey                // the decoder gave null
    | KeyRejected          // the decoder threw; caught and logged
    | SubscribeFailed      // subscribe rejected; caught and logged
    | Subscribed(key: seq<byte>)

  /** One attempt of registerSW after the guard, with application-server key `key`. */
  function Attempt(env: SwEnv, key: string): RegisterOutcome
  {
    if !env.swSupported then Unsupported
    else if !env.registerOk then RegistrationFailed
    else if !env.pushManager then ReadyWithoutPush
    else if env.permission != Granted then PermissionNotGranted
    else if key == "" then NoKey
    else match UrlBase64ToBytes(key)
      case None => KeyRejected
      case Some(bytes) => if env.subscribeOk then Subscribed(bytes) else SubscribeFailed
  }

  /** A subscription is made only with permission granted and a non-empty key
      that decodes, and then with exactly the decoded key. */
  lemma SubscribeGate(env: SwEnv, key: string)
    ensures Attempt(env, key).Subscribed? <==>
      env.swSupported && env.registerOk && env.pushManager && env.permission == Granted
      && key != "" && UrlBase64ToBytes(key).Some? && env.subscribeOk
    ensures Attempt(env, key).Subscribed? ==> Attempt(env, key).key == UrlBase64ToBytes(key).value
  {
  }

  /** With the key configured as it is, no attempt ever subscribes. */
  lemma NeverSubscribes(env: SwEnv)
    ensures !Attempt(env, VapidPublicKey).Subscribed?
    ensures env.swSupported && env.registerOk && env.pushManager && env.permission == Granted
      ==> Attempt(env, VapidPublicKey) == NoKey
  {
  }

  /** The module-level `initialized` flag and the function guarded by it. */
  class Registrar {
    var initialized: bool

    constructor ()
      ensures !initialized
    {
      initialized := false;
    }

    /** The flag is set before any check, so whatever the first attempt does,
        every later call returns at once. */
    method RegisterSW(env: SwEnv) returns (o: RegisterOutcome)
      modifies this
      ensures initialized
      ensures o == if old(initialized) then AlreadyStarted else Attempt(env, VapidPublicKey)
    {
      if initialized {
        return AlreadyStarted;
      }
      initialized := true;
      o := TryRegister(env, VapidPublicKey);
    }
  }

  /** The body of registerSW after the guard, with the key it is configured with
      passed in: every rejection is caught and ends the attempt. */
  method TryRegister(env: SwEnv, key: string) returns (o: RegisterOutcome)
    ensures o == Attempt(env, key)
  {
    if !env.swSupported {
      return Unsupported;
    }
    if !env.registerOk {
      return RegistrationFailed;
    }
    if !env.pushManager {
      return ReadyWithoutPush;
    }
    if env.permission != Granted {
      return PermissionNotGranted;
    }
    var appServerKey := UrlBase64ToUint8Array(key);
    match appServerKey {
      case NullKey => o := NoKey;
      case DecodeThrows => o := KeyRejected;
      case KeyBytes(bytes) =>
        o := if env.subscribeOk then Subscribed(bytes[..]) else SubscribeFailed;
    }
  }

  /** Two page-load events: the second call does nothing, even when the first
      one failed and the browser would now succeed. */
  method FailedAttemptIsNotRetried(first: SwEnv, second: SwEnv)
    returns (o1: RegisterOutcome, o2: RegisterOutcome)
    ensures o1 == Attempt(first, VapidPublicKey)
    ensures o2 == AlreadyStarted
  {
    var registrar := new Registrar();
    o1 := registrar.RegisterSW(first);
    o2 := registrar.RegisterSW(second);
  }

  // ---------------------------------------------------------------------------
  // disableNotifications and getSubscription

  /** An awaited browser call: it rejects, or resolves with a value. */
  datatype Step<T> = Rejects | Resolves(value: T)

  datatype PushSubscription = PushSubscription(endpoint: string, unsubscribeRejects: bool)

  datatype Registration = Registration(
    hasPushManager: bool,
    subscription: Step<Option<PushSubscription>>)   // pushManager.getSubscription()

  datatype NotifyEnv = NotifyEnv(
    swSupported: bool,
    registration: Step<Option<Registration>>)         // serviceWorker.getRegistration()

  /** disableNotifications: `true` when no subscription is left to remove
      (already none, or removed), `false` when unsupported, unregistered,
      without a push manager, or when a step rejects. The boolean that
      `unsubscribe()` resolves with is not looked at. */
  function DisableNotifications(env: NotifyEnv): (r: bool)
    ensures !env.swSupported ==> !r
    ensures env.registration.Rejects? || env.registration == Resolves(None) ==> !r
    ensures (env.registration.Resolves? && env.registration.value.Some?
             && !env.registration.value.value.hasPushManager) ==> !r
    ensures r <==> (env.swSupported && env.registration.Resolves? && env.registration.value.Some?
      && var reg := env.registration.value.value;
         reg.hasPushManager && reg.subscription.Resolves?
         && (reg.subscription.value.None? || !reg.subscription.value.value.unsubscribeRejects))
  {
    if !env.swSupported then false
    else match env.registration
      case Rejects => false
      case Resolves(None) => false
      case Resolves(Some(reg)) =>
        if !reg.hasPushManager then false
        else match reg.subscription
          case Rejects => false
          case Resolves(None) => true
          case Resolves(Some(sub)) => !sub.unsubscribeRejects
  }

  /** getSubscription: the current subscription, or `null` on every failure path. */
  function GetSubscription(env: NotifyEnv): (r: Option<PushSubscription>)
    ensures r.Some? <==> (env.swSupported && env.registration.Resolves? && env.registration.value.Some?
      && env.registration.value.value.hasPushManager
      && env.registration.value.value.subscription.Resolves?
      && env.registration.value.value.subscription.value.Some?)
    ensures r.Some? ==> r.value == env.registration.value.value.subscription.value.value
  {
    if !env.swSupported then None
    else match env.registration
      case Rejects => None
      case Resolves(None) => None
      case Resolves(Some(reg)) =>
        if !reg.hasPushManager then None
        else match reg.subscription
          case Rejects => None
          case Resolves(sub) => sub
  }

  /** Where getSubscription finds nothing to remove, disableNotifications
      reports success exactly when the lookups themselves succeeded. */
  lemma DisableWithoutSubscription(env: NotifyEnv)
    requires GetSubscription(env).None?
    ensures DisableNotifications(env) <==>
      env.swSupported && env.registration.Resolves? && env.registration.value.Some?
      && env.registration.value.value.hasPushManager
      && env.registration.value.value.subscription == Resolves(None)
  {
  }
}
