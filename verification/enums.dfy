/** The four open enumerations of the protocol. Each has named variants and a
    catch-all `Other` that keeps any unrecognised text verbatim, so decoding
    never fails because a server sent a value this client does not know. */
module Enums {
  import Wire

  // ---------------------------------------------------------------------
  // NEnvironment

  datatype NEnvironment = Production | Development | Other(text: string) {
    /** Not an `Other` carrying one of the named literals (such a value is
        never produced by `EnvironmentFrom`). */
    predicate Canonical() {
      Other? ==> text !in ENVIRONMENT_NAMES
    }
  }

  const ENVIRONMENT_NAMES: set<string> := {"PRODUCTION", "DEVELOPMENT"}

  /** Wire text of an environment (reverse of `EnvironmentFrom`). */
  function EnvironmentText(e: NEnvironment): string {
    match e
    case Production => "PRODUCTION"
    case Development => "DEVELOPMENT"
    case Other(t) => t
  }

  /** `From<&str> for NEnvironment`: total, and the text is never lost. */
  function EnvironmentFrom(value: string): (r: NEnvironment)
    ensures EnvironmentText(r) == value
    ensures r.Other? <==> value !in ENVIRONMENT_NAMES
    ensures r.Canonical()
  {
    match value
    case "PRODUCTION" => Production
    case "DEVELOPMENT" => Development
    case _ => NEnvironment.Other(value)
  }

  lemma EnvironmentRoundTrip(e: NEnvironment)
    requires e.Canonical()
    ensures EnvironmentFrom(EnvironmentText(e)) == e
  {
  }

  // ---------------------------------------------------------------------
  // NProtocol

  datatype NProtocol = Storm | Other(text: string) {
    predicate Canonical() {
      Other? ==> text != "STORM"
    }
  }

  /** `From<NProtocol> for &str`: the protocol's wire text. */
  function ProtocolText(p: NProtocol): (r: string)
    ensures r == "STORM" <==> p == Storm || p == NProtocol.Other("STORM")
  {
    match p
    case Storm => "STORM"
    case Other(t) => t
  }

  /** `From<&str> for NProtocol`. */
  function ProtocolFrom(value: string): (r: NProtocol)
    ensures ProtocolText(r) == value
    ensures r.Other? <==> value != "STORM"
    ensures r.Canonical()
  {
    if value == "STORM" then Storm else NProtocol.Other(value)
  }

  lemma ProtocolRoundTrip(p: NProtocol)
    requires p.Canonical()
    ensures ProtocolFrom(ProtocolText(p)) == p
  {
  }

  // ---------------------------------------------------------------------
  // NAccess

  datatype NAccess = None | Trial | Other(text: string) {
    predicate Canonical() {
      Other? ==> text != "TRIAL"
    }
  }

  /** The optional access segment an access value stands for (reverse of
      `AccessFrom`). */
  function AccessText(a: NAccess): Wire.Option<string> {
    match a
    case None => Wire.None
    case Trial => Wire.Some("TRIAL")
    case Other(t) => Wire.Some(t)
  }

  /** `From<Option<&str>> for NAccess`: an absent segment is `None`, "TRIAL"
      is `Trial`, any other present text is `Other`. */
  function AccessFrom(value: Wire.Option<string>): (r: NAccess)
    ensures AccessText(r) == value
    ensures r.None? <==> value.None?
    ensures r.Other? <==> value.Some? && value.value != "TRIAL"
    ensures r.Canonical()
  {
    match value
    case None => NAccess.None
    case Some(t) => if t == "TRIAL" then Trial else NAccess.Other(t)
  }

  lemma AccessRoundTrip(a: NAccess)
    requires a.Canonical()
    ensures AccessFrom(AccessText(a)) == a
  {
  }

  // ---------------------------------------------------------------------
  // PaymentStatus

  datatype PaymentStatus = NeedBill | Free | FreeToPlay | Expired | NewToGame | Other(text: string) {
    predicate Canonical() {
      Other? ==> text !in PAYMENT_STATUS_NAMES
    }
  }

  const PAYMENT_STATUS_NAMES: set<string> :=
    {"NEED_BILL", "FREE", "FREE_TO_PLAY", "EXPIRED", "NEW_TO_GAME"}

  /** Wire text of a payment status (reverse of `PaymentStatusFrom`). */
  function PaymentStatusText(s: PaymentStatus): string {
    match s
    case NeedBill => "NEED_BILL"
    case Free => "FREE"
    case FreeToPlay => "FREE_TO_PLAY"
    case Expired => "EXPIRED"
    case NewToGame => "NEW_TO_GAME"
    case Other(t) => t
  }

  /** `From<&str> for PaymentStatus`. */
  function PaymentStatusFrom(value: string): (r: PaymentStatus)
    ensures PaymentStatusText(r) == value
    ensures r.Other? <==> value !in PAYMENT_STATUS_NAMES
    ensures r.Canonical()
  {
    match value
    case "NEED_BILL" => NeedBill
    case "FREE" => Free
    case "FREE_TO_PLAY" => FreeToPlay
    case "EXPIRED" => Expired
    case "NEW_TO_GAME" => NewToGame
    case _ => PaymentStatus.Other(value)
  }

  lemma PaymentStatusRoundTrip(s: PaymentStatus)
    requires s.Canonical()
    ensures PaymentStatusFrom(PaymentStatusText(s)) == s
  {
  }
}
