/** Values shared by the components of the gateway. */
module Types {

  datatype Option<+T> = None | Some(value: T)

  datatype Result<+T, +E> = Ok(value: T) | Err(error: E)

  /** An identifier in its canonical text form. */
  type Uuid = string

  /** A JSON value. The members of an object come in the order of their names, each once, so that equal values are
      equal here. */
  datatype Json =
    | Null
    | Bool(b: bool)
    | Number(text: string)
    | Str(s: string)
    | Arr(items: seq<Json>)
    | Obj(members: seq<Member>)

  datatype Member = Member(name: string, value: Json)

  function GetMember(members: seq<Member>, name: string): Option<Json> {
    if members == [] then None
    else if members[0].name == name then Some(members[0].value)
    else GetMember(members[1..], name)
  }

  const U64_MODULUS: nat := 0x1_0000_0000_0000_0000
  const U64_MAX: nat := U64_MODULUS - 1

  type U64 = n: nat | n < U64_MODULUS

  /** What a `u64` keeps of an exact sum in a release build: its remainder modulo 2^64. */
  function LowBits(n: nat): U64 {
    if n < U64_MODULUS then n else LowBits(n - U64_MODULUS)
  }

  /** `u64` addition as a release build performs it. */
  function WrappingAdd(a: U64, b: U64): U64 {
    if a + b < U64_MODULUS then a + b else a + b - U64_MODULUS
  }

  lemma {:induction false} WrapEarly(exact: nat, b: U64)
    ensures WrappingAdd(LowBits(exact), b) == LowBits(exact + b)
  {
    if exact >= U64_MODULUS {
      WrapEarly(exact - U64_MODULUS, b);
    }
  }

  /** `u64::saturating_add`. */
  function SaturatingAdd(a: nat, b: nat): U64 {
    if a + b < U64_MODULUS then a + b else U64_MAX
  }

  /** The longest configured duration, in seconds, that converts to the clock's own duration type. */
  const MAX_DURATION_SECONDS: nat := 9_223_372_036_854_775

  /** The last second of the calendar, at the end of the year 262142; an instant beyond it panics. */
  const MAX_INSTANT: int := 8_210_266_876_799

  /** Where these two bounds come from: 2^63 - 1 milliseconds, and the days from the epoch to the end of that year. */
  lemma ClockBounds()
    ensures MAX_DURATION_SECONDS == 0x7FFF_FFFF_FFFF_FFFF / 1000
    ensures MAX_INSTANT + 1 ==
            86_400 * (365 * (262_143 - 1970) + (262_142 / 4 - 262_142 / 100 + 262_142 / 400)
                      - (1969 / 4 - 1969 / 100 + 1969 / 400))
  {}

  predicate HasExpiry(now: int, seconds: nat) {
    seconds <= MAX_DURATION_SECONDS && now + seconds <= MAX_INSTANT
  }

  datatype TokenUsage = TokenUsage(promptTokens: U64, completionTokens: U64, estimated: bool) {
    function TotalTokens(): U64 {
      WrappingAdd(promptTokens, completionTokens)
    }
  }

  datatype UsageStatus = Succeeded | ProviderFailed | Interrupted

  datatype QuotaOwner = Tenant(id: string) | VirtualKey(keyId: Uuid)

  datatype Principal = Principal(
    principalId: string,
    tenantId: string,
    projectId: Option<string>,
    scopes: seq<string>,
    virtualKeyId: Option<Uuid>)

  datatype ModelRoute = ModelRoute(provider: string, requestedModel: string, upstreamModel: string)

  datatype QuotaReservation = QuotaReservation(
    reservationId: Uuid,
    requestId: Uuid,
    owner: QuotaOwner,
    tenantId: string,
    principalId: string,
    route: ModelRoute,
    promptTokens: U64,
    completionTokens: U64,
    expiresAt: int)
  {
    function ReservedTokens(): U64 {
      WrappingAdd(promptTokens, completionTokens)
    }
  }

  datatype UsageEvent = UsageEvent(
    requestId: Uuid,
    tenantId: string,
    principalId: string,
    route: ModelRoute,
    usage: TokenUsage,
    status: UsageStatus,
    occurredAt: int)

  /** The event that `record_usage` and `reconcile_expired` write for a reservation. */
  function EventFor(r: QuotaReservation, usage: TokenUsage, status: UsageStatus, now: int): UsageEvent {
    UsageEvent(r.requestId, r.tenantId, r.principalId, r.route, usage, status, now)
  }

  datatype SecurityAction = Allow | Warn | Redact | RequireApproval | Block {
    function Priority(): nat {
      match this
      case Allow => 0
      case Warn => 1
      case Redact => 2
      case RequireApproval => 3
      case Block => 4
    }
  }

  /** Instants are seconds since the epoch; a UTC day has 86400 of them. */
  function Day(at: int): int {
    at / 86400
  }

  /** The length of a text in bytes. */
  function Utf8Length(s: string): nat {
    if s == "" then 0
    else
      var code := s[0] as int;
      (if code < 0x80 then 1 else if code < 0x800 then 2 else if code < 0x1_0000 then 3 else 4) + Utf8Length(s[1..])
  }
}
