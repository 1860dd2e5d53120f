/** The FCM auth state machine (`fcm.py`): one pure transition function and the classifiers that feed it. */
module Fcm {
  import opened Store
  import J = Json

  const ACCESS_TOKEN_SKEW_SECONDS := 300
  const ASSERTION_TTL_SECONDS := 3600
  const OAUTH_FAILURE_BACKOFF_SECONDS := 60
  const GRANT_BACKOFF_BASE_SECONDS := 10
  const DENIED_BACKOFF_BASE_SECONDS := 60
  const BACKOFF_CAP_SECONDS := 900

  type Token = string

  datatype Phase =
    | Empty
    | Cached(token: Token, expiresAt: real)
    | MintBackoff(until: real)
    | SendDenied(until: real)

  /** `since` is when the phase was entered; None stands for minus infinity. */
  datatype AuthState = AuthState(phase: Phase, strikes: nat, since: Option<real>)

  const INITIAL := AuthState(Empty, 0, None)

  datatype MintFailure = Credential | Unreadable | Grant

  datatype Event =
    | Minted(token: Token, expiresAt: real)
    | MintFailed(kind: MintFailure)
    | Blinked
    | Refused(bearer: Token)
    | Denied(sentAt: real)
    | Delivered
    | DeviceLocal
    | Tick
    | Unclassified(status: int, errorCode: string)

  function Pow2(n: nat): (p: nat)
    ensures p >= 1
  {
    if n == 0 then 1 else 2 * Pow2(n - 1)
  }

  function Min(a: nat, b: nat): (m: nat) { if a < b then a else b }

  /** `_grow`: the exponent is capped before the power. */
  function Grow(base: nat, strikes: nat): (seconds: nat) {
    Min(base * Pow2(Min(if strikes == 0 then 0 else strikes - 1, 16)), BACKOFF_CAP_SECONDS)
  }

  /** `transition`: the only writer of the auth state. */
  function Transition(s: AuthState, e: Event, now: real): (r: AuthState) {
    if e.Tick? then
      if (s.phase.Cached? && now >= s.phase.expiresAt)
         || ((s.phase.MintBackoff? || s.phase.SendDenied?) && now >= s.phase.until)
      then AuthState(Empty, s.strikes, Some(now))
      else s
    else if s.phase.SendDenied? then s
    else match e
      case Minted(token, expiresAt) => AuthState(Cached(token, expiresAt), s.strikes, Some(now))
      case MintFailed(kind) =>
        var strikes := s.strikes + 1;
        var window := if kind.Grant? then Grow(GRANT_BACKOFF_BASE_SECONDS, strikes) else OAUTH_FAILURE_BACKOFF_SECONDS;
        AuthState(MintBackoff(now + window as real), strikes, Some(now))
      case Denied(sentAt) =>
        if s.since.Some? && sentAt < s.since.value then s
        else
          var strikes := s.strikes + 1;
          AuthState(SendDenied(now + Grow(DENIED_BACKOFF_BASE_SECONDS, strikes) as real), strikes, Some(now))
      case Refused(bearer) =>
        if s.phase.Cached? && s.phase.token == bearer then AuthState(Empty, s.strikes, Some(now)) else s
      case Delivered => if s.phase.Empty? || s.phase.Cached? then s.(strikes := 0) else s
      case _ => s
  }

  datatype Action = Have(token: Token) | Mint | Silent

  /** `get`: what a caller may do now. */
  function Get(s: AuthState): (a: Action) {
    if s.phase.Cached? then Have(s.phase.token) else if s.phase.Empty? then Mint else Silent
  }

  // ---- reading responses

  const FCM_ERROR_TYPE := "type.googleapis.com/google.firebase.fcm.v1.FcmError"

  function CodeOf(details: seq<J.Json>): (code: string) {
    if details == [] then ""
    else if details[0].Obj? && J.Get(details[0], "@type") == J.Str(FCM_ERROR_TYPE) then
      var c := J.Get(details[0], "errorCode");
      if c.Str? then c.s else ""
    else CodeOf(details[1..])
  }

  /** `_fcm_error_code`: read by type, never by position. */
  function FcmErrorCode(body: J.Json): (code: string) {
    var details := J.Get(J.Get(body, "error"), "details");
    if details.Arr? then CodeOf(details.items) else ""
  }

  /** `classify_send`. */
  function ClassifySend(status: int, body: J.Json, bearer: Token, sentAt: real): (e: Event) {
    if status == 200 then Delivered
    else if status == 429 || status >= 500 then Blinked
    else if status == 401 then Refused(bearer)
    else
      var code := FcmErrorCode(body);
      if code in {"UNREGISTERED", "SENDER_ID_MISMATCH", "INVALID_ARGUMENT"} then DeviceLocal
      else if status == 403 && J.Get(J.Get(body, "error"), "status") == J.Str("PERMISSION_DENIED") && code == "" then Denied(sentAt)
      else Unclassified(status, code)
  }

  /** What `int(x)` does: reads an integer, raises the TypeError or ValueError that is caught, or raises
      OverflowError. */
  datatype Reading = Reads(n: int) | Caught | Overflows

  /** Python's `int(x)` on a JSON value, with the reading of decimal text as a parameter. */
  function IntOf(x: J.Json, ofText: string -> Option<int>): (n: Reading) {
    match x
    case Int(n) => Reads(n)
    case Bool(b) => Reads(if b then 1 else 0)
    case Float(r) => Reads(if r >= 0.0 then r.Floor else -(-r).Floor)
    case Infinite => Overflows
    case Str(s) => if ofText(s).Some? then Reads(ofText(s).value) else Caught
    case _ => Caught
  }

  /** The least integer that adding to a float overflows on: halfway between the largest double and 2^1024. */
  function FloatLimit(): (n: int) { Pow2(1024) - Pow2(970) }

  /** The lifetime a response claims, less the skew. */
  function LifeOf(body: J.Json, ofText: string -> Option<int>): (life: Reading)
    requires body.Obj?
  {
    if "expires_in" !in body.fields then Reads(ASSERTION_TTL_SECONDS - ACCESS_TOKEN_SKEW_SECONDS) else
      var n := IntOf(body.fields["expires_in"], ofText);
      if n.Reads? then Reads(n.n - ACCESS_TOKEN_SKEW_SECONDS) else n
  }

  /** `classify_mint`; None where it raises OverflowError instead of classifying. */
  function ClassifyMint(status: int, body: J.Json, now: real, ofText: string -> Option<int>): (e: Option<Event>) {
    if status == 429 || status >= 500 then Some(Blinked)
    else if status == 200 then
      if !body.Obj? then Some(MintFailed(Unreadable)) else
        var token := J.Get(body, "access_token");
        if !token.Str? || token.s == "" then Some(MintFailed(Unreadable)) else
          var life := LifeOf(body, ofText);
          match life
          case Caught => Some(MintFailed(Unreadable))
          case Overflows => None
          case Reads(n) =>
            if n >= FloatLimit() then None
            else Some(Minted(token.s, now + (if n > 0 then n else 0) as real))
    else if status == 400 && J.Get(body, "error") == J.Str("invalid_grant") then Some(MintFailed(Grant))
    else Some(MintFailed(Unreadable))
  }

  /** `classify_mint` is documented as total. It is, except on a 200 with a usable token whose `expires_in` is an
      infinite float or too large to add to the clock. */
  lemma MintRaisesIff(status: int, body: J.Json, now: real, ofText: string -> Option<int>)
    ensures ClassifyMint(status, body, now, ofText).None? <==>
            && status == 200 && body.Obj? && J.Get(body, "access_token").Str? && J.Get(body, "access_token").s != ""
            && "expires_in" in body.fields
            && var x := body.fields["expires_in"];
            x.Infinite? || (IntOf(x, ofText).Reads? && IntOf(x, ofText).n >= FloatLimit() + ACCESS_TOKEN_SKEW_SECONDS)
  {
    FloatLimitIsLarge();
    hide Pow2, FloatLimit;
  }

  lemma FloatLimitIsLarge()
    ensures FloatLimit() > 4000
  {
    Pow2Grows(970, 1023);
    Pow2Grows(12, 970);
    assert Pow2(1024) == 2 * Pow2(1023);
    assert Pow2(12) == 4096 by {
      assert Pow2(4) == 16 && Pow2(8) == 16 * Pow2(4) && Pow2(12) == 16 * Pow2(8);
    }
    hide Pow2;
  }

  /** A token with `"expires_in": 1e999` escapes the table. */
  lemma InfiniteLifetimeRaises(now: real, ofText: string -> Option<int>)
    ensures ClassifyMint(200, J.Obj(map["access_token" := J.Str("t"), "expires_in" := J.Infinite]), now, ofText) == None
  {
    var body := J.Obj(map["access_token" := J.Str("t"), "expires_in" := J.Infinite]);
    hide Pow2, FloatLimit;
    assert J.Get(body, "access_token") == J.Str("t") && "expires_in" in body.fields;
    assert body.fields["expires_in"] == J.Infinite;
    MintRaisesIff(200, body, now, ofText);
    hide ClassifyMint;
  }

  /** Where the FcmError detail stands in the list, and what else stands before it, never matters. */
  lemma {:induction false} CodeReadByType(before: seq<J.Json>, detail: J.Json, rest: seq<J.Json>)
    requires forall d :: d in before ==> J.Get(d, "@type") != J.Str(FCM_ERROR_TYPE)
    requires detail.Obj? && J.Get(detail, "@type") == J.Str(FCM_ERROR_TYPE)
    ensures CodeOf(before + [detail] + rest)
            == if J.Get(detail, "errorCode").Str? then J.Get(detail, "errorCode").s else ""
  {
    var all := before + [detail] + rest;
    if before == [] {
      assert all[0] == detail;
    } else {
      assert all[0] == before[0] && all[1..] == before[1..] + [detail] + rest;
      CodeReadByType(before[1..], detail, rest);
    }
  }

  /** A response that carries no such detail, or no list of details, has no code. */
  lemma {:induction false} NoDetailNoCode(details: seq<J.Json>)
    requires forall d :: d in details ==> !d.Obj? || J.Get(d, "@type") != J.Str("type.googleapis.com/google.firebase.fcm.v1.FcmError")
    ensures CodeOf(details) == ""
  {
    if details != [] {
      NoDetailNoCode(details[1..]);
    }
  }

  /** The code of a response is the code of its `error.details`. */
  lemma CodeIsOfDetails(body: J.Json)
    ensures FcmErrorCode(body) ==
            if J.Get(J.Get(body, "error"), "details").Arr? then CodeOf(J.Get(J.Get(body, "error"), "details").items) else ""
  {
  }

  /** A claimed lifetime is read as Python reads it: integers as they are, floats cut toward zero, booleans as 0 and 1;
      null, lists and objects are caught. */
  lemma LifetimeReads(ofText: string -> Option<int>)
    ensures forall n :: IntOf(J.Int(n), ofText) == Reads(n)
    ensures forall r :: IntOf(J.Float(r), ofText).Reads?
                        && var n := IntOf(J.Float(r), ofText).n;
                        if r >= 0.0 then n as real <= r < n as real + 1.0 else n as real - 1.0 < r <= n as real
    ensures IntOf(J.Bool(true), ofText) == Reads(1) && IntOf(J.Bool(false), ofText) == Reads(0)
    ensures IntOf(J.Null, ofText) == Caught && IntOf(J.NotANumber, ofText) == Caught && IntOf(J.Infinite, ofText) == Overflows
    ensures forall xs :: IntOf(J.Arr(xs), ofText) == Caught
    ensures forall o :: IntOf(J.Obj(o), ofText) == Caught
  {
  }

  /** One response silences the whole island only on all three facts: 403, PERMISSION_DENIED, and no FcmError
      code; a device's own verdict never does. */
  lemma OnlyBareDenialIsIslandWide(status: int, body: J.Json, bearer: Token, sentAt: real)
    ensures ClassifySend(status, body, bearer, sentAt).Denied? <==>
            status == 403 && J.Get(J.Get(body, "error"), "status") == J.Str("PERMISSION_DENIED") && FcmErrorCode(body) == ""
    ensures ClassifySend(status, body, bearer, sentAt).Refused? ==> ClassifySend(status, body, bearer, sentAt) == Refused(bearer)
    ensures ClassifySend(status, body, bearer, sentAt).Denied? ==> ClassifySend(status, body, bearer, sentAt) == Denied(sentAt)
  {
  }

  /** The rest of the table, by status: 200 is delivered; 429 and 5xx are the provider's bad second; 401 refuses the
      bearer it carried; of the others a code of one device is that device's own. */
  lemma SendClassified(status: int, body: J.Json, bearer: Token, sentAt: real)
    ensures var e := ClassifySend(status, body, bearer, sentAt);
            && (e == Delivered <==> status == 200)
            && (e == Blinked <==> status == 429 || status >= 500)
            && (e == Refused(bearer) <==> status == 401)
            && (e == DeviceLocal <==>
                  !(status == 200 || status == 401 || status == 429 || status >= 500)
                  && (FcmErrorCode(body) == "UNREGISTERED" || FcmErrorCode(body) == "SENDER_ID_MISMATCH"
                      || FcmErrorCode(body) == "INVALID_ARGUMENT"))
            && !e.Tick? && !e.Minted? && !e.MintFailed?
            && (e.Unclassified? ==> e == Unclassified(status, FcmErrorCode(body)))
  {
    hide FcmErrorCode;
  }

  /** Mint answers, by status: 429 and 5xx never count against the key; a grant failure is exactly a 400 that says
      `invalid_grant`; a token is cached exactly from a readable 200, until the lifetime it claims, an hour when it
      claims none, less 300 seconds, and never into the past. */
  lemma MintClassified(status: int, body: J.Json, now: real, ofText: string -> Option<int>)
    ensures var e := ClassifyMint(status, body, now, ofText);
            && (e == Some(Blinked) <==> status == 429 || status >= 500)
            && (e == Some(MintFailed(Grant)) <==> status == 400 && J.Get(body, "error") == J.Str("invalid_grant"))
            && (e.Some? ==> e.value.Blinked? || e.value == MintFailed(Grant) || e.value == MintFailed(Unreadable) || e.value.Minted?)
            && (e.Some? && e.value.Minted? ==>
                  && status == 200 && body.Obj? && J.Get(body, "access_token") == J.Str(e.value.token) && e.value.token != ""
                  && e.value.expiresAt >= now
                  && ("expires_in" !in body.fields ==> e.value.expiresAt == now + 3300.0)
                  && ("expires_in" in body.fields ==>
                        var n := IntOf(body.fields["expires_in"], ofText);
                        n.Reads? && e.value.expiresAt == now + if n.n > 300 then (n.n - 300) as real else 0.0))
            && (status == 200 && body.Obj? && J.Get(body, "access_token").Str? && J.Get(body, "access_token").s != ""
                && ("expires_in" !in body.fields || IntOf(body.fields["expires_in"], ofText).Reads?) ==>
                  e.None? || e.value.Minted?)
  {
    hide Pow2, FloatLimit, IntOf;
  }

  // ---- backoff arithmetic

  lemma {:induction false} Pow2Grows(m: nat, n: nat)
    requires m <= n
    ensures Pow2(m) <= Pow2(n)
    decreases n - m
  {
    if m < n {
      Pow2Grows(m, n - 1);
    }
  }

  /** The capped exponent changes nothing: the window is min(base * 2^(strikes - 1), 900) for every strike count. */
  lemma GrowClosedForm(base: nat, strikes: nat)
    requires base >= 1 && strikes >= 1
    ensures Grow(base, strikes) == Min(base * Pow2(strikes - 1), BACKOFF_CAP_SECONDS)
  {
    if strikes - 1 > 16 {
      Pow2Grows(16, strikes - 1);
      assert Pow2(16) == 65536 by {
        assert Pow2(4) == 16;
        assert Pow2(8) == 256;
        assert Pow2(12) == 4096;
      }
      Product(base, Pow2(16));
      Product(base, Pow2(strikes - 1));
    }
  }

  lemma Product(base: nat, p: nat)
    requires base >= 1
    ensures base * p >= p
  {
  }

  /** More strikes never mean a shorter window, and no denial window is shorter than a minute. */
  lemma GrowMonotone(base: nat, m: nat, n: nat)
    requires m <= n
    ensures Grow(base, m) <= Grow(base, n)
    ensures 60 <= Grow(DENIED_BACKOFF_BASE_SECONDS, n) <= BACKOFF_CAP_SECONDS
  {
    var a, b := Min(if m == 0 then 0 else m - 1, 16), Min(if n == 0 then 0 else n - 1, 16);
    Pow2Grows(a, b);
    assert base * Pow2(a) <= base * Pow2(b);
  }

  // ---- one step

  /** A denial is counted when it moves the machine. */
  predicate CountsDenial(s: AuthState, e: Event) {
    e.Denied? && !s.phase.SendDenied? && !(s.since.Some? && e.sentAt < s.since.value)
  }

  predicate CountsMintFailure(s: AuthState, e: Event) { e.MintFailed? && !s.phase.SendDenied? }

  predicate Resets(s: AuthState, e: Event) { e.Delivered? && (s.phase.Empty? || s.phase.Cached?) }

  /** A denial window is ended by time only: whatever arrives, the phase stays until a Tick at the deadline. */
  lemma DenialEndsByTimeOnly(s: AuthState, e: Event, now: real)
    requires s.phase.SendDenied?
    ensures Transition(s, e, now) == if e.Tick? && now >= s.phase.until then AuthState(Empty, s.strikes, Some(now)) else s
    ensures Get(s) == Silent
  {
  }

  /** A refused bearer that is not the cached one never clears the cache. */
  lemma StaleRefusalIsInert(s: AuthState, bearer: Token, now: real)
    ensures Transition(s, Refused(bearer), now) == s
            || (s.phase.Cached? && s.phase.token == bearer && Transition(s, Refused(bearer), now).phase.Empty?)
  {
  }

  /** MINT BACKOFF. Outside a denial a failed mint is counted and silences the island: for min(10 * 2^(strikes - 1), 900)
      seconds when the grant was refused, strikes being the count after the failure, and for a minute otherwise. */
  lemma MintFailureWindow(s: AuthState, kind: MintFailure, now: real)
    requires !s.phase.SendDenied?
    ensures var r := Transition(s, MintFailed(kind), now);
            && r.strikes == s.strikes + 1 && r.since == Some(now) && Get(r) == Silent
            && r.phase == MintBackoff(now + (if kind.Grant? then Min(10 * Pow2(r.strikes - 1), 900) else 60) as real)
  {
    GrowClosedForm(GRANT_BACKOFF_BASE_SECONDS, s.strikes + 1);
    hide Grow, Pow2;
  }

  /** DENIAL WINDOW. A counted denial silences the island for min(60 * 2^(strikes - 1), 900) seconds. */
  lemma DenialWindow(s: AuthState, sentAt: real, now: real)
    requires CountsDenial(s, Denied(sentAt))
    ensures var r := Transition(s, Denied(sentAt), now);
            && r.strikes == s.strikes + 1 && r.since == Some(now) && Get(r) == Silent
            && r.phase == SendDenied(now + Min(60 * Pow2(r.strikes - 1), 900) as real)
  {
    GrowClosedForm(DENIED_BACKOFF_BASE_SECONDS, s.strikes + 1);
    hide Grow, Pow2;
  }

  /** The time a phase ends by itself has come. */
  predicate Due(p: Phase, now: real) {
    match p
    case Empty => false
    case Cached(_, expiresAt) => now >= expiresAt
    case MintBackoff(until) => now >= until
    case SendDenied(until) => now >= until
  }

  /** EVERY PAIR HAS ITS ANSWER. The phase is left on a Tick that is due, on a mint's answer, on a counted denial and on
      the refusal of the cached bearer, each outside a denial but for the first; it is then the one named here, entered
      now. On everything else phase and entry time stay, a provider's bad second and a device's own verdict included. */
  lemma PhaseMoves(s: AuthState, e: Event, now: real)
    ensures var r := Transition(s, e, now);
            if e.Tick? then (if Due(s.phase, now) then r == AuthState(Empty, s.strikes, Some(now)) else r == s)
            else if s.phase.SendDenied? then r == s
            else if e.Minted? then r.phase == Cached(e.token, e.expiresAt) && r.since == Some(now)
            else if e.MintFailed? then r.phase.MintBackoff? && r.since == Some(now)
            else if CountsDenial(s, e) then r.phase.SendDenied? && r.since == Some(now)
            else if e.Refused? && s.phase.Cached? && s.phase.token == e.bearer then r.phase == Empty && r.since == Some(now)
            else r.phase == s.phase && r.since == s.since
    ensures Get(Transition(s, e, now)) == Silent <==>
              Transition(s, e, now).phase.MintBackoff? || Transition(s, e, now).phase.SendDenied?
  {
    hide Grow;
  }

  /** Strikes move by counted failures and resetting deliveries, and by nothing else. */
  lemma StrikesMove(s: AuthState, e: Event, now: real)
    ensures Transition(s, e, now).strikes
            == if CountsDenial(s, e) || CountsMintFailure(s, e) then s.strikes + 1 else if Resets(s, e) then 0 else s.strikes
  {
  }
}
