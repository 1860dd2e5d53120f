/** The FCM orchestrator (`fcm.py`) over whole runs: many sends in flight, one mint in flight, one auth state. */
module FcmRuns {
  import opened Store
  import opened Fcm
  import J = Json

  /** A send in flight: the bearer it carries and when it began. */
  datatype Send = Send(bearer: Token, sentAt: real)

  datatype Flight = NoFlight | InFlight | Landed

  /** `waiting` callers await the mint in flight; `ready` ones await their turn after a mint that landed. */
  datatype Orch = Orch(auth: AuthState, flight: Flight, running: nat, waiting: nat, ready: nat, sends: seq<Send>)

  const START := Orch(INITIAL, NoFlight, 0, 0, 0, [])

  /** How an exchange ends: it could not be signed, the transport failed, or a response came back. */
  datatype Answer = SignFailed | TransportError | Response(status: int, body: J.Json)

  /** One uninterrupted stretch of the event loop. */
  datatype Op =
    | Call                                   // `send` enters `_access_token`
    | MintAnswer(answer: Answer)             // `_mint_once` finishes
    | Resume                                 // a caller that awaited the mint runs on
    | SendAnswer(index: nat, answer: Answer) // a send finishes

  predicate Enabled(o: Orch, op: Op) {
    match op
    case Call => true
    case MintAnswer(_) => o.flight.InFlight?
    case Resume => o.ready > 0
    case SendAnswer(i, a) => i < |o.sends| && !a.SignFailed?
  }

  /** What a finished mint feeds to the one writer: nothing, when classifying its response raised. */
  function MintEvent(answer: Answer, now: real, ofText: string -> Option<int>): (e: Option<Event>) {
    match answer
    case SignFailed => Some(MintFailed(Credential))
    case TransportError => Some(Blinked)
    case Response(status, body) => ClassifyMint(status, body, now, ofText)
  }

  function SendEvent(answer: Answer, s: Send): (e: Event)
    requires !answer.SignFailed?
  {
    if answer.TransportError? then Blinked else ClassifySend(answer.status, answer.body, s.bearer, s.sentAt)
  }

  /** The event an operation feeds to the one writer, if any. */
  function EventOf(o: Orch, op: Op, now: real, ofText: string -> Option<int>): (e: Option<Event>)
    requires Enabled(o, op)
  {
    match op
    case Call => Some(Tick)
    case MintAnswer(a) => MintEvent(a, now, ofText)
    case Resume => None
    case SendAnswer(i, a) => Some(SendEvent(a, o.sends[i]))
  }

  /** The auth state after an operation. */
  function AuthAfter(o: Orch, op: Op, now: real, ofText: string -> Option<int>): (s: AuthState)
    requires Enabled(o, op)
  {
    var e := EventOf(o, op, now, ofText);
    if e.Some? then Transition(o.auth, e.value, now) else o.auth
  }

  /** Whether the operation hands out a bearer, reading the state and never the mint's return value. */
  predicate Begins(o: Orch, op: Op, now: real, ofText: string -> Option<int>)
    requires Enabled(o, op)
  {
    (op.Call? || op.Resume?) && Get(AuthAfter(o, op, now, ofText)).Have?
  }

  function Next(o: Orch, op: Op, now: real, ofText: string -> Option<int>): (r: Orch)
    requires Enabled(o, op)
  {
    var auth := AuthAfter(o, op, now, ofText);
    var action := Get(auth);
    var sends := if Begins(o, op, now, ofText) then o.sends + [Send(action.token, now)] else o.sends;
    match op
    case Call =>
      if action.Mint? then
        Orch(auth, InFlight, if o.flight.InFlight? then o.running else o.running + 1, o.waiting + 1, o.ready, sends)
      else o.(auth := auth, sends := sends)
    case MintAnswer(a) =>
      var served := if MintEvent(a, now, ofText).Some? then o.waiting else 0;     // a raised mint hands every waiter None
      Orch(auth, Landed, if o.running > 0 then o.running - 1 else 0, 0, o.ready + served, sends)
    case Resume => o.(ready := o.ready - 1, sends := sends)
    case SendAnswer(i, _) => o.(auth := auth, sends := o.sends[..i] + o.sends[i + 1..])
  }

  /** The module globals `_state` and `_mint_flight` with the code that updates them in place. */
  class Orchestrator {
    var state: AuthState
    var flight: Flight
    var running: nat
    var waiting: nat
    var ready: nat
    var sends: seq<Send>

    function Value(): Orch
      reads this
    {
      Orch(state, flight, running, waiting, ready, sends)
    }

    constructor ()
      ensures Value() == START
    {
      state, flight, running, waiting, ready, sends := INITIAL, NoFlight, 0, 0, 0, [];
    }

    /** `_apply` without its log lines. */
    method Apply(e: Event, now: real)
      modifies this`state
      ensures state == Transition(old(state), e, now)
    {
      state := Transition(state, e, now);
    }

    /** `_access_token` up to its first await. */
    method AccessToken(now: real, ghost ofText: string -> Option<int>)
      modifies this
      ensures Value() == Next(old(Value()), Call, now, ofText)
    {
      hide MintEvent, SendEvent;
      Apply(Tick, now);
      var action := Get(state);
      if action.Have? {
        sends := sends + [Send(action.token, now)];
      } else if action.Mint? {
        if !flight.InFlight? {
          flight := InFlight;
          running := running + 1;
        }
        waiting := waiting + 1;
      }
    }

    /** `_access_token` after the shielded mint landed. */
    method ResumeAfterMint(now: real, ghost ofText: string -> Option<int>)
      requires Enabled(Value(), Resume)
      modifies this
      ensures Value() == Next(old(Value()), Resume, now, ofText)
    {
      ready := ready - 1;
      var after := Get(state);
      if after.Have? {
        sends := sends + [Send(after.token, now)];
      }
    }

    /** `_mint_once` from its answer on. */
    method MintLands(answer: Answer, now: real, ofText: string -> Option<int>)
      requires Enabled(Value(), MintAnswer(answer))
      modifies this
      ensures Value() == Next(old(Value()), MintAnswer(answer), now, ofText)
    {
      hide MintEvent, SendEvent, Transition;
      var e := MintEvent(answer, now, ofText);
      if e.Some? {
        Apply(e.value, now);
        ready := ready + waiting;
      }
      flight := Landed;
      running := if running > 0 then running - 1 else 0;
      waiting := 0;
    }

    /** The tail of `send`. */
    method SendLands(i: nat, answer: Answer, now: real, ghost ofText: string -> Option<int>)
      requires Enabled(Value(), SendAnswer(i, answer))
      modifies this
      ensures Value() == Next(old(Value()), SendAnswer(i, answer), now, ofText)
    {
      Apply(SendEvent(answer, sends[i]), now);
      sends := sends[..i] + sends[i + 1..];
    }
  }

  // ---- runs

  /** A run: what happened, when, and the states in between. */
  datatype Run = Run(states: seq<Orch>, ops: seq<Op>, times: seq<real>)

  ghost predicate IsRun(r: Run, ofText: string -> Option<int>) {
    && |r.ops| == |r.times| && |r.states| == |r.ops| + 1 && r.states[0] == START
    && (forall i, j :: 0 <= i < j < |r.times| ==> r.times[i] <= r.times[j])
    && (forall k :: 0 <= k < |r.ops| ==>
          Enabled(r.states[k], r.ops[k]) && r.states[k + 1] == Next(r.states[k], r.ops[k], r.times[k], ofText))
  }

  /** Step `k` counts a denial. */
  ghost predicate Strikes(r: Run, ofText: string -> Option<int>, k: nat)
    requires IsRun(r, ofText) && k < |r.ops|
  {
    var e := EventOf(r.states[k], r.ops[k], r.times[k], ofText);
    e.Some? && CountsDenial(r.states[k].auth, e.value)
  }

  lemma Stepped(r: Run, ofText: string -> Option<int>, k: nat)
    requires IsRun(r, ofText) && k < |r.ops|
    ensures Enabled(r.states[k], r.ops[k])
    ensures r.states[k + 1] == Next(r.states[k], r.ops[k], r.times[k], ofText)
    ensures r.states[k + 1].auth == AuthAfter(r.states[k], r.ops[k], r.times[k], ofText)
  {
  }

  /** Times recorded in a state lie at or before `t`. */
  ghost predicate Recorded(o: Orch, t: real) {
    && (o.auth.since.Some? ==> o.auth.since.value <= t)
    && (forall i :: 0 <= i < |o.sends| ==> o.sends[i].sentAt <= t)
  }

  lemma StepRecorded(o: Orch, op: Op, now: real, ofText: string -> Option<int>, t: real)
    requires Enabled(o, op) && Recorded(o, t) && t <= now
    ensures Recorded(Next(o, op, now, ofText), now)
  {
    hide ClassifyMint, ClassifySend, Grow;
  }

  lemma {:induction false} RunRecorded(r: Run, ofText: string -> Option<int>, k: nat)
    requires IsRun(r, ofText) && k < |r.ops|
    ensures Recorded(r.states[k], r.times[k])
  {
    hide Next, Enabled;
    if k == 0 {
    } else {
      RunRecorded(r, ofText, k - 1);
      Stepped(r, ofText, k - 1);
      StepRecorded(r.states[k - 1], r.ops[k - 1], r.times[k - 1], ofText, r.times[k - 1]);
      assert r.times[k - 1] <= r.times[k];
    }
  }

  /** At most one mint runs at any time, and exactly while its flight is up. */
  lemma {:induction false} SingleFlight(r: Run, ofText: string -> Option<int>, k: nat)
    requires IsRun(r, ofText) && k < |r.states|
    ensures r.states[k].running == (if r.states[k].flight.InFlight? then 1 else 0)
    ensures r.states[k].waiting > 0 ==> r.states[k].flight.InFlight?
  {
    if k > 0 {
      SingleFlight(r, ofText, k - 1);
      Stepped(r, ofText, k - 1);
      hide AuthAfter, Get, Begins, IsRun;
    }
  }

  /** The deadline a counted denial sets, at least a minute away. */
  ghost function Deadline(r: Run, ofText: string -> Option<int>, k: nat): real
    requires IsRun(r, ofText) && k < |r.ops| && Strikes(r, ofText, k)
  {
    r.times[k] + Grow(DENIED_BACKOFF_BASE_SECONDS, r.states[k].auth.strikes + 1) as real
  }

  lemma StrikeOpensWindow(r: Run, ofText: string -> Option<int>, j: nat)
    requires IsRun(r, ofText) && j < |r.ops| && Strikes(r, ofText, j)
    ensures r.states[j + 1].auth.phase == SendDenied(Deadline(r, ofText, j))
    ensures r.states[j + 1].auth.strikes == r.states[j].auth.strikes + 1
    ensures Deadline(r, ofText, j) >= r.times[j] + 60.0
  {
    hide MintEvent, SendEvent;
    Stepped(r, ofText, j);
    GrowMonotone(DENIED_BACKOFF_BASE_SECONDS, 0, r.states[j].auth.strikes + 1);
    hide IsRun, Next, Grow;
  }

  /** THE WINDOW. Until its deadline a counted denial keeps the island silent whatever arrives, a mint landing in
      the meantime included: the phase does not move and no bearer is handed out. */
  lemma {:induction false} SilentUntilDeadline(r: Run, ofText: string -> Option<int>, j: nat, k: nat)
    requires IsRun(r, ofText) && j < k < |r.ops| && Strikes(r, ofText, j)
    requires r.times[k] < Deadline(r, ofText, j)
    ensures r.states[k].auth.phase == SendDenied(Deadline(r, ofText, j))
    ensures Enabled(r.states[k], r.ops[k]) && !Begins(r.states[k], r.ops[k], r.times[k], ofText)
    ensures r.states[k + 1].auth.phase == SendDenied(Deadline(r, ofText, j))
  {
    hide Next, Grow, ClassifyMint, ClassifySend;
    StrikeOpensWindow(r, ofText, j);
    if k > j + 1 {
      assert r.times[k - 1] <= r.times[k];
      SilentUntilDeadline(r, ofText, j, k - 1);
    }
    Stepped(r, ofText, k);
    StaysSilent(r.states[k], r.ops[k], r.times[k], ofText);
  }

  lemma StaysSilent(o: Orch, op: Op, now: real, ofText: string -> Option<int>)
    requires Enabled(o, op) && o.auth.phase.SendDenied? && now < o.auth.phase.until
    ensures AuthAfter(o, op, now, ofText) == o.auth && !Begins(o, op, now, ofText)
  {
    hide ClassifyMint, ClassifySend, Grow;
  }

  /** From a counted denial on, the machine is inside that window or entered its phase at or after the deadline. */
  ghost predicate Past(s: AuthState, deadline: real) {
    s.phase == SendDenied(deadline) || (s.since.Some? && s.since.value >= deadline)
  }

  lemma StepStaysPast(o: Orch, op: Op, now: real, ofText: string -> Option<int>, deadline: real)
    requires Enabled(o, op) && Past(o.auth, deadline) && Recorded(o, now)
    ensures Past(AuthAfter(o, op, now, ofText), deadline)
  {
    hide ClassifyMint, ClassifySend, Grow;
  }

  lemma {:induction false} RunStaysPast(r: Run, ofText: string -> Option<int>, j: nat, k: nat)
    requires IsRun(r, ofText) && j < k < |r.states| && Strikes(r, ofText, j)
    ensures Past(r.states[k].auth, Deadline(r, ofText, j))
  {
    hide Next, AuthAfter, Grow, Enabled, EventOf, Recorded;
    StrikeOpensWindow(r, ofText, j);
    if k > j + 1 {
      RunStaysPast(r, ofText, j, k - 1);
      RunRecorded(r, ofText, k - 1);
      Stepped(r, ofText, k - 1);
      StepStaysPast(r.states[k - 1], r.ops[k - 1], r.times[k - 1], ofText, Deadline(r, ofText, j));
    }
  }

  /** ONE RING, ONE STRIKE. A later denial counts only if its send began at or after the deadline; so none of the
      sends in flight when a denial was counted is ever counted again. */
  lemma OneStrikePerRing(r: Run, ofText: string -> Option<int>, j: nat, k: nat)
    requires IsRun(r, ofText) && j < k < |r.ops| && Strikes(r, ofText, j) && Strikes(r, ofText, k)
    ensures r.ops[k].SendAnswer? && r.ops[k].index < |r.states[k].sends|
    ensures r.states[k].sends[r.ops[k].index].sentAt >= Deadline(r, ofText, j)
    ensures forall i :: 0 <= i < |r.states[j].sends| ==> r.states[j].sends[i].sentAt < r.states[k].sends[r.ops[k].index].sentAt
    ensures r.times[k] >= Deadline(r, ofText, j)
  {
    RunStaysPast(r, ofText, j, k);
    RunRecorded(r, ofText, j);
    RunRecorded(r, ofText, k);
    StrikeOpensWindow(r, ofText, j);
    hide Next, AuthAfter, Grow;
    DenialNamesItsSend(r.states[k], r.ops[k], r.times[k], ofText);
  }

  lemma DenialNamesItsSend(o: Orch, op: Op, now: real, ofText: string -> Option<int>)
    requires Enabled(o, op)
    ensures var e := EventOf(o, op, now, ofText);
            e.Some? && e.value.Denied? ==> op.SendAnswer? && e.value.sentAt == o.sends[op.index].sentAt
  {
    hide FcmErrorCode;
  }

  // ---- mint backoff

  /** Step `k` counts a failed mint. */
  ghost predicate FailsMint(r: Run, ofText: string -> Option<int>, k: nat)
    requires IsRun(r, ofText) && k < |r.ops|
  {
    var e := EventOf(r.states[k], r.ops[k], r.times[k], ofText);
    e.Some? && CountsMintFailure(r.states[k].auth, e.value)
  }

  /** The end of the backoff a counted mint failure opens. */
  ghost function MintDeadline(r: Run, ofText: string -> Option<int>, k: nat): (t: real)
    requires IsRun(r, ofText) && k < |r.ops| && FailsMint(r, ofText, k)
  {
    var kind := EventOf(r.states[k], r.ops[k], r.times[k], ofText).value.kind;
    r.times[k] + (if kind.Grant? then Min(10 * Pow2(r.states[k].auth.strikes), 900) else 60) as real
  }

  /** Silent until `deadline` at least, with no mint in flight that could end it: still in the backoff, with `strikes`
      counted, or in a denial that outlasts it. */
  ghost predicate Quiet(o: Orch, deadline: real, strikes: nat) {
    && !o.flight.InFlight?
    && (|| (o.auth.phase == MintBackoff(deadline) && o.auth.strikes == strikes)
        || (o.auth.phase.SendDenied? && o.auth.phase.until >= deadline))
  }

  lemma FailureOpensBackoff(r: Run, ofText: string -> Option<int>, j: nat)
    requires IsRun(r, ofText) && j < |r.ops| && FailsMint(r, ofText, j)
    ensures r.states[j + 1].auth.phase == MintBackoff(MintDeadline(r, ofText, j))
    ensures Quiet(r.states[j + 1], MintDeadline(r, ofText, j), r.states[j].auth.strikes + 1)
    ensures MintDeadline(r, ofText, j) <= r.times[j] + Min(60 * Pow2(r.states[j].auth.strikes + 1), 900) as real
  {
    hide ClassifyMint, ClassifySend, Transition, Pow2;
    Stepped(r, ofText, j);
    var o, op, now := r.states[j], r.ops[j], r.times[j];
    var e := EventOf(o, op, now, ofText).value;
    OnlyMintsFail(o, op, now, ofText);
    MintFailureWindow(o.auth, e.kind, now);
    DenialOutlasts(o.auth.strikes);
    hide IsRun, Get;
  }

  lemma OnlyMintsFail(o: Orch, op: Op, now: real, ofText: string -> Option<int>)
    requires Enabled(o, op)
    ensures var e := EventOf(o, op, now, ofText);
            e.Some? && (e.value.MintFailed? || e.value.Minted?) ==> op.MintAnswer? && o.flight.InFlight?
  {
    if op.SendAnswer? && op.answer.Response? {
      SendClassified(op.answer.status, op.answer.body, o.sends[op.index].bearer, o.sends[op.index].sentAt);
    }
    hide ClassifyMint, ClassifySend;
  }

  /** A denial that breaks into a backoff opens a window that outlasts it. */
  lemma DenialOutlasts(strikes: nat)
    ensures Min(10 * Pow2(strikes), 900) <= Min(60 * Pow2(strikes + 1), 900) && 60 <= Min(60 * Pow2(strikes + 1), 900)
  {
  }

  lemma QuietEvent(s: AuthState, e: Event, now: real, deadline: real, strikes: nat)
    requires now < deadline <= now + Min(60 * Pow2(strikes), 900) as real && !e.Minted? && !e.MintFailed?
    requires (s.phase == MintBackoff(deadline) && s.strikes == strikes) || (s.phase.SendDenied? && s.phase.until >= deadline)
    ensures var r := Transition(s, e, now);
            (r.phase == MintBackoff(deadline) && r.strikes == strikes) || (r.phase.SendDenied? && r.phase.until >= deadline)
  {
    hide Transition, Pow2;
    PhaseMoves(s, e, now);
    StrikesMove(s, e, now);
    if CountsDenial(s, e) {
      DenialWindow(s, e.sentAt, now);
    }
  }

  /** One step inside a backoff: nothing is handed out, no mint starts, and it stays quiet. */
  lemma StaysQuiet(o: Orch, op: Op, now: real, ofText: string -> Option<int>, deadline: real, strikes: nat)
    requires Enabled(o, op) && Quiet(o, deadline, strikes) && now < deadline <= now + Min(60 * Pow2(strikes), 900) as real
    ensures Quiet(Next(o, op, now, ofText), deadline, strikes) && !Begins(o, op, now, ofText)
  {
    hide Transition, ClassifyMint, ClassifySend, Pow2;
    OnlyMintsFail(o, op, now, ofText);
    var e := EventOf(o, op, now, ofText);
    hide EventOf;
    if e.Some? {
      QuietEvent(o.auth, e.value, now, deadline, strikes);
    }
  }

  lemma {:induction false} RunStaysQuiet(r: Run, ofText: string -> Option<int>, j: nat, k: nat)
    requires IsRun(r, ofText) && j < k < |r.states| && FailsMint(r, ofText, j)
    requires forall m :: j < m < k ==> r.times[m] < MintDeadline(r, ofText, j)
    ensures Quiet(r.states[k], MintDeadline(r, ofText, j), r.states[j].auth.strikes + 1)
  {
    hide Next, Enabled, EventOf, Quiet, Pow2;
    FailureOpensBackoff(r, ofText, j);
    if k > j + 1 {
      RunStaysQuiet(r, ofText, j, k - 1);
      Stepped(r, ofText, k - 1);
      assert r.times[j] <= r.times[k - 1];
      hide MintDeadline;
      StaysQuiet(r.states[k - 1], r.ops[k - 1], r.times[k - 1], ofText, MintDeadline(r, ofText, j), r.states[j].auth.strikes + 1);
    }
  }

  /** NO RETRY STORM. Between a counted mint failure and the end of its backoff no mint starts and no bearer is handed
      out, whatever arrives; a denial that is counted in the meantime opens a window that lasts no less. */
  lemma NoMintUntilDeadline(r: Run, ofText: string -> Option<int>, j: nat, k: nat)
    requires IsRun(r, ofText) && j < k < |r.ops| && FailsMint(r, ofText, j)
    requires r.times[k] < MintDeadline(r, ofText, j)
    ensures !r.states[k].flight.InFlight? && !r.states[k + 1].flight.InFlight?
    ensures Enabled(r.states[k], r.ops[k]) && !Begins(r.states[k], r.ops[k], r.times[k], ofText)
    ensures Get(r.states[k].auth) == Silent && Get(r.states[k + 1].auth) == Silent
  {
    hide Next, Enabled, EventOf, Pow2, AuthAfter, MintDeadline;
    forall m | j < m <= k ensures r.times[m] < MintDeadline(r, ofText, j) {
      assert m < k ==> r.times[m] <= r.times[k];
    }
    assert r.times[j] <= r.times[k];
    RunStaysQuiet(r, ofText, j, k);
    RunStaysQuiet(r, ofText, j, k + 1);
    Stepped(r, ofText, k);
    FailureOpensBackoff(r, ofText, j);
    StaysQuiet(r.states[k], r.ops[k], r.times[k], ofText, MintDeadline(r, ofText, j), r.states[j].auth.strikes + 1);
  }

  lemma {:induction false} NoFlightInBackoff(r: Run, ofText: string -> Option<int>, k: nat)
    requires IsRun(r, ofText) && k < |r.states| && r.states[k].auth.phase.MintBackoff?
    ensures !r.states[k].flight.InFlight?
  {
    hide Transition, ClassifyMint, ClassifySend, Enabled;
    if k > 0 {
      Stepped(r, ofText, k - 1);
      var o, op, now := r.states[k - 1], r.ops[k - 1], r.times[k - 1];
      OnlyMintsFail(o, op, now, ofText);
      var e := EventOf(o, op, now, ofText);
      if e.Some? {
        PhaseMoves(o.auth, e.value, now);
      }
      hide EventOf;
      if o.auth.phase.MintBackoff? {
        NoFlightInBackoff(r, ofText, k - 1);
      }
      hide IsRun;
    }
  }

  /** In every run a backoff is left only by a send entering at or after its deadline, or by a counted denial. */
  lemma BackoffEndsBy(r: Run, ofText: string -> Option<int>, k: nat)
    requires IsRun(r, ofText) && k < |r.ops| && r.states[k].auth.phase.MintBackoff?
    requires r.states[k + 1].auth.phase != r.states[k].auth.phase
    ensures (r.ops[k].Call? && r.times[k] >= r.states[k].auth.phase.until) || Strikes(r, ofText, k)
  {
    hide Next, Transition, ClassifyMint, ClassifySend;
    NoFlightInBackoff(r, ofText, k);
    Stepped(r, ofText, k);
    var o, op, now := r.states[k], r.ops[k], r.times[k];
    OnlyMintsFail(o, op, now, ofText);
    OnlyCallsTick(o, op, now, ofText);
    var e := EventOf(o, op, now, ofText);
    hide EventOf;
    PhaseMoves(o.auth, e.value, now);
  }

  lemma OnlyCallsTick(o: Orch, op: Op, now: real, ofText: string -> Option<int>)
    requires Enabled(o, op)
    ensures EventOf(o, op, now, ofText) == Some(Tick) ==> op.Call?
  {
    if op.SendAnswer? && op.answer.Response? {
      SendClassified(op.answer.status, op.answer.body, o.sends[op.index].bearer, o.sends[op.index].sentAt);
    }
    if op.MintAnswer? && op.answer.Response? {
      MintClassified(op.answer.status, op.answer.body, now, ofText);
    }
    hide ClassifyMint, ClassifySend;
  }

  /** Windows end: the first send that enters at or after the deadline, with nothing cached, waits for a mint. */
  lemma CallAfterDeadlineMints(o: Orch, now: real, ofText: string -> Option<int>)
    requires o.auth.phase.Empty? || Due(o.auth.phase, now)
    ensures var o' := Next(o, Call, now, ofText);
            o'.flight.InFlight? && o'.waiting == o.waiting + 1 && o'.sends == o.sends
            && o'.running == (if o.flight.InFlight? then o.running else o.running + 1)
  {
  }

  // ---- rates and windows

  ghost predicate AllStrikes(r: Run, ofText: string -> Option<int>, js: seq<nat>)
    requires IsRun(r, ofText)
  {
    && (forall i :: 0 <= i < |js| ==> js[i] < |r.ops| && Strikes(r, ofText, js[i]))
    && (forall i, j :: 0 <= i < j < |js| ==> js[i] < js[j])
  }

  /** THE RATE. Counted denials are at least a minute apart, so a span of T seconds holds at most T/60 + 1 of them. */
  lemma {:induction false} StrikesAreSpaced(r: Run, ofText: string -> Option<int>, js: seq<nat>)
    requires IsRun(r, ofText) && AllStrikes(r, ofText, js) && |js| >= 1
    ensures r.times[js[|js| - 1]] - r.times[js[0]] >= 60.0 * (|js| - 1) as real
    ensures |js| as real <= (r.times[js[|js| - 1]] - r.times[js[0]]) / 60.0 + 1.0
  {
    hide Strikes, IsRun;
    var n := |js|;
    if n > 1 {
      StrikesAreSpaced(r, ofText, js[..n - 1]);
      var a, b := js[n - 2], js[n - 1];
      OneStrikePerRing(r, ofText, a, b);
      StrikeOpensWindow(r, ofText, a);
    }
  }

  /** The failures counted among the first `k` steps since the last delivery that reset the count. */
  ghost function FailuresSinceReset(r: Run, ofText: string -> Option<int>, k: nat): (n: nat)
    requires IsRun(r, ofText) && k < |r.states|
  {
    if k == 0 then 0 else
      var s := r.states[k - 1].auth;
      var e := EventOf(r.states[k - 1], r.ops[k - 1], r.times[k - 1], ofText);
      if e.None? then FailuresSinceReset(r, ofText, k - 1)
      else if CountsDenial(s, e.value) || CountsMintFailure(s, e.value) then FailuresSinceReset(r, ofText, k - 1) + 1
      else if Resets(s, e.value) then 0
      else FailuresSinceReset(r, ofText, k - 1)
  }

  /** `strikes` is exactly the failures counted since the last resetting delivery. */
  lemma {:induction false} StrikesCountFailures(r: Run, ofText: string -> Option<int>, k: nat)
    requires IsRun(r, ofText) && k < |r.states|
    ensures r.states[k].auth.strikes == FailuresSinceReset(r, ofText, k)
  {
    if k > 0 {
      StrikesCountFailures(r, ofText, k - 1);
      Stepped(r, ofText, k - 1);
      hide Next, Transition, EventOf, CountsDenial, CountsMintFailure, Resets, IsRun;
      var e := EventOf(r.states[k - 1], r.ops[k - 1], r.times[k - 1], ofText);
      if e.Some? {
        StrikesMove(r.states[k - 1].auth, e.value, r.times[k - 1]);
      }
    }
  }

  ghost predicate NoReset(r: Run, ofText: string -> Option<int>, j: nat, k: nat)
    requires IsRun(r, ofText)
  {
    forall m :: j <= m < k && m < |r.ops| ==>
      EventOf(r.states[m], r.ops[m], r.times[m], ofText).Some? ==>
        !Resets(r.states[m].auth, EventOf(r.states[m], r.ops[m], r.times[m], ofText).value)
  }

  lemma {:induction false} StrikesOnlyGrow(r: Run, ofText: string -> Option<int>, j: nat, k: nat)
    requires IsRun(r, ofText) && j <= k < |r.states| && NoReset(r, ofText, j, k)
    ensures r.states[j].auth.strikes <= r.states[k].auth.strikes
  {
    if j < k {
      assert NoReset(r, ofText, j, k - 1);
      StrikesOnlyGrow(r, ofText, j, k - 1);
      OneStepGrows(r, ofText, j, k);
    }
  }

  lemma OneStepGrows(r: Run, ofText: string -> Option<int>, j: nat, k: nat)
    requires IsRun(r, ofText) && j < k < |r.states| && NoReset(r, ofText, j, k)
    ensures r.states[k - 1].auth.strikes <= r.states[k].auth.strikes
  {
    hide Next, Transition, EventOf, CountsDenial, CountsMintFailure, Resets, Enabled;
    Stepped(r, ofText, k - 1);
    var e := EventOf(r.states[k - 1], r.ops[k - 1], r.times[k - 1], ofText);
    if e.Some? {
      assert !Resets(r.states[k - 1].auth, e.value);
      StrikesMove(r.states[k - 1].auth, e.value, r.times[k - 1]);
    }
  }

  /** Windows never shrink while no delivery resets the count, and each is min(60 * 2^(strikes - 1), 900). */
  lemma WindowsNeverShrink(r: Run, ofText: string -> Option<int>, j: nat, k: nat)
    requires IsRun(r, ofText) && j < k < |r.ops| && Strikes(r, ofText, j) && Strikes(r, ofText, k)
    requires NoReset(r, ofText, j, k)
    ensures Deadline(r, ofText, j) - r.times[j] <= Deadline(r, ofText, k) - r.times[k]
    ensures Deadline(r, ofText, k) - r.times[k]
            == Min(60 * Pow2(r.states[k].auth.strikes), BACKOFF_CAP_SECONDS) as real
  {
    StrikesOnlyGrow(r, ofText, j, k);
    hide IsRun, NoReset, Strikes, Grow;
    GrowMonotone(DENIED_BACKOFF_BASE_SECONDS, r.states[j].auth.strikes + 1, r.states[k].auth.strikes + 1);
    GrowClosedForm(DENIED_BACKOFF_BASE_SECONDS, r.states[k].auth.strikes + 1);
  }

  // ---- where bearers come from

  ghost function EventAt(r: Run, ofText: string -> Option<int>, k: nat): (e: Option<Event>)
    requires IsRun(r, ofText) && k < |r.ops|
  {
    EventOf(r.states[k], r.ops[k], r.times[k], ofText)
  }

  /** A cached token was kept, or was minted just now; a kept one was not refused. */
  lemma CacheMoves(s: AuthState, e: Event, now: real)
    requires Transition(s, e, now).phase.Cached?
    ensures var p := Transition(s, e, now).phase;
            e == Minted(p.token, p.expiresAt)
            || (s.phase == p && e != Refused(p.token) && !e.Minted? && !(e.Tick? && now >= p.expiresAt))
  {
  }

  /** PROVENANCE. A cached bearer is the token of an earlier mint, and since then neither refused nor replaced. */
  lemma {:induction false} BearersAreMinted(r: Run, ofText: string -> Option<int>, k: nat) returns (j: nat)
    requires IsRun(r, ofText) && k < |r.states| && r.states[k].auth.phase.Cached?
    ensures j < k && EventAt(r, ofText, j) == Some(Minted(r.states[k].auth.phase.token, r.states[k].auth.phase.expiresAt))
    ensures forall m :: j < m < k ==>
              EventAt(r, ofText, m) != Some(Refused(r.states[k].auth.phase.token))
              && !(EventAt(r, ofText, m).Some? && EventAt(r, ofText, m).value.Minted?)
  {
    hide Next, EventOf, Transition, Enabled;
    assert k > 0;
    var p := r.states[k].auth.phase;
    var e := EventAt(r, ofText, k - 1);
    LastCacheMove(r, ofText, k);
    if e == Some(Minted(p.token, p.expiresAt)) {
      j := k - 1;
    } else {
      j := BearersAreMinted(r, ofText, k - 1);
    }
  }

  lemma LastCacheMove(r: Run, ofText: string -> Option<int>, k: nat)
    requires IsRun(r, ofText) && 0 < k < |r.states| && r.states[k].auth.phase.Cached?
    ensures var p, e := r.states[k].auth.phase, EventAt(r, ofText, k - 1);
            e == Some(Minted(p.token, p.expiresAt))
            || (r.states[k - 1].auth.phase == p && e != Some(Refused(p.token)) && !(e.Some? && e.value.Minted?))
  {
    hide Next, EventOf, Transition, Enabled;
    Stepped(r, ofText, k - 1);
    hide IsRun;
    var e := EventAt(r, ofText, k - 1);
    if e.Some? {
      CacheMoves(r.states[k - 1].auth, e.value, r.times[k - 1]);
    }
  }

  /** A send that enters while an unexpired token is cached gets that token; one that enters later never does. */
  lemma CallUsesTheCache(o: Orch, now: real, ofText: string -> Option<int>)
    requires o.auth.phase.Cached?
    ensures Begins(o, Call, now, ofText) <==> now < o.auth.phase.expiresAt
    ensures Begins(o, Call, now, ofText) ==> Next(o, Call, now, ofText).sends == o.sends + [Send(o.auth.phase.token, now)]
    ensures !Begins(o, Call, now, ofText) ==> Next(o, Call, now, ofText).flight.InFlight?
  {
  }

  /** A mint that lands outside a denial window serves every waiter. */
  lemma MintServesWaiters(o: Orch, answer: Answer, now: real, ofText: string -> Option<int>)
    requires Enabled(o, MintAnswer(answer)) && !o.auth.phase.SendDenied?
    requires MintEvent(answer, now, ofText).Some? && MintEvent(answer, now, ofText).value.Minted?
    ensures var o' := Next(o, MintAnswer(answer), now, ofText);
            && o'.ready == o.ready + o.waiting && o'.waiting == 0
            && Get(o'.auth) == Have(MintEvent(answer, now, ofText).value.token)
            && (o'.ready > 0 ==> Begins(o', Resume, now, ofText))
  {
    hide ClassifyMint;
  }

  /** WHO SENDS WHAT. A send begins exactly by entering, or by waking after a mint, while a token is cached and unexpired
      or just landed; it carries that token and the present time, and the others in flight are as they were. A send that
      ends leaves the others, and every other operation leaves them all. */
  lemma SendsMove(o: Orch, op: Op, now: real, ofText: string -> Option<int>)
    requires Enabled(o, op)
    ensures var o' := Next(o, op, now, ofText);
            match op
            case Call => o'.sends == (if o.auth.phase.Cached? && now < o.auth.phase.expiresAt
                                      then o.sends + [Send(o.auth.phase.token, now)] else o.sends)
            case Resume => o'.auth == o.auth && o'.ready == o.ready - 1
                           && o'.sends == (if o.auth.phase.Cached? then o.sends + [Send(o.auth.phase.token, now)] else o.sends)
            case MintAnswer(_) => o'.sends == o.sends
            case SendAnswer(i, _) => |o'.sends| == |o.sends| - 1
                                     && (forall j :: 0 <= j < i ==> o'.sends[j] == o.sends[j])
                                     && (forall j :: i <= j < |o'.sends| ==> o'.sends[j] == o.sends[j + 1])
  {
    hide ClassifyMint, ClassifySend, Grow;
  }

  /** A mint whose answer could not be classified hands every waiter nothing and leaves the state alone; any other answer
      wakes them all. Either way a later send may mint again. */
  lemma MintWakes(o: Orch, answer: Answer, now: real, ofText: string -> Option<int>)
    requires Enabled(o, MintAnswer(answer))
    ensures var o' := Next(o, MintAnswer(answer), now, ofText);
            && o'.waiting == 0 && !o'.flight.InFlight?
            && (answer == SignFailed ==> o'.auth == Transition(o.auth, MintFailed(Credential), now))
            && (answer == TransportError ==> o'.auth == o.auth)
            && (answer.Response? && ClassifyMint(answer.status, answer.body, now, ofText).None? ==> o'.auth == o.auth && o'.ready == o.ready)
            && (answer.Response? && ClassifyMint(answer.status, answer.body, now, ofText).Some? ==>
                  o'.auth == Transition(o.auth, ClassifyMint(answer.status, answer.body, now, ofText).value, now))
            && (!(answer.Response? && ClassifyMint(answer.status, answer.body, now, ofText).None?) ==> o'.ready == o.ready + o.waiting)
  {
    PhaseMoves(o.auth, Blinked, now);
    StrikesMove(o.auth, Blinked, now);
    hide ClassifyMint, Transition;
  }

  /** A finished send feeds the one writer the classification of its own response, bearer and start time; a transport
      failure changes nothing. */
  lemma SendFeeds(o: Orch, i: nat, answer: Answer, now: real, ofText: string -> Option<int>)
    requires Enabled(o, SendAnswer(i, answer))
    ensures var o' := Next(o, SendAnswer(i, answer), now, ofText);
            && (answer.TransportError? ==> o'.auth == o.auth)
            && (answer.Response? ==>
                  o'.auth == Transition(o.auth, ClassifySend(answer.status, answer.body, o.sends[i].bearer, o.sends[i].sentAt), now))
            && o'.flight == o.flight && o'.running == o.running && o'.waiting == o.waiting && o'.ready == o.ready
  {
    PhaseMoves(o.auth, Blinked, now);
    StrikesMove(o.auth, Blinked, now);
    hide ClassifySend, Transition;
  }
}
