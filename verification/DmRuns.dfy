/** Direct-message channels under races (`dm_service.py`, `memberships_service.py`): find-or-create in separate
    statements, interleaved with everything else that touches channels and memberships. */
module DmRuns {
  import opened Store
  import opened DmKey

  type Members = set<(ChannelId, UserId)>

  /** Where a `get_or_create_dm` call stands. */
  datatype Stage = Looking | Creating | Refetching | Adopting(c: ChannelId)

  datatype Call = Call(me: UserId, target: UserId, stage: Stage)

  /** What a call returned to `me`. */
  datatype Answer = Answer(me: UserId, target: UserId, c: ChannelId)

  datatype State = State(channels: map<ChannelId, Channel>, members: Members, calls: map<nat, Call>, answers: set<Answer>)

  datatype Step =
    | Open(op: nat, me: UserId, target: UserId)
    | Lookup(op: nat)                                   // the first SELECT, or the one after a lost race
    | Create(op: nat, id: ChannelId)                    // channel and both memberships in one commit
    | Adopt(op: nat)                                    // ensure the caller's own row, commit, answer
    | Abandon(op: nat)
    | NewChannel(id: ChannelId, name: string)           // `create_channel` or the bus
    | DropChannel(name: string)                         // `hard_delete_channel`
    | AddMember(c: ChannelId, u: UserId)
    | SelfJoin(c: ChannelId, u: UserId)
    | RemoveMember(c: ChannelId, u: UserId)
    | Leave(c: ChannelId, u: UserId)
    | DeleteAccount(u: UserId)

  predicate Enabled(s: State, e: Step) {
    match e
    case Open(op, me, target) => op !in s.calls && UlidText(me) && UlidText(target)
    case Lookup(op) => op in s.calls && (s.calls[op].stage.Looking? || s.calls[op].stage.Refetching?)
    case Create(op, _) => op in s.calls && s.calls[op].stage.Creating?
    case Adopt(op) => op in s.calls && s.calls[op].stage.Adopting?
    case Abandon(op) => op in s.calls
    case _ => true
  }

  /** The channel holding a key, under UNIQUE(aiko_channel). */
  function Holder(channels: map<ChannelId, Channel>, key: string): (r: set<ChannelId>) {
    set c | c in channels && channels[c].aikoChannel == key
  }

  predicate IsDm(s: State, c: ChannelId) { c in s.channels && s.channels[c].kind.Dm? }

  function Close(s: State, op: nat): (s': State) { s.(calls := s.calls - {op}) }

  ghost function Next(s: State, e: Step): (s': State)
    requires Enabled(s, e)
  {
    match e
    case Open(op, me, target) => s.(calls := s.calls[op := Call(me, target, Looking)])
    case Lookup(op) =>
      var call := s.calls[op];
      var held := Holder(s.channels, CanonicalKey(call.me, call.target));
      if held == {} then
        if call.stage.Looking? then s.(calls := s.calls[op := call.(stage := Creating)]) else Close(s, op)  // re-raise
      else
        var c :| c in held;
        if s.channels[c].kind.Dm? then s.(calls := s.calls[op := call.(stage := Adopting(c))])
        else Close(s, op)                                                                                 // DmKeyCollision
    case Create(op, id) =>
      var call := s.calls[op];
      var key := CanonicalKey(call.me, call.target);
      if id in s.channels || Holder(s.channels, key) != {} then s.(calls := s.calls[op := call.(stage := Refetching)])
      else
        State(s.channels[id := Channel(Dm, key)], s.members + {(id, call.me), (id, call.target)}, s.calls - {op},
              s.answers + {Answer(call.me, call.target, id)})
    case Adopt(op) =>
      var call := s.calls[op];
      s.(members := s.members + {(call.stage.c, call.me)}, calls := s.calls - {op},
         answers := s.answers + {Answer(call.me, call.target, call.stage.c)})
    case Abandon(op) => Close(s, op)
    case NewChannel(id, name) =>
      if IsDmName(name) || id in s.channels || Holder(s.channels, name) != {} then s
      else s.(channels := s.channels[id := Channel(Standard, name)])
    case DropChannel(name) =>
      if IsDmName(name) then s else
        var gone := Holder(s.channels, name);
        s.(channels := s.channels - gone, members := set m | m in s.members && m.0 !in gone)
    case AddMember(c, u) => if c !in s.channels || IsDm(s, c) then s else s.(members := s.members + {(c, u)})
    case SelfJoin(c, u) => if c !in s.channels || IsDm(s, c) then s else s.(members := s.members + {(c, u)})
    case RemoveMember(c, u) => if IsDm(s, c) then s else s.(members := s.members - {(c, u)})
    case Leave(c, u) => s.(members := s.members - {(c, u)})
    case DeleteAccount(u) => s.(members := set m | m in s.members && m.1 != u)
  }

  // ---- what every step keeps

  /** UNIQUE(aiko_channel), and the CHECK that ties the kind to the reserved prefix. */
  ghost predicate KeysOk(channels: map<ChannelId, Channel>) {
    && (forall c, d :: c in channels && d in channels && channels[c].aikoChannel == channels[d].aikoChannel ==> c == d)
    && (forall c :: c in channels ==> (channels[c].kind.Dm? <==> IsDmName(channels[c].aikoChannel)))
  }

  /** The DM of the pair. */
  ghost predicate DmOf(channels: map<ChannelId, Channel>, c: ChannelId, a: UserId, b: UserId) {
    UlidText(a) && UlidText(b) && c in channels && channels[c] == Channel(Dm, CanonicalKey(a, b))
  }

  /** Members of a DM are ids in its key. */
  ghost predicate MembersOk(channels: map<ChannelId, Channel>, members: Members) {
    forall m :: m in members && m.0 in channels && channels[m.0].kind.Dm? ==> exists v :: DmOf(channels, m.0, m.1, v)
  }

  ghost predicate CallsOk(channels: map<ChannelId, Channel>, calls: map<nat, Call>) {
    forall op :: op in calls ==>
      UlidText(calls[op].me) && UlidText(calls[op].target)
      && (calls[op].stage.Adopting? ==> DmOf(channels, calls[op].stage.c, calls[op].me, calls[op].target))
  }

  ghost predicate AnswersOk(channels: map<ChannelId, Channel>, answers: set<Answer>) {
    forall a :: a in answers ==> DmOf(channels, a.c, a.me, a.target)
  }

  ghost predicate Good(s: State) {
    KeysOk(s.channels) && MembersOk(s.channels, s.members) && CallsOk(s.channels, s.calls) && AnswersOk(s.channels, s.answers)
    && forall m :: m in s.members ==> m.0 in s.channels
  }

  lemma HolderIs(channels: map<ChannelId, Channel>, key: string)
    ensures forall c :: c in channels && channels[c].aikoChannel == key <==> c in Holder(channels, key)
  {
  }

  lemma KeyIsDmName(a: UserId, b: UserId)
    ensures IsDmName(CanonicalKey(a, b))
  {
  }

  /** DMs only accumulate: what held of a pair's channel keeps holding. */
  lemma DmsStay(s: State, e: Step)
    requires Good(s) && Enabled(s, e)
    ensures forall c, a, b :: DmOf(s.channels, c, a, b) ==> DmOf(Next(s, e).channels, c, a, b)
  {
    hide CanonicalKey, UlidText;
  }

  lemma CreateKeeps(s: State, op: nat, id: ChannelId)
    requires Good(s) && Enabled(s, Create(op, id))
    ensures Good(Next(s, Create(op, id)))
  {
    hide CanonicalKey, UlidText, IsDmName, Holder;
    var s' := Next(s, Create(op, id));
    var call := s.calls[op];
    var key := CanonicalKey(call.me, call.target);
    DmsStay(s, Create(op, id));
    HolderIs(s.channels, key);
    if id in s.channels || Holder(s.channels, key) != {} {
      assert s'.channels == s.channels && s'.members == s.members && s'.answers == s.answers;
    } else {
      KeyIsDmName(call.me, call.target);
      KeySymmetric(call.me, call.target);
      assert DmOf(s'.channels, id, call.me, call.target) && DmOf(s'.channels, id, call.target, call.me);
      forall m | m in s.members && m.0 in s'.channels && s'.channels[m.0].kind.Dm?
        ensures exists v :: DmOf(s'.channels, m.0, m.1, v)
      {
        var v :| DmOf(s.channels, m.0, m.1, v);
        assert DmOf(s'.channels, m.0, m.1, v);
      }
    }
  }

  lemma AdoptKeeps(s: State, op: nat)
    requires Good(s) && Enabled(s, Adopt(op))
    ensures Good(Next(s, Adopt(op)))
  {
    hide CanonicalKey, UlidText, IsDmName;
    assert DmOf(s.channels, s.calls[op].stage.c, s.calls[op].me, s.calls[op].target);
  }

  lemma LookupKeeps(s: State, op: nat)
    requires Good(s) && Enabled(s, Lookup(op))
    ensures Good(Next(s, Lookup(op)))
  {
    hide CanonicalKey, UlidText, IsDmName;
  }

  lemma OthersKeep(s: State, e: Step)
    requires Good(s) && Enabled(s, e) && !e.Create? && !e.Adopt? && !e.Lookup?
    ensures Good(Next(s, e))
  {
    hide CanonicalKey, UlidText, Holder, IsDmName;
    DmsStay(s, e);
    if e.NewChannel? || e.DropChannel? {
      HolderIs(s.channels, e.name);
    }
    var s' := Next(s, e);
    assert KeysOk(s'.channels);
    forall m | m in s'.members && m.0 in s'.channels && s'.channels[m.0].kind.Dm?
      ensures exists v :: DmOf(s'.channels, m.0, m.1, v)
    {
      assert m in s.members && s.channels[m.0].kind.Dm?;
      var v :| DmOf(s.channels, m.0, m.1, v);
      assert DmOf(s'.channels, m.0, m.1, v);
    }
  }

  ghost predicate IsRun(ss: seq<State>, es: seq<Step>) {
    && |ss| == |es| + 1 && ss[0] == State(map[], {}, map[], {})
    && forall k :: 0 <= k < |es| ==> Enabled(ss[k], es[k]) && ss[k + 1] == Next(ss[k], es[k])
  }

  lemma {:induction false} RunIsGood(ss: seq<State>, es: seq<Step>, k: nat)
    requires IsRun(ss, es) && k < |ss|
    ensures Good(ss[k])
  {
    hide Enabled, Next;
    if k > 0 {
      RunIsGood(ss, es, k - 1);
      hide Good;
      var s, e := ss[k - 1], es[k - 1];
      assert Enabled(s, e) && ss[k] == Next(s, e);
      match e {
        case Create(op, id) => CreateKeeps(s, op, id);
        case Adopt(op) => AdoptKeeps(s, op);
        case Lookup(op) => LookupKeeps(s, op);
        case _ => OthersKeep(s, e);
      }
    }
  }

  lemma {:induction false} AnswersStay(ss: seq<State>, es: seq<Step>, j: nat, k: nat)
    requires IsRun(ss, es) && j <= k < |ss|
    ensures ss[j].answers <= ss[k].answers
  {
    if k > j {
      AnswersStay(ss, es, j, k - 1);
      assert Enabled(ss[k - 1], es[k - 1]) && ss[k] == Next(ss[k - 1], es[k - 1]);
    }
  }

  /** ONE CHANNEL PER PAIR. Over every interleaving, two answers name the same channel exactly when they were given for
      the same unordered pair, whenever each was given. */
  lemma OneChannelPerPair(ss: seq<State>, es: seq<Step>, j: nat, x: Answer, k: nat, y: Answer)
    requires IsRun(ss, es) && j < |ss| && k < |ss| && x in ss[j].answers && y in ss[k].answers
    ensures x.c == y.c <==> (x.me == y.me && x.target == y.target) || (x.me == y.target && x.target == y.me)
  {
    var last := |ss| - 1;
    AnswersStay(ss, es, j, last);
    AnswersStay(ss, es, k, last);
    RunIsGood(ss, es, last);
    var channels := ss[last].channels;
    assert DmOf(channels, x.c, x.me, x.target) && DmOf(channels, y.c, y.me, y.target);
    KeyInjective(x.me, x.target, y.me, y.target);
  }

  /** NEVER A THIRD. The members of an answered channel are the pair or fewer, for ever after. */
  lemma MembersWithinPair(ss: seq<State>, es: seq<Step>, j: nat, x: Answer, k: nat, u: UserId)
    requires IsRun(ss, es) && j <= k < |ss| && x in ss[j].answers && (x.c, u) in ss[k].members
    ensures u == x.me || u == x.target
  {
    AnswersStay(ss, es, j, k);
    RunIsGood(ss, es, k);
    var channels := ss[k].channels;
    assert DmOf(channels, x.c, x.me, x.target);
    assert (x.c, u).0 in channels && channels[(x.c, u).0].kind.Dm?;
    var v :| DmOf(channels, x.c, u, v);
    KeyInjective(u, v, x.me, x.target);
  }

  /** A LEAVE STICKS. A membership of a DM that already exists comes back only by that user's own open call. */
  lemma NoReinjection(s: State, e: Step, c: ChannelId, u: UserId)
    requires Good(s) && Enabled(s, e) && IsDm(s, c) && (c, u) !in s.members && (c, u) in Next(s, e).members
    ensures e.Adopt? && s.calls[e.op].me == u
  {
  }

  /** An answered caller is a member of the answered channel; a channel made for the answer starts with the pair. */
  lemma AnswerAdmitsCaller(s: State, e: Step, x: Answer)
    requires Good(s) && Enabled(s, e) && x !in s.answers && x in Next(s, e).answers
    ensures (x.c, x.me) in Next(s, e).members
    ensures x.c !in s.channels ==> (x.c, x.target) in Next(s, e).members
    ensures forall m :: m in s.members ==> m in Next(s, e).members
  {
    hide CanonicalKey, UlidText, IsDmName, Holder;
  }

  /** FOUND IS ANSWERED. A caller whose lookup meets the pair's channel goes on to adopt that very channel, and adopting
      it, whatever happened in between, answers the caller with it and makes the caller a member. */
  lemma FoundIsAnswered(s: State, op: nat, c: ChannelId)
    requires Good(s) && Enabled(s, Lookup(op)) && DmOf(s.channels, c, s.calls[op].me, s.calls[op].target)
    ensures Next(s, Lookup(op)) == s.(calls := s.calls[op := s.calls[op].(stage := Adopting(c))])
  {
    hide CanonicalKey, UlidText, IsDmName;
    assert c in Holder(s.channels, CanonicalKey(s.calls[op].me, s.calls[op].target));
  }

  lemma AdoptingAnswers(s: State, op: nat)
    requires Enabled(s, Adopt(op))
    ensures var s', call := Next(s, Adopt(op)), s.calls[op];
            && s'.answers == s.answers + {Answer(call.me, call.target, call.stage.c)} && op !in s'.calls
            && s'.members == s.members + {(call.stage.c, call.me)} && s'.channels == s.channels
  {
  }

  /** NOT FOUND IS CREATED. With no channel for the pair the lookup goes on to create one, and creating it under an unused
      id while there still is none answers with it and admits exactly the pair; a lost race looks again. */
  lemma NotFoundIsCreated(s: State, op: nat, id: ChannelId)
    requires Good(s) && op in s.calls
    requires forall c :: !DmOf(s.channels, c, s.calls[op].me, s.calls[op].target)
    ensures s.calls[op].stage.Looking? ==> Next(s, Lookup(op)) == s.(calls := s.calls[op := s.calls[op].(stage := Creating)])
    ensures s.calls[op].stage.Creating? && id !in s.channels ==>
              var s', call := Next(s, Create(op, id)), s.calls[op];
              && DmOf(s'.channels, id, call.me, call.target) && s'.answers == s.answers + {Answer(call.me, call.target, id)}
              && forall u :: (id, u) in s'.members <==> u == call.me || u == call.target
  {
    hide CanonicalKey, UlidText;
    var call := s.calls[op];
    KeyIsDmName(call.me, call.target);
    hide IsDmName;
    HolderIs(s.channels, CanonicalKey(call.me, call.target));
    forall c | c in s.channels ensures s.channels[c].aikoChannel != CanonicalKey(call.me, call.target) {
      assert !DmOf(s.channels, c, call.me, call.target);
    }
  }

  lemma LostRaceLooksAgain(s: State, op: nat, id: ChannelId, c: ChannelId)
    requires Good(s) && Enabled(s, Create(op, id)) && DmOf(s.channels, c, s.calls[op].me, s.calls[op].target)
    ensures Next(s, Create(op, id)) == s.(calls := s.calls[op := s.calls[op].(stage := Refetching)])
  {
    hide CanonicalKey, UlidText;
    assert c in Holder(s.channels, CanonicalKey(s.calls[op].me, s.calls[op].target));
  }

  /** Nobody is put out of a direct message, or into one, by someone else: the admin doors leave its members alone, and a
      leave takes out exactly the one who leaves. */
  lemma DmDoorsShut(s: State, c: ChannelId, u: UserId)
    requires IsDm(s, c)
    ensures Next(s, AddMember(c, u)) == s && Next(s, SelfJoin(c, u)) == s && Next(s, RemoveMember(c, u)) == s
    ensures Next(s, Leave(c, u)) == s.(members := s.members - {(c, u)})
  {
  }

  /** A standard channel's doors stand open, and its removal takes its rows with it. */
  lemma StandardDoorsOpen(s: State, c: ChannelId, u: UserId)
    requires c in s.channels && s.channels[c].kind.Standard?
    ensures Next(s, AddMember(c, u)).members == s.members + {(c, u)}
    ensures Next(s, SelfJoin(c, u)).members == s.members + {(c, u)}
    ensures Next(s, RemoveMember(c, u)) == s.(members := s.members - {(c, u)})
  {
  }

  /** Deleting an account takes exactly the user's rows, and no channel. */
  lemma DeletionTakesRows(s: State, u: UserId)
    ensures var s' := Next(s, DeleteAccount(u));
            && (forall c, v :: (c, v) in s'.members <==> (c, v) in s.members && v != u)
            && s' == s.(members := s'.members)
  {
  }

  /** FAIL CLOSED. Where the pair's key is held, and by no direct message, the call ends without an answer and changes
      nothing, in the first look and in the second. */
  lemma CollisionRefused(s: State, op: nat)
    requires Enabled(s, Lookup(op))
    requires exists c :: HoldsKey(s, c, CanonicalKey(s.calls[op].me, s.calls[op].target))
    requires forall c :: HoldsKey(s, c, CanonicalKey(s.calls[op].me, s.calls[op].target)) ==> !s.channels[c].kind.Dm?
    ensures Next(s, Lookup(op)) == s.(calls := s.calls - {op})
  {
    hide CanonicalKey;
    var key := CanonicalKey(s.calls[op].me, s.calls[op].target);
    forall c ensures c in Holder(s.channels, key) <==> HoldsKey(s, c, key) {
    }
    var c :| HoldsKey(s, c, key);
    assert c in Holder(s.channels, key);
  }

  ghost predicate HoldsKey(s: State, c: ChannelId, key: string) { c in s.channels && s.channels[c].aikoChannel == key }
}
