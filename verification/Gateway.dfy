/** Whole runs of the island: any sequence of service calls from an empty store, and what every store reached
    that way satisfies. */
module Gateway {
  import opened Store
  import opened DmKey
  import opened History
  import opened Services

  datatype Step =
    | SignUp(user: UserId, aikoUsername: string)
    | CreateChannel(channel: ChannelId, aikoChannel: string, creator: UserId)
    | OpenDm(channel: ChannelId, me: UserId, target: UserId)
    | Join(channel: ChannelId, user: UserId, role: Role)
    | Leave(channel: ChannelId, user: UserId)
    | MarkRead(channel: ChannelId, user: UserId, upTo: Rank)
    | Send(sender: UserId, channel: ChannelId, clientMsgId: string, body: string, id: Rank)
    | BusMessage(aikoChannel: string, username: Option<string>, body: string, newChannel: ChannelId, id: Rank)
    | Block(blocker: UserId, blocked: UserId)
    | Unblock(blocker: UserId, blocked: UserId)
    | ReportOf(reporter: UserId, message: Rank, id: Rank)
    | TakeDownReport(report: Rank, moderator: UserId, id: Rank)
    | DismissReport(report: Rank, moderator: UserId)
    | DeleteUser(user: UserId)
    | DeleteChannel(aikoChannel: string)

  const EMPTY := Db(map[], map[], map[], map[], map[], {}, map[], map[], map[], {})

  /** What the callers of the services establish first: the account and channel rows they pass in exist, and the
      unique columns of a new row are unused. */
  ghost predicate Enabled(db: Db, step: Step) {
    match step
    case SignUp(u, _) => u !in db.users && UlidText(u)
    case CreateChannel(c, name, u) => c !in db.channels && Named(db, name) == {} && !IsDmName(name) && u in db.users
    case OpenDm(c, me, target) =>
      c !in db.channels && me in db.users && target in db.users && Named(db, CanonicalKey(me, target)) == {}
    case Join(c, u, _) => c in db.channels && u in db.users && !db.channels[c].kind.Dm?
    case Leave(_, _) => true
    case MarkRead(c, u, _) => c in db.channels && u in db.users
    case Send(u, c, _, _, _) => u in db.users && c in db.channels
    case BusMessage(_, _, _, _, _) => true
    case Block(u, _) => u in db.users
    case Unblock(_, _) => true
    case ReportOf(u, _, _) => u in db.users
    case TakeDownReport(_, u, _) => u in db.users
    case DismissReport(_, u) => u in db.users
    case DeleteUser(_) => true
    case DeleteChannel(_) => true
  }

  ghost function Apply(db: Db, step: Step): (r: Db)
    requires Enabled(db, step)
  {
    match step
    case SignUp(u, name) => db.(users := db.users[u := name])
    case CreateChannel(c, name, u) =>
      db.(channels := db.channels[c := Channel(Standard, name)], memberships := db.memberships[(c, u) := Admin])
    case OpenDm(c, me, target) =>
      db.(channels := db.channels[c := Channel(Dm, CanonicalKey(me, target))],
          memberships := db.memberships[(c, me) := Member][(c, target) := Member])
    case Join(c, u, role) =>
      if (c, u) in db.memberships then db else db.(memberships := db.memberships[(c, u) := role])
    case Leave(c, u) => db.(memberships := db.memberships - {(c, u)})
    case MarkRead(c, u, upTo) => db.(readPositions := db.readPositions[(c, u) := upTo])
    case Send(u, c, cmid, body, id) => CreateOutbound(db, u, c, cmid, body, id).1
    case BusMessage(name, username, body, c, id) => PersistInbound(db, name, username, body, c, id).1
    case Block(a, b) => BlockUser(db, a, b).1
    case Unblock(a, b) => UnblockUser(db, a, b)
    case ReportOf(u, m, id) => ReportMessage(db, u, m, id).1
    case TakeDownReport(r, u, id) => TakeDown(db, r, u, id).1
    case DismissReport(r, u) => Dismiss(db, r, u).1
    case DeleteUser(u) => DeleteAccount(db, u).1
    case DeleteChannel(name) => HardDelete(db, name).1
  }

  // ---- what every reachable store satisfies, table by table

  /** The reserved namespace and the direct messages are the same channels, and wire names are unique. */
  ghost predicate Names(channels: map<ChannelId, Channel>) {
    && (forall c :: c in channels ==> (channels[c].kind.Dm? <==> IsDmName(channels[c].aikoChannel)))
    && (forall c, d :: c in channels && d in channels && channels[c].aikoChannel == channels[d].aikoChannel ==> c == d)
  }

  ghost predicate Known(x: Option<UserId>, users: set<UserId>) { x.Some? ==> x.value in users }

  ghost predicate MessageRefs(messages: map<Rank, Message>, channels: set<ChannelId>, users: set<UserId>) {
    forall i :: i in messages ==> messages[i].channel in channels && Known(messages[i].sender, users)
  }

  ghost predicate ReportRefs(reports: map<Rank, Report>, messages: set<Rank>, users: set<UserId>) {
    forall i :: i in reports ==>
      reports[i].message in messages && Known(reports[i].reporter, users) && Known(reports[i].resolvedBy, users)
  }

  ghost predicate PairRefs<A(!new), B(!new)>(pairs: set<(A, B)>, left: set<A>, right: set<B>) {
    forall p :: p in pairs ==> p.0 in left && p.1 in right
  }

  /** A retraction stands for one soft-deleted message of its own channel, sorts after it, and is its only one. */
  ghost predicate Retracted(messages: map<Rank, Message>, retractions: map<Rank, Retraction>) {
    && (forall i :: i in retractions ==>
          && retractions[i].target in messages && retractions[i].target < i
          && messages[retractions[i].target].channel == retractions[i].channel
          && messages[retractions[i].target].deleted)
    && (forall i, j :: i in retractions && j in retractions && retractions[i].target == retractions[j].target ==> i == j)
  }

  /** Every soft-deleted message has its retraction, and every taken-down report its soft-deleted message. */
  ghost predicate Announced(messages: map<Rank, Message>, retractions: map<Rank, Retraction>, reports: map<Rank, Report>) {
    && (forall m :: m in messages && messages[m].deleted ==> m in Targets(retractions))
    && (forall r :: r in reports && reports[r].resolution.TakenDown? ==>
          reports[r].message in messages && messages[reports[r].message].deleted)
  }

  /** One row per (channel, client message id). */
  ghost predicate Resends(messages: map<Rank, Message>) {
    forall i, j :: i in messages && j in messages && messages[i].channel == messages[j].channel
                   && messages[i].clientMsgId.Some? && messages[i].clientMsgId == messages[j].clientMsgId
                   ==> i == j
  }

  ghost predicate Sound(db: Db) {
    && Names(db.channels)
    && MessageRefs(db.messages, db.channels.Keys, db.users.Keys)
    && ReportRefs(db.reports, db.messages.Keys, db.users.Keys)
    && PairRefs(db.blocks, db.users.Keys, db.users.Keys)
    && PairRefs(db.memberships.Keys, db.channels.Keys, db.users.Keys)
    && PairRefs(db.readPositions.Keys, db.channels.Keys, db.users.Keys)
    && Retracted(db.messages, db.retractions)
    && Announced(db.messages, db.retractions, db.reports)
    && Resends(db.messages)
  }

  // ---- every step keeps it, one operation at a time

  /** Rows added elsewhere never break a reference. */
  lemma RefsGrow(db: Db, channels: set<ChannelId>, users: set<UserId>)
    requires Sound(db) && db.channels.Keys <= channels && db.users.Keys <= users
    ensures MessageRefs(db.messages, channels, users)
    ensures ReportRefs(db.reports, db.messages.Keys, users)
    ensures PairRefs(db.blocks, users, users)
    ensures PairRefs(db.memberships.Keys, channels, users)
    ensures PairRefs(db.readPositions.Keys, channels, users)
  {
    hide Names, Retracted, Announced, Resends;
  }

  /** A new message row, from either door. */
  lemma AddMessageSound(db: Db, id: Rank, m: Message)
    requires Sound(db) && id !in db.messages && m.channel in db.channels && Known(m.sender, db.users.Keys) && !m.deleted
    requires m.clientMsgId.Some? ==> SentBefore(db, m.channel, m.clientMsgId.value) == {}
    ensures Sound(db.(messages := db.messages[id := m]))
  {
    hide Names, PairRefs;
    var ms := db.messages[id := m];
    NewClientId(db, id, m);
    assert MessageRefs(ms, db.channels.Keys, db.users.Keys) by { hide Retracted, Announced, Resends, ReportRefs; }
    assert ReportRefs(db.reports, ms.Keys, db.users.Keys) by { hide Retracted, Announced, Resends, MessageRefs; }
    assert Retracted(ms, db.retractions) by { hide Announced, Resends, MessageRefs, ReportRefs; }
    assert Announced(ms, db.retractions, db.reports) by { hide Retracted, Resends, MessageRefs, ReportRefs; }
  }

  lemma NewClientId(db: Db, id: Rank, m: Message)
    requires Resends(db.messages) && id !in db.messages
    requires m.clientMsgId.Some? ==> SentBefore(db, m.channel, m.clientMsgId.value) == {}
    ensures Resends(db.messages[id := m])
  {
    forall i | i in db.messages && db.messages[i].channel == m.channel && m.clientMsgId.Some?
      ensures db.messages[i].clientMsgId != m.clientMsgId
    {
      assert i !in SentBefore(db, m.channel, m.clientMsgId.value);
    }
  }

  /** A new channel row under an unused name. */
  lemma AddChannelSound(db: Db, c: ChannelId, ch: Channel)
    requires Sound(db) && c !in db.channels && Named(db, ch.aikoChannel) == {}
    requires ch.kind.Dm? <==> IsDmName(ch.aikoChannel)
    ensures Sound(db.(channels := db.channels[c := ch]))
  {
    hide MessageRefs, ReportRefs, PairRefs, Retracted, Announced, Resends, IsDmName;
    var cs := db.channels[c := ch];
    RefsGrow(db, cs.Keys, db.users.Keys);
    forall d | d in db.channels ensures db.channels[d].aikoChannel != ch.aikoChannel {
      assert d !in Named(db, ch.aikoChannel);
    }
  }

  lemma AddMembershipSound(db: Db, c: ChannelId, u: UserId, role: Role)
    requires Sound(db) && c in db.channels && u in db.users
    ensures Sound(db.(memberships := db.memberships[(c, u) := role]))
  {
    hide MessageRefs, ReportRefs, Names, Retracted, Announced, Resends;
  }

  lemma LeaveSound(db: Db, c: ChannelId, u: UserId)
    requires Sound(db)
    ensures Sound(db.(memberships := db.memberships - {(c, u)}))
  {
    hide MessageRefs, ReportRefs, Names, Retracted, Announced, Resends;
  }

  lemma MarkReadSound(db: Db, c: ChannelId, u: UserId, upTo: Rank)
    requires Sound(db) && c in db.channels && u in db.users
    ensures Sound(db.(readPositions := db.readPositions[(c, u) := upTo]))
  {
    hide MessageRefs, ReportRefs, Names, Retracted, Announced, Resends;
  }

  lemma SignUpSound(db: Db, u: UserId, name: string)
    requires Sound(db)
    ensures Sound(db.(users := db.users[u := name]))
  {
    hide MessageRefs, ReportRefs, PairRefs, Names, Retracted, Announced, Resends;
    RefsGrow(db, db.channels.Keys, db.users.Keys + {u});
    assert db.users[u := name].Keys == db.users.Keys + {u};
  }

  lemma BlockSound(db: Db, a: UserId, b: UserId)
    requires Sound(db)
    ensures a in db.users ==> Sound(BlockUser(db, a, b).1)
    ensures Sound(UnblockUser(db, a, b))
  {
    hide MessageRefs, ReportRefs, Names, Retracted, Announced, Resends;
  }

  lemma SendSound(db: Db, u: UserId, c: ChannelId, cmid: string, body: string, id: Rank)
    requires Sound(db) && u in db.users && c in db.channels
    ensures Sound(CreateOutbound(db, u, c, cmid, body, id).1)
  {
    hide Sound, DmSendRefused;
    if SentBefore(db, c, cmid) == {} && id !in db.messages {
      AddMessageSound(db, id, Message(c, Some(u), Some(cmid), body, false));
    }
  }

  lemma UpsertSound(db: Db, name: string, c: ChannelId)
    requires Sound(db)
    ensures var (found, db') := UpsertChannel(db, name, c);
            Sound(db') && (found.Ok? ==> found.value in db'.channels) && db'.messages == db.messages && db'.users == db.users
  {
    hide Sound;
    if !IsDmName(name) && Named(db, name) == {} && c !in db.channels {
      AddChannelSound(db, c, Channel(Standard, name));
    }
  }

  lemma BusSound(db: Db, name: string, username: Option<string>, body: string, c: ChannelId, id: Rank)
    requires Sound(db)
    ensures Sound(PersistInbound(db, name, username, body, c, id).1)
  {
    hide Sound, IsDmName;
    var (found, db') := UpsertChannel(db, name, c);
    if name != "" && found.Ok? && id !in db.messages {
      UpsertSound(db, name, c);
      var sender := TheOne(Accounts(db.users, username));
      AddMessageSound(db', id, Message(found.value, sender, None, body, false));
    }
  }

  lemma ReportSound(db: Db, u: UserId, m: Rank, id: Rank)
    requires Sound(db) && u in db.users
    ensures Sound(ReportMessage(db, u, m, id).1)
  {
    hide MessageRefs, PairRefs, Names, Retracted, Resends, Targets, Least;
  }

  lemma DismissSound(db: Db, r: Rank, u: UserId)
    requires Sound(db) && u in db.users
    ensures Sound(Dismiss(db, r, u).1)
  {
    hide MessageRefs, PairRefs, Names, Retracted, Resends, Targets;
  }

  lemma StampMessage(db: Db, m: Rank)
    requires Sound(db) && m in db.messages
    ensures var ms := db.messages[m := db.messages[m].(deleted := true)];
            && ms.Keys == db.messages.Keys && MessageRefs(ms, db.channels.Keys, db.users.Keys)
            && Resends(ms) && Retracted(ms, db.retractions)
  {
    hide Names, PairRefs, ReportRefs, Announced;
    var ms := db.messages[m := db.messages[m].(deleted := true)];
    assert MessageRefs(ms, db.channels.Keys, db.users.Keys) by { hide Retracted, Resends; }
    assert Resends(ms) by { hide Retracted, MessageRefs; }
    assert Retracted(ms, db.retractions) by { hide Resends, MessageRefs; }
  }

  lemma EmitRetraction(messages: map<Rank, Message>, retractions: map<Rank, Retraction>, m: Rank, id: Rank)
    requires Retracted(messages, retractions) && m in messages && messages[m].deleted
    requires m !in Targets(retractions) && m < id && id !in retractions
    ensures var rs := retractions[id := Retraction(m, messages[m].channel)];
            Retracted(messages, rs) && Targets(rs) == Targets(retractions) + {m}
  {
    var rs := retractions[id := Retraction(m, messages[m].channel)];
    forall i | i in retractions ensures retractions[i].target != m {
      assert retractions[i].target in Targets(retractions);
    }
    forall x | x in Targets(retractions) ensures x in Targets(rs) {
      var i :| i in retractions && retractions[i].target == x;
      assert i in rs && rs[i].target == x;
    }
    assert rs[id].target == m;
  }

  lemma StampReport(db: Db, r: Rank, u: UserId, retractions: map<Rank, Retraction>)
    requires Sound(db) && r in db.reports && u in db.users
    requires Targets(db.retractions) + {db.reports[r].message} <= Targets(retractions)
    ensures var m := db.reports[r].message;
            var ms := db.messages[m := db.messages[m].(deleted := true)];
            var reps := db.reports[r := db.reports[r].(resolution := TakenDown, resolvedBy := Some(u))];
            && ReportRefs(reps, db.messages.Keys, db.users.Keys)
            && Announced(ms, retractions, reps) && Announced(ms, retractions, db.reports)
  {
    hide Names, PairRefs, Retracted, Resends, MessageRefs, Targets;
  }

  /** The rows a takedown leaves: stamped now or before, and one retraction either way. */
  lemma TakeDownSound(db: Db, r: Rank, u: UserId, id: Rank)
    requires Sound(db) && u in db.users
    ensures Sound(TakeDown(db, r, u, id).1)
  {
    hide Names, PairRefs, MessageRefs, ReportRefs, Retracted, Announced, Resends, Targets;
    var db' := TakeDown(db, r, u, id).1;
    if db' != db {
      var m := db.reports[r].message;
      StampMessage(db, m);
      var ms := db.messages[m := db.messages[m].(deleted := true)];
      if db.reports[r].resolution.TakenDown? {
        AlreadyDeleted(db, r);
        assert ms == db.messages;
      }
      if m !in Targets(db.retractions) {
        EmitRetraction(ms, db.retractions, m, id);
      }
      StampReport(db, r, u, db'.retractions);
    }
  }

  lemma AlreadyDeleted(db: Db, r: Rank)
    requires Sound(db) && r in db.reports && db.reports[r].resolution.TakenDown?
    ensures db.reports[r].message in db.messages && db.messages[db.reports[r].message].deleted
  {
    hide Names, PairRefs, MessageRefs, ReportRefs, Retracted, Resends, Targets;
  }

  lemma TombstonesSound(db: Db, u: UserId)
    requires Sound(db)
    ensures var ms := Tombstoned(db.messages, u);
            && ms.Keys == db.messages.Keys && MessageRefs(ms, db.channels.Keys, (db.users - {u}).Keys)
            && Retracted(ms, db.retractions) && Resends(ms)
  {
    hide Names, PairRefs, ReportRefs, Announced;
    var ms := Tombstoned(db.messages, u);
    assert MessageRefs(ms, db.channels.Keys, (db.users - {u}).Keys) by { hide Retracted, Resends; }
    assert Retracted(ms, db.retractions) by { hide MessageRefs, Resends; }
    assert Resends(ms) by { hide MessageRefs, Retracted; }
  }

  lemma AnonymizedSound(db: Db, u: UserId)
    requires Sound(db)
    ensures ReportRefs(Anonymized(db.reports, u), db.messages.Keys, (db.users - {u}).Keys)
    ensures Announced(Tombstoned(db.messages, u), db.retractions, Anonymized(db.reports, u))
  {
    hide Names, PairRefs, MessageRefs, Retracted, Resends, Targets;
    assert ReportRefs(Anonymized(db.reports, u), db.messages.Keys, (db.users - {u}).Keys) by { hide Announced; }
  }

  lemma UserPairsSound(db: Db, u: UserId)
    requires Sound(db)
    ensures var db' := WithoutUser(db, u);
            && PairRefs(db'.blocks, db'.users.Keys, db'.users.Keys)
            && PairRefs(db'.memberships.Keys, db'.channels.Keys, db'.users.Keys)
            && PairRefs(db'.readPositions.Keys, db'.channels.Keys, db'.users.Keys)
  {
    hide Names, MessageRefs, ReportRefs, Retracted, Announced, Resends, Tombstoned, Anonymized, CountedDown;
  }

  /** Account deletion leaves no dangling row. */
  lemma WithoutUserSound(db: Db, u: UserId)
    requires Sound(db)
    ensures Sound(WithoutUser(db, u))
  {
    hide Names, PairRefs, MessageRefs, ReportRefs, Retracted, Announced, Resends, Tombstoned, Anonymized, CountedDown;
    TombstonesSound(db, u);
    AnonymizedSound(db, u);
    UserPairsSound(db, u);
  }

  lemma ChannelMessagesSound(db: Db, c: ChannelId)
    requires Sound(db)
    ensures var ms := MessagesOutside(db.messages, c);
            && Names(db.channels - {c}) && MessageRefs(ms, (db.channels - {c}).Keys, db.users.Keys)
            && ReportRefs(ReportsOutside(db.reports, db.messages, c), ms.Keys, db.users.Keys)
            && Resends(ms)
  {
    hide PairRefs, Announced, Retracted;
    var ms := MessagesOutside(db.messages, c);
    assert Names(db.channels - {c}) by { hide MessageRefs, ReportRefs, Resends; }
    assert MessageRefs(ms, (db.channels - {c}).Keys, db.users.Keys) by { hide Names, ReportRefs, Resends; }
    assert ReportRefs(ReportsOutside(db.reports, db.messages, c), ms.Keys, db.users.Keys) by {
      hide Names, MessageRefs, Resends;
    }
    assert Resends(ms) by { hide Names, MessageRefs, ReportRefs; }
  }

  /** The retractions of a channel go with it because a retraction lives in its target's channel. */
  lemma ChannelRetractionsSound(db: Db, c: ChannelId)
    requires Sound(db)
    ensures Retracted(MessagesOutside(db.messages, c), RetractionsOutside(db.retractions, c))
    ensures Announced(MessagesOutside(db.messages, c), RetractionsOutside(db.retractions, c),
                      ReportsOutside(db.reports, db.messages, c))
  {
    hide Names, PairRefs, MessageRefs, ReportRefs, Resends;
    var ms, rs := MessagesOutside(db.messages, c), RetractionsOutside(db.retractions, c);
    assert Retracted(ms, rs) by { hide Announced; }
    forall x | x in ms && ms[x].deleted ensures x in Targets(rs) {
      assert x in Targets(db.retractions);
      var i :| i in db.retractions && db.retractions[i].target == x;
      assert i in rs && rs[i].target == x;
    }
  }

  lemma ChannelPairsSound(db: Db, c: ChannelId)
    requires Sound(db)
    ensures PairRefs(RowsOutside(db.memberships, c).Keys, (db.channels - {c}).Keys, db.users.Keys)
    ensures PairRefs(RowsOutside(db.readPositions, c).Keys, (db.channels - {c}).Keys, db.users.Keys)
  {
    hide Names, MessageRefs, ReportRefs, Retracted, Announced, Resends;
  }

  /** Nothing that survives a channel's deletion refers into it. */
  lemma WithoutChannelSound(db: Db, c: ChannelId)
    requires Sound(db)
    ensures Sound(WithoutChannel(db, c))
  {
    hide Names, PairRefs, MessageRefs, ReportRefs, Retracted, Announced, Resends,
         MessagesOutside, RetractionsOutside, ReportsOutside, RowsOutside;
    ChannelMessagesSound(db, c);
    ChannelRetractionsSound(db, c);
    ChannelPairsSound(db, c);
  }

  lemma OpenDmSound(db: Db, c: ChannelId, me: UserId, target: UserId)
    requires Sound(db) && Enabled(db, OpenDm(c, me, target))
    ensures Sound(Apply(db, OpenDm(c, me, target)))
  {
    hide Sound;
    var ch := Channel(Dm, CanonicalKey(me, target));
    assert IsDmName(ch.aikoChannel);
    AddChannelSound(db, c, ch);
    var db1 := db.(channels := db.channels[c := ch]);
    AddMembershipSound(db1, c, me, Member);
    AddMembershipSound(db1.(memberships := db1.memberships[(c, me) := Member]), c, target, Member);
  }

  /** Every step keeps every invariant. */
  lemma StepSound(db: Db, step: Step)
    requires Sound(db) && Enabled(db, step)
    ensures Sound(Apply(db, step))
  {
    hide Sound, CreateOutbound, PersistInbound, BlockUser, UnblockUser, ReportMessage, TakeDown, Dismiss,
         WithoutUser, WithoutChannel, SoleAdminChannels, CanonicalKey, Named;
    match step {
      case SignUp(u, name) => SignUpSound(db, u, name);
      case CreateChannel(c, name, u) =>
        AddChannelSound(db, c, Channel(Standard, name));
        AddMembershipSound(db.(channels := db.channels[c := Channel(Standard, name)]), c, u, Admin);
      case OpenDm(c, me, target) => OpenDmSound(db, c, me, target);
      case Join(c, u, role) => AddMembershipSound(db, c, u, role);
      case Leave(c, u) => LeaveSound(db, c, u);
      case MarkRead(c, u, upTo) => MarkReadSound(db, c, u, upTo);
      case Send(u, c, cmid, body, id) => SendSound(db, u, c, cmid, body, id);
      case BusMessage(name, username, body, c, id) => BusSound(db, name, username, body, c, id);
      case Block(a, b) => BlockSound(db, a, b);
      case Unblock(a, b) => BlockSound(db, a, b);
      case ReportOf(u, m, id) => ReportSound(db, u, m, id);
      case TakeDownReport(r, u, id) => TakeDownSound(db, r, u, id);
      case DismissReport(r, u) => DismissSound(db, r, u);
      case DeleteUser(u) => WithoutUserSound(db, u);
      case DeleteChannel(name) =>
        var c := TheOne(Named(db, name));
        if c.Some? {
          WithoutChannelSound(db, c.value);
        }
    }
  }
}
