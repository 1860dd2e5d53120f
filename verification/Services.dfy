/** The mutating service calls as functions of the store, each one committed transaction: what a call returns and
    the rows it leaves behind. A refused call leaves the store as it was. */
module Services {
  import opened Store
  import opened DmKey
  import opened History

  const DELETED_BODY := "[deleted]"

  datatype Error =
    | BlockedDmSend
    | ReservedDmChannel
    | CannotBlockSelf
    | UserNotFound
    | MessageNotFound
    | ReportNotFound
    | ReportAlreadyResolved
    | RetractionOrdering
    | SoleAdminOf(channels: set<ChannelId>)
    | IntegrityError        // a primary key minted twice

  // ---- messages_service.py

  /** `blocked_pair_user_ids`: everyone in a block relationship with `u`, either way round. */
  function BlockedPairs(db: Db, u: UserId): (others: set<UserId>)
    ensures forall v :: v in others <==> BlockBetween(db, u, v)
  {
    var out := set p: (UserId, UserId) | p in db.blocks && (p.0 == u || p.1 == u) :: if p.0 == u then p.1 else p.0;
    assert forall v :: (u, v) in db.blocks ==> (if (u, v).0 == u then (u, v).1 else (u, v).0) in out;
    assert forall v :: (v, u) in db.blocks ==> (if (v, u).0 == u then (v, u).1 else (v, u).0) in out;
    out
  }

  /** Rows a resend of `clientMsgId` on `c` would find. */
  function SentBefore(db: Db, c: ChannelId, clientMsgId: string): (ids: set<Rank>) {
    set i | i in db.messages && db.messages[i].channel == c && db.messages[i].clientMsgId == Some(clientMsgId)
  }

  /** The block gate of a DM send: a malformed key fails closed. */
  predicate DmSendRefused(db: Db, aikoChannel: string, user: UserId) {
    var peers := PeerIds(aikoChannel, user);
    peers.None? || exists p :: p in peers.value && p in BlockedPairs(db, user)
  }

  /** `create_outbound`: the row's id and whether it is new. */
  function CreateOutbound(db: Db, user: UserId, c: ChannelId, clientMsgId: string, body: string, id: Rank)
    : (r: (Result<(Rank, bool), Error>, Db))
    requires c in db.channels
  {
    var existing := SentBefore(db, c, clientMsgId);
    if existing != {} then (Ok((Least(existing), false)), db)
    else if db.channels[c].kind.Dm? && DmSendRefused(db, db.channels[c].aikoChannel, user) then (Err(BlockedDmSend), db)
    else if id in db.messages then (Err(IntegrityError), db)
    else (Ok((id, true)),
          db.(messages := db.messages[id := Message(c, Some(user), Some(clientMsgId), body, false)]))
  }

  /** `should_federate`. */
  predicate ShouldFederate(ch: Channel) { ch.kind != Dm && !IsDmName(ch.aikoChannel) }

  function Named(db: Db, aikoChannel: string): (cs: set<ChannelId>) {
    set c | c in db.channels && db.channels[c].aikoChannel == aikoChannel
  }

  /** `scalar_one_or_none` on a unique lookup. */
  function TheOne(cs: set<string>): (c: Option<string>)
    ensures c.Some? ==> cs == {c.value}
    ensures c.None? ==> |cs| != 1
  {
    if |cs| == 1 then
      SingletonElement(cs);
      var x :| x in cs;
      Some(x)
    else None
  }

  lemma SingletonElement(cs: set<string>)
    requires |cs| == 1
    ensures forall x, y :: x in cs && y in cs ==> x == y
    ensures forall x :: x in cs ==> cs == {x}
  {
    forall x, y | x in cs && y in cs ensures x == y {
      assert x != y ==> |cs - {x} - {y}| == |cs| - 2;
    }
    forall x | x in cs ensures cs == {x} {
      assert forall y :: y in cs ==> y == x;
    }
  }

  /** `upsert_channel`: the reserved namespace is refused before any lookup. */
  function UpsertChannel(db: Db, aikoChannel: string, newId: ChannelId): (r: (Result<ChannelId, Error>, Db)) {
    if IsDmName(aikoChannel) then (Err(ReservedDmChannel), db)
    else if Named(db, aikoChannel) != {} then
      var c := TheOne(Named(db, aikoChannel));
      (if c.Some? then Ok(c.value) else Err(IntegrityError), db)
    else if newId in db.channels then (Err(IntegrityError), db)
    else (Ok(newId), db.(channels := db.channels[newId := Channel(Standard, aikoChannel)]))
  }

  /** The accounts a bus username selects; an absent or empty one is not looked up. */
  function Accounts(users: map<UserId, string>, username: Option<string>): (us: set<UserId>) {
    set u | u in users && username == Some(users[u]) && users[u] != ""
  }

  /** `persist_inbound`: a bus message lands in its channel, or nowhere. */
  function PersistInbound(db: Db, aikoChannel: string, username: Option<string>, body: string, newId: ChannelId, id: Rank)
    : (r: (Option<Rank>, Db))
  {
    if aikoChannel == "" then (None, db) else
      var (found, db') := UpsertChannel(db, aikoChannel, newId);
      if found.Err? || id in db.messages then (None, db)
      else
        var sender := TheOne(Accounts(db.users, username));
        (Some(id), db'.(messages := db'.messages[id := Message(found.value, sender, None, body, false)]))
  }

  // ---- moderation_service.py

  function BlockUser(db: Db, blocker: UserId, blocked: UserId): (r: (Result<(), Error>, Db)) {
    if blocker == blocked then (Err(CannotBlockSelf), db)
    else if blocked !in db.users then (Err(UserNotFound), db)
    else (Ok(()), db.(blocks := db.blocks + {(blocker, blocked)}))
  }

  function UnblockUser(db: Db, blocker: UserId, blocked: UserId): (r: Db) {
    db.(blocks := db.blocks - {(blocker, blocked)})
  }

  function ReportsBy(reports: map<Rank, Report>, message: Rank, reporter: UserId): (ids: set<Rank>) {
    set i | i in reports && reports[i].message == message && reports[i].reporter == Some(reporter)
  }

  /** `report_message`. */
  function ReportMessage(db: Db, reporter: UserId, message: Rank, id: Rank): (r: (Result<Rank, Error>, Db)) {
    if message !in db.messages then (Err(MessageNotFound), db) else
      var existing := ReportsBy(db.reports, message, reporter);
      if existing != {} then (Ok(Least(existing)), db)
      else if id in db.reports then (Err(IntegrityError), db)
      else (Ok(id), db.(reports := db.reports[id := Report(message, Some(reporter), Pending, None)]))
  }

  /** The messages whose removal is already announced. */
  function Targets(retractions: map<Rank, Retraction>): (ids: set<Rank>) {
    set i | i in retractions :: retractions[i].target
  }

  /** `take_down_message`: at most one retraction per message, guarded to sort after its target, and the
      soft-delete only together with the resolution. */
  function TakeDown(db: Db, report: Rank, moderator: UserId, id: Rank): (r: (Result<Option<Rank>, Error>, Db)) {
    if report !in db.reports then (Err(ReportNotFound), db) else
      var rep := db.reports[report];
      if rep.resolution.Dismissed? then (Err(ReportAlreadyResolved), db)
      else if rep.message !in db.messages then
        (if rep.resolution.TakenDown? then Ok(None) else Err(MessageNotFound), db)
      else
        var m := rep.message;
        var emit := m !in Targets(db.retractions);
        if emit && id <= m then (Err(RetractionOrdering), db)
        else if emit && id in db.retractions then (Err(IntegrityError), db)
        else
          var stamped := if rep.resolution.TakenDown? then db else
            db.(messages := db.messages[m := db.messages[m].(deleted := true)],
                reports := db.reports[report := rep.(resolution := TakenDown, resolvedBy := Some(moderator))]);
          if emit then
            (Ok(Some(id)),
             stamped.(retractions := stamped.retractions[id := Retraction(m, db.messages[m].channel)]))
          else (Ok(None), stamped)
  }

  /** `dismiss_report`. */
  function Dismiss(db: Db, report: Rank, moderator: UserId): (r: (Result<(), Error>, Db)) {
    if report !in db.reports then (Err(ReportNotFound), db)
    else if db.reports[report].resolution.Dismissed? then (Ok(()), db)
    else if db.reports[report].resolution.TakenDown? then (Err(ReportAlreadyResolved), db)
    else (Ok(()), db.(reports := db.reports[report := db.reports[report].(resolution := Dismissed, resolvedBy := Some(moderator))]))
  }

  // ---- accounts_service.py

  function Admins(memberships: map<(ChannelId, UserId), Role>, c: ChannelId): (us: set<UserId>) {
    set k | k in memberships && k.0 == c && memberships[k].Admin? :: k.1
  }

  /** The channels only `u` administers. */
  function SoleAdminChannels(memberships: map<(ChannelId, UserId), Role>, u: UserId): (cs: set<ChannelId>) {
    set k | k in memberships && k.1 == u && memberships[k].Admin? && Admins(memberships, k.0) == {u} :: k.0
  }

  function Forget(x: Option<UserId>, u: UserId): (y: Option<UserId>) { if x == Some(u) then None else x }

  /** The authored messages keep their slot and lose everything that names the author. */
  function Tombstoned(messages: map<Rank, Message>, u: UserId): (r: map<Rank, Message>) {
    map i | i in messages ::
      if messages[i].sender == Some(u) then messages[i].(sender := None, clientMsgId := None, body := DELETED_BODY)
      else messages[i]
  }

  /** Reports stay for the audit trail; the links to the user go. */
  function Anonymized(reports: map<Rank, Report>, u: UserId): (r: map<Rank, Report>) {
    map i | i in reports :: reports[i].(reporter := Forget(reports[i].reporter, u),
                                        resolvedBy := Forget(reports[i].resolvedBy, u))
  }

  function RowsWithoutUser<V>(rows: map<(ChannelId, UserId), V>, u: UserId): (r: map<(ChannelId, UserId), V>) {
    map k | k in rows && k.1 != u :: rows[k]
  }

  /** Counters drop with the membership rows they count; an owner is anonymized, never the community. */
  function CountedDown(communities: map<CommunityId, Community>, members: set<(CommunityId, UserId)>, u: UserId)
    : (r: map<CommunityId, Community>)
  {
    map c | c in communities :: communities[c].(
      memberCount := communities[c].memberCount - (if (c, u) in members then 1 else 0),
      owner := Forget(communities[c].owner, u))
  }

  /** What is left of the store once `u` is gone. */
  function WithoutUser(db: Db, u: UserId): (r: Db) {
    Db(db.users - {u},
       db.channels,
       Tombstoned(db.messages, u),
       db.retractions,
       Anonymized(db.reports, u),
       (set p: (UserId, UserId) | p in db.blocks && p.0 != u && p.1 != u),
       RowsWithoutUser(db.memberships, u),
       RowsWithoutUser(db.readPositions, u),
       CountedDown(db.communities, db.communityMembers, u),
       (set p: (CommunityId, UserId) | p in db.communityMembers && p.1 != u))
  }

  /** `delete_user_account`, run without interference. */
  function DeleteAccount(db: Db, u: UserId): (r: (Result<(), Error>, Db)) {
    var refused := SoleAdminChannels(db.memberships, u);
    if refused != {} then (Err(SoleAdminOf(refused)), db) else (Ok(()), WithoutUser(db, u))
  }

  // ---- channels_service.py

  function MessagesOutside(messages: map<Rank, Message>, c: ChannelId): (r: map<Rank, Message>) {
    map i | i in messages && messages[i].channel != c :: messages[i]
  }

  function RetractionsOutside(retractions: map<Rank, Retraction>, c: ChannelId): (r: map<Rank, Retraction>) {
    map i | i in retractions && retractions[i].channel != c :: retractions[i]
  }

  /** Reports about messages that are not in `c`. */
  function ReportsOutside(reports: map<Rank, Report>, messages: map<Rank, Message>, c: ChannelId)
    : (r: map<Rank, Report>)
  {
    map i | i in reports && !(reports[i].message in messages && messages[reports[i].message].channel == c) :: reports[i]
  }

  function RowsOutside<V>(rows: map<(ChannelId, UserId), V>, c: ChannelId): (r: map<(ChannelId, UserId), V>) {
    map k | k in rows && k.0 != c :: rows[k]
  }

  /** What is left of the store once the channel `c` and everything in it is gone. */
  function WithoutChannel(db: Db, c: ChannelId): (r: Db) {
    db.(channels := db.channels - {c},
        messages := MessagesOutside(db.messages, c),
        retractions := RetractionsOutside(db.retractions, c),
        reports := ReportsOutside(db.reports, db.messages, c),
        memberships := RowsOutside(db.memberships, c),
        readPositions := RowsOutside(db.readPositions, c))
  }

  /** `hard_delete_channel`. */
  function HardDelete(db: Db, aikoChannel: string): (r: (bool, Db)) {
    if IsDmName(aikoChannel) then (false, db) else
      var c := TheOne(Named(db, aikoChannel));
      if c.None? then (false, db) else (true, WithoutChannel(db, c.value))
  }
}
