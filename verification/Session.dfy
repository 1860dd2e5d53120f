/** The services as they run: one session over the tables, each call a sequence of statements on them. What a call
    returns and leaves behind is the corresponding function of `Services` on the old store. */
module Session {
  import opened Store
  import opened DmKey
  import opened History
  import opened Services
  import opened Gateway
  import Memberships

  class Session {
    var users: map<UserId, string>
    var channels: map<ChannelId, Channel>
    var messages: map<Rank, Message>
    var retractions: map<Rank, Retraction>
    var reports: map<Rank, Report>
    var blocks: set<(UserId, UserId)>
    var memberships: map<(ChannelId, UserId), Role>
    var readPositions: map<(ChannelId, UserId), Rank>
    var communities: map<CommunityId, Community>
    var communityMembers: set<(CommunityId, UserId)>

    function Tables(): (db: Db)
      reads this
    {
      Db(users, channels, messages, retractions, reports, blocks, memberships, readPositions, communities, communityMembers)
    }

    constructor ()
      ensures Tables() == EMPTY
    {
      users, channels, messages, retractions, reports := map[], map[], map[], map[], map[];
      blocks, memberships, readPositions, communities, communityMembers := {}, map[], map[], map[], {};
    }

    /** `create_outbound`: the resend check comes before the block gate. */
    method SendMessage(user: UserId, c: ChannelId, clientMsgId: string, body: string, id: Rank)
      returns (r: Result<(Rank, bool), Error>)
      requires c in channels
      modifies this
      ensures (r, Tables()) == CreateOutbound(old(Tables()), user, c, clientMsgId, body, id)
    {
      var existing := SentBefore(Tables(), c, clientMsgId);
      if existing != {} { return Ok((Least(existing), false)); }
      if channels[c].kind.Dm? {
        var peers := PeerIds(channels[c].aikoChannel, user);
        if peers.None? { return Err(BlockedDmSend); }
        var blocked := BlockedPairs(Tables(), user);
        if exists p :: p in peers.value && p in blocked { return Err(BlockedDmSend); }
      }
      if id in messages { return Err(IntegrityError); }
      messages := messages[id := Message(c, Some(user), Some(clientMsgId), body, false)];
      return Ok((id, true));
    }

    /** `upsert_channel`: flushed, not committed. */
    method UpsertBusChannel(aikoChannel: string, newId: ChannelId) returns (r: Result<ChannelId, Error>)
      modifies this`channels
      ensures (r, Tables()) == UpsertChannel(old(Tables()), aikoChannel, newId)
    {
      if IsDmName(aikoChannel) { return Err(ReservedDmChannel); }
      var existing := Named(Tables(), aikoChannel);
      if existing != {} {
        var c := TheOne(existing);
        return if c.Some? then Ok(c.value) else Err(IntegrityError);
      }
      if newId in channels { return Err(IntegrityError); }
      channels := channels[newId := Channel(Standard, aikoChannel)];
      return Ok(newId);
    }

    /** `persist_inbound`: channel and message land in one commit, so a failed insert takes the new channel with it. */
    method ReceiveFromBus(aikoChannel: string, username: Option<string>, body: string, newId: ChannelId, id: Rank)
      returns (r: Option<Rank>)
      modifies this
      ensures (r, Tables()) == PersistInbound(old(Tables()), aikoChannel, username, body, newId, id)
    {
      if aikoChannel == "" { return None; }
      var saved := channels;
      var found := UpsertBusChannel(aikoChannel, newId);
      if found.Err? { return None; }
      var sender := TheOne(Accounts(users, username));
      if id in messages {
        channels := saved;
        return None;
      }
      messages := messages[id := Message(found.value, sender, None, body, false)];
      return Some(id);
    }

    /** `take_down_message`: everything that can fail runs before the first write. */
    method TakeDownMessage(report: Rank, moderator: UserId, id: Rank) returns (r: Result<Option<Rank>, Error>)
      modifies this
      ensures (r, Tables()) == TakeDown(old(Tables()), report, moderator, id)
      ensures old(Sound(Tables())) && moderator in old(users) ==> Sound(Tables())
    {
      if Sound(Tables()) && moderator in users {
        TakeDownSound(Tables(), report, moderator, id);
      }
      hide Sound;
      if report !in reports { return Err(ReportNotFound); }
      var rep := reports[report];
      if rep.resolution.Dismissed? { return Err(ReportAlreadyResolved); }
      var m := rep.message;
      if m !in messages {
        return if rep.resolution.TakenDown? then Ok(None) else Err(MessageNotFound);
      }
      var emit := m !in Targets(retractions);
      if emit {
        if id <= m { return Err(RetractionOrdering); }
        if id in retractions { return Err(IntegrityError); }
      }
      var channel := messages[m].channel;
      if !rep.resolution.TakenDown? {
        messages := messages[m := messages[m].(deleted := true)];
        reports := reports[report := rep.(resolution := TakenDown, resolvedBy := Some(moderator))];
      }
      if !emit { return Ok(None); }
      retractions := retractions[id := Retraction(m, channel)];
      return Ok(Some(id));
    }

    /** `dismiss_report`. */
    method DismissReport(report: Rank, moderator: UserId) returns (r: Result<(), Error>)
      modifies this`reports
      ensures (r, Tables()) == Dismiss(old(Tables()), report, moderator)
    {
      if report !in reports { return Err(ReportNotFound); }
      if !reports[report].resolution.Pending? {
        return if reports[report].resolution.Dismissed? then Ok(()) else Err(ReportAlreadyResolved);
      }
      reports := reports[report := reports[report].(resolution := Dismissed, resolvedBy := Some(moderator))];
      return Ok(());
    }

    /** The delete of the reports on a channel's messages, through the subquery on the messages table. */
    method PurgeChannelReports(c: ChannelId)
      modifies this`reports
      ensures reports == ReportsOutside(old(reports), messages, c)
    {
      var channelMessages := set i | i in messages && messages[i].channel == c;
      reports := map i | i in reports && reports[i].message !in channelMessages :: reports[i];
    }

    /** The deletes of `hard_delete_channel` that leave the channel row: the reports go while their messages can still
        be looked up. */
    method PurgeChannelRows(c: ChannelId)
      modifies this`memberships, this`retractions, this`reports, this`messages, this`readPositions
      ensures memberships == RowsOutside(old(memberships), c) && readPositions == RowsOutside(old(readPositions), c)
      ensures retractions == RetractionsOutside(old(retractions), c) && messages == MessagesOutside(old(messages), c)
      ensures reports == ReportsOutside(old(reports), old(messages), c)
    {
      hide ReportsOutside;
      memberships := map k | k in memberships && k.0 != c :: memberships[k];
      retractions := map i | i in retractions && retractions[i].channel != c :: retractions[i];
      PurgeChannelReports(c);
      messages := map i | i in messages && messages[i].channel != c :: messages[i];
      readPositions := map k | k in readPositions && k.0 != c :: readPositions[k];
    }

    /** `hard_delete_channel`: children before the parent. */
    method HardDeleteChannel(aikoChannel: string) returns (deleted: bool)
      modifies this
      ensures (deleted, Tables()) == HardDelete(old(Tables()), aikoChannel)
      ensures old(Sound(Tables())) ==> Sound(Tables())
    {
      hide Sound, Named, RowsOutside, RetractionsOutside, MessagesOutside, ReportsOutside;
      if IsDmName(aikoChannel) { return false; }
      var found := TheOne(Named(Tables(), aikoChannel));
      if found.None? { return false; }
      var c := found.value;
      if Sound(Tables()) {
        WithoutChannelSound(Tables(), c);
      }
      PurgeChannelRows(c);
      channels := channels - {c};
      assert Tables() == WithoutChannel(old(Tables()), c);
      return true;
    }

    /** `purge_user_moderation_rows`. */
    method PurgeModerationRows(u: UserId)
      modifies this`blocks, this`reports
      ensures blocks == set p | p in old(blocks) && p.0 != u && p.1 != u
      ensures reports == Anonymized(old(reports), u)
    {
      blocks := set p | p in blocks && p.0 != u && p.1 != u;
      reports := map i | i in reports :: if reports[i].reporter == Some(u) then reports[i].(reporter := None) else reports[i];
      reports := map i | i in reports :: if reports[i].resolvedBy == Some(u) then reports[i].(resolvedBy := None) else reports[i];
    }

    /** The community statements of account deletion. */
    method PurgeCommunityRows(u: UserId)
      modifies this`communities, this`communityMembers
      ensures communities == CountedDown(old(communities), old(communityMembers), u)
      ensures communityMembers == set p | p in old(communityMembers) && p.1 != u
    {
      communities := map c | c in communities ::
        if (c, u) in communityMembers then communities[c].(memberCount := communities[c].memberCount - 1) else communities[c];
      communityMembers := set p | p in communityMembers && p.1 != u;
      communities := map c | c in communities ::
        if communities[c].owner == Some(u) then communities[c].(owner := None) else communities[c];
    }

    /** The remaining child rows of an account: authored messages keep their slot, private rows go. */
    method PurgePersonalRows(u: UserId)
      modifies this`messages, this`memberships, this`readPositions
      ensures messages == Tombstoned(old(messages), u)
      ensures memberships == RowsWithoutUser(old(memberships), u) && readPositions == RowsWithoutUser(old(readPositions), u)
    {
      messages := map i | i in messages ::
        if messages[i].sender == Some(u) then messages[i].(sender := None, clientMsgId := None, body := DELETED_BODY)
        else messages[i];
      memberships := map k | k in memberships && k.1 != u :: memberships[k];
      readPositions := map k | k in readPositions && k.1 != u :: readPositions[k];
    }

    /** `delete_user_account` over the admin channels listed before its transaction: the guarded deletes come first, a
        refusal rolls them back, and the account row goes last. */
    method DeleteUserAccount(u: UserId, listed: seq<ChannelId>) returns (r: Result<(), Error>)
      requires Memberships.NoRepeats(listed)
      modifies this
      ensures var (ok, rows) := Memberships.AccountRemoved(old(memberships), u, set c | c in listed);
              && (ok.Err? ==> r == Err(SoleAdminOf(ok.error)) && Tables() == old(Tables()))
              && (ok.Ok? ==> r == Ok(()) && Tables() == WithoutUser(old(Tables()), u))
      ensures (set c | c in listed) == Memberships.AdminChannels(old(memberships), u) ==>
                (r, Tables()) == DeleteAccount(old(Tables()), u)
      ensures old(Sound(Tables())) ==> Sound(Tables())
    {
      hide Sound, SoleAdminChannels, Anonymized, CountedDown, Tombstoned, RowsWithoutUser,
           Memberships.Refused, Memberships.AdminChannels;
      Memberships.FreshListIsExact(memberships, u);
      if Sound(Tables()) {
        WithoutUserSound(Tables(), u);
      }
      var roster := new Memberships.Roster(memberships);
      var removed := roster.DeleteAccountRows(u, listed);
      if removed.Err? { return Err(SoleAdminOf(removed.error)); }
      memberships := roster.rows;
      PurgeModerationRows(u);
      PurgeCommunityRows(u);
      PurgePersonalRows(u);
      users := users - {u};
      assert Tables() == WithoutUser(old(Tables()), u) by {
        WithoutTwice(old(memberships), u);
      }
      return Ok(());
    }

    /** `report_message`. */
    method FileReport(reporter: UserId, message: Rank, id: Rank) returns (r: Result<Rank, Error>)
      modifies this`reports
      ensures (r, Tables()) == ReportMessage(old(Tables()), reporter, message, id)
    {
      if message !in messages { return Err(MessageNotFound); }
      var existing := ReportsBy(reports, message, reporter);
      if existing != {} { return Ok(Least(existing)); }
      if id in reports { return Err(IntegrityError); }
      reports := reports[id := Report(message, Some(reporter), Pending, None)];
      return Ok(id);
    }
  }

  lemma WithoutTwice(rows: map<(ChannelId, UserId), Role>, u: UserId)
    ensures RowsWithoutUser(RowsWithoutUser(rows, u), u) == RowsWithoutUser(rows, u)
  {
  }
}
