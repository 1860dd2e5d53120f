/** What account deletion and channel deletion take away, and what they leave (`accounts_service.py`,
    `channels_service.py`). */
module Cascades {
  import opened Text
  import opened Store
  import opened DmKey
  import opened History
  import opened Services
  import opened Gateway
  import opened Runs

  // ---- account deletion

  /** A refused account deletion names exactly the channels the user alone administers, and changes nothing; it is
      refused exactly when there is one. */
  lemma RefusedDeletionIsInert(db: Db, u: UserId)
    ensures var (r, db') := DeleteAccount(db, u);
            && (r.Err? ==> db' == db && r.error.SoleAdminOf?
                           && forall c :: c in r.error.channels <==> OnlyAdmin(db, c, u))
            && (r.Err? <==> exists c :: OnlyAdmin(db, c, u))
  {
    var sole := SoleAdminChannels(db.memberships, u);
    forall c ensures c in sole <==> OnlyAdmin(db, c, u) {
      assert OnlyAdmin(db, c, u) ==> (c, u).0 in sole;
    }
  }

  ghost predicate OnlyAdmin(db: Db, c: ChannelId, u: UserId) {
    (c, u) in db.memberships && db.memberships[(c, u)].Admin? && Admins(db.memberships, c) == {u}
  }

  /** Every row that did not name the user is exactly as it was, and no row appears. */
  lemma OthersUntouched(db: Db, u: UserId)
    requires DeleteAccount(db, u).0.Ok?
    ensures var db' := DeleteAccount(db, u).1;
            && db'.users == db.users - {u} && db'.channels == db.channels && db'.retractions == db.retractions
            && (forall p :: p in db'.blocks <==> p in db.blocks && p.0 != u && p.1 != u)
            && (forall k :: k in db'.memberships <==> k in db.memberships && k.1 != u)
            && (forall k :: k in db'.memberships ==> db'.memberships[k] == db.memberships[k])
            && (forall k :: k in db'.readPositions <==> k in db.readPositions && k.1 != u)
            && (forall k :: k in db'.readPositions ==> db'.readPositions[k] == db.readPositions[k])
            && (forall p :: p in db'.communityMembers <==> p in db.communityMembers && p.1 != u)
  {
  }

  /** Messages keep their slot, channel and deletion mark; those of others keep everything. */
  lemma MessagesKeepTheirSlot(db: Db, u: UserId)
    requires DeleteAccount(db, u).0.Ok?
    ensures var db' := DeleteAccount(db, u).1;
            && db'.messages.Keys == db.messages.Keys
            && forall i :: i in db.messages ==>
                 var m, m' := db.messages[i], db'.messages[i];
                 if m.sender != Some(u) then m' == m
                 else m' == Message(m.channel, None, None, DELETED_BODY, m.deleted)
  {
  }

  /** Reports keep their subject and outcome and every link to someone else. */
  lemma ReportsKeepTheirOutcome(db: Db, u: UserId)
    requires DeleteAccount(db, u).0.Ok?
    ensures var db' := DeleteAccount(db, u).1;
            && db'.reports.Keys == db.reports.Keys
            && forall i :: i in db.reports ==>
                 var x, x' := db.reports[i], db'.reports[i];
                 && x'.message == x.message && x'.resolution == x.resolution
                 && x'.reporter == (if x.reporter == Some(u) then None else x.reporter)
                 && x'.resolvedBy == (if x.resolvedBy == Some(u) then None else x.resolvedBy)
  {
  }

  /** Communities stay; one that had the user counts one member less, and one the user owned has no owner. */
  lemma CommunitiesStay(db: Db, u: UserId)
    requires DeleteAccount(db, u).0.Ok?
    ensures var db' := DeleteAccount(db, u).1;
            && db'.communities.Keys == db.communities.Keys
            && forall c :: c in db.communities ==>
                 var x, x' := db.communities[c], db'.communities[c];
                 && x'.name == x.name && x'.visibility == x.visibility && x'.takenDown == x.takenDown
                 && x'.owner == (if x.owner == Some(u) then None else x.owner)
                 && x'.memberCount == x.memberCount - if (c, u) in db.communityMembers then 1 else 0
  {
  }

  /** A wire name in the reserved namespace spells out the ids of its pair. */
  predicate KeyNames(key: string, u: UserId) { IsDmName(key) && u in Split(key[|DM_CHANNEL_PREFIX|..], ':') }

  ghost predicate ChannelNames(db: Db, u: UserId) { exists c :: c in db.channels && KeyNames(db.channels[c].aikoChannel, u) }

  /** Some row of some table names the user. */
  ghost predicate Mentions(db: Db, u: UserId) {
    || u in db.users
    || ChannelNames(db, u)
    || (exists i :: i in db.messages && db.messages[i].sender == Some(u))
    || (exists i :: i in db.reports && (db.reports[i].reporter == Some(u) || db.reports[i].resolvedBy == Some(u)))
    || (exists p :: p in db.blocks && (p.0 == u || p.1 == u))
    || (exists k :: k in db.memberships && k.1 == u)
    || (exists k :: k in db.readPositions && k.1 == u)
    || (exists p :: p in db.communityMembers && p.1 == u)
    || (exists c :: c in db.communities && db.communities[c].owner == Some(u))
  }

  /** The wire names of direct messages are all that can still name a deleted user. */
  lemma OnlyChannelsName(db: Db, u: UserId)
    requires DeleteAccount(db, u).0.Ok?
    ensures Mentions(DeleteAccount(db, u).1, u) <==> ChannelNames(db, u)
  {
    hide KeyNames, SoleAdminChannels;
    var db' := DeleteAccount(db, u).1;
    assert db'.channels == db.channels;
    assert ChannelNames(db', u) <==> ChannelNames(db, u);
    hide ChannelNames;
  }

  lemma PairIsNamed(a: UserId, b: UserId, u: UserId)
    requires UlidText(a) && UlidText(b)
    ensures KeyNames(CanonicalKey(a, b), u) <==> u == a || u == b
  {
    KeyParts(a, b);
    KeyParts(b, a);
  }

  /** Account ids are ULIDs and every direct message is keyed by a pair of them. */
  ghost predicate PairKeys(db: Db) {
    && (forall u :: u in db.users ==> UlidText(u))
    && (forall c :: c in db.channels && db.channels[c].kind.Dm? ==> exists a, b :: PairKey(db.channels[c], a, b))
  }

  ghost predicate PairKey(ch: Channel, a: UserId, b: UserId) {
    UlidText(a) && UlidText(b) && ch == Channel(Dm, CanonicalKey(a, b))
  }

  lemma SendKeepsUsers(db: Db, u: UserId, c: ChannelId, cmid: string, body: string, id: Rank)
    requires c in db.channels
    ensures var db' := CreateOutbound(db, u, c, cmid, body, id).1; db'.users == db.users && db'.channels == db.channels
  {
    hide DmSendRefused, SentBefore;
  }

  lemma TakeDownKeepsUsers(db: Db, r: Rank, u: UserId, id: Rank)
    ensures var db' := TakeDown(db, r, u, id).1; db'.users == db.users && db'.channels == db.channels
  {
    hide Targets;
  }

  lemma ReportKeepsUsers(db: Db, r: Rank, u: UserId, m: Rank, id: Rank)
    ensures var db' := ReportMessage(db, u, m, id).1; db'.users == db.users && db'.channels == db.channels
    ensures var db' := Dismiss(db, r, u).1; db'.users == db.users && db'.channels == db.channels
  {
    hide ReportsBy, Least;
  }

  lemma SameUsersAndChannels(db: Db, step: Step)
    requires Enabled(db, step)
    requires !step.SignUp? && !step.CreateChannel? && !step.OpenDm? && !step.BusMessage? && !step.DeleteUser? && !step.DeleteChannel?
    ensures Apply(db, step).users == db.users && Apply(db, step).channels == db.channels
  {
    hide CreateOutbound, TakeDown, ReportMessage, Dismiss;
    match step {
      case Send(u, c, cmid, body, id) => SendKeepsUsers(db, u, c, cmid, body, id);
      case TakeDownReport(r, u, id) => TakeDownKeepsUsers(db, r, u, id);
      case ReportOf(u, m, id) => ReportKeepsUsers(db, 0, u, m, id);
      case DismissReport(r, u) => ReportKeepsUsers(db, r, u, 0, 0);
      case _ =>
    }
  }

  lemma BusAddsStandard(db: Db, name: string, username: Option<string>, body: string, c: ChannelId, id: Rank)
    ensures var db' := PersistInbound(db, name, username, body, c, id).1;
            && db'.users == db.users
            && forall d :: d in db'.channels ==>
                 (d in db.channels && db'.channels[d] == db.channels[d]) || db'.channels[d].kind.Standard?
  {
    hide Named, IsDmName, TheOne;
  }

  lemma StepKeepsPairKeys(db: Db, step: Step)
    requires Enabled(db, step) && PairKeys(db)
    ensures PairKeys(Apply(db, step))
  {
    hide UlidText, CanonicalKey, IsDmName, SoleAdminChannels, Named;
    var db' := Apply(db, step);
    if step.OpenDm? {
      assert PairKey(db'.channels[step.channel], step.me, step.target);
    } else if step.BusMessage? {
      hide PersistInbound;
      BusAddsStandard(db, step.aikoChannel, step.username, step.body, step.newChannel, step.id);
    } else if !step.SignUp? && !step.CreateChannel? && !step.DeleteUser? && !step.DeleteChannel? {
      SameUsersAndChannels(db, step);
      hide Apply;
    }
  }

  lemma {:induction false} RunKeepsPairKeys(states: seq<Db>, steps: seq<Step>, k: nat)
    requires IsRun(states, steps) && k < |states|
    ensures PairKeys(states[k])
  {
    hide Enabled, Apply, PairKey;
    if k > 0 {
      RunKeepsPairKeys(states, steps, k - 1);
      hide PairKeys;
      assert Enabled(states[k - 1], steps[k - 1]) && states[k] == Apply(states[k - 1], steps[k - 1]);
      StepKeepsPairKeys(states[k - 1], steps[k - 1]);
    }
  }

  /** WHAT ERASURE MISSES. In every reachable store, after an accepted account deletion some row still names the user
      if and only if the user had a direct message with anyone, notes-to-self included: its channel row outlives them. */
  lemma ErasedUnlessDm(states: seq<Db>, steps: seq<Step>, k: nat, u: UserId)
    requires IsRun(states, steps) && k < |steps| && steps[k] == DeleteUser(u) && DeleteAccount(states[k], u).0.Ok?
    ensures Mentions(states[k + 1], u) <==>
            exists c, v :: c in states[k].channels && UlidText(u) && PairKey(states[k].channels[c], u, v)
  {
    var db := states[k];
    assert Enabled(db, steps[k]) && states[k + 1] == Apply(db, steps[k]);
    assert states[k + 1] == DeleteAccount(db, u).1;
    RunKeepsPairKeys(states, steps, k);
    RunSound(states, steps, k);
    hide IsRun, DeleteAccount, Mentions, Apply, Enabled, Sound, PairKeys, PairKey, ChannelNames, UlidText;
    OnlyChannelsName(db, u);
    NamedIffPaired(db, u);
  }

  lemma NamedIffPaired(db: Db, u: UserId)
    requires Sound(db) && PairKeys(db)
    ensures ChannelNames(db, u) <==> exists c, v :: c in db.channels && UlidText(u) && PairKey(db.channels[c], u, v)
  {
    hide MessageRefs, ReportRefs, PairRefs, Retracted, Announced, Resends, KeyNames, IsDmName, UlidText, CanonicalKey;
    if c :| c in db.channels && KeyNames(db.channels[c].aikoChannel, u) {
      NamesAreDm(db.channels[c], u);
      var a, b :| PairKey(db.channels[c], a, b);
      PairIsNamed(a, b, u);
      KeySymmetric(a, b);
      assert PairKey(db.channels[c], u, if u == a then b else a);
    }
    if c, v :| c in db.channels && UlidText(u) && PairKey(db.channels[c], u, v) {
      PairIsNamed(u, v, u);
      assert KeyNames(db.channels[c].aikoChannel, u);
    }
  }

  lemma NamesAreDm(ch: Channel, u: UserId)
    requires KeyNames(ch.aikoChannel, u)
    ensures IsDmName(ch.aikoChannel)
  {
  }

  const ALICE: UserId := seq(ID_LENGTH, _ => 'A')
  const BOB: UserId := seq(ID_LENGTH, _ => 'B')

  /** A run that shows it: two sign-ups, their direct message, and a deletion that is accepted. */
  lemma DmOutlivesAccount()
    ensures exists states: seq<Db> ::
              && IsRun(states, [SignUp(ALICE, "a"), SignUp(BOB, "b"), OpenDm("c", ALICE, BOB), DeleteUser(ALICE)])
              && DeleteAccount(states[3], ALICE).0.Ok? && Mentions(states[4], ALICE)
  {
    hide CanonicalKey, Tombstoned, Anonymized, RowsWithoutUser, CountedDown;
    var steps := [SignUp(ALICE, "a"), SignUp(BOB, "b"), OpenDm("c", ALICE, BOB), DeleteUser(ALICE)];
    var s1 := Apply(EMPTY, steps[0]);
    assert ALICE[0] != BOB[0];
    var s2 := Apply(s1, steps[1]);
    var s3 := Apply(s2, steps[2]);
    assert SoleAdminChannels(s3.memberships, ALICE) == {};
    var s4 := Apply(s3, steps[3]);
    var states := [EMPTY, s1, s2, s3, s4];
    assert IsRun(states, steps);
    PairIsNamed(ALICE, BOB, ALICE);
    assert "c" in s4.channels && KeyNames(s4.channels["c"].aikoChannel, ALICE);
  }

  // ---- channel deletion

  /** `after` is `before` without the rows of channel `c`. */
  ghost predicate RowsErased<V(!new)>(before: map<(ChannelId, UserId), V>, after: map<(ChannelId, UserId), V>, c: ChannelId) {
    && (forall k :: k in after <==> k in before && k.0 != c)
    && (forall k :: k in after ==> after[k] == before[k])
  }

  ghost predicate MessagesErased(db: Db, db': Db, c: ChannelId) {
    && (forall i :: i in db'.messages <==> i in db.messages && db.messages[i].channel != c)
    && (forall i :: i in db'.messages ==> db'.messages[i] == db.messages[i])
  }

  ghost predicate RetractionsErased(db: Db, db': Db, c: ChannelId) {
    && (forall i :: i in db'.retractions <==> i in db.retractions && db.retractions[i].channel != c)
    && (forall i :: i in db'.retractions ==> db'.retractions[i] == db.retractions[i])
    && Targets(db'.retractions) <= db'.messages.Keys
  }

  /** A report goes exactly with its message. */
  ghost predicate ReportsErased(db: Db, db': Db) {
    && (forall r :: r in db'.reports <==> r in db.reports && db.reports[r].message in db'.messages)
    && (forall r :: r in db'.reports ==> db'.reports[r] == db.reports[r])
  }

  /** `db'` is `db` without the channel `c`, its rows, and the reports on its messages: nothing more and nothing less. */
  ghost predicate Erased(db: Db, db': Db, c: ChannelId) {
    && db'.channels == db.channels - {c}
    && RowsErased(db.memberships, db'.memberships, c) && RowsErased(db.readPositions, db'.readPositions, c)
    && MessagesErased(db, db', c) && RetractionsErased(db, db', c) && ReportsErased(db, db')
    && db'.users == db.users && db'.blocks == db.blocks
    && db'.communities == db.communities && db'.communityMembers == db.communityMembers
  }

  /** Hard deletion erases exactly the named channel and leaves every reference whole; a direct message is never
      its target. */
  lemma ChannelGone(db: Db, aikoChannel: string)
    requires Sound(db)
    ensures var (found, db') := HardDelete(db, aikoChannel);
            && Sound(db')
            && (found ==> exists c :: c in db.channels && db.channels[c] == Channel(Standard, aikoChannel) && Erased(db, db', c))
            && (!found ==> db' == db)
            && (found <==> exists c :: c in db.channels && db.channels[c] == Channel(Standard, aikoChannel))
  {
    hide MessageRefs, ReportRefs, PairRefs, Retracted, Announced, Resends, WithoutChannel, Erased;
    var (found, db') := HardDelete(db, aikoChannel);
    if found {
      var c := TheOne(Named(db, aikoChannel)).value;
      assert c in Named(db, aikoChannel);
      WithoutChannelSound(db, c);
      NothingElse(db, c);
    }
    forall c | c in db.channels && db.channels[c] == Channel(Standard, aikoChannel) ensures found {
      assert Named(db, aikoChannel) == {c};
    }
  }

  lemma NothingElse(db: Db, c: ChannelId)
    requires Sound(db) && Sound(WithoutChannel(db, c))
    ensures Erased(db, WithoutChannel(db, c), c)
  {
    hide Sound, RowsErased, MessagesErased, RetractionsErased, ReportsErased, RowsOutside, MessagesOutside,
         RetractionsOutside, ReportsOutside;
    RowsGo(db.memberships, c);
    RowsGo(db.readPositions, c);
    MessagesGo(db, c);
    RetractionsGo(db, c);
    ReportsGo(db, c);
  }

  lemma RowsGo<V(!new)>(rows: map<(ChannelId, UserId), V>, c: ChannelId)
    ensures RowsErased(rows, RowsOutside(rows, c), c)
  {
  }

  lemma MessagesGo(db: Db, c: ChannelId)
    ensures MessagesErased(db, WithoutChannel(db, c), c)
  {
    hide RowsOutside, RetractionsOutside, ReportsOutside;
  }

  lemma RetractionsGo(db: Db, c: ChannelId)
    requires Sound(WithoutChannel(db, c))
    ensures RetractionsErased(db, WithoutChannel(db, c), c)
  {
    hide Names, MessageRefs, PairRefs, Announced, Resends, ReportRefs, RowsOutside, MessagesOutside, ReportsOutside;
  }

  /** Where every report has its message, the reports outside a channel are those whose message is. */
  lemma ReportsGo(db: Db, c: ChannelId)
    requires Sound(db)
    ensures ReportsErased(db, WithoutChannel(db, c))
  {
    hide Names, MessageRefs, PairRefs, Announced, Resends, Retracted, RowsOutside, RetractionsOutside;
  }
}
