/** What single service calls do to what viewers see, and how calls undo one another. */
module Effects {
  import opened Store
  import opened DmKey
  import opened History
  import opened Services
  import opened Gateway
  import opened Runs

  ghost predicate SameRetractions(db: Db, db': Db) { forall c :: RetractionIds(db', c) == RetractionIds(db, c) }

  /** What a viewer sees depends on messages and blocks only. */
  lemma VisibleDepends(db: Db, db': Db, c: ChannelId, viewer: UserId)
    requires db.messages == db'.messages && db.blocks == db'.blocks
    ensures VisibleIds(db, c, viewer) == VisibleIds(db', c, viewer)
  {
    assert forall u :: BlockBetween(db, viewer, u) <==> BlockBetween(db', viewer, u);
  }

  lemma VisibleAfterAdd(db: Db, id: Rank, m: Message, c: ChannelId, viewer: UserId)
    requires id !in db.messages && !m.deleted && m.sender.Some?
    ensures VisibleIds(db.(messages := db.messages[id := m]), c, viewer) ==
            VisibleIds(db, c, viewer) + if m.channel == c && !BlockBetween(db, viewer, m.sender.value) then {id} else {}
  {
    var db' := db.(messages := db.messages[id := m]);
    assert forall u :: BlockBetween(db, viewer, u) <==> BlockBetween(db', viewer, u);
    hide BlockBetween;
  }

  lemma VisibleAfterDelete(db: Db, m: Rank, c: ChannelId, viewer: UserId)
    requires m in db.messages
    ensures VisibleIds(db.(messages := db.messages[m := db.messages[m].(deleted := true)]), c, viewer) == VisibleIds(db, c, viewer) - {m}
  {
    var db' := db.(messages := db.messages[m := db.messages[m].(deleted := true)]);
    assert forall u :: BlockBetween(db, viewer, u) <==> BlockBetween(db', viewer, u);
    hide BlockBetween;
  }

  /** A send adds its row to the history of exactly the viewers with no block between them and the sender; takes
      nothing from anyone; and is refused, or answered with the earlier row, without a trace. */
  lemma SendIsSeen(db: Db, u: UserId, c: ChannelId, cmid: string, body: string, id: Rank, d: ChannelId, viewer: UserId)
    requires c in db.channels
    ensures var (r, db') := CreateOutbound(db, u, c, cmid, body, id);
            var seen := r.Ok? && r.value.1 && d == c && !BlockBetween(db, viewer, u);
            && VisibleIds(db', d, viewer) == VisibleIds(db, d, viewer) + (if seen then {id} else {})
            && SameRetractions(db, db')
            && (r.Ok? && r.value.1 ==>
                  r.value.0 == id && id !in db.messages && db'.messages[id].sender == Some(u) && db'.messages[id].body == body)
            && (r.Err? || !r.value.1 ==> db' == db)
  {
    hide DmSendRefused, SentBefore, Least, VisibleIds, BlockBetween;
    if id !in db.messages {
      VisibleAfterAdd(db, id, Message(c, Some(u), Some(cmid), body, false), d, viewer);
    }
  }

  /** A block hides each party's messages from the other, in every channel, and hides nothing else from anyone. */
  lemma BlockHides(db: Db, a: UserId, b: UserId, c: ChannelId, viewer: UserId)
    requires BlockUser(db, a, b).0.Ok?
    ensures var db' := BlockUser(db, a, b).1;
            && SameRetractions(db, db')
            && VisibleIds(db', c, viewer) ==
               set i | i in VisibleIds(db, c, viewer)
                       && !(viewer == a && db.messages[i].sender == Some(b)) && !(viewer == b && db.messages[i].sender == Some(a))
  {
  }

  /** A refused block changes nothing; an accepted one is undone by unblocking, unless it stood already. */
  lemma UnblockUndoes(db: Db, a: UserId, b: UserId)
    ensures BlockUser(db, a, b).0.Ok? <==> a != b && b in db.users
    ensures BlockUser(db, a, b).0.Err? ==> BlockUser(db, a, b).1 == db
    ensures (a, b) !in db.blocks ==> UnblockUser(BlockUser(db, a, b).1, a, b) == db
    ensures (b, a) !in db.blocks ==> !BlockBetween(UnblockUser(db, a, b), a, b)
    ensures forall p :: p != (a, b) ==> (p in UnblockUser(db, a, b).blocks <==> p in db.blocks)
  {
    assert (a, b) !in db.blocks ==> db.blocks + {(a, b)} - {(a, b)} == db.blocks && db.blocks - {(a, b)} == db.blocks;
  }

  /** A takedown takes the one message out of everyone's history and puts its one retraction, under the minted id,
      into the channel's; a repeated takedown does nothing more. */
  lemma TakeDownIsSeen(db: Db, r: Rank, u: UserId, id: Rank, c: ChannelId, viewer: UserId)
    requires Sound(db) && TakeDown(db, r, u, id).0.Ok?
    ensures var (emitted, db') := TakeDown(db, r, u, id);
            var m := db.reports[r].message;
            && VisibleIds(db', c, viewer) == VisibleIds(db, c, viewer) - {m}
            && RetractionIds(db', c) ==
               RetractionIds(db, c) + (if emitted.value.Some? && c == db.messages[m].channel then {id} else {})
            && (emitted.value.Some? ==> emitted.value == Some(id) && m < id && db'.retractions[id].target == m)
            && (db.reports[r].resolution.TakenDown? ==> db' == db)
            && (db.reports[r].resolution.Pending? ==>
                  db'.reports[r] == Report(m, db.reports[r].reporter, TakenDown, Some(u)))
  {
    hide Sound, VisibleIds, Targets, RetractionIds;
    var (emitted, db') := TakeDown(db, r, u, id);
    var m := db.reports[r].message;
    if db.reports[r].resolution.TakenDown? {
      TakenDownBefore(db, r);
      DeletedIsHidden(db, m, c, viewer);
    } else {
      VisibleAfterDelete(db, m, c, viewer);
      VisibleDepends(db.(messages := db.messages[m := db.messages[m].(deleted := true)]), db', c, viewer);
    }
    RetractionsAfter(db, db', c);
    if emitted.value.Some? {
      RetractionAdded(db, db', id, Retraction(m, db.messages[m].channel), c);
    }
  }

  lemma TakenDownBefore(db: Db, r: Rank)
    requires Sound(db) && r in db.reports && db.reports[r].resolution.TakenDown?
    ensures var m := db.reports[r].message; m in Targets(db.retractions) && m in db.messages && db.messages[m].deleted
  {
    hide Names, MessageRefs, PairRefs, Resends, Retracted, ReportRefs;
  }

  lemma RetractionsAfter(db: Db, db': Db, c: ChannelId)
    ensures db'.retractions == db.retractions ==> RetractionIds(db', c) == RetractionIds(db, c)
  {
  }

  lemma RetractionAdded(db: Db, db': Db, id: Rank, x: Retraction, c: ChannelId)
    requires id !in db.retractions && db'.retractions == db.retractions[id := x]
    ensures RetractionIds(db', c) == RetractionIds(db, c) + if x.channel == c then {id} else {}
  {
  }

  lemma DeletedIsHidden(db: Db, m: Rank, c: ChannelId, viewer: UserId)
    requires m in db.messages && db.messages[m].deleted
    ensures m !in VisibleIds(db, c, viewer)
  {
  }

  /** Dismissal settles the report, shows nobody anything, and is refused once the message was taken down. */
  lemma DismissIsUnseen(db: Db, r: Rank, u: UserId, c: ChannelId, viewer: UserId)
    ensures var (ok, db') := Dismiss(db, r, u);
            && VisibleIds(db', c, viewer) == VisibleIds(db, c, viewer) && SameRetractions(db, db')
            && (ok.Ok? <==> r in db.reports && !db.reports[r].resolution.TakenDown?)
            && (ok.Ok? ==> db'.reports[r].resolution.Dismissed? && Dismiss(db', r, u) == (Ok(()), db'))
            && (ok.Ok? && db.reports[r].resolution.Pending? ==> db'.reports[r].resolvedBy == Some(u))
            && (ok.Err? ==> db' == db)
  {
  }

  /** A bus message lands in the standard channel of its name, whether that existed or was made for it, under the
      account that has the username, if any. */
  lemma BusLands(db: Db, name: string, username: Option<string>, body: string, c: ChannelId, id: Rank)
    requires Sound(db)
    ensures var (r, db') := PersistInbound(db, name, username, body, c, id);
            && (r.None? ==> db' == db)
            && (r.Some? ==>
                  && r.value == id && id !in db.messages && id in db'.messages
                  && var m := db'.messages[id];
                  && m.channel in db'.channels && db'.channels[m.channel] == Channel(Standard, name)
                  && m.body == body && !m.deleted
                  && (m.sender.Some? ==> m.sender.value in db.users && username == Some(db.users[m.sender.value]))
                  && (username == None || username == Some("") ==> m.sender == None)
                  && (forall u :: OneAccount(db, u) && username == Some(db.users[u]) && db.users[u] != "" ==> m.sender == Some(u))
                  && (forall x :: x in db.channels ==> x in db'.channels && db'.channels[x] == db.channels[x]))
  {
    hide MessageRefs, ReportRefs, PairRefs, Retracted, Announced, Resends, TheOne, Accounts, OneAccount;
    var (found, db') := UpsertChannel(db, name, c);
    if found.Ok? && Named(db, name) != {} {
      assert found.value in Named(db, name);
    }
    SenderIs(db, username);
  }

  /** `u` alone has its username. */
  ghost predicate OneAccount(db: Db, u: UserId) {
    u in db.users && forall v :: v in db.users && db.users[v] == db.users[u] ==> v == u
  }

  lemma SenderIs(db: Db, username: Option<string>)
    ensures var sender := TheOne(Accounts(db.users, username));
            && (sender.Some? ==> sender.value in db.users && username == Some(db.users[sender.value]))
            && (username == None || username == Some("") ==> sender == None)
            && (forall u :: OneAccount(db, u) && username == Some(db.users[u]) && db.users[u] != "" ==> sender == Some(u))
  {
    var us := Accounts(db.users, username);
    assert TheOne(us).Some? ==> TheOne(us).value in us;
    forall u | OneAccount(db, u) && username == Some(db.users[u]) && db.users[u] != "" ensures TheOne(us) == Some(u) {
      assert us == {u};
    }
  }

  /** No block, either way, stands between the viewer and the sender, if there is one. */
  ghost predicate MaySee(db: Db, viewer: UserId, sender: Option<UserId>) {
    sender.Some? ==> (viewer, sender.value) !in db.blocks && (sender.value, viewer) !in db.blocks
  }

  /** A BUS MESSAGE IS SEEN. Once stored it is in the history, in its channel, of exactly the viewers with no block
      against its sender, and of everyone when it has no sender; nobody's history changes otherwise. */
  lemma BusIsSeen(db: Db, name: string, username: Option<string>, body: string, c: ChannelId, id: Rank, d: ChannelId,
                  viewer: UserId)
    requires PersistInbound(db, name, username, body, c, id).0 == Some(id)
    ensures var db' := PersistInbound(db, name, username, body, c, id).1;
            && id in db'.messages
            && (MessageItem(id) in Timeline(db', d, viewer) <==>
                  d == db'.messages[id].channel && MaySee(db', viewer, db'.messages[id].sender))
            && forall x :: x != MessageItem(id) ==> (x in Timeline(db', d, viewer) <==> x in Timeline(db, d, viewer))
  {
    BusAddsOne(db, name, username, body, c, id);
    MessageAdded(db, PersistInbound(db, name, username, body, c, id).1, id, d, viewer);
    hide Timeline, PersistInbound;
  }

  lemma MessageAdded(db: Db, db': Db, id: Rank, d: ChannelId, viewer: UserId)
    requires id !in db.messages && id in db'.messages && !db'.messages[id].deleted
    requires db'.messages == db.messages[id := db'.messages[id]]
    requires db'.retractions == db.retractions && db'.blocks == db.blocks
    ensures MessageItem(id) in Timeline(db', d, viewer) <==>
              d == db'.messages[id].channel && MaySee(db', viewer, db'.messages[id].sender)
    ensures forall x :: x != MessageItem(id) ==> (x in Timeline(db', d, viewer) <==> x in Timeline(db, d, viewer))
  {
    hide Timeline;
    TimelineHolds(db, d, viewer);
    TimelineHolds(db', d, viewer);
  }

  lemma UpsertKeepsRows(db: Db, name: string, c: ChannelId)
    ensures var db' := UpsertChannel(db, name, c).1;
            db'.messages == db.messages && db'.retractions == db.retractions && db'.blocks == db.blocks
  {
    hide Named, IsDmName, TheOne;
  }

  lemma BusAddsOne(db: Db, name: string, username: Option<string>, body: string, c: ChannelId, id: Rank)
    requires PersistInbound(db, name, username, body, c, id).0 == Some(id)
    ensures var db' := PersistInbound(db, name, username, body, c, id).1;
            && id !in db.messages && id in db'.messages && !db'.messages[id].deleted
            && db'.messages == db.messages[id := db'.messages[id]]
            && db'.retractions == db.retractions && db'.blocks == db.blocks
  {
    hide UpsertChannel, TheOne, Accounts;
    UpsertKeepsRows(db, name, c);
  }

  ghost predicate Authored(db: Db, u: UserId, c: ChannelId, i: Rank) {
    i in db.messages && db.messages[i].channel == c && db.messages[i].sender == Some(u) && !db.messages[i].deleted
  }

  /** DELETION HIDES NOTHING. An accepted account deletion takes nothing out of any other viewer's history; it adds the
      tombstones of messages the viewer did not see for a block with the deleted user, and nothing else. */
  lemma DeletionHidesNothing(db: Db, u: UserId, c: ChannelId, viewer: UserId)
    requires DeleteAccount(db, u).0.Ok? && viewer != u
    ensures var db' := DeleteAccount(db, u).1;
            && (forall x :: x in Timeline(db, c, viewer) ==> x in Timeline(db', c, viewer))
            && (forall x :: x in Timeline(db', c, viewer) && x !in Timeline(db, c, viewer) ==>
                  x.MessageItem? && x.id in db.messages && db.messages[x.id].sender == Some(u)
                  && db'.messages[x.id].body == DELETED_BODY && !MaySee(db, viewer, Some(u)))
            && (forall i :: Authored(db, u, c, i) ==> MessageItem(i) in Timeline(db', c, viewer))
  {
    TimelineHolds(db, c, viewer);
    TimelineHolds(DeleteAccount(db, u).1, c, viewer);
    hide Timeline, SoleAdminChannels, Anonymized, CountedDown, RowsWithoutUser;
  }

  // ---- one report per reporter and message

  ghost predicate OneReportEach(reports: map<Rank, Report>) {
    forall i, j :: (i in reports && j in reports && reports[i].reporter.Some?
                    && reports[i].reporter == reports[j].reporter && reports[i].message == reports[j].message) ==> i == j
  }

  /** Reports may go, be resolved or lose their reporter; nothing else. */
  ghost predicate Thinner(after: map<Rank, Report>, before: map<Rank, Report>) {
    forall i :: i in after ==> i in before && after[i].message == before[i].message
                               && (after[i].reporter.Some? ==> after[i].reporter == before[i].reporter)
  }

  lemma ThinnerKeeps(after: map<Rank, Report>, before: map<Rank, Report>)
    requires OneReportEach(before) && Thinner(after, before)
    ensures OneReportEach(after)
  {
  }

  lemma StepThins(db: Db, step: Step)
    requires Enabled(db, step) && !step.ReportOf?
    ensures Thinner(Apply(db, step).reports, db.reports)
  {
    hide CreateOutbound, PersistInbound, SoleAdminChannels, Named, CanonicalKey, IsDmName, CountedDown,
         Tombstoned, RowsWithoutUser, RowsOutside, MessagesOutside, RetractionsOutside, TakeDown, Thinner, Anonymized,
         ReportsOutside;
    NoneChanged(db.reports);
    match step {
      case Send(u, c, cmid, body, id) => SendTouches(db, u, c, cmid, body, id);
      case BusMessage(name, username, body, c, id) => BusTouches(db, name, username, body, c, id);
      case TakeDownReport(r, u, id) => TakeDownThins(db, r, u, id);
      case DismissReport(r, u) =>
        if r in db.reports {
          OneStamped(db.reports, r, db.reports[r].(resolution := Dismissed, resolvedBy := Some(u)));
        }
      case DeleteUser(u) => DeletionThins(db.reports, u);
      case DeleteChannel(name) =>
        var c := TheOne(Named(db, name));
        ChannelThins(db.reports, db.messages, if c.Some? then c.value else "");
      case _ =>
    }
  }

  lemma DeletionThins(reports: map<Rank, Report>, u: UserId)
    ensures Thinner(Anonymized(reports, u), reports)
  {
  }

  lemma ChannelThins(reports: map<Rank, Report>, messages: map<Rank, Message>, c: ChannelId)
    ensures Thinner(ReportsOutside(reports, messages, c), reports)
  {
  }

  lemma TakeDownThins(db: Db, r: Rank, u: UserId, id: Rank)
    ensures Thinner(TakeDown(db, r, u, id).1.reports, db.reports)
  {
    hide Thinner;
    ReportsAfterTakeDown(db, r, u, id);
    hide TakeDown;
    NoneChanged(db.reports);
    if r in db.reports {
      OneStamped(db.reports, r, db.reports[r].(resolution := TakenDown, resolvedBy := Some(u)));
    }
  }

  lemma ReportsAfterTakeDown(db: Db, r: Rank, u: UserId, id: Rank)
    ensures var after := TakeDown(db, r, u, id).1.reports;
            after == db.reports
            || (r in db.reports && after == db.reports[r := db.reports[r].(resolution := TakenDown, resolvedBy := Some(u))])
  {
    hide Targets;
    if r in db.reports && !db.reports[r].resolution.Dismissed? {
      var rep := db.reports[r];
      assert rep.message !in db.messages ==> TakeDown(db, r, u, id).1 == db;
    }
  }

  lemma NoneChanged(reports: map<Rank, Report>)
    ensures Thinner(reports, reports)
  {
  }

  lemma OneStamped(reports: map<Rank, Report>, r: Rank, x: Report)
    requires r in reports && x.message == reports[r].message && x.reporter == reports[r].reporter
    ensures Thinner(reports[r := x], reports)
  {
  }

  /** Every step files at most one report per reporter and message. */
  lemma StepFilesOnce(db: Db, step: Step)
    requires OneReportEach(db.reports) && Enabled(db, step)
    ensures OneReportEach(Apply(db, step).reports)
  {
    if step.ReportOf? {
      ReportFilesOnce(db, step.reporter, step.message, step.id);
    } else {
      hide Apply, Thinner, OneReportEach, Enabled;
      StepThins(db, step);
      ThinnerKeeps(Apply(db, step).reports, db.reports);
    }
  }

  lemma ReportFilesOnce(db: Db, u: UserId, m: Rank, id: Rank)
    requires OneReportEach(db.reports)
    ensures OneReportEach(ReportMessage(db, u, m, id).1.reports)
    ensures ReportMessage(db, u, m, id).0.Ok? ==>
              var (r, db') := ReportMessage(db, u, m, id);
              r.value in db'.reports && db'.reports[r.value].message == m && db'.reports[r.value].reporter == Some(u)
              && forall id' :: ReportMessage(db', u, m, id') == (r, db')
  {
    var (r, db') := ReportMessage(db, u, m, id);
    var existing := ReportsBy(db.reports, m, u);
    if r.Ok? {
      assert existing != {} ==> r.value in existing;
      assert r.value in ReportsBy(db'.reports, m, u);
      assert OneReportEach(db'.reports) by {
        if existing == {} {
          assert forall i :: i in db.reports ==> !(db.reports[i].message == m && db.reports[i].reporter == Some(u)) by {
            assert forall i :: i in existing <==> i in db.reports && db.reports[i].message == m && db.reports[i].reporter == Some(u);
          }
        }
      }
      assert ReportsBy(db'.reports, m, u) == {r.value};
    }
  }

  /** In every reachable store a user has at most one report on a message. */
  lemma {:induction false} RunFilesOnce(states: seq<Db>, steps: seq<Step>, k: nat)
    requires IsRun(states, steps) && k < |states|
    ensures OneReportEach(states[k].reports)
  {
    hide Enabled, Apply;
    if k > 0 {
      RunFilesOnce(states, steps, k - 1);
      assert Enabled(states[k - 1], steps[k - 1]) && states[k] == Apply(states[k - 1], steps[k - 1]);
      StepFilesOnce(states[k - 1], steps[k - 1]);
    }
  }
}
