/** Exactly which service calls are accepted, and what each leaves, in the columns of the tables. */
module Acceptance {
  import opened Text
  import opened Store
  import opened DmKey
  import opened History
  import opened Services
  import opened Gateway

  /** Some stored retraction announces the removal of `m`. */
  ghost predicate Announces(db: Db, m: Rank) { exists i :: i in db.retractions && db.retractions[i].target == m }

  lemma TargetsAre(db: Db, m: Rank)
    ensures m in Targets(db.retractions) <==> Announces(db, m)
  {
  }

  lemma ReportsHaveMessages(db: Db, r: Rank)
    requires Sound(db) && r in db.reports
    ensures db.reports[r].message in db.messages
  {
    hide Names, PairRefs, MessageRefs, Retracted, Announced, Resends;
  }

  /** TAKEDOWNS, EXACTLY. A takedown is accepted if and only if its report exists, was not dismissed, and its message
      either has its retraction already or can get one under the minted id; it emits exactly in the second case. */
  lemma TakeDownAccepted(db: Db, r: Rank, u: UserId, id: Rank)
    requires Sound(db)
    ensures var (answer, db') := TakeDown(db, r, u, id);
            && (answer.Ok? <==>
                  && r in db.reports && !db.reports[r].resolution.Dismissed?
                  && var m := db.reports[r].message;
                  Announces(db, m) || (m < id && id !in db.retractions))
            && (answer.Ok? ==> answer.value == if Announces(db, db.reports[r].message) then None else Some(id))
            && (answer.Err? ==> db' == db)
            && (answer == Err(ReportNotFound) <==> r !in db.reports)
            && (answer == Err(ReportAlreadyResolved) <==> r in db.reports && db.reports[r].resolution.Dismissed?)
            && (answer == Err(RetractionOrdering) <==>
                  r in db.reports && !db.reports[r].resolution.Dismissed?
                  && !Announces(db, db.reports[r].message) && id <= db.reports[r].message)
  {
    hide Sound, Targets, Announces;
    if r in db.reports {
      ReportsHaveMessages(db, r);
      TargetsAre(db, db.reports[r].message);
    }
  }

  /** What an accepted takedown leaves: the report resolved, the message soft-deleted and otherwise as it was, its
      retraction in its channel when one was emitted, and every other row of every table untouched. */
  lemma TakeDownLeaves(db: Db, r: Rank, u: UserId, id: Rank)
    requires Sound(db) && TakeDown(db, r, u, id).0.Ok?
    ensures var (answer, db') := TakeDown(db, r, u, id);
            var rep := db.reports[r];
            && rep.message in db.messages
            && db' == db.(messages := db'.messages, reports := db'.reports, retractions := db'.retractions)
            && db'.reports == db.reports[r := if rep.resolution.Pending? then Report(rep.message, rep.reporter, TakenDown, Some(u)) else rep]
            && db'.messages == db.messages[rep.message := db.messages[rep.message].(deleted := true)]
            && db'.retractions == (if answer.value.None? then db.retractions
                                   else db.retractions[id := Retraction(rep.message, db.messages[rep.message].channel)])
            && Announces(db', rep.message)
  {
    hide Names, PairRefs, MessageRefs, Retracted, Resends, Targets, Announces;
    var (answer, db') := TakeDown(db, r, u, id);
    ReportsHaveMessages(db, r);
    var m := db.reports[r].message;
    TargetsAre(db, m);
    Emitted(db', m, id);
    if db.reports[r].resolution.TakenDown? {
      assert db.messages[m].deleted;
      assert db.messages[m := db.messages[m].(deleted := true)] == db.messages;
      assert db.reports[r := db.reports[r]] == db.reports;
    }
    SameAnnounced(db, db', m);
  }

  lemma Emitted(db: Db, m: Rank, id: Rank)
    ensures id in db.retractions && db.retractions[id].target == m ==> Announces(db, m)
  {
  }

  lemma SameAnnounced(db: Db, db': Db, m: Rank)
    ensures db'.retractions == db.retractions ==> (Announces(db', m) <==> Announces(db, m))
  {
  }

  /** The multi-report case: a second pending report on a message already taken down is resolved too, and announces
      nothing twice. */
  lemma SecondReportResolves(db: Db, r: Rank, u: UserId, id: Rank)
    requires Sound(db) && r in db.reports && db.reports[r].resolution.Pending?
    requires db.messages[db.reports[r].message].deleted
    ensures TakeDown(db, r, u, id).0 == Ok(None)
    ensures TakeDown(db, r, u, id).1.reports[r].resolution.TakenDown?
    ensures TakeDown(db, r, u, id).1.retractions == db.retractions
  {
    hide Names, PairRefs, MessageRefs, Retracted, Resends, Targets;
  }

  // ---- sends

  /** Neither of the two ids of a direct-message key, other than the sender, is in a block with the sender. */
  ghost predicate PairFree(db: Db, key: string, user: UserId, x: UserId, y: UserId) {
    && UlidText(x) && UlidText(y) && key == "dm:" + x + ":" + y
    && forall p :: (p == x || p == y) && p != user ==> (user, p) !in db.blocks && (p, user) !in db.blocks
  }

  lemma GateExact(db: Db, key: string, user: UserId)
    ensures !DmSendRefused(db, key, user) <==> exists x, y :: PairFree(db, key, user, x, y)
  {
    if !DmSendRefused(db, key, user) {
      ParserAccepts(key, user);
      var x, y :| UlidText(x) && UlidText(y) && key == DM_CHANNEL_PREFIX + x + ":" + y;
      KeyPeers(x, y, user);
      hide UlidText, PeerIds;
      forall p | (p == x || p == y) && p != user ensures (user, p) !in db.blocks && (p, user) !in db.blocks {
        assert p in PeerIds(key, user).value && p !in BlockedPairs(db, user);
      }
      assert PairFree(db, key, user, x, y);
    }
    if x, y :| PairFree(db, key, user, x, y) {
      KeyPeers(x, y, user);
      hide UlidText, PeerIds, BlockedPairs;
    }
  }

  lemma KeyPeers(x: UserId, y: UserId, me: UserId)
    requires UlidText(x) && UlidText(y)
    ensures var peers := PeerIds(DM_CHANNEL_PREFIX + x + ":" + y, me);
            peers.Some? && forall p :: p in peers.value <==> (p == x || p == y) && p != me
  {
    KeyParts(x, y);
    hide Split, UlidText;
  }

  /** A row of the channel carries the client's message id. */
  ghost predicate AlreadySent(db: Db, c: ChannelId, cmid: string, i: Rank) {
    i in db.messages && db.messages[i].channel == c && db.messages[i].clientMsgId == Some(cmid)
  }

  /** SENDS, EXACTLY. A send is answered with the earlier row if and only if there is one; otherwise it is stored if and
      only if the channel is no direct message or one whose pair is free of blocks with the sender, and the minted id is
      unused; a refusal leaves no trace. */
  lemma SendAccepted(db: Db, user: UserId, c: ChannelId, cmid: string, body: string, id: Rank)
    requires c in db.channels
    ensures var (r, db') := CreateOutbound(db, user, c, cmid, body, id);
            var resend := exists i :: AlreadySent(db, c, cmid, i);
            var open := db.channels[c].kind.Standard? || exists x, y :: PairFree(db, db.channels[c].aikoChannel, user, x, y);
            && (r.Ok? && !r.value.1 <==> resend)
            && (r.Ok? && !r.value.1 ==> AlreadySent(db, c, cmid, r.value.0) && db' == db)
            && (r.Ok? && r.value.1 <==> !resend && open && id !in db.messages)
            && (r.Ok? && r.value.1 ==>
                  r.value.0 == id && db' == db.(messages := db.messages[id := Message(c, Some(user), Some(cmid), body, false)]))
            && (r == Err(BlockedDmSend) <==> !resend && !open)
            && (r.Err? ==> db' == db)
  {
    var sent := SentBefore(db, c, cmid);
    forall i ensures i in sent <==> AlreadySent(db, c, cmid, i) {
    }
    assert sent != {} ==> AlreadySent(db, c, cmid, Least(sent));
    GateExact(db, db.channels[c].aikoChannel, user);
    hide DmSendRefused, SentBefore, Least, PairFree, AlreadySent;
  }

  // ---- bus messages and reports

  /** BUS MESSAGES, EXACTLY. A bus message is stored if and only if it names a channel outside the reserved namespace
      that exists or can be made, and its minted id is unused. */
  lemma BusAccepted(db: Db, name: string, username: Option<string>, body: string, c: ChannelId, id: Rank)
    requires Sound(db)
    ensures PersistInbound(db, name, username, body, c, id).0.Some? <==>
              && name != "" && !("dm:" <= name) && id !in db.messages
              && ((exists d :: d in db.channels && db.channels[d].aikoChannel == name) || c !in db.channels)
    ensures PersistInbound(db, name, username, body, c, id).0.None? ==> PersistInbound(db, name, username, body, c, id).1 == db
  {
    hide MessageRefs, ReportRefs, PairRefs, Retracted, Announced, Resends, TheOne, Accounts;
    if d :| d in db.channels && db.channels[d].aikoChannel == name {
      assert Named(db, name) == {d};
    }
  }

  /** REPORTS, EXACTLY. A report is filed on any stored message, soft-deleted ones included: the reporter's earlier one
      if there is one, else a new pending one under the minted id. */
  lemma ReportAccepted(db: Db, u: UserId, m: Rank, id: Rank)
    ensures var (r, db') := ReportMessage(db, u, m, id);
            var before := exists i :: i in db.reports && db.reports[i].message == m && db.reports[i].reporter == Some(u);
            && (r == Err(MessageNotFound) <==> m !in db.messages)
            && (r.Ok? <==> m in db.messages && (before || id !in db.reports))
            && (r.Ok? && before ==>
                  db' == db && r.value in db.reports && db.reports[r.value].message == m && db.reports[r.value].reporter == Some(u))
            && (r.Ok? && !before ==>
                  r.value == id && db' == db.(reports := db.reports[id := Report(m, Some(u), Pending, None)]))
            && (r.Err? ==> db' == db)
  {
    var existing := ReportsBy(db.reports, m, u);
    assert forall i :: i in existing <==> i in db.reports && db.reports[i].message == m && db.reports[i].reporter == Some(u);
    hide ReportsBy, Least;
  }

  /** DISMISSALS, EXACTLY. A pending report is stamped, and nothing else in any table changes; a dismissed one stays as it
      was; a taken-down one is refused. */
  lemma DismissAccepted(db: Db, r: Rank, u: UserId)
    ensures var (answer, db') := Dismiss(db, r, u);
            && (answer == Err(ReportNotFound) <==> r !in db.reports)
            && (answer == Err(ReportAlreadyResolved) <==> r in db.reports && db.reports[r].resolution.TakenDown?)
            && (answer.Ok? <==> r in db.reports && !db.reports[r].resolution.TakenDown?)
            && db' == (if answer.Ok? && db.reports[r].resolution.Pending?
                       then db.(reports := db.reports[r := Report(db.reports[r].message, db.reports[r].reporter, Dismissed, Some(u))])
                       else db)
  {
  }

  /** NEW CHANNELS. A direct message starts with exactly its pair, as members; a channel with its creator alone, as
      admin. */
  lemma NewChannelRows(db: Db, c: ChannelId, u: UserId, v: UserId, name: string)
    requires Sound(db)
    ensures Enabled(db, OpenDm(c, u, v)) ==>
              var rows := Apply(db, OpenDm(c, u, v)).memberships;
              && (forall x :: (c, x) in rows <==> x == u || x == v) && rows[(c, u)].Member? && rows[(c, v)].Member?
    ensures Enabled(db, CreateChannel(c, name, u)) ==>
              var rows := Apply(db, CreateChannel(c, name, u)).memberships;
              (forall x :: (c, x) in rows <==> x == u) && rows[(c, u)].Admin?
  {
    hide Names, MessageRefs, ReportRefs, Retracted, Announced, Resends, CanonicalKey, Named;
  }

  /** Joining makes a member of whoever was none, leaves the role of whoever was, and is undone by leaving. */
  lemma JoinThenLeave(db: Db, c: ChannelId, u: UserId, role: Role)
    requires Enabled(db, Join(c, u, role))
    ensures var joined := Apply(db, Join(c, u, role));
            var left := Apply(joined, Leave(c, u));
            && (c, u) in joined.memberships
            && joined.memberships[(c, u)] == (if (c, u) in db.memberships then db.memberships[(c, u)] else role)
            && (c, u) !in left.memberships
            && ((c, u) !in db.memberships ==> left == db)
  {
    if (c, u) !in db.memberships {
      assert db.memberships[(c, u) := role] - {(c, u)} == db.memberships;
    }
  }
}
