/** When a takedown does not reach a viewer who is already synced: the code guards the retraction's id against its
    target only (`moderation_service.py`). */
module Stranded {
  import opened Ordering
  import opened Store
  import opened DmKey
  import opened History
  import opened Services
  import opened Gateway
  import opened Paging
  import opened Effects
  import opened Convergence

  /** EXACTLY WHEN. After a takedown that emits a retraction, a viewer who had caught up with the fence is delivered that
      retraction, and nothing else, if its id is above the fence, and nothing at all otherwise. */
  lemma TakedownReachesIff(db: Db, r: Rank, u: UserId, id: Rank, viewer: UserId)
    requires Sound(db) && TakeDown(db, r, u, id).0 == Ok(Some(id))
    ensures r in db.reports && db.reports[r].message in db.messages
    ensures var m := db.reports[r].message;
            var c := db.messages[m].channel;
            forall x :: x in Above(Timeline(TakeDown(db, r, u, id).1, c, viewer), Fence(db, c, viewer)) <==>
                          x == RetractionItem(id, m) && id > Fence(db, c, viewer)
  {
    var m := db.reports[r].message;
    var c := db.messages[m].channel;
    var db' := TakeDown(db, r, u, id).1;
    TakeDownIsSeen(db, r, u, id, c, viewer);
    FenceCovers(db, c, viewer);
    TimelineHolds(db', c, viewer);
    hide Timeline, Fence, TakeDown, Sound, VisibleIds;
    forall x: Item | x.id > Fence(db, c, viewer) ensures Visible(db', c, viewer, x) <==> x == RetractionItem(id, m) {
      OldEntry(db, db', c, viewer, id, x);
    }
  }

  /** What is visible now was visible before, or is the new retraction. */
  lemma OldEntry(db: Db, db': Db, c: ChannelId, viewer: UserId, id: Rank, x: Item)
    requires VisibleIds(db', c, viewer) <= VisibleIds(db, c, viewer)
    requires RetractionIds(db', c) == RetractionIds(db, c) + {id}
    ensures Visible(db', c, viewer, x) ==> (x.RetractionItem? && x.id == id) || (exists y :: Visible(db, c, viewer, y) && y.id == x.id)
    ensures x.RetractionItem? && x.id == id ==> (Visible(db', c, viewer, x) <==> x.target == db'.retractions[id].target)
  {
    hide VisibleIds;
    QueriesSelect(db, c, viewer);
    QueriesSelect(db', c, viewer);
    hide Visible;
    if Visible(db', c, viewer, x) && !(x.RetractionItem? && x.id == id) {
      var y := if x.MessageItem? then x else RetractionItem(x.id, db.retractions[x.id].target);
      assert Visible(db, c, viewer, y) && y.id == x.id;
    }
  }

  // ---- a run in which one is stranded

  const ANN: UserId := seq(ID_LENGTH, _ => 'A')
  const FIRST := Message("c", Some(ANN), Some("x"), "", false)
  const SECOND := Message("c", Some(ANN), Some("y"), "", false)

  const SIGNED_UP := EMPTY.(users := map[ANN := "ann"])
  const OPENED := SIGNED_UP.(channels := map["c" := Channel(Standard, "general")], memberships := map[("c", ANN) := Admin])
  const SENT := OPENED.(messages := map[1 := FIRST])
  const BOTH := OPENED.(messages := map[1 := FIRST, 5 := SECOND])
  const REPORTED := BOTH.(reports := map[9 := Report(1, Some(ANN), Pending, None)])
  const TAKEN := REPORTED.(messages := map[1 := FIRST.(deleted := true), 5 := SECOND],
                           reports := map[9 := Report(1, Some(ANN), TakenDown, Some(ANN))],
                           retractions := map[3 := Retraction(1, "c")])

  /** Two sends, a page read, a report of the older message, and a takedown whose id sorts between the two. */
  const EVENTS := [
    Serve(SignUp(ANN, "ann")), Serve(CreateChannel("c", "general", ANN)), Serve(Send(ANN, "c", "x", "", 1)),
    Serve(Send(ANN, "c", "y", "", 5)), ReadForward(10), Serve(ReportOf(ANN, 1, 9)), Serve(TakeDownReport(9, ANN, 3))]

  lemma Opens()
    ensures Enabled(EMPTY, SignUp(ANN, "ann")) && Apply(EMPTY, SignUp(ANN, "ann")) == SIGNED_UP
    ensures Enabled(SIGNED_UP, CreateChannel("c", "general", ANN))
    ensures Apply(SIGNED_UP, CreateChannel("c", "general", ANN)) == OPENED
  {
    assert Named(SIGNED_UP, "general") == {};
    assert DM_CHANNEL_PREFIX[0] != "general"[0];
  }

  lemma Sends()
    ensures Enabled(OPENED, Send(ANN, "c", "x", "", 1)) && Apply(OPENED, Send(ANN, "c", "x", "", 1)) == SENT
    ensures Enabled(SENT, Send(ANN, "c", "y", "", 5)) && Apply(SENT, Send(ANN, "c", "y", "", 5)) == BOTH
  {
    assert SentBefore(OPENED, "c", "x") == {};
    assert "x"[0] != "y"[0];
    assert SentBefore(SENT, "c", "y") == {};
    assert map[1 := FIRST][5 := SECOND] == map[1 := FIRST, 5 := SECOND];
    hide DmSendRefused;
  }

  lemma Reports()
    ensures Enabled(BOTH, ReportOf(ANN, 1, 9)) && Apply(BOTH, ReportOf(ANN, 1, 9)) == REPORTED
  {
    assert ReportsBy(BOTH.reports, 1, ANN) == {};
  }

  lemma TakesDown()
    ensures Enabled(REPORTED, TakeDownReport(9, ANN, 3)) && Apply(REPORTED, TakeDownReport(9, ANN, 3)) == TAKEN
  {
    assert 1 !in Targets(REPORTED.retractions);
    assert map[1 := FIRST, 5 := SECOND][1 := FIRST.(deleted := true)] == map[1 := FIRST.(deleted := true), 5 := SECOND];
    assert map[9 := Report(1, Some(ANN), Pending, None)][9 := Report(1, Some(ANN), TakenDown, Some(ANN))]
           == map[9 := Report(1, Some(ANN), TakenDown, Some(ANN))];
    hide Targets;
  }

  lemma BothAreVisible(x: Item)
    ensures Visible(BOTH, "c", ANN, x) <==> x == MessageItem(1) || x == MessageItem(5)
  {
    assert VisibleIds(BOTH, "c", ANN) == {1, 5};
    assert RetractionIds(BOTH, "c") == {};
    hide VisibleIds, RetractionIds;
  }

  lemma UniqueInBoth()
    ensures UniqueIds(BOTH, "c", ANN)
  {
    assert VisibleIds(BOTH, "c", ANN) == {1, 5};
    assert RetractionIds(BOTH, "c") == {};
    hide VisibleIds, RetractionIds;
  }

  lemma TimelineOfBoth()
    ensures Timeline(BOTH, "c", ANN) == [MessageItem(1), MessageItem(5)]
  {
    hide Timeline, Visible, UniqueIds;
    Orders();
    UniqueInBoth();
    TimelineHolds(BOTH, "c", ANN);
    var t, s := Timeline(BOTH, "c", ANN), [MessageItem(1), MessageItem(5)];
    forall x ensures x in s <==> x in t {
      BothAreVisible(x);
    }
    SortedUnique(Asc, t, s);
  }

  lemma PageOfBoth()
    ensures GetHistory(BOTH, "c", ANN, None, Some(0), 10) == [MessageItem(1), MessageItem(5)]
  {
    hide Timeline, GetHistory;
    TimelineOfBoth();
    ForwardPage(BOTH, "c", ANN, None, 0, 10);
    FilterAll((x: Item) => x.id > 0, [MessageItem(1), MessageItem(5)]);
    hide Filter;
  }

  lemma FenceOfTaken()
    ensures Fence(TAKEN, "c", ANN) == 5
  {
    assert VisibleIds(TAKEN, "c", ANN) == {5};
    assert RetractionIds(TAKEN, "c") == {3};
    hide VisibleIds, RetractionIds, Newest;
    assert Newest({5}) == 5 && Newest({3}) == 3;
  }

  lemma Served(w: World, step: Step)
    requires Enabled(w.db, step)
    ensures May(w, Serve(step))
    ensures Next(w, Serve(step), "c", ANN).db == Apply(w.db, step) && Next(w, Serve(step), "c", ANN).client == w.client
  {
    hide Apply, Enabled, Newest;
  }

  lemma PageRead(w: World)
    requires w.db == BOTH && w.client == Client(0, {}, {})
    ensures May(w, ReadForward(10))
    ensures Next(w, ReadForward(10), "c", ANN) == w.(client := Client(5, {1, 5}, {}))
  {
    PageOfBoth();
    hide GetHistory;
    var page := [MessageItem(1), MessageItem(5)];
    assert page[0] in page && page[1] in page;
    assert page[0].id in Received(page) && page[1].id in Received(page);
    assert Received(page) == {1, 5} && RetractedBy(page) == {};
  }

  /** STRANDED. A run of the services in which the code's own guard passes and the viewer ends level with the fence,
      holding a taken-down message whose retraction it never received. */
  lemma StrandedTakedown()
    ensures exists worlds: seq<World> ::
              && IsWorldRun(worlds, EVENTS, "c", ANN)
              && worlds[7].db == TAKEN && worlds[7].client == Client(5, {1, 5}, {})
              && worlds[7].client.watermark >= Fence(TAKEN, "c", ANN) && TAKEN.messages[1].deleted
  {
    hide Apply, Enabled, Fence, Next, May;
    Opens();
    Sends();
    Reports();
    TakesDown();
    FenceOfTaken();
    var w0 := World(EMPTY, Client(0, {}, {}), 0, {});
    Served(w0, SignUp(ANN, "ann"));
    var w1 := Next(w0, EVENTS[0], "c", ANN);
    Served(w1, CreateChannel("c", "general", ANN));
    var w2 := Next(w1, EVENTS[1], "c", ANN);
    Served(w2, Send(ANN, "c", "x", "", 1));
    var w3 := Next(w2, EVENTS[2], "c", ANN);
    Served(w3, Send(ANN, "c", "y", "", 5));
    var w4 := Next(w3, EVENTS[3], "c", ANN);
    PageRead(w4);
    var w5 := Next(w4, EVENTS[4], "c", ANN);
    Served(w5, ReportOf(ANN, 1, 9));
    var w6 := Next(w5, EVENTS[5], "c", ANN);
    Served(w6, TakeDownReport(9, ANN, 3));
    var w7 := Next(w6, EVENTS[6], "c", ANN);
    assert IsWorldRun([w0, w1, w2, w3, w4, w5, w6, w7], EVENTS, "c", ANN);
  }
}
