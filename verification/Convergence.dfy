/** Takedown propagation: deletions reach a viewer who had already synced the message. */
module Convergence {
  import opened Ordering
  import opened Store
  import opened DmKey
  import opened History
  import opened Services
  import opened Gateway
  import Runs
  import opened Paging

  /** One viewer's copy of one channel: the forward watermark, the messages ever received, and the messages whose
      retraction was received. */
  datatype Client = Client(watermark: Rank, received: set<Rank>, retracted: set<Rank>)

  /** The island, the viewer, the largest id inserted so far, and the channel ids ever used. */
  datatype World = World(db: Db, client: Client, minted: Rank, used: set<ChannelId>)

  datatype Event =
    | Serve(step: Step)
    | ReadForward(limit: nat)
    | ReadBack(before: Option<Rank>, limit: nat)

  /** The ids a page adds to the viewer's copy. */
  function Received(page: seq<Item>): (ids: set<Rank>) { set x | x in page && x.MessageItem? :: x.id }

  function RetractedBy(page: seq<Item>): (ids: set<Rank>) { set x | x in page && x.RetractionItem? :: x.target }

  function Absorb(client: Client, page: seq<Item>): (r: Client) {
    client.(received := client.received + Received(page), retracted := client.retracted + RetractedBy(page))
  }

  /** The ids a step inserts; a resend, a refused call or a repeated takedown inserts none. */
  function NewIds(db: Db, db': Db): (ids: set<Rank>) {
    (db'.messages.Keys - db.messages.Keys) + (db'.retractions.Keys - db.retractions.Keys)
  }

  ghost predicate May(w: World, e: Event) { e.Serve? ==> Enabled(w.db, e.step) }

  ghost function Next(w: World, e: Event, c: ChannelId, viewer: UserId): (r: World)
    requires May(w, e)
  {
    match e
    case Serve(step) =>
      var db' := Apply(w.db, step);
      World(db', w.client, Newest(NewIds(w.db, db') + {w.minted}), w.used + db'.channels.Keys)
    case ReadForward(limit) =>
      var page := GetHistory(w.db, c, viewer, None, Some(w.client.watermark), limit);
      var client := Absorb(w.client, page);
      w.(client := if page == [] then client else client.(watermark := page[|page| - 1].id))
    case ReadBack(before, limit) =>
      w.(client := Absorb(w.client, GetHistory(w.db, c, viewer, before, None, limit)))
  }

  // ---- two hypotheses

  /** The clock: an inserted id exceeds every id inserted before it. */
  ghost predicate Clock(w: World, e: Event)
    requires May(w, e)
  {
    e.Serve? ==>
      var db' := Apply(w.db, e.step);
      && (forall i :: i in db'.messages && i !in w.db.messages ==> i > w.minted)
      && (forall i :: i in db'.retractions && i !in w.db.retractions ==> i > w.minted)
  }

  ghost predicate StoredIn(db: Db, c: ChannelId, i: Rank) {
    (i in db.messages && db.messages[i].channel == c) || (i in db.retractions && db.retractions[i].channel == c)
  }

  /** What the writers themselves could check: a retraction's id exceeds every id stored in its channel, a message's id
      is not that of a stored retraction, and no channel id is used twice. */
  ghost predicate Guard(w: World, e: Event)
    requires May(w, e)
  {
    e.Serve? ==>
      var db, db' := w.db, Apply(w.db, e.step);
      && (forall i :: i in db'.messages && i !in db.messages ==> i > 0 && i !in db.retractions)
      && (forall i, j: Rank :: i in db'.retractions && i !in db.retractions && StoredIn(db, db'.retractions[i].channel, j) ==> j < i)
      && (forall d :: d in db'.channels && d !in db.channels ==> d !in w.used)
  }

  // ---- the invariant

  /** In the channel no message shares its id with a retraction, and no id is the empty string. */
  ghost predicate Separate(db: Db, c: ChannelId) {
    && (forall i :: i in RetractionIds(db, c) ==> i > 0 && !(i in db.messages && db.messages[i].channel == c))
    && (forall i :: i in db.messages && db.messages[i].channel == c ==> i > 0)
  }

  lemma SeparateIsUnique(db: Db, c: ChannelId, viewer: UserId)
    requires Separate(db, c)
    ensures UniqueIds(db, c, viewer)
  {
  }

  /** THE INVARIANT: a retraction of a message the viewer holds was received, or is still ahead of the watermark. */
  ghost predicate Owed(db: Db, client: Client, c: ChannelId) {
    forall i :: i in db.retractions && db.retractions[i].channel == c && db.retractions[i].target in client.received ==>
      db.retractions[i].target in client.retracted || i > client.watermark
  }

  ghost predicate Good(w: World, c: ChannelId) { Sound(w.db) && Separate(w.db, c) && Owed(w.db, w.client, c) }

  // ---- the pages

  /** What any page shows is visible now: its messages are not soft-deleted, so none has a retraction. */
  lemma PageIsVisible(db: Db, c: ChannelId, viewer: UserId, before: Option<Rank>, after: Option<Rank>, limit: nat, x: Item)
    requires x in GetHistory(db, c, viewer, before, after, limit)
    ensures Visible(db, c, viewer, x)
  {
    hide Timeline, BackTimeline, GetHistory, Visible;
    if after.Some? {
      TimelineHolds(db, c, viewer);
      ForwardPage(db, c, viewer, before, after.value, limit);
      assert x in Above(Timeline(db, c, viewer), after.value);
    } else {
      BackTimelineHolds(db, c, viewer);
      BackwardPage(db, c, viewer, before, limit);
      assert x in BackTimeline(db, c, viewer);
    }
  }

  /** A forward page skips nothing: every retraction of the channel between the cursor and the page's end is on it. */
  lemma PageSkipsNothing(db: Db, c: ChannelId, viewer: UserId, after: Rank, limit: nat, i: Rank)
    requires UniqueIds(db, c, viewer) && i in RetractionIds(db, c) && after < i
    requires var page := GetHistory(db, c, viewer, None, Some(after), limit);
             page != [] && i <= page[|page| - 1].id
    ensures RetractionItem(i, db.retractions[i].target) in GetHistory(db, c, viewer, None, Some(after), limit)
  {
    hide Timeline, GetHistory;
    var page := GetHistory(db, c, viewer, None, Some(after), limit);
    TimelineHolds(db, c, viewer);
    var t := Timeline(db, c, viewer);
    ForwardPage(db, c, viewer, None, after, limit);
    var x := RetractionItem(i, db.retractions[i].target);
    assert Visible(db, c, viewer, x);
    var a := Above(t, after);
    FilterAscends((y: Item) => y.id > after, t);
    assert x in a;
    var k :| 0 <= k < |a| && a[k] == x;
    assert page[|page| - 1] == a[|page| - 1];
    assert k < |page|;
    assert page[k] == x;
  }

  /** A message on a page carries no retraction yet. */
  lemma ReceivedAreLive(db: Db, c: ChannelId, viewer: UserId, before: Option<Rank>, after: Option<Rank>, limit: nat)
    requires Sound(db)
    ensures Received(GetHistory(db, c, viewer, before, after, limit)) !! Targets(db.retractions)
  {
    hide GetHistory, Names, MessageRefs, ReportRefs, PairRefs, Announced, Resends;
    forall m | m in Received(GetHistory(db, c, viewer, before, after, limit)) ensures m !in Targets(db.retractions) {
      PageIsVisible(db, c, viewer, before, after, limit, MessageItem(m));
    }
  }

  lemma ReadForwardKeeps(w: World, c: ChannelId, viewer: UserId, limit: nat)
    requires Good(w, c)
    ensures Good(Next(w, ReadForward(limit), c, viewer), c)
  {
    hide GetHistory, Sound, Visible, Separate, UniqueIds;
    var page := GetHistory(w.db, c, viewer, None, Some(w.client.watermark), limit);
    var w' := Next(w, ReadForward(limit), c, viewer);
    ReceivedAreLive(w.db, c, viewer, None, Some(w.client.watermark), limit);
    SeparateIsUnique(w.db, c, viewer);
    forall i | i in w.db.retractions && w.db.retractions[i].channel == c
               && w.db.retractions[i].target in w'.client.received && i <= w'.client.watermark
      ensures w.db.retractions[i].target in w'.client.retracted
    {
      var m := w.db.retractions[i].target;
      assert m in Targets(w.db.retractions);
      assert m in w.client.received;
      if i > w.client.watermark {
        PageSkipsNothing(w.db, c, viewer, w.client.watermark, limit, i);
        assert RetractionItem(i, m) in page;
      }
    }
  }

  lemma ReadBackKeeps(w: World, c: ChannelId, viewer: UserId, before: Option<Rank>, limit: nat)
    requires Good(w, c)
    ensures Good(Next(w, ReadBack(before, limit), c, viewer), c)
  {
    hide GetHistory, Sound, Separate;
    var page := GetHistory(w.db, c, viewer, before, None, limit);
    ReceivedAreLive(w.db, c, viewer, before, None, limit);
    forall i | i in w.db.retractions && w.db.retractions[i].channel == c
               && w.db.retractions[i].target in w.client.received + Received(page)
      ensures w.db.retractions[i].target in w.client.retracted || i > w.client.watermark
    {
      assert w.db.retractions[i].target in Targets(w.db.retractions);
    }
  }

  // ---- the service calls

  /** What a step does to the id axis: it inserts into one of the two tables at most, rewrites no retraction, moves no
      message, and drops rows only with their channel. */
  ghost predicate AxisStep(db: Db, db': Db) {
    && (forall i :: i in db'.retractions && i in db.retractions ==> db'.retractions[i] == db.retractions[i])
    && (forall i :: i in db'.messages && i in db.messages ==> db'.messages[i].channel == db.messages[i].channel)
    && (db'.messages.Keys <= db.messages.Keys || db'.retractions == db.retractions)
    && (forall i :: i in db.messages && db.messages[i].channel in db'.channels ==> i in db'.messages)
    && (forall i :: i in db.retractions && db.retractions[i].channel in db'.channels ==> i in db'.retractions)
  }

  lemma SameAxis(db: Db, db': Db)
    requires db'.messages == db.messages && db'.retractions == db.retractions
    ensures AxisStep(db, db')
  {
  }

  lemma StepKeepsAxis(db: Db, step: Step)
    requires Enabled(db, step)
    ensures AxisStep(db, Apply(db, step))
  {
    hide AxisStep, CanonicalKey, SoleAdminChannels, IsDmName, Named, CreateOutbound, PersistInbound, TakeDown,
         WithoutUser, WithoutChannel, TheOne;
    var db' := Apply(db, step);
    match step {
      case Send(u, c, cmid, body, id) => SendAxis(db, u, c, cmid, body, id);
      case BusMessage(name, username, body, c, id) => BusAxis(db, name, username, body, c, id);
      case TakeDownReport(r, u, id) => TakeDownAxis(db, r, u, id);
      case DeleteUser(u) =>
        DeletionAxis(db, u);
        SameAxis(db, db);
      case DeleteChannel(name) =>
        var c := TheOne(Named(db, name));
        DeletionAxis(db, if c.Some? then c.value else "");
        SameAxis(db, db);
      case _ => SameAxis(db, db');
    }
  }

  lemma DeletionAxis(db: Db, x: string)
    ensures AxisStep(db, WithoutUser(db, x)) && AxisStep(db, WithoutChannel(db, x))
  {
    hide Anonymized, CountedDown, RowsWithoutUser, ReportsOutside, RowsOutside;
  }

  lemma MessageAdded(db: Db, db': Db, id: Rank, m: Message)
    requires id !in db.messages && db'.messages == db.messages[id := m] && db'.retractions == db.retractions
    ensures AxisStep(db, db')
  {
  }

  lemma SendAxis(db: Db, u: UserId, c: ChannelId, cmid: string, body: string, id: Rank)
    requires c in db.channels
    ensures AxisStep(db, CreateOutbound(db, u, c, cmid, body, id).1)
  {
    hide DmSendRefused, SentBefore, AxisStep;
    var db' := CreateOutbound(db, u, c, cmid, body, id).1;
    SameAxis(db, db);
    if id !in db.messages && db' != db {
      MessageAdded(db, db', id, Message(c, Some(u), Some(cmid), body, false));
    }
  }

  lemma BusAxis(db: Db, name: string, username: Option<string>, body: string, c: ChannelId, id: Rank)
    ensures AxisStep(db, PersistInbound(db, name, username, body, c, id).1)
  {
    hide Named, IsDmName, TheOne, Accounts, AxisStep;
    var (r, db') := PersistInbound(db, name, username, body, c, id);
    SameAxis(db, db);
    if r.Some? {
      MessageAdded(db, db', id, db'.messages[id]);
    }
  }

  lemma RetractionInserted(db: Db, db': Db, id: Rank, x: Retraction)
    requires db'.messages.Keys == db.messages.Keys
    requires forall i :: i in db.messages ==> db'.messages[i].channel == db.messages[i].channel
    requires db'.retractions == db.retractions || (id !in db.retractions && db'.retractions == db.retractions[id := x])
    ensures AxisStep(db, db')
  {
  }

  lemma TakeDownAxis(db: Db, r: Rank, u: UserId, id: Rank)
    ensures AxisStep(db, TakeDown(db, r, u, id).1)
  {
    hide Targets, AxisStep;
    var db' := TakeDown(db, r, u, id).1;
    SameAxis(db, db);
    if db' != db {
      var m := db.reports[r].message;
      StampedMessages(db, r, u, id);
      RetractionInserted(db, db', id, Retraction(m, db.messages[m].channel));
    }
  }

  lemma MessagesAfterTakeDown(db: Db, r: Rank, u: UserId, id: Rank)
    ensures var after := TakeDown(db, r, u, id).1.messages;
            after == db.messages
            || (r in db.reports && db.reports[r].message in db.messages
                && after == db.messages[db.reports[r].message := db.messages[db.reports[r].message].(deleted := true)])
  {
    hide Targets;
  }

  lemma StampedMessages(db: Db, r: Rank, u: UserId, id: Rank)
    ensures var db' := TakeDown(db, r, u, id).1;
            db'.messages.Keys == db.messages.Keys
            && forall i :: i in db.messages ==> db'.messages[i].channel == db.messages[i].channel
  {
    MessagesAfterTakeDown(db, r, u, id);
    hide TakeDown;
  }

  /** What the proof needs of a step: ids in the channel stay apart, and a retraction of a message the viewer holds is
      inserted ahead of the watermark. */
  ghost predicate Orderly(w: World, step: Step, c: ChannelId)
    requires Enabled(w.db, step)
  {
    var db' := Apply(w.db, step);
    && Separate(db', c)
    && forall i :: (i in db'.retractions && i !in w.db.retractions && db'.retractions[i].channel == c
                    && db'.retractions[i].target in w.client.received) ==> i > w.client.watermark
  }

  lemma ServeKeeps(w: World, step: Step, c: ChannelId, viewer: UserId)
    requires Good(w, c) && Enabled(w.db, step) && Orderly(w, step, c)
    ensures Good(Next(w, Serve(step), c, viewer), c)
  {
    hide Sound, Apply, Enabled, Separate;
    StepSound(w.db, step);
    StepKeepsAxis(w.db, step);
  }

  /** Every event keeps the invariant, as long as the service calls are orderly. */
  lemma EventKeeps(w: World, e: Event, c: ChannelId, viewer: UserId)
    requires Good(w, c) && May(w, e) && (e.Serve? ==> Orderly(w, e.step, c))
    ensures Good(Next(w, e, c, viewer), c)
  {
    hide Good, Next, Orderly;
    match e {
      case Serve(step) => ServeKeeps(w, step, c, viewer);
      case ReadForward(limit) => ReadForwardKeeps(w, c, viewer, limit);
      case ReadBack(before, limit) => ReadBackKeeps(w, c, viewer, before, limit);
    }
  }

  /** Caught up with the fence, nothing is owed any more. */
  lemma CaughtUp(w: World, c: ChannelId, viewer: UserId, m: Rank)
    requires Good(w, c) && w.client.watermark >= Fence(w.db, c, viewer)
    requires m in w.client.received && m in w.db.messages && w.db.messages[m].channel == c && w.db.messages[m].deleted
    ensures m in w.client.retracted
  {
    hide Names, MessageRefs, ReportRefs, PairRefs, Resends, Fence, Separate, UniqueIds;
    assert m in Targets(w.db.retractions);
    var i :| i in w.db.retractions && w.db.retractions[i].target == m;
    assert w.db.retractions[i].channel == c;
    SeparateIsUnique(w.db, c, viewer);
    FenceBounds(w.db, c, viewer);
    assert Visible(w.db, c, viewer, RetractionItem(i, m));
  }

  // ---- runs

  ghost predicate IsWorldRun(worlds: seq<World>, events: seq<Event>, c: ChannelId, viewer: UserId) {
    && |worlds| == |events| + 1 && worlds[0] == World(EMPTY, Client(0, {}, {}), 0, {})
    && forall k :: 0 <= k < |events| ==> May(worlds[k], events[k]) && worlds[k + 1] == Next(worlds[k], events[k], c, viewer)
  }

  lemma Stepped(worlds: seq<World>, events: seq<Event>, c: ChannelId, viewer: UserId, k: nat)
    requires IsWorldRun(worlds, events, c, viewer) && k < |events|
    ensures May(worlds[k], events[k]) && worlds[k + 1] == Next(worlds[k], events[k], c, viewer)
  {
  }

  lemma StartIsGood(c: ChannelId)
    ensures Good(World(EMPTY, Client(0, {}, {}), 0, {}), c)
  {
  }

  // ---- under the clock

  /** Every stored id, and the viewer's watermark, was inserted at some time. */
  ghost predicate Minted(w: World) {
    && w.db.messages.Keys !! w.db.retractions.Keys
    && (forall i :: i in w.db.messages || i in w.db.retractions ==> 0 < i <= w.minted)
    && w.client.watermark <= w.minted
  }

  lemma ClockIsOrderly(w: World, step: Step, c: ChannelId)
    requires Minted(w) && Good(w, c) && Enabled(w.db, step) && Clock(w, Serve(step))
    ensures Orderly(w, step, c)
  {
    hide Sound, Apply, Enabled;
    StepKeepsAxis(w.db, step);
  }

  lemma ClockKeepsMinted(w: World, e: Event, c: ChannelId, viewer: UserId)
    requires Minted(w) && May(w, e) && Clock(w, e)
    ensures Minted(Next(w, e, c, viewer))
  {
    hide Apply, Enabled, GetHistory, Newest, Visible;
    match e {
      case Serve(step) =>
        StepKeepsAxis(w.db, step);
        var w' := Next(w, e, c, viewer);
        var ids := NewIds(w.db, w'.db) + {w.minted};
        assert w.minted in ids;
        forall i | i in w'.db.messages || i in w'.db.retractions ensures 0 < i <= w'.minted {
          assert i in w.db.messages || i in w.db.retractions || i in ids;
        }
      case ReadForward(limit) =>
        var page := GetHistory(w.db, c, viewer, None, Some(w.client.watermark), limit);
        if page != [] {
          PageIsVisible(w.db, c, viewer, None, Some(w.client.watermark), limit, page[|page| - 1]);
          VisibleIsStored(w.db, c, viewer, page[|page| - 1]);
        }
      case ReadBack(_, _) =>
    }
  }

  lemma VisibleIsStored(db: Db, c: ChannelId, viewer: UserId, x: Item)
    requires Visible(db, c, viewer, x)
    ensures StoredIn(db, c, x.id) && (x.id in db.messages || x.id in db.retractions)
  {
  }

  lemma {:induction false} ClockRunIsGood(worlds: seq<World>, events: seq<Event>, c: ChannelId, viewer: UserId, k: nat)
    requires IsWorldRun(worlds, events, c, viewer) && k < |worlds|
    requires forall j :: 0 <= j < |events| ==> May(worlds[j], events[j]) && Clock(worlds[j], events[j])
    ensures Good(worlds[k], c) && Minted(worlds[k])
  {
    if k == 0 {
      StartIsGood(c);
    } else {
      hide Next, May, Good, Orderly, Clock, Minted;
      var w, e := worlds[k - 1], events[k - 1];
      ClockRunIsGood(worlds, events, c, viewer, k - 1);
      Stepped(worlds, events, c, viewer, k - 1);
      assert Clock(w, e);
      ClockKeepsMinted(w, e, c, viewer);
      if e.Serve? {
        MayServe(w, e);
        ClockIsOrderly(w, e.step, c);
      }
      EventKeeps(w, e, c, viewer);
    }
  }

  lemma MayServe(w: World, e: Event)
    requires May(w, e) && e.Serve?
    ensures Enabled(w.db, e.step)
  {
  }

  /** TAKEDOWN CONVERGENCE. In every run of sends, bus messages, reports, takedowns, blocks, unblocks, deletions and
      page reads in both directions, each inserted id above the earlier ones: once the forward watermark has reached the
      fence, the viewer has received a retraction for every taken-down message of the channel it ever received. */
  lemma TakedownsConverge(worlds: seq<World>, events: seq<Event>, c: ChannelId, viewer: UserId, k: nat, m: Rank)
    requires IsWorldRun(worlds, events, c, viewer) && k < |worlds|
    requires forall j :: 0 <= j < |events| ==> May(worlds[j], events[j]) && Clock(worlds[j], events[j])
    requires worlds[k].client.watermark >= Fence(worlds[k].db, c, viewer)
    requires m in worlds[k].client.received && m in worlds[k].db.messages
    requires worlds[k].db.messages[m].channel == c && worlds[k].db.messages[m].deleted
    ensures m in worlds[k].client.retracted
  {
    ClockRunIsGood(worlds, events, c, viewer, k);
    hide *;
    CaughtUp(worlds[k], c, viewer, m);
  }

  // ---- under the guard

  /** While the channel lives, the watermark is no higher than some id stored in it. */
  ghost predicate Anchored(w: World, c: ChannelId) {
    && w.db.channels.Keys <= w.used
    && (c !in w.used ==> w.client.watermark == 0)
    && (c in w.db.channels ==> w.client.watermark == 0 || exists j :: StoredIn(w.db, c, j) && w.client.watermark <= j)
  }

  lemma GuardIsOrderly(w: World, step: Step, c: ChannelId)
    requires Good(w, c) && Anchored(w, c) && Enabled(w.db, step) && Guard(w, Serve(step))
    ensures Orderly(w, step, c)
  {
    hide Apply, Enabled, Names, ReportRefs, PairRefs, Announced, Resends;
    StepKeepsAxis(w.db, step);
    StepSound(w.db, step);
    var db, db' := w.db, Apply(w.db, step);
    forall i | i in RetractionIds(db', c) ensures i > 0 && !(i in db'.messages && db'.messages[i].channel == c) {
      assert db'.retractions[i].target < i;
      if i !in db.retractions && i in db'.messages {
        assert i in db.messages;
        assert db.messages[i].channel == c ==> StoredIn(db, c, i);
      }
    }
    forall i | i in db'.retractions && i !in db.retractions && db'.retractions[i].channel == c ensures i > w.client.watermark {
      ChannelWasThere(db, db', i);
      if w.client.watermark > 0 {
        var j :| StoredIn(db, c, j) && w.client.watermark <= j;
      }
    }
  }

  /** A retraction is only ever inserted into a channel that holds its target. */
  lemma ChannelWasThere(db: Db, db': Db, i: Rank)
    requires Sound(db) && Sound(db') && AxisStep(db, db') && i in db'.retractions && i !in db.retractions
    ensures db'.retractions[i].channel in db.channels && i > 0
  {
    hide Names, ReportRefs, PairRefs, Announced, Resends;
    var m := db'.retractions[i].target;
    assert m in db'.messages && db'.messages[m].channel == db'.retractions[i].channel;
    assert m in db.messages;
  }

  lemma GuardKeepsAnchor(w: World, e: Event, c: ChannelId, viewer: UserId)
    requires Good(w, c) && Anchored(w, c) && May(w, e) && Guard(w, e)
    ensures Anchored(Next(w, e, c, viewer), c)
  {
    hide Apply, Enabled, GetHistory, Newest, Visible, Sound, Separate, Owed;
    match e {
      case Serve(step) =>
        StepKeepsAxis(w.db, step);
        var w' := Next(w, e, c, viewer);
        if c in w'.db.channels && w.client.watermark > 0 {
          assert c in w.db.channels;
          var j :| StoredIn(w.db, c, j) && w.client.watermark <= j;
          assert StoredIn(w'.db, c, j);
        }
      case ReadForward(limit) =>
        var page := GetHistory(w.db, c, viewer, None, Some(w.client.watermark), limit);
        if page != [] {
          var x := page[|page| - 1];
          PageIsVisible(w.db, c, viewer, None, Some(w.client.watermark), limit, x);
          VisibleIsStored(w.db, c, viewer, x);
          StoredHasChannel(w.db, c, x.id);
        }
      case ReadBack(_, _) =>
    }
  }

  lemma StoredHasChannel(db: Db, c: ChannelId, i: Rank)
    requires Sound(db) && StoredIn(db, c, i)
    ensures c in db.channels
  {
    hide Names, ReportRefs, PairRefs, Announced, Resends;
  }

  lemma {:induction false} GuardRunIsGood(worlds: seq<World>, events: seq<Event>, c: ChannelId, viewer: UserId, k: nat)
    requires IsWorldRun(worlds, events, c, viewer) && k < |worlds|
    requires forall j :: 0 <= j < |events| ==> May(worlds[j], events[j]) && Guard(worlds[j], events[j])
    ensures Good(worlds[k], c) && Anchored(worlds[k], c)
  {
    if k == 0 {
      StartIsGood(c);
    } else {
      hide Next, May, Good, Orderly, Guard, Anchored;
      var w, e := worlds[k - 1], events[k - 1];
      GuardRunIsGood(worlds, events, c, viewer, k - 1);
      Stepped(worlds, events, c, viewer, k - 1);
      assert Guard(w, e);
      GuardKeepsAnchor(w, e, c, viewer);
      if e.Serve? {
        MayServe(w, e);
        GuardIsOrderly(w, e.step, c);
      }
      EventKeeps(w, e, c, viewer);
    }
  }

  /** CONVERGENCE BY GUARD. The same conclusion without any clock: ids may come in any order as long as each retraction
      sorts above what its channel stores, ids are not shared and channel ids are not reused. */
  lemma GuardedTakedownsConverge(worlds: seq<World>, events: seq<Event>, c: ChannelId, viewer: UserId, k: nat, m: Rank)
    requires IsWorldRun(worlds, events, c, viewer) && k < |worlds|
    requires forall j :: 0 <= j < |events| ==> May(worlds[j], events[j]) && Guard(worlds[j], events[j])
    requires worlds[k].client.watermark >= Fence(worlds[k].db, c, viewer)
    requires m in worlds[k].client.received && m in worlds[k].db.messages
    requires worlds[k].db.messages[m].channel == c && worlds[k].db.messages[m].deleted
    ensures m in worlds[k].client.retracted
  {
    GuardRunIsGood(worlds, events, c, viewer, k);
    hide *;
    CaughtUp(worlds[k], c, viewer, m);
  }
}
