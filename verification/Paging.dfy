/** Walking the history: the fence, forward catch-up, backward scrolling and previews (`messages_service.py`). */
module Paging {
  import opened Ordering
  import opened Store
  import opened History

  /** MAX(id), or the empty string when no row qualifies. */
  function Newest(ids: set<Rank>): (x: Rank)
    ensures forall y :: y in ids ==> y <= x
    ensures x in ids || (x == 0 && ids == {})
  {
    if ids == {} then 0 else
      var q := Ascending(ids);
      assert forall y :: y in ids ==> y in q;
      assert q != [] by {
        var y :| y in ids;
        assert y in q;
      }
      assert q[|q| - 1] in q;
      q[|q| - 1]
  }

  /** `latest_ulids`: the fence of each channel for one viewer. */
  function LatestUlids(db: Db, cs: seq<ChannelId>, viewer: UserId): (fences: map<ChannelId, Rank>)
    ensures fences.Keys == set c | c in cs
  {
    map c | c in cs ::
      var m, r := Newest(VisibleIds(db, c, viewer)), Newest(RetractionIds(db, c));
      if m < r then r else m
  }

  /** `latest_ulid`. */
  function Fence(db: Db, c: ChannelId, viewer: UserId): (f: Rank) { LatestUlids(db, [c], viewer)[c] }

  lemma VisibleIsPositive(db: Db, c: ChannelId, viewer: UserId, x: Item)
    requires UniqueIds(db, c, viewer) && Visible(db, c, viewer, x)
    ensures x.id > 0
  {
  }

  /** Nothing visible lies above the fence. */
  lemma FenceCovers(db: Db, c: ChannelId, viewer: UserId)
    ensures forall x :: Visible(db, c, viewer, x) ==> x.id <= Fence(db, c, viewer)
  {
    hide Newest, VisibleIds;
    QueriesSelect(db, c, viewer);
    hide Visible;
    var ms, rs := VisibleIds(db, c, viewer), RetractionIds(db, c);
    assert Fence(db, c, viewer) == if Newest(ms) < Newest(rs) then Newest(rs) else Newest(ms);
  }

  /** The fence bounds every visible entry, and a non-empty fence is the id of one. */
  lemma FenceBounds(db: Db, c: ChannelId, viewer: UserId)
    requires UniqueIds(db, c, viewer)
    ensures forall x :: Visible(db, c, viewer, x) ==> 0 < x.id <= Fence(db, c, viewer)
    ensures Fence(db, c, viewer) != 0 ==> exists x :: Visible(db, c, viewer, x) && x.id == Fence(db, c, viewer)
  {
    hide Newest, VisibleIds;
    QueriesSelect(db, c, viewer);
    hide Visible;
    var ms, rs := VisibleIds(db, c, viewer), RetractionIds(db, c);
    var f := Fence(db, c, viewer);
    assert f == if Newest(ms) < Newest(rs) then Newest(rs) else Newest(ms);
    forall x | Visible(db, c, viewer, x) ensures 0 < x.id <= f {
      VisibleIsPositive(db, c, viewer, x);
    }
    if f != 0 {
      var x := if f in VisibleIds(db, c, viewer) then MessageItem(f) else RetractionItem(f, db.retractions[f].target);
      assert Visible(db, c, viewer, x);
    }
  }

  /** The fence is the id of the last entry a pager can return, and empty exactly when there is none. */
  lemma FenceIsLast(db: Db, c: ChannelId, viewer: UserId)
    requires UniqueIds(db, c, viewer)
    ensures var t := Timeline(db, c, viewer);
            Fence(db, c, viewer) == if t == [] then 0 else t[|t| - 1].id
  {
    hide Timeline, Fence, Visible;
    TimelineHolds(db, c, viewer);
    FenceBounds(db, c, viewer);
    var t, f := Timeline(db, c, viewer), Fence(db, c, viewer);
    if f != 0 {
      var x :| Visible(db, c, viewer, x) && x.id == f;
      assert x in t;
    }
    if t != [] {
      assert t[|t| - 1] in t;
    }
  }

  /** Every listing of several channels agrees with the single-channel read. */
  lemma FencesAgree(db: Db, cs: seq<ChannelId>, c: ChannelId, viewer: UserId)
    requires c in cs
    ensures LatestUlids(db, cs, viewer)[c] == Fence(db, c, viewer)
  {
  }

  lemma AboveStep(t: seq<Item>, cursor: Rank, k: nat)
    requires Ascends(t) && 1 <= k <= |Above(t, cursor)|
    ensures Above(t, Above(t, cursor)[k - 1].id) == Above(t, cursor)[k..]
  {
    Orders();
    var a := Above(t, cursor);
    FilterAscends((x: Item) => x.id > cursor, t);
    var at := a[k - 1].id;
    FilterAscends((x: Item) => x.id > at, t);
    assert a[k - 1] in a;
    forall x ensures x in a[k..] <==> x in t && x.id > at {
      if x in t && x.id > at {
        assert x in a;
        var i :| 0 <= i < |a| && a[i] == x;
        assert i >= k;
        assert a[k..][i - k] == x;
      }
    }
    SortedUnique(Asc, Above(t, at), a[k..]);
  }

  lemma BelowStep(t: seq<Item>, k: nat)
    requires Ascends(t) && k < |t|
    ensures Below(t, t[k].id) == t[..k]
  {
    Orders();
    var at := t[k].id;
    FilterAscends((x: Item) => x.id < at, t);
    forall x ensures x in t[..k] <==> x in t && x.id < at {
      if x in t && x.id < at {
        var i :| 0 <= i < |t| && t[i] == x;
        assert i < k;
        assert t[..k][i] == x;
      }
    }
    SortedUnique(Asc, Below(t, at), t[..k]);
  }

  /** Below the fence there is always something left to deliver; at the fence there is nothing. */
  lemma AheadOfFence(db: Db, c: ChannelId, viewer: UserId, cursor: Rank)
    requires UniqueIds(db, c, viewer)
    ensures Above(Timeline(db, c, viewer), cursor) == [] <==> Fence(db, c, viewer) <= cursor
  {
    hide Timeline, Fence;
    FenceIsLast(db, c, viewer);
    TimelineHolds(db, c, viewer);
    NothingAbove(Timeline(db, c, viewer), cursor);
  }

  lemma NothingAbove(t: seq<Item>, cursor: Rank)
    requires Ascends(t)
    ensures Above(t, cursor) == [] <==> t == [] || t[|t| - 1].id <= cursor
  {
    var a := Above(t, cursor);
    if t != [] && t[|t| - 1].id > cursor {
      assert t[|t| - 1] in a;
    }
    if a != [] {
      assert a[0] in a && a[0] in t;
    }
  }

  /** One forward page below the fence is non-empty and moves the cursor past exactly what it delivers. */
  lemma ForwardStep(db: Db, c: ChannelId, viewer: UserId, cursor: Rank, limit: nat)
    requires UniqueIds(db, c, viewer) && limit >= 1 && cursor < Fence(db, c, viewer)
    ensures var page, t := GetHistory(db, c, viewer, None, Some(cursor), limit), Timeline(db, c, viewer);
            page != [] && page + Above(t, page[|page| - 1].id) == Above(t, cursor)
  {
    hide Timeline, Fence, GetHistory, Filter;
    var page, t := GetHistory(db, c, viewer, None, Some(cursor), limit), Timeline(db, c, viewer);
    TimelineHolds(db, c, viewer);
    ForwardPage(db, c, viewer, None, cursor, limit);
    AheadOfFence(db, c, viewer, cursor);
    AboveStep(t, cursor, |page|);
    assert page == Above(t, cursor)[..|page|];
  }

  /** The reconnect loop: page forward from a watermark until the cursor reaches the fence. It terminates, never
      meets an empty page below the fence, and delivers exactly the timeline above the watermark, in order. */
  method CatchUp(db: Db, c: ChannelId, viewer: UserId, watermark: Rank, limit: nat)
    returns (delivered: seq<Item>, cursor: Rank)
    requires UniqueIds(db, c, viewer) && limit >= 1
    ensures delivered == Above(Timeline(db, c, viewer), watermark)
    ensures cursor >= Fence(db, c, viewer)
    ensures cursor == if delivered == [] then watermark else delivered[|delivered| - 1].id
  {
    hide *;
    ghost var t := Timeline(db, c, viewer);
    var fence := Fence(db, c, viewer);
    delivered, cursor := [], watermark;
    while cursor < fence
      invariant delivered + Above(t, cursor) == Above(t, watermark)
      invariant cursor == if delivered == [] then watermark else delivered[|delivered| - 1].id
      decreases |Above(t, cursor)|
    {
      ForwardStep(db, c, viewer, cursor, limit);
      var page := GetHistory(db, c, viewer, None, Some(cursor), limit);
      assert page != [];
      delivered := delivered + page;
      cursor := page[|page| - 1].id;
    }
    AheadOfFence(db, c, viewer, cursor);
  }

  /** One backward page holds the entries just below the ones already read, and is empty only at the top. */
  lemma BackwardStep(db: Db, c: ChannelId, viewer: UserId, k: nat, limit: nat)
    requires UniqueIds(db, c, viewer) && limit >= 1
    requires k <= |Timeline(db, c, viewer)|
    ensures var t := Timeline(db, c, viewer);
            var before := if k == |t| then None else Some(t[k].id);
            var page := GetHistory(db, c, viewer, before, None, limit);
            |page| <= k && page == t[k - |page|..k] && (page == [] ==> k == 0)
  {
    hide Timeline, BackTimeline, GetHistory, Filter, Sorted, Distinct, Visible;
    var t := Timeline(db, c, viewer);
    var before := if k == |t| then None else Some(t[k].id);
    TimelineHolds(db, c, viewer);
    TimelinesAgree(db, c, viewer);
    BackwardPage(db, c, viewer, before, limit);
    if k < |t| {
      assert t[k] in t;
      VisibleIsPositive(db, c, viewer, t[k]);
      BelowStep(t, k);
    }
  }

  /** The scroll-up loop: page backward from the newest entry until a page comes back empty. Together with
      `CatchUp` from the empty watermark it rebuilds the same history. */
  method ScrollBack(db: Db, c: ChannelId, viewer: UserId, limit: nat) returns (history: seq<Item>)
    requires UniqueIds(db, c, viewer) && limit >= 1
    ensures history == Timeline(db, c, viewer)
  {
    hide *;
    ghost var t := Timeline(db, c, viewer);
    ghost var k := |t|;
    history := [];
    var reading, before := true, None;
    while reading
      invariant 0 <= k <= |t| && history == t[k..]
      invariant before == if k == |t| then None else Some(t[k].id)
      invariant !reading ==> k == 0
      decreases reading, k
    {
      BackwardStep(db, c, viewer, k, limit);
      var page := GetHistory(db, c, viewer, before, None, limit);
      if page == [] {
        reading := false;
      } else {
        history := page + history;
        before := Some(history[0].id);
        k := k - |page|;
      }
    }
  }

  /** Catching up from the empty watermark delivers the same history as scrolling to the top. */
  lemma BothWaysAgree(db: Db, c: ChannelId, viewer: UserId)
    requires UniqueIds(db, c, viewer)
    ensures Above(Timeline(db, c, viewer), 0) == Timeline(db, c, viewer)
  {
    hide Timeline, Filter, Visible;
    TimelineHolds(db, c, viewer);
    FenceBounds(db, c, viewer);
    FilterAll((x: Item) => x.id > 0, Timeline(db, c, viewer));
  }

  /** `last_visible_message`. */
  function LastVisible(db: Db, c: ChannelId, viewer: UserId): (r: Option<Rank>) {
    var ids := VisibleIds(db, c, viewer);
    if ids == {} then None else Some(Newest(ids))
  }

  /** `last_visible_messages`: the newest visible id per group, then those rows keyed by their own channel. */
  function LastVisibleMany(db: Db, cs: seq<ChannelId>, viewer: UserId): (r: map<ChannelId, Rank>) {
    var maxIds := set c | c in cs && VisibleIds(db, c, viewer) != {} :: Newest(VisibleIds(db, c, viewer));
    map i | i in maxIds :: db.messages[i].channel := i
  }

  /** The batched preview agrees with the single one on every requested channel and holds no other. */
  lemma PreviewsAgree(db: Db, cs: seq<ChannelId>, viewer: UserId, c: ChannelId)
    ensures c in cs && LastVisible(db, c, viewer).Some? <==> c in LastVisibleMany(db, cs, viewer)
    ensures c in LastVisibleMany(db, cs, viewer) ==> LastVisible(db, c, viewer) == Some(LastVisibleMany(db, cs, viewer)[c])
  {
    var maxIds := set d | d in cs && VisibleIds(db, d, viewer) != {} :: Newest(VisibleIds(db, d, viewer));
    if c in cs && VisibleIds(db, c, viewer) != {} {
      var i := Newest(VisibleIds(db, c, viewer));
      assert i in maxIds && db.messages[i].channel == c;
    }
  }

  /** The preview is the newest message of the viewer's history, and absent exactly when it shows none: retractions are
      never previewed. */
  lemma PreviewIsNewest(db: Db, c: ChannelId, viewer: UserId)
    ensures LastVisible(db, c, viewer).None? <==> forall i :: MessageItem(i) !in Timeline(db, c, viewer)
    ensures forall i :: LastVisible(db, c, viewer) == Some(i) <==>
              MessageItem(i) in Timeline(db, c, viewer) && forall j :: MessageItem(j) in Timeline(db, c, viewer) ==> j <= i
  {
    hide Timeline, Newest, VisibleIds, Visible;
    TimelineHolds(db, c, viewer);
    QueriesSelect(db, c, viewer);
    var ids := VisibleIds(db, c, viewer);
    forall i ensures MessageItem(i) in Timeline(db, c, viewer) <==> i in ids {
      assert MessageItem(i).id == i;
    }
    if ids != {} {
      var x :| x in ids;
      assert MessageItem(Newest(ids)) in Timeline(db, c, viewer);
    }
  }
}
