/** Channel history (`messages_service.py`): paging, the fence, and previews over one id axis. */
module History {
  import opened Ordering
  import opened Store

  /** One entry of the heterogeneous history stream. */
  datatype Item = MessageItem(id: Rank) | RetractionItem(id: Rank, target: Rank)

  predicate Asc(a: Item, b: Item) { a.id <= b.id }

  predicate Desc(a: Item, b: Item) { a.id >= b.id }

  /** A block in either direction between `a` and `b` (`is_blocked_between` without the self case). */
  predicate BlockBetween(db: Db, a: UserId, b: UserId) {
    (a, b) in db.blocks || (b, a) in db.blocks
  }

  /** `not_blocked_predicate` and the soft-delete filter: what `viewer` may see in `c`. */
  function VisibleIds(db: Db, c: ChannelId, viewer: UserId): (ids: set<Rank>) {
    set i | i in db.messages
            && db.messages[i].channel == c && !db.messages[i].deleted
            && (db.messages[i].sender.Some? ==> !BlockBetween(db, viewer, db.messages[i].sender.value))
  }

  /** Retractions are filtered by channel only. */
  function RetractionIds(db: Db, c: ChannelId): (ids: set<Rank>) {
    set i | i in db.retractions && db.retractions[i].channel == c
  }

  predicate IsLeast(x: Rank, ids: set<Rank>) { x in ids && forall y :: y in ids ==> x <= y }

  function Least(ids: set<Rank>): (x: Rank)
    requires ids != {}
    ensures IsLeast(x, ids)
  {
    LeastExists(ids);
    var x :| IsLeast(x, ids);
    x
  }

  lemma {:induction false} LeastExists(ids: set<Rank>)
    requires ids != {}
    ensures exists x :: IsLeast(x, ids)
    decreases |ids|
  {
    var z :| z in ids;
    var rest := ids - {z};
    if rest == {} {
      assert ids == {z};
      assert IsLeast(z, ids);
    } else {
      LeastExists(rest);
      var x :| IsLeast(x, rest);
      var m := if x <= z then x else z;
      forall y | y in ids ensures m <= y {
        assert y == z || y in rest;
      }
      assert IsLeast(m, ids);
    }
  }

  /** ORDER BY id ASC over the rows whose ids are `ids`. */
  function Ascending(ids: set<Rank>): (s: seq<Rank>)
    ensures forall x :: x in s <==> x in ids
    ensures forall i, j :: 0 <= i < j < |s| ==> s[i] < s[j]
    decreases |ids|
  {
    if ids == {} then [] else
      var x := Least(ids);
      [x] + Ascending(ids - {x})
  }

  /** The rows `ids`, read in id order and shown as `row`. */
  function Items(ids: set<Rank>, row: Rank -> Item): (s: seq<Item>)
    requires forall i :: row(i).id == i
    ensures Sorted(Asc, s) && Distinct(Asc, s)
    ensures forall x :: x in s <==> x.id in ids && x == row(x.id)
  {
    var q := Ascending(ids);
    var s := seq(|q|, i requires 0 <= i < |q| => row(q[i]));
    assert forall x :: x in q ==> row(x) in s by {
      forall x | x in q ensures row(x) in s {
        var i :| 0 <= i < |q| && q[i] == x;
        assert s[i] == row(x);
      }
    }
    s
  }

  function MessageRow(i: Rank): (x: Item) { MessageItem(i) }

  function RetractionRow(db: Db): (row: Rank -> Item)
    ensures forall i :: row(i).id == i
  {
    (i: Rank) => RetractionItem(i, if i in db.retractions then db.retractions[i].target else 0)
  }

  /** The two result sets of `get_history`, each restricted to ids that pass `p`. */
  function Messages(db: Db, c: ChannelId, viewer: UserId, p: Rank -> bool): (s: seq<Item>) {
    Items((set i | i in VisibleIds(db, c, viewer) && p(i)), MessageRow)
  }

  function Retractions(db: Db, c: ChannelId, p: Rank -> bool): (s: seq<Item>) {
    Items((set i | i in RetractionIds(db, c) && p(i)), RetractionRow(db))
  }

  /** `get_history`: `after` wins; an absent or empty `before` means no bound. */
  function GetHistory(db: Db, c: ChannelId, viewer: UserId, before: Option<Rank>, after: Option<Rank>, limit: nat)
    : (page: seq<Item>)
  {
    if after.Some? then
      var p := (i: Rank) => i > after.value;
      Take(Sort(Asc, Take(Messages(db, c, viewer, p), limit) + Take(Retractions(db, c, p), limit)), limit)
    else
      var p := Bound(before);
      Reverse(Take(Sort(Desc, Take(Reverse(Messages(db, c, viewer, p)), limit)
                              + Take(Reverse(Retractions(db, c, p)), limit)), limit))
  }

  /** `if before:` — None and the empty string bound nothing. */
  function Bound(before: Option<Rank>): (p: Rank -> bool) {
    (i: Rank) => before.Some? && before.value != 0 ==> i < before.value
  }

  /** The whole history a viewer may see, oldest first: the reference every page is compared with. */
  function Timeline(db: Db, c: ChannelId, viewer: UserId): (t: seq<Item>) {
    Sort(Asc, Messages(db, c, viewer, Everything()) + Retractions(db, c, Everything()))
  }

  function Above(t: seq<Item>, cursor: Rank): (r: seq<Item>) { Filter((x: Item) => x.id > cursor, t) }

  function Below(t: seq<Item>, cursor: Rank): (r: seq<Item>) { Filter((x: Item) => x.id < cursor, t) }

  /** The last `n` of `s`. */
  function Last<T>(s: seq<T>, n: nat): (r: seq<T>) { if |s| <= n then s else s[|s| - n..] }

  /** In what the viewer sees of the channel no message shares its id with a retraction, and no id is the empty
      string. Minting above every stored id keeps this (`Convergence.StepKeepsAxis`). */
  ghost predicate UniqueIds(db: Db, c: ChannelId, viewer: UserId) {
    VisibleIds(db, c, viewer) !! RetractionIds(db, c) && 0 !in VisibleIds(db, c, viewer) && 0 !in RetractionIds(db, c)
  }

  ghost predicate Ascends(s: seq<Item>) { Sorted(Asc, s) && Distinct(Asc, s) }

  lemma Orders()
    ensures TotalPreorder(Asc) && TotalPreorder(Desc)
  {
  }

  function ById(p: Rank -> bool): (q: Item -> bool) { (x: Item) => p(x.id) }

  function Everything(): (p: Rank -> bool) { (i: Rank) => true }

  /** What `viewer` is to be shown of `c`, row by row: a message of the channel that is not soft-deleted and whose
      sender, if it has one, is in no block with the viewer either way; and every retraction of the channel. A message
      without a sender is shown to everyone. */
  ghost predicate Visible(db: Db, c: ChannelId, viewer: UserId, x: Item) {
    match x
    case MessageItem(i) =>
      && i in db.messages && db.messages[i].channel == c && !db.messages[i].deleted
      && (db.messages[i].sender.Some? ==>
            var u := db.messages[i].sender.value; (viewer, u) !in db.blocks && (u, viewer) !in db.blocks)
    case RetractionItem(i, target) => i in db.retractions && db.retractions[i] == Retraction(target, c)
  }

  /** The two queries select exactly that. */
  lemma QueriesSelect(db: Db, c: ChannelId, viewer: UserId)
    ensures forall x :: Visible(db, c, viewer, x) <==>
              if x.MessageItem? then x.id in VisibleIds(db, c, viewer)
              else x.id in RetractionIds(db, c) && x.target == db.retractions[x.id].target
  {
  }

  /** The two result sets, each in strictly ascending order, hold what is visible and passes. */
  lemma RunsHold(db: Db, c: ChannelId, viewer: UserId, p: Rank -> bool)
    ensures var ms, rs := Messages(db, c, viewer, p), Retractions(db, c, p);
            && Ascends(ms) && Ascends(rs)
            && (forall x :: x in ms <==> x.MessageItem? && Visible(db, c, viewer, x) && p(x.id))
            && (forall x :: x in rs <==> x.RetractionItem? && Visible(db, c, viewer, x) && p(x.id))
  {
    hide Items;
  }

  /** Restricting a query is restricting its result. */
  lemma RunsFilter(db: Db, c: ChannelId, viewer: UserId, p: Rank -> bool)
    ensures Messages(db, c, viewer, p) == Filter(ById(p), Messages(db, c, viewer, Everything()))
    ensures Retractions(db, c, p) == Filter(ById(p), Retractions(db, c, Everything()))
  {
    hide Messages, Retractions, Visible;
    Orders();
    RunsHold(db, c, viewer, p);
    RunsHold(db, c, viewer, Everything());
    FilterAscends(ById(p), Messages(db, c, viewer, Everything()));
    FilterAscends(ById(p), Retractions(db, c, Everything()));
    SortedUnique(Asc, Messages(db, c, viewer, p), Filter(ById(p), Messages(db, c, viewer, Everything())));
    SortedUnique(Asc, Retractions(db, c, p), Filter(ById(p), Retractions(db, c, Everything())));
  }

  /** The timeline is sorted and holds exactly what is visible, each id once where ids are unique. */
  lemma TimelineHolds(db: Db, c: ChannelId, viewer: UserId)
    ensures Sorted(Asc, Timeline(db, c, viewer))
    ensures forall x :: x in Timeline(db, c, viewer) <==> Visible(db, c, viewer, x)
    ensures UniqueIds(db, c, viewer) ==> Ascends(Timeline(db, c, viewer))
  {
    hide Messages, Retractions;
    Orders();
    var ms, rs := Messages(db, c, viewer, Everything()), Retractions(db, c, Everything());
    RunsHold(db, c, viewer, Everything());
    SortSorted(Asc, ms + rs);
    SortMembers(Asc, ms + rs);
    if UniqueIds(db, c, viewer) {
      QueriesSelect(db, c, viewer);
      SortDistinct(Asc, ms, rs);
    }
  }

  lemma {:induction false} FilterAscends(p: Item -> bool, t: seq<Item>)
    requires Ascends(t)
    ensures Ascends(Filter(p, t))
  {
    if t != [] {
      FilterAscends(p, t[1..]);
      var r := Filter(p, t[1..]);
      forall i | 0 <= i < |r| ensures t[0].id < r[i].id {
        assert r[i] in t[1..];
      }
    }
  }

  lemma {:induction false} FilterSame(p: Item -> bool, q: Item -> bool, t: seq<Item>)
    requires forall x :: x in t ==> p(x) == q(x)
    ensures Filter(p, t) == Filter(q, t)
  {
    if t != [] {
      FilterSame(p, q, t[1..]);
    }
  }

  /** FORWARD: on every store a page is the first `limit` entries of the timeline above the cursor. */
  lemma ForwardPage(db: Db, c: ChannelId, viewer: UserId, before: Option<Rank>, after: Rank, limit: nat)
    ensures GetHistory(db, c, viewer, before, Some(after), limit) == Take(Above(Timeline(db, c, viewer), after), limit)
  {
    Orders();
    var p := (i: Rank) => i > after;
    var all := Everything();
    RunsHold(db, c, viewer, p);
    RunsHold(db, c, viewer, all);
    RunsFilter(db, c, viewer, p);
    hide Messages, Retractions, Visible, Filter, Merge, Sort;
    var ms, rs := Messages(db, c, viewer, all), Retractions(db, c, all);
    var mp, rp := Messages(db, c, viewer, p), Retractions(db, c, p);
    CutSortCut(Asc, mp, rp, limit);
    SortOfRuns(Asc, mp, rp);
    SortOfRuns(Asc, ms, rs);
    MergeFilter(Asc, ById(p), ms, rs);
    FilterSame(ById(p), (x: Item) => x.id > after, Timeline(db, c, viewer));
  }

  // ---- backwards

  /** The history as the backward pages tile it. Where a message and a retraction share an id the stable descending
      sort, once flipped, puts the retraction first. */
  function BackTimeline(db: Db, c: ChannelId, viewer: UserId): (t: seq<Item>) {
    Reverse(Sort(Desc, Reverse(Messages(db, c, viewer, Everything())) + Reverse(Retractions(db, c, Everything()))))
  }

  lemma ReverseDescends(s: seq<Item>)
    requires Ascends(s)
    ensures Sorted(Desc, Reverse(s)) && Distinct(Desc, Reverse(s))
    ensures forall x :: x in Reverse(s) <==> x in s
  {
    var r := Reverse(s);
    forall x | x in s ensures x in r {
      var i :| 0 <= i < |s| && s[i] == x;
      assert r[|s| - 1 - i] == x;
    }
  }

  lemma DescendingSort(a: seq<Item>, b: seq<Item>)
    requires Ascends(a) && Ascends(b)
    requires forall x, y :: x in a && y in b ==> x.id != y.id
    ensures Sort(Desc, Reverse(a) + Reverse(b)) == Reverse(Sort(Asc, a + b))
  {
    Orders();
    ReverseDescends(a);
    ReverseDescends(b);
    SortDistinct(Asc, a, b);
    SortDistinct(Desc, Reverse(a), Reverse(b));
    ReverseDescends(Sort(Asc, a + b));
    SortedUnique(Desc, Sort(Desc, Reverse(a) + Reverse(b)), Reverse(Sort(Asc, a + b)));
  }

  /** Where ids are unique both directions tile one and the same history. */
  lemma TimelinesAgree(db: Db, c: ChannelId, viewer: UserId)
    requires VisibleIds(db, c, viewer) !! RetractionIds(db, c)
    ensures BackTimeline(db, c, viewer) == Timeline(db, c, viewer)
  {
    hide Messages, Retractions, Sort;
    RunsHold(db, c, viewer, Everything());
    var ms, rs := Messages(db, c, viewer, Everything()), Retractions(db, c, Everything());
    QueriesSelect(db, c, viewer);
    DescendingSort(ms, rs);
    assert Reverse(Reverse(Sort(Asc, ms + rs))) == Sort(Asc, ms + rs);
  }

  lemma {:induction false} CountedOnce(s: seq<Item>, x: Item)
    requires Ascends(s)
    ensures multiset(s)[x] <= 1
  {
    if s != [] {
      CountedOnce(s[1..], x);
      assert s == [s[0]] + s[1..];
      assert multiset(s) == multiset{s[0]} + multiset(s[1..]);
      assert x == s[0] ==> x !in s[1..];
    }
  }

  lemma CountedInSort(ms: seq<Item>, rs: seq<Item>, x: Item)
    requires Ascends(ms) && Ascends(rs) && !(x in ms && x in rs)
    ensures multiset(Sort(Asc, ms + rs))[x] <= 1
  {
    hide Sort, Ascends;
    CountedOnce(ms, x);
    CountedOnce(rs, x);
    assert multiset(Sort(Asc, ms + rs)) == multiset(ms) + multiset(rs);
    assert x !in ms ==> multiset(ms)[x] == 0;
    assert x !in rs ==> multiset(rs)[x] == 0;
  }

  lemma PlacesClash(t: seq<Item>, down: seq<Item>, x: Item, y: Item, p: nat, q: nat, p': nat, q': nat)
    requires multiset(t)[x] <= 1 && multiset(t)[y] <= 1
    requires p < q < |t| && t[p] == x && t[q] == y && p' < q' < |down| && down[p'] == x && down[q'] == y
    ensures Reverse(down) != t
  {
    if Reverse(down) == t {
      OnePlace(t, x, p, |down| - 1 - p');
      OnePlace(t, y, q, |down| - 1 - q');
    }
  }

  /** Two runs with a shared id are merged one way round ascending and the other way round descending. */
  lemma SharedIdTurns(ms: seq<Item>, rs: seq<Item>, x: Item, y: Item)
    requires Ascends(ms) && Ascends(rs) && x in ms && y in rs && x !in rs && y !in ms && x.id == y.id
    ensures Reverse(Sort(Desc, Reverse(ms) + Reverse(rs))) != Sort(Asc, ms + rs)
  {
    hide Merge, Sort, Sorted, Distinct, Reverse, TotalPreorder;
    Orders();
    ReverseDescends(ms);
    ReverseDescends(rs);
    CountedInSort(ms, rs, x);
    CountedInSort(ms, rs, y);
    SortOfRuns(Asc, ms, rs);
    SortOfRuns(Desc, Reverse(ms), Reverse(rs));
    var p, q := MergeTie(Asc, ms, rs, x, y);
    var p', q' := MergeTie(Desc, Reverse(ms), Reverse(rs), x, y);
    PlacesClash(Sort(Asc, ms + rs), Sort(Desc, Reverse(ms) + Reverse(rs)), x, y, p, q, p', q');
  }

  /** Where a visible message and a retraction share an id the two directions disagree about their order. */
  lemma SharedIdSplits(db: Db, c: ChannelId, viewer: UserId, i: Rank)
    requires i in VisibleIds(db, c, viewer) && i in RetractionIds(db, c)
    ensures BackTimeline(db, c, viewer) != Timeline(db, c, viewer)
  {
    RunsHold(db, c, viewer, Everything());
    assert i in db.retractions;
    hide Messages, Retractions, VisibleIds, RetractionIds, Sort, Ascends;
    var x, y := MessageItem(i), RetractionItem(i, db.retractions[i].target);
    assert Visible(db, c, viewer, x) && Visible(db, c, viewer, y);
    SharedIdTurns(Messages(db, c, viewer, Everything()), Retractions(db, c, Everything()), x, y);
  }

  /** TILING. The two directions tile one and the same history if and only if no visible message shares its id with a
      retraction of the channel. */
  lemma TimelinesAgreeIff(db: Db, c: ChannelId, viewer: UserId)
    ensures BackTimeline(db, c, viewer) == Timeline(db, c, viewer) <==> VisibleIds(db, c, viewer) !! RetractionIds(db, c)
  {
    hide BackTimeline, Timeline, VisibleIds, RetractionIds;
    if VisibleIds(db, c, viewer) !! RetractionIds(db, c) {
      TimelinesAgree(db, c, viewer);
    } else {
      var i :| i in VisibleIds(db, c, viewer) && i in RetractionIds(db, c);
      SharedIdSplits(db, c, viewer, i);
    }
  }

  lemma {:induction false} LastOfReverse(u: seq<Item>, n: nat)
    ensures Reverse(Take(Reverse(u), n)) == Last(u, n)
  {
    var a, b := Take(Reverse(u), n), Last(u, n);
    assert |a| == |b|;
    forall i | 0 <= i < |a| ensures a[i] == b[|b| - 1 - i] {
      assert a[i] == Reverse(u)[i] == u[|u| - 1 - i];
    }
  }

  lemma BoundedPage(db: Db, c: ChannelId, viewer: UserId, before: Option<Rank>, limit: nat)
    ensures GetHistory(db, c, viewer, before, None, limit)
            == Last(Filter(ById(Bound(before)), BackTimeline(db, c, viewer)), limit)
  {
    Orders();
    var p, all := Bound(before), Everything();
    RunsHold(db, c, viewer, p);
    RunsHold(db, c, viewer, all);
    RunsFilter(db, c, viewer, p);
    hide Messages, Retractions, Visible, Filter, Merge, Sort, Bound, Everything, ById;
    var ms, rs := Messages(db, c, viewer, all), Retractions(db, c, all);
    var mp, rp := Messages(db, c, viewer, p), Retractions(db, c, p);
    ReverseDescends(ms);
    ReverseDescends(rs);
    ReverseDescends(mp);
    ReverseDescends(rp);
    CutSortCut(Desc, Reverse(mp), Reverse(rp), limit);
    SortOfRuns(Desc, Reverse(mp), Reverse(rp));
    SortOfRuns(Desc, Reverse(ms), Reverse(rs));
    FilterReverse(ById(p), ms);
    FilterReverse(ById(p), rs);
    MergeFilter(Desc, ById(p), Reverse(ms), Reverse(rs));
    var down := Sort(Desc, Reverse(ms) + Reverse(rs));
    FilterReverse(ById(p), Reverse(down));
    assert Reverse(Reverse(down)) == down;
    LastOfReverse(Filter(ById(p), Reverse(down)), limit);
  }

  /** BACKWARD: on every store a page is the last `limit` entries of the backward timeline below the cursor, oldest
      first. */
  lemma BackwardPage(db: Db, c: ChannelId, viewer: UserId, before: Option<Rank>, limit: nat)
    ensures var t := BackTimeline(db, c, viewer);
            GetHistory(db, c, viewer, before, None, limit)
            == Last(if before.Some? && before.value != 0 then Below(t, before.value) else t, limit)
  {
    BoundedPage(db, c, viewer, before, limit);
    hide GetHistory, BackTimeline;
    var t := BackTimeline(db, c, viewer);
    if before.Some? && before.value != 0 {
      FilterSame(ById(Bound(before)), (x: Item) => x.id < before.value, t);
    } else {
      FilterAll(ById(Bound(before)), t);
    }
  }

  lemma {:induction false} FilterAll(p: Item -> bool, t: seq<Item>)
    requires forall x :: x in t ==> p(x)
    ensures Filter(p, t) == t
  {
    if t != [] {
      FilterAll(p, t[1..]);
    }
  }

  /** Backward pages hold the same entries as the timeline. */
  lemma BackTimelineHolds(db: Db, c: ChannelId, viewer: UserId)
    ensures forall x :: x in BackTimeline(db, c, viewer) <==> Visible(db, c, viewer, x)
  {
    hide Messages, Retractions, Sort, Visible;
    RunsHold(db, c, viewer, Everything());
    var ms, rs := Messages(db, c, viewer, Everything()), Retractions(db, c, Everything());
    ReverseDescends(ms);
    ReverseDescends(rs);
    SortMembers(Desc, Reverse(ms) + Reverse(rs));
    var down := Sort(Desc, Reverse(ms) + Reverse(rs));
    forall x ensures x in Reverse(down) <==> x in down {
      if x in down {
        var i :| 0 <= i < |down| && down[i] == x;
        assert Reverse(down)[|down| - 1 - i] == x;
      }
    }
  }
}
