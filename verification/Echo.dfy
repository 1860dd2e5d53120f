/** Echo suppression (`echo.py`): a multiset of pending echoes with FIFO consumption is an optimal matching. */
module Echo {
  import opened Ordering
  import opened Store

  const TTL_SECONDS := 30.0

  datatype Key = Key(aikoChannel: string, aikoUsername: string, body: string)

  /** key -> expiries of the outstanding publishes. */
  type Seen = map<Key, seq<real>>

  function Live(pending: seq<real>, now: real): (r: seq<real>) { Filter((exp: real) => exp > now, pending) }

  function Pending(seen: Seen, k: Key): (p: seq<real>) { if k in seen then seen[k] else [] }

  function Evicted(seen: Seen, now: real): (r: Seen) {
    map k | k in seen && Live(seen[k], now) != [] :: Live(seen[k], now)
  }

  function Marked(seen: Seen, k: Key, now: real): (r: Seen) {
    var s := Evicted(seen, now);
    s[k := Pending(s, k) + [now + TTL_SECONDS]]
  }

  /** Whether an inbound is an own echo. */
  predicate Suppresses(seen: Seen, k: Key, now: real) { Pending(Evicted(seen, now), k) != [] }

  function Consumed(seen: Seen, k: Key, now: real): (r: Seen) {
    var s := Evicted(seen, now);
    if Pending(s, k) == [] then s
    else if |s[k]| == 1 then s - {k}
    else s[k := s[k][1..]]
  }

  /** The module dictionary `_seen` and its three operations, in place. */
  class EchoSuppressor {
    var seen: Seen

    constructor ()
      ensures seen == map[]
    {
      seen := map[];
    }

    method Evict(now: real)
      modifies this
      ensures seen == Evicted(old(seen), now)
    {
      var todo := seen.Keys;
      while todo != {}
        invariant todo <= old(seen).Keys && seen.Keys <= old(seen).Keys
        invariant forall k :: k in todo ==> k in seen && seen[k] == old(seen)[k]
        invariant forall k :: k in old(seen) && k !in todo ==>
                    (k in seen <==> Live(old(seen)[k], now) != []) && (k in seen ==> seen[k] == Live(old(seen)[k], now))
        decreases todo
      {
        var k :| k in todo;
        todo := todo - {k};
        var live := Live(seen[k], now);
        if live != [] {
          seen := seen[k := live];
        } else {
          seen := seen - {k};
        }
      }
    }

    method MarkSent(aikoChannel: string, aikoUsername: string, body: string, now: real)
      modifies this
      ensures seen == Marked(old(seen), Key(aikoChannel, aikoUsername, body), now)
    {
      Evict(now);
      var key := Key(aikoChannel, aikoUsername, body);
      if key !in seen {
        seen := seen[key := []];
      }
      seen := seen[key := seen[key] + [now + TTL_SECONDS]];
    }

    method IsOwnEcho(aikoChannel: string, aikoUsername: Option<string>, body: string, now: real) returns (own: bool)
      modifies this
      ensures aikoUsername.None? ==> !own && seen == old(seen)
      ensures aikoUsername.Some? ==>
                var key := Key(aikoChannel, aikoUsername.value, body);
                own == Suppresses(old(seen), key, now) && seen == Consumed(old(seen), key, now)
    {
      if aikoUsername.None? {
        return false;
      }
      Evict(now);
      var key := Key(aikoChannel, aikoUsername.value, body);
      if key !in seen || seen[key] == [] {
        return false;
      }
      var rest := seen[key][1..];
      seen := seen[key := rest];
      if rest == [] {
        seen := seen - {key};
      }
      return true;
    }
  }

  // ---- whole runs

  datatype Event = Sent(key: Key, at: real) | Inbound(key: Key, at: real)

  function Step(seen: Seen, e: Event): (r: Seen) {
    match e
    case Sent(k, now) => Marked(seen, k, now)
    case Inbound(k, now) => Consumed(seen, k, now)
  }

  /** The dictionary after the first `n` events. */
  function State(events: seq<Event>, n: nat): (seen: Seen)
    requires n <= |events|
  {
    if n == 0 then map[] else Step(State(events, n - 1), events[n - 1])
  }

  /** The inbounds of `k` that the first `n` events suppressed. */
  ghost function Hits(events: seq<Event>, k: Key, n: nat): (hits: set<nat>)
    requires n <= |events|
  {
    set i: nat | i < n && events[i].Inbound? && events[i].key == k && Suppresses(State(events, i), k, events[i].at)
  }

  /** Clock readings never step back. */
  ghost predicate ClockRuns(events: seq<Event>) {
    forall i, j :: 0 <= i < j < |events| ==> events[i].at <= events[j].at
  }

  ghost predicate IsMark(events: seq<Event>, k: Key, m: nat) { m < |events| && events[m].Sent? && events[m].key == k }

  /** When the publish at `m` stops suppressing. */
  ghost function Expiry(events: seq<Event>, m: int): real {
    if 0 <= m < |events| then events[m].at + TTL_SECONDS else 0.0
  }

  ghost function Unexpired(events: seq<Event>, now: real): (p: int -> bool) { m => Expiry(events, m) > now }

  /** Any way at all to pair inbounds of `k` with earlier, unexpired, distinct publishes of `k`. */
  ghost predicate Matching(events: seq<Event>, k: Key, f: map<nat, nat>) {
    && (forall i :: i in f ==> i < |events| && events[i].Inbound? && events[i].key == k && f[i] < i
                               && IsMark(events, k, f[i]) && Expiry(events, f[i]) > events[i].at)
    && (forall i, j :: i in f && j in f && f[i] == f[j] ==> i == j)
  }

  /** Which publishes of `k` are still pending: the queue behind the list of expiries. */
  ghost function Queue(events: seq<Event>, k: Key, n: nat): (q: seq<int>)
    requires n <= |events|
    ensures forall m :: m in q ==> 0 <= m < n && IsMark(events, k, m)
  {
    if n == 0 then [] else
      var e := events[n - 1];
      var q := Filter(Unexpired(events, e.at), Queue(events, k, n - 1));
      After(q, e.key == k, e.Sent?, n - 1)
  }

  /** A list of its key after one event, expired entries dropped: a publish appends, an inbound takes the head. */
  ghost function After<T>(live: seq<T>, same: bool, sent: bool, x: T): (r: seq<T>) {
    if !same then live
    else if sent then live + [x]
    else if live == [] then live
    else live[1..]
  }

  ghost function Expiries(events: seq<Event>, q: seq<int>): (r: seq<real>) {
    if q == [] then [] else [Expiry(events, q[0])] + Expiries(events, q[1..])
  }

  lemma {:induction false} ExpiriesAt(events: seq<Event>, q: seq<int>)
    ensures |Expiries(events, q)| == |q|
    ensures forall i :: 0 <= i < |q| ==> Expiries(events, q)[i] == Expiry(events, q[i])
  {
    if q != [] {
      ExpiriesAt(events, q[1..]);
    }
  }

  lemma {:induction false} ExpiriesSnoc(events: seq<Event>, q: seq<int>, m: int)
    ensures Expiries(events, q + [m]) == Expiries(events, q) + [Expiry(events, m)]
  {
    if q != [] {
      ExpiriesSnoc(events, q[1..], m);
      assert (q + [m])[1..] == q[1..] + [m];
    }
  }

  lemma {:induction false} LiveExpiries(events: seq<Event>, q: seq<int>, now: real)
    ensures Live(Expiries(events, q), now) == Expiries(events, Filter(Unexpired(events, now), q))
  {
    if q != [] {
      LiveExpiries(events, q[1..], now);
      var rest := Filter(Unexpired(events, now), q[1..]);
      var x := Expiries(events, q);
      assert x[0] == Expiry(events, q[0]) && x[1..] == Expiries(events, q[1..]);
      if Expiry(events, q[0]) > now {
        assert Filter(Unexpired(events, now), q) == [q[0]] + rest;
        assert ([q[0]] + rest)[1..] == rest;
      } else {
        assert Filter(Unexpired(events, now), q) == rest;
        assert Live(x, now) == Live(x[1..], now);
      }
    }
  }

  lemma EvictedPending(seen: Seen, k: Key, now: real)
    ensures Pending(Evicted(seen, now), k) == Live(Pending(seen, k), now)
  {
  }

  /** What one event does to the list of `k`: other keys' events only evict it. */
  lemma StepPending(seen: Seen, e: Event, k: Key)
    ensures Pending(Step(seen, e), k) == After(Live(Pending(seen, k), e.at), e.key == k, e.Sent?, e.at + TTL_SECONDS)
  {
    hide Live;
    EvictedPending(seen, k, e.at);
  }

  lemma ExpiriesAfter(events: seq<Event>, q: seq<int>, same: bool, sent: bool, m: int)
    ensures Expiries(events, After(q, same, sent, m)) == After(Expiries(events, q), same, sent, Expiry(events, m))
  {
    ExpiriesSnoc(events, q, m);
  }

  lemma StartsEmpty(events: seq<Event>, k: Key)
    ensures Pending(State(events, 0), k) == Expiries(events, Queue(events, k, 0))
    ensures Queue(events, k, 0) == [] && Hits(events, k, 0) == {}
  {
  }

  lemma OneStep(events: seq<Event>, k: Key, n: nat)
    requires 0 < n <= |events|
    ensures var e := events[n - 1];
            && State(events, n) == Step(State(events, n - 1), e)
            && Queue(events, k, n) == After(Filter(Unexpired(events, e.at), Queue(events, k, n - 1)), e.key == k, e.Sent?, n - 1)
  {
  }

  /** The dictionary's list for `k` is the queue's expiries. */
  lemma {:induction false} PendingIsQueue(events: seq<Event>, k: Key, n: nat)
    requires n <= |events|
    ensures Pending(State(events, n), k) == Expiries(events, Queue(events, k, n))
  {
    hide Pending, State, Queue, Step, Live, Expiries, Filter, After, Unexpired;
    if n == 0 {
      StartsEmpty(events, k);
    } else {
      PendingIsQueue(events, k, n - 1);
      var e := events[n - 1];
      OneStep(events, k, n);
      StepPending(State(events, n - 1), e, k);
      LiveExpiries(events, Queue(events, k, n - 1), e.at);
      ExpiriesAfter(events, Filter(Unexpired(events, e.at), Queue(events, k, n - 1)), e.key == k, e.Sent?, n - 1);
    }
  }

  ghost predicate Climbs(q: seq<int>) { forall i, j :: 0 <= i < j < |q| ==> q[i] < q[j] }

  lemma {:induction false} FilterClimbs(p: int -> bool, q: seq<int>)
    requires Climbs(q)
    ensures Climbs(Filter(p, q))
  {
    if q != [] {
      FilterClimbs(p, q[1..]);
      var r := Filter(p, q[1..]);
      forall i | 0 <= i < |r| ensures q[0] < r[i] {
        assert r[i] in r && r[i] in q[1..];
      }
    }
  }

  lemma {:induction false} QueueClimbs(events: seq<Event>, k: Key, n: nat)
    requires n <= |events|
    ensures Climbs(Queue(events, k, n))
  {
    if n > 0 {
      QueueClimbs(events, k, n - 1);
      FilterClimbs(Unexpired(events, events[n - 1].at), Queue(events, k, n - 1));
      var q := Filter(Unexpired(events, events[n - 1].at), Queue(events, k, n - 1));
      assert forall i :: 0 <= i < |q| ==> q[i] in q;
    }
  }

  /** Each key's pending list stays sorted, oldest publish first. */
  lemma PendingSorted(events: seq<Event>, k: Key, n: nat)
    requires n <= |events| && ClockRuns(events)
    ensures var p := Pending(State(events, n), k);
            forall i, j :: 0 <= i < j < |p| ==> p[i] <= p[j]
  {
    PendingIsQueue(events, k, n);
    QueueClimbs(events, k, n);
    var q := Queue(events, k, n);
    ExpiriesAt(events, q);
    hide Queue, State, Expiries;
    forall i, j | 0 <= i < j < |q| ensures Expiry(events, q[i]) <= Expiry(events, q[j]) {
      assert q[i] in q && q[j] in q;
    }
  }

  /** An inbound is suppressed exactly when a publish of its key is still pending. */
  lemma HitIffQueued(events: seq<Event>, k: Key, i: nat)
    requires i < |events|
    ensures Suppresses(State(events, i), k, events[i].at)
            <==> Filter(Unexpired(events, events[i].at), Queue(events, k, i)) != []
  {
    hide State, Queue, Live;
    PendingIsQueue(events, k, i);
    EvictedPending(State(events, i), k, events[i].at);
    LiveExpiries(events, Queue(events, k, i), events[i].at);
  }

  // ---- FIFO is itself a matching ...

  /** `f` uses publishes among the first `n` events only, and none that is still pending. */
  ghost predicate Apart(f: map<nat, nat>, pending: seq<int>, n: nat) { forall i :: i in f ==> f[i] !in pending && f[i] < n }

  lemma StaysApart(f: map<nat, nat>, before: seq<int>, after: seq<int>, n: nat)
    requires n > 0 && Apart(f, before, n - 1) && forall m :: m in after ==> m in before || m == n - 1
    ensures Apart(f, after, n)
  {
  }

  lemma OneMoreApart(f: map<nat, nat>, pending: seq<int>, n: nat, i: nat, m: nat)
    requires Apart(f, pending, n) && m < n && m !in pending
    ensures Apart(f[i := m], pending, n)
  {
  }

  /** `f` pairs the inbounds suppressed so far, leaving the pending publishes free. */
  ghost predicate Paired(events: seq<Event>, k: Key, f: map<nat, nat>, n: nat)
    requires n <= |events|
  {
    Matching(events, k, f) && f.Keys == Hits(events, k, n) && Apart(f, Queue(events, k, n), n)
  }

  /** FIFO pairs each suppressed inbound with a distinct pending publish. */
  lemma {:induction false} FifoIsMatching(events: seq<Event>, k: Key, n: nat) returns (f: map<nat, nat>)
    requires n <= |events|
    ensures Paired(events, k, f, n)
  {
    hide Paired;
    if n == 0 {
      f := map[];
      NothingMatched(events, k);
    } else {
      f := FifoIsMatching(events, k, n - 1);
      f := PairNext(events, k, f, n);
    }
  }

  lemma PairNext(events: seq<Event>, k: Key, f: map<nat, nat>, n: nat) returns (g: map<nat, nat>)
    requires 0 < n <= |events| && Paired(events, k, f, n - 1)
    ensures Paired(events, k, g, n)
  {
    hide State, Suppresses, Matching, Hits, Queue, Apart, Filter, Unexpired, Expiry, IsMark;
    var e := events[n - 1];
    var q := Filter(Unexpired(events, e.at), Queue(events, k, n - 1));
    HitsGrow(events, k, n);
    HeadLeaves(events, k, n);
    StaysApart(f, Queue(events, k, n - 1), Queue(events, k, n), n);
    if e.Inbound? && e.key == k && q != [] {
      HeadIsFree(events, k, n - 1, q, e.at, f);
      MatchOneMore(events, k, f, n - 1, q[0]);
      OneMoreApart(f, Queue(events, k, n), n, n - 1, q[0]);
      g := f[n - 1 := q[0]];
    } else {
      g := f;
    }
  }

  lemma HeadIsFree(events: seq<Event>, k: Key, n: nat, q: seq<int>, now: real, f: map<nat, nat>)
    requires n <= |events| && Apart(f, Queue(events, k, n), n)
    requires q == Filter(Unexpired(events, now), Queue(events, k, n)) && q != []
    ensures 0 <= q[0] < n && IsMark(events, k, q[0]) && Expiry(events, q[0]) > now
    ensures forall j :: j in f ==> f[j] != q[0]
  {
    hide Queue, Filter;
    assert q[0] in q;
    assert Unexpired(events, now)(q[0]);
  }

  lemma NothingMatched(events: seq<Event>, k: Key)
    ensures Paired(events, k, map[], 0)
  {
    hide State, Suppresses;
    assert Hits(events, k, 0) == {};
  }

  lemma MatchOneMore(events: seq<Event>, k: Key, f: map<nat, nat>, i: nat, m: nat)
    requires Matching(events, k, f) && i < |events| && events[i].Inbound? && events[i].key == k
    requires m < i && IsMark(events, k, m) && Expiry(events, m) > events[i].at
    requires forall j :: j in f ==> f[j] != m
    ensures Matching(events, k, f[i := m])
  {
  }

  lemma HitsGrow(events: seq<Event>, k: Key, n: nat)
    requires 0 < n <= |events|
    ensures var e := events[n - 1];
            Hits(events, k, n)
            == Hits(events, k, n - 1)
               + (if e.Inbound? && e.key == k && Filter(Unexpired(events, e.at), Queue(events, k, n - 1)) != [] then {n - 1} else {})
  {
    hide State, Suppresses, Queue;
    HitIffQueued(events, k, n - 1);
  }

  /** One event keeps pending publishes pending or drops them; a consumed head is gone. */
  lemma HeadLeaves(events: seq<Event>, k: Key, n: nat)
    requires 0 < n <= |events|
    ensures var e := events[n - 1];
            var q := Filter(Unexpired(events, e.at), Queue(events, k, n - 1));
            && (forall m :: m in Queue(events, k, n) ==> m in Queue(events, k, n - 1) || (m == n - 1 && e.Sent?))
            && (e.Inbound? && e.key == k && q != [] ==> q[0] !in Queue(events, k, n))
  {
    var e := events[n - 1];
    QueueClimbs(events, k, n - 1);
    FilterClimbs(Unexpired(events, e.at), Queue(events, k, n - 1));
  }

  // ---- ... and no matching is larger

  ghost function QueuedAbove(events: seq<Event>, q: seq<int>, x: real): (r: set<int>) {
    set m | m in q && Expiry(events, m) > x
  }

  /** Publishes of `k` among the first `n` events that `f` has not used by then and that outlive `x`. */
  ghost function UnusedAbove(events: seq<Event>, k: Key, f: map<nat, nat>, n: nat, x: real): (r: set<int>)
    requires n <= |events|
  {
    set m: int | 0 <= m < n && IsMark(events, k, m) && Expiry(events, m) > x && (forall i :: i in f && i < n ==> f[i] != m)
  }

  ghost function UsedBy(f: map<nat, nat>, n: nat): (r: set<nat>) { set i | i in f && i < n }

  /** THE EXCHANGE INVARIANT. At any threshold from now on: what FIFO has suppressed plus what it still holds beyond
      the threshold is at least what the rival has suppressed plus what it still holds there. */
  ghost predicate Ahead(events: seq<Event>, k: Key, f: map<nat, nat>, n: nat, x: real)
    requires n <= |events|
  {
    |Hits(events, k, n)| + |QueuedAbove(events, Queue(events, k, n), x)|
    >= |UsedBy(f, n)| + |UnusedAbove(events, k, f, n, x)|
  }

  /** At a threshold from now on, dropping the expired changes no count. */
  lemma LiveAbove(events: seq<Event>, q: seq<int>, t: real, x: real)
    requires t <= x
    ensures QueuedAbove(events, Filter(Unexpired(events, t), q), x) == QueuedAbove(events, q, x)
  {
  }

  lemma OtherKeyStaysAhead(events: seq<Event>, k: Key, f: map<nat, nat>, n: nat, x: real)
    requires 0 < n <= |events| && Matching(events, k, f) && events[n - 1].key != k && x >= events[n - 1].at
    requires Ahead(events, k, f, n - 1, x)
    ensures Ahead(events, k, f, n, x)
  {
    hide Hits, Filter, Queue, State;
    HitsGrow(events, k, n);
    OneStep(events, k, n);
    LiveAbove(events, Queue(events, k, n - 1), events[n - 1].at, x);
    assert UsedBy(f, n) == UsedBy(f, n - 1);
    assert UnusedAbove(events, k, f, n, x) == UnusedAbove(events, k, f, n - 1, x);
  }

  lemma UsedGrows(f: map<nat, nat>, n: nat)
    ensures UsedBy(f, n + 1) == UsedBy(f, n) + (if n in f then {n} else {})
    ensures n !in UsedBy(f, n)
  {
  }

  lemma UnusedAtPublish(events: seq<Event>, k: Key, f: map<nat, nat>, n: nat, x: real)
    requires 0 < n <= |events| && Matching(events, k, f) && IsMark(events, k, n - 1)
    ensures UnusedAbove(events, k, f, n, x)
            == UnusedAbove(events, k, f, n - 1, x) + (if Expiry(events, n - 1) > x then {n - 1} else {})
    ensures n - 1 !in f
  {
    hide Expiry;
    forall i | i in f && i < n ensures i < n - 1 && f[i] != n - 1 {
    }
  }

  lemma UnusedAtInbound(events: seq<Event>, k: Key, f: map<nat, nat>, n: nat, x: real)
    requires 0 < n <= |events| && Matching(events, k, f) && !IsMark(events, k, n - 1)
    ensures UnusedAbove(events, k, f, n, x)
            == UnusedAbove(events, k, f, n - 1, x) - (if n - 1 in f then {f[n - 1]} else {})
  {
    hide Expiry, Matching;
    var u, v := UnusedAbove(events, k, f, n - 1, x), UnusedAbove(events, k, f, n, x);
    forall m ensures m in v <==> m in u && !(n - 1 in f && f[n - 1] == m) {
      if m in u && !(n - 1 in f && f[n - 1] == m) {
        assert forall i :: i in f && i < n ==> f[i] != m;
      }
    }
  }

  lemma PublishStaysAhead(events: seq<Event>, k: Key, f: map<nat, nat>, n: nat, x: real)
    requires 0 < n <= |events| && Matching(events, k, f) && IsMark(events, k, n - 1) && x >= events[n - 1].at
    requires Ahead(events, k, f, n - 1, x)
    ensures Ahead(events, k, f, n, x)
  {
    hide Hits, Filter, Queue, State, UsedBy, UnusedAbove, Matching;
    var t := events[n - 1].at;
    var q := Filter(Unexpired(events, t), Queue(events, k, n - 1));
    HitsGrow(events, k, n);
    OneStep(events, k, n);
    LiveAbove(events, Queue(events, k, n - 1), t, x);
    UnusedAtPublish(events, k, f, n, x);
    UsedGrows(f, n - 1);
    QueuedSnoc(events, q, n - 1, x);
    assert n - 1 !in QueuedAbove(events, Queue(events, k, n - 1), x);
    hide QueuedAbove;
  }

  lemma QueuedSnoc(events: seq<Event>, q: seq<int>, m: int, x: real)
    ensures QueuedAbove(events, q + [m], x) == QueuedAbove(events, q, x) + (if Expiry(events, m) > x then {m} else {})
  {
  }

  /** FIFO drops the entry that expires first, so beyond any threshold it loses at most what it gains. */
  lemma FifoSide(events: seq<Event>, k: Key, n: nat, x: real)
    requires 0 < n <= |events| && events[n - 1].Inbound? && events[n - 1].key == k && x >= events[n - 1].at && ClockRuns(events)
    ensures var t := events[n - 1].at;
            var q, q' := Queue(events, k, n - 1), Queue(events, k, n);
            var before := |Hits(events, k, n - 1)| + |QueuedAbove(events, q, x)|;
            var after := |Hits(events, k, n)| + |QueuedAbove(events, q', x)|;
            after >= before && (after == before ==> QueuedAbove(events, q, x) == QueuedAbove(events, q, t))
  {
    hide Hits, Filter, Queue, State, QueuedAbove, ClockRuns, Climbs;
    var t := events[n - 1].at;
    var q := Filter(Unexpired(events, t), Queue(events, k, n - 1));
    HitsGrow(events, k, n);
    OneStep(events, k, n);
    LiveAbove(events, Queue(events, k, n - 1), t, x);
    LiveAbove(events, Queue(events, k, n - 1), t, t);
    QueueClimbs(events, k, n - 1);
    FilterClimbs(Unexpired(events, t), Queue(events, k, n - 1));
    assert n - 1 !in Hits(events, k, n - 1) by { NotYet(events, k, n - 1); }
    if q == [] {
      EmptyAbove(events, x);
      EmptyAbove(events, t);
    } else {
      HeadGone(events, q, x);
      HeadIsFirst(events, k, q, t, x);
    }
  }

  lemma NotYet(events: seq<Event>, k: Key, n: nat)
    requires n <= |events|
    ensures n !in Hits(events, k, n)
  {
    hide State, Suppresses;
  }

  lemma EmptyAbove(events: seq<Event>, x: real)
    ensures QueuedAbove(events, [], x) == {}
  {
  }

  lemma HeadGone(events: seq<Event>, q: seq<int>, x: real)
    requires Climbs(q) && q != []
    ensures QueuedAbove(events, q[1..], x) == QueuedAbove(events, q, x) - {q[0]}
  {
    assert q == [q[0]] + q[1..];
  }

  lemma HeadIsFirst(events: seq<Event>, k: Key, q: seq<int>, t: real, x: real)
    requires ClockRuns(events) && Climbs(q) && q != [] && t <= x
    requires forall m :: m in q ==> m >= 0 && IsMark(events, k, m) && Expiry(events, m) > t
    ensures q[0] in QueuedAbove(events, q, x) ==> QueuedAbove(events, q, x) == QueuedAbove(events, q, t)
  {
    forall m | m in q ensures Expiry(events, q[0]) <= Expiry(events, m) {
      assert q[0] in q;
      var i :| 0 <= i < |q| && q[i] == m;
      if i > 0 {
        assert q[0] < q[i];
      }
    }
  }

  /** A rival that uses a publish gains one and gives up one; at worst the one it gives up lay below the threshold. */
  lemma RivalSide(events: seq<Event>, k: Key, f: map<nat, nat>, n: nat, x: real)
    requires 0 < n <= |events| && Matching(events, k, f) && events[n - 1].Inbound? && events[n - 1].key == k
    requires x >= events[n - 1].at
    ensures var t := events[n - 1].at;
            var before := |UsedBy(f, n - 1)| + |UnusedAbove(events, k, f, n - 1, x)|;
            var after := |UsedBy(f, n)| + |UnusedAbove(events, k, f, n, x)|;
            after <= before + 1
            && (after == before + 1 ==> |UnusedAbove(events, k, f, n - 1, t)| > |UnusedAbove(events, k, f, n - 1, x)|)
  {
    hide UsedBy, UnusedAbove, Matching;
    var u := UnusedAbove(events, k, f, n - 1, x);
    UsedGrows(f, n - 1);
    UnusedAtInbound(events, k, f, n, x);
    if n - 1 in f {
      RivalPicksLive(events, k, f, n, x);
      if f[n - 1] !in u {
        Smaller(u, UnusedAbove(events, k, f, n - 1, events[n - 1].at) - {f[n - 1]});
      }
    }
  }

  lemma RivalPicksLive(events: seq<Event>, k: Key, f: map<nat, nat>, n: nat, x: real)
    requires 0 < n <= |events| && Matching(events, k, f) && n - 1 in f && x >= events[n - 1].at
    ensures f[n - 1] in UnusedAbove(events, k, f, n - 1, events[n - 1].at)
    ensures UnusedAbove(events, k, f, n - 1, x) <= UnusedAbove(events, k, f, n - 1, events[n - 1].at)
  {
  }

  lemma {:induction false} Smaller<T>(a: set<T>, b: set<T>)
    requires a <= b
    ensures |a| <= |b|
  {
    assert b == a + (b - a);
  }

  lemma {:induction false} StaysAhead(events: seq<Event>, k: Key, f: map<nat, nat>, n: nat, x: real)
    requires n <= |events| && ClockRuns(events) && Matching(events, k, f)
    requires n > 0 ==> x >= events[n - 1].at
    ensures Ahead(events, k, f, n, x)
  {
    if n == 0 {
      assert Hits(events, k, 0) == {} && UsedBy(f, 0) == {} && UnusedAbove(events, k, f, 0, x) == {};
    } else {
      hide Hits, Queue, QueuedAbove, UnusedAbove, UsedBy, Matching;
      var t := events[n - 1].at;
      StaysAhead(events, k, f, n - 1, x);
      StaysAhead(events, k, f, n - 1, t);
      if events[n - 1].key != k {
        OtherKeyStaysAhead(events, k, f, n, x);
      } else if events[n - 1].Sent? {
        PublishStaysAhead(events, k, f, n, x);
      } else {
        FifoSide(events, k, n, x);
        RivalSide(events, k, f, n, x);
      }
    }
  }

  /** No publish outlives the last event by more than the time to live. */
  lemma NothingOutlives(events: seq<Event>, q: seq<int>, x: real)
    requires ClockRuns(events) && (forall m :: m in q ==> 0 <= m < |events|)
    requires |events| > 0 ==> x == events[|events| - 1].at + TTL_SECONDS
    ensures QueuedAbove(events, q, x) == {}
  {
    forall m | m in q ensures Expiry(events, m) <= x {
      assert m == |events| - 1 || events[m].at <= events[|events| - 1].at;
    }
  }

  lemma AllUsed(events: seq<Event>, k: Key, f: map<nat, nat>)
    requires Matching(events, k, f)
    ensures UsedBy(f, |events|) == f.Keys
  {
  }

  /** OPTIMAL: under a clock that never steps back, FIFO suppresses at least as many inbounds of each key as any
      matching could, and suppresses no more of them than were published. */
  lemma FifoIsOptimal(events: seq<Event>, k: Key, f: map<nat, nat>)
    requires ClockRuns(events) && Matching(events, k, f)
    ensures |f| <= |Hits(events, k, |events|)|
  {
    hide Hits, Queue, UnusedAbove, UsedBy, QueuedAbove, Matching, ClockRuns, IsMark;
    var n := |events|;
    var x := if n == 0 then 0.0 else events[n - 1].at + TTL_SECONDS;
    StaysAhead(events, k, f, n, x);
    AllUsed(events, k, f);
    NothingOutlives(events, Queue(events, k, n), x);
    assert |f| == |f.Keys|;
  }

  lemma HitsBoundedByMarks(events: seq<Event>, k: Key)
    ensures |Hits(events, k, |events|)| <= |set m: nat | m < |events| && IsMark(events, k, m)|
  {
    var f := FifoIsMatching(events, k, |events|);
    hide Hits, Queue;
    assert f.Keys == Hits(events, k, |events|);
    InjectiveImage(f, set m: nat | m < |events| && IsMark(events, k, m));
  }

  lemma {:induction false} InjectiveImage(f: map<nat, nat>, target: set<nat>)
    requires forall i :: i in f ==> f[i] in target
    requires forall i, j :: i in f && j in f && f[i] == f[j] ==> i == j
    ensures |f.Keys| <= |target|
    decreases |f|
  {
    if f.Keys != {} {
      var i :| i in f.Keys;
      var g := f - {i};
      assert g.Keys == f.Keys - {i};
      InjectiveImage(g, target - {f[i]});
    }
  }

  /** A lone publish suppresses an inbound of its key for thirty seconds and no longer. */
  lemma EchoWindow(k: Key, sent: real, now: real)
    ensures Suppresses(Marked(map[], k, sent), k, now) <==> now < sent + 30.0
  {
    var seen := Marked(map[], k, sent);
    assert Evicted(map[], sent) == map[];
    assert Pending(map[], k) + [sent + TTL_SECONDS] == [sent + 30.0];
    assert seen == map[k := [sent + 30.0]];
    EvictedPending(seen, k, now);
    assert Filter((exp: real) => exp > now, [sent + 30.0][1..]) == [];
  }
}
