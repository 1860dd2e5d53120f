/** Channel membership under interleaving (`memberships_service.py`, `accounts_service.py`): a removal reads the role
    in one statement and deletes in a later one, and an account deletion lists the admin channels before its write
    transaction begins. */
module Memberships {
  import opened Store
  import opened Services

  type Rows = map<(ChannelId, UserId), Role>

  predicate IsAdmin(rows: Rows, c: ChannelId, u: UserId) { (c, u) in rows && rows[(c, u)].Admin? }

  lemma AdminsAre(rows: Rows, c: ChannelId)
    ensures forall u :: u in Admins(rows, c) <==> IsAdmin(rows, c, u)
  {
    forall u ensures u in Admins(rows, c) <==> IsAdmin(rows, c, u) {
      assert IsAdmin(rows, c, u) ==> (c, u).1 in Admins(rows, c);
    }
  }

  lemma SoleIffNotMore(us: set<UserId>, u: UserId)
    requires u in us
    ensures |us| <= 1 <==> us == {u}
  {
    assert us == {u} + (us - {u});
    assert |us - {u}| == 0 ==> us == {u};
  }

  /** `_delete_membership_unless_last_admin`, one write transaction: whether the row is gone, and the rows left. The
      role is the one the caller read earlier. */
  function Removed(rows: Rows, c: ChannelId, u: UserId, readAdmin: bool): (r: (bool, Rows)) {
    if (c, u) in rows && (readAdmin ==> |Admins(rows, c)| > 1) then (true, rows - {(c, u)})
    else ((c, u) !in rows, rows)
  }

  /** REMOVALS, EXACTLY. The one row goes if and only if it is there and, when its role was read as admin, some other user
      administers the channel now; no other row is touched; and the answer is whether the row is gone. */
  lemma RemovalExact(rows: Rows, c: ChannelId, u: UserId, readAdmin: bool)
    requires readAdmin ==> IsAdmin(rows, c, u) || (c, u) !in rows
    ensures var (gone, rows') := Removed(rows, c, u, readAdmin);
            && rows' == (if !readAdmin || (exists v :: v != u && IsAdmin(rows, c, v)) then rows - {(c, u)} else rows)
            && (gone <==> (c, u) !in rows')
  {
    AdminsAre(rows, c);
    if IsAdmin(rows, c, u) {
      SoleIffNotMore(Admins(rows, c), u);
      hide Admins;
      if v :| v != u && IsAdmin(rows, c, v) {
        assert v in Admins(rows, c);
      }
      assert Admins(rows, c) != {u} ==> exists v :: v in Admins(rows, c) && v != u;
    }
  }

  predicate Blocked(rows: Rows, u: UserId, c: ChannelId) { IsAdmin(rows, c, u) && |Admins(rows, c)| <= 1 }

  /** The listed channels `u` cannot be taken out of, in list order. */
  function BlockedIn(rows: Rows, u: UserId, listed: seq<ChannelId>): (r: seq<ChannelId>)
    ensures forall c :: c in r <==> c in listed && Blocked(rows, u, c)
  {
    if listed == [] then [] else
      var k := |listed| - 1;
      assert listed == listed[..k] + [listed[k]];
      BlockedIn(rows, u, listed[..k]) + if Blocked(rows, u, listed[k]) then [listed[k]] else []
  }

  predicate NoRepeats(cs: seq<ChannelId>) { forall i, j :: 0 <= i < j < |cs| ==> cs[i] != cs[j] }

  function Refused(rows: Rows, u: UserId, listed: set<ChannelId>): (cs: set<ChannelId>) {
    set c | c in listed && Blocked(rows, u, c)
  }

  /** The membership part of `delete_user_account`, one write transaction over the channels listed earlier. */
  function AccountRemoved(rows: Rows, u: UserId, listed: set<ChannelId>): (r: (Result<(), set<ChannelId>>, Rows)) {
    if Refused(rows, u, listed) != {} then (Err(Refused(rows, u, listed)), rows)
    else (Ok(()), RowsWithoutUser(rows, u))
  }

  function AdminChannels(rows: Rows, u: UserId): (cs: set<ChannelId>) {
    set k | k in rows && k.1 == u && rows[k].Admin? :: k.0
  }

  lemma AdminChannelsAre(rows: Rows, u: UserId)
    ensures forall c :: c in AdminChannels(rows, u) <==> IsAdmin(rows, c, u)
  {
    forall c ensures c in AdminChannels(rows, u) <==> IsAdmin(rows, c, u) {
      assert IsAdmin(rows, c, u) ==> (c, u).0 in AdminChannels(rows, u);
    }
  }

  /** With the list read in the same breath, the refusal names exactly the channels only `u` administers. */
  lemma FreshListIsExact(rows: Rows, u: UserId)
    ensures Refused(rows, u, AdminChannels(rows, u)) == SoleAdminChannels(rows, u)
  {
    AdminChannelsAre(rows, u);
    var r, s := Refused(rows, u, AdminChannels(rows, u)), SoleAdminChannels(rows, u);
    forall c ensures c in r <==> c in s {
      AdminsAre(rows, c);
      if IsAdmin(rows, c, u) {
        SoleIffNotMore(Admins(rows, c), u);
        assert c in s <==> Admins(rows, c) == {u} by {
          assert (c, u).0 == c;
        }
      }
    }
  }

  /** ACCOUNT DELETIONS, EXACTLY. Over any list, the deletion is refused if and only if the user is now the only admin of
      some listed channel; it then names exactly those and changes nothing. Otherwise exactly the user's rows go. */
  lemma AccountRemovalExact(rows: Rows, u: UserId, listed: set<ChannelId>)
    ensures var (r, rows') := AccountRemoved(rows, u, listed);
            && (r.Err? <==> exists c :: c in listed && OnlyAdmin(rows, c, u))
            && (r.Err? ==> rows' == rows && forall c :: c in r.error <==> c in listed && OnlyAdmin(rows, c, u))
            && (r.Ok? ==> (forall k :: k in rows' <==> k in rows && k.1 != u) && forall k :: k in rows' ==> rows'[k] == rows[k])
  {
    forall c ensures Blocked(rows, u, c) <==> OnlyAdmin(rows, c, u) {
      AdminsAre(rows, c);
      hide Admins;
      if IsAdmin(rows, c, u) {
        SoleIffNotMore(Admins(rows, c), u);
        if Admins(rows, c) != {u} {
          var v :| v in Admins(rows, c) && v != u;
          assert IsAdmin(rows, c, v);
        } else {
          assert forall v :: IsAdmin(rows, c, v) ==> v in Admins(rows, c);
        }
      }
    }
    hide Blocked, OnlyAdmin;
    if Refused(rows, u, listed) != {} {
      var c :| c in Refused(rows, u, listed);
      assert c in listed && OnlyAdmin(rows, c, u);
    }
    if c :| c in listed && OnlyAdmin(rows, c, u) {
      assert c in Refused(rows, u, listed);
    }
  }

  ghost predicate OnlyAdmin(rows: Rows, c: ChannelId, u: UserId) {
    IsAdmin(rows, c, u) && forall v :: IsAdmin(rows, c, v) ==> v == u
  }

  /** The membership table with the statements the services run on it. */
  class Roster {
    var rows: Rows

    constructor (rows: Rows)
      ensures this.rows == rows
    {
      this.rows := rows;
    }

    /** The conditional DELETE, and the second look that tells a blocked row from one already gone. */
    method DeleteUnlessLastAdmin(c: ChannelId, u: UserId, isAdmin: bool) returns (gone: bool)
      modifies this
      ensures (gone, rows) == Removed(old(rows), c, u, isAdmin)
    {
      if (c, u) in rows && (!isAdmin || |Admins(rows, c)| > 1) {
        rows := rows - {(c, u)};
        return true;
      }
      return (c, u) !in rows;
    }

    /** `_remove_admin_memberships_or_refuse` over the listed channels: drops what it can and collects the rest. */
    method RemoveAdminMemberships(u: UserId, listed: seq<ChannelId>) returns (refused: seq<ChannelId>)
      requires NoRepeats(listed)
      modifies this
      ensures refused == BlockedIn(old(rows), u, listed)
      ensures rows == old(rows) - Dropped(old(rows), u, listed)
    {
      hide *;
      ghost var before := rows;
      var i := 0;
      refused := [];
      NothingYet(before, u, listed);
      while i < |listed|
        invariant i <= |listed|
        invariant refused == BlockedIn(before, u, listed[..i])
        invariant rows == before - Dropped(before, u, listed[..i])
      {
        var c := listed[i];
        OneMore(before, u, listed, i);
        if IsAdmin(rows, c, u) && |Admins(rows, c)| > 1 {
          rows := rows - {(c, u)};
        } else if IsAdmin(rows, c, u) {
          refused := refused + [c];
        }
        i := i + 1;
      }
      assert listed[..i] == listed;
    }

    /** The whole membership side of an account deletion; a refusal rolls back. */
    method DeleteAccountRows(u: UserId, listed: seq<ChannelId>) returns (r: Result<(), set<ChannelId>>)
      requires NoRepeats(listed)
      modifies this
      ensures (r, rows) == AccountRemoved(old(rows), u, set c | c in listed)
    {
      var saved := rows;
      var refused := RemoveAdminMemberships(u, listed);
      assert (set c | c in refused) == Refused(saved, u, set c | c in listed);
      if refused != [] {
        var named := set c | c in refused;
        assert refused[0] in named;
        rows := saved;
        return Err(named);
      }
      rows := map k | k in rows && k.1 != u :: rows[k];
      assert rows == RowsWithoutUser(saved, u);
      return Ok(());
    }
  }

  function Dropped(rows: Rows, u: UserId, listed: seq<ChannelId>): (ks: set<(ChannelId, UserId)>) {
    set c | c in listed && IsAdmin(rows, c, u) && !Blocked(rows, u, c) :: (c, u)
  }

  lemma NothingYet(rows: Rows, u: UserId, listed: seq<ChannelId>)
    ensures BlockedIn(rows, u, listed[..0]) == [] && rows == rows - Dropped(rows, u, listed[..0])
  {
  }

  /** What handling one more listed channel comes to, seen from the rows already thinned out. */
  lemma OneMore(rows: Rows, u: UserId, listed: seq<ChannelId>, i: nat)
    requires i < |listed| && NoRepeats(listed)
    ensures var c := listed[i];
            var now := rows - Dropped(rows, u, listed[..i]);
            var blocked := BlockedIn(rows, u, listed[..i]);
            var more := |Admins(now, c)| > 1;
            && BlockedIn(rows, u, listed[..i + 1]) == (if IsAdmin(now, c, u) && !more then blocked + [c] else blocked)
            && rows - Dropped(rows, u, listed[..i + 1]) == (if IsAdmin(now, c, u) && more then now - {(c, u)} else now)
  {
    var c, done := listed[i], listed[..i];
    assert listed[..i + 1] == done + [c] && c !in done;
    hide NoRepeats, Admins, IsAdmin, BlockedIn, Dropped;
    OtherChannelsAlone(rows, u, done, c);
    DroppedSnoc(rows, u, done, c);
    BlockedSnoc(rows, u, done, c);
    MinusOne(rows, Dropped(rows, u, done), (c, u));
  }

  lemma MinusOne(rows: Rows, gone: set<(ChannelId, UserId)>, k: (ChannelId, UserId))
    ensures rows - (gone + {k}) == rows - gone - {k} && rows - (gone + {}) == rows - gone
  {
    assert gone + {} == gone;
  }

  lemma BlockedSnoc(rows: Rows, u: UserId, done: seq<ChannelId>, c: ChannelId)
    ensures BlockedIn(rows, u, done + [c]) == BlockedIn(rows, u, done) + if Blocked(rows, u, c) then [c] else []
  {
    hide Blocked;
    assert (done + [c])[..|done|] == done;
  }

  lemma DroppedSnoc(rows: Rows, u: UserId, done: seq<ChannelId>, c: ChannelId)
    ensures Dropped(rows, u, done + [c]) ==
            Dropped(rows, u, done) + if IsAdmin(rows, c, u) && !Blocked(rows, u, c) then {(c, u)} else {}
  {
    assert forall x :: x in done + [c] <==> x in done || x == c;
  }

  /** Rows dropped in other channels change nothing for `c`. */
  lemma OtherChannelsAlone(rows: Rows, u: UserId, done: seq<ChannelId>, c: ChannelId)
    requires c !in done
    ensures var now := rows - Dropped(rows, u, done);
            Admins(now, c) == Admins(rows, c) && (IsAdmin(now, c, u) <==> IsAdmin(rows, c, u))
  {
    var now := rows - Dropped(rows, u, done);
    assert forall x :: (c, x) in now <==> (c, x) in rows;
    AdminsAre(rows, c);
    AdminsAre(now, c);
  }

  // ---- interleaved calls

  /** A call between its read and its write transaction. */
  datatype Pending =
    | Removal(c: ChannelId, u: UserId, readAdmin: bool)       // `leave` or `remove_member`
    | Deletion(u: UserId, listed: set<ChannelId>)             // `delete_user_account`

  datatype State = State(rows: Rows, pending: map<nat, Pending>, born: set<ChannelId>)

  datatype Step =
    | Create(c: ChannelId, u: UserId)                   // `create_channel`: the creator is its admin
    | Add(c: ChannelId, u: UserId, role: Role)          // `add_member`, `self_join`: an existing row stays as it is
    | Read(op: nat, c: ChannelId, u: UserId)            // the role read of a removal; NotAMember leaves nothing pending
    | List(op: nat, u: UserId)                          // the admin channels of an account deletion
    | Execute(op: nat)
    | Abandon(op: nat)

  predicate Enabled(s: State, e: Step) {
    match e
    case Create(c, _) => c !in s.born
    case Add(c, _, _) => c in s.born
    case Read(op, _, _) => op !in s.pending
    case List(op, _) => op !in s.pending
    case Execute(op) => op in s.pending
    case Abandon(op) => op in s.pending
  }

  function Executed(rows: Rows, p: Pending): (r: Rows) {
    match p
    case Removal(c, u, readAdmin) => Removed(rows, c, u, readAdmin).1
    case Deletion(u, listed) => AccountRemoved(rows, u, listed).1
  }

  function Next(s: State, e: Step): (s': State)
    requires Enabled(s, e)
  {
    match e
    case Create(c, u) => s.(rows := s.rows[(c, u) := Admin], born := s.born + {c})
    case Add(c, u, role) => if (c, u) in s.rows then s else s.(rows := s.rows[(c, u) := role])
    case Read(op, c, u) =>
      if (c, u) in s.rows then s.(pending := s.pending[op := Removal(c, u, s.rows[(c, u)].Admin?)]) else s
    case List(op, u) => s.(pending := s.pending[op := Deletion(u, AdminChannels(s.rows, u))])
    case Execute(op) => s.(rows := Executed(s.rows, s.pending[op]), pending := s.pending - {op})
    case Abandon(op) => s.(pending := s.pending - {op})
  }

  /** The pending call would take the last admin of `c` on the strength of what it read. */
  predicate TakesLast(rows: Rows, p: Pending, c: ChannelId) {
    match p
    case Removal(c', u, readAdmin) => c' == c && !readAdmin && Admins(rows, c) == {u}
    case Deletion(u, listed) => c !in listed && Admins(rows, c) == {u} && Refused(rows, u, listed) == {}
  }

  lemma RemovalOrphansIff(rows: Rows, c': ChannelId, u: UserId, readAdmin: bool, c: ChannelId)
    requires Admins(rows, c) != {}
    ensures Admins(Removed(rows, c', u, readAdmin).1, c) == {} <==> TakesLast(rows, Removal(c', u, readAdmin), c)
  {
    var rows' := Removed(rows, c', u, readAdmin).1;
    AdminsAre(rows, c);
    AdminsAre(rows', c);
    hide Admins;
    if c' == c && IsAdmin(rows, c, u) {
      SoleIffNotMore(Admins(rows, c), u);
      assert forall x :: x != u ==> (IsAdmin(rows', c, x) <==> IsAdmin(rows, c, x));
    } else {
      assert forall x :: IsAdmin(rows, c, x) ==> IsAdmin(rows', c, x);
    }
  }

  lemma DeletionOrphansIff(rows: Rows, u: UserId, listed: set<ChannelId>, c: ChannelId)
    requires Admins(rows, c) != {}
    ensures Admins(AccountRemoved(rows, u, listed).1, c) == {} <==> TakesLast(rows, Deletion(u, listed), c)
  {
    var rows' := AccountRemoved(rows, u, listed).1;
    AdminsAre(rows, c);
    AdminsAre(rows', c);
    hide Admins;
    assert Refused(rows, u, listed) == {} ==> forall x :: IsAdmin(rows', c, x) <==> IsAdmin(rows, c, x) && x != u;
    if IsAdmin(rows, c, u) {
      SoleIffNotMore(Admins(rows, c), u);
      assert Admins(rows, c) == {u} && c in listed ==> c in Refused(rows, u, listed);
    }
  }

  /** ORPHANS, EXACTLY. A step takes a channel from some admin to none if and only if it executes a removal that read
      the row before it became the sole admin's, or an account deletion whose list predates that sole admin row. */
  lemma OrphansIff(s: State, e: Step, c: ChannelId)
    requires Enabled(s, e) && Admins(s.rows, c) != {}
    ensures Admins(Next(s, e).rows, c) == {} <==> e.Execute? && TakesLast(s.rows, s.pending[e.op], c)
  {
    var s' := Next(s, e);
    match e {
      case Execute(op) =>
        match s.pending[op] {
          case Removal(c', u, readAdmin) => RemovalOrphansIff(s.rows, c', u, readAdmin, c);
          case Deletion(u, listed) => DeletionOrphansIff(s.rows, u, listed, c);
        }
      case _ =>
        AdminsAre(s.rows, c);
        AdminsAre(s'.rows, c);
        hide Admins;
        assert forall x :: IsAdmin(s.rows, c, x) ==> IsAdmin(s'.rows, c, x);
    }
  }

  /** What the pending call read still holds. */
  ghost predicate Current(rows: Rows, p: Pending) {
    match p
    case Removal(c, u, readAdmin) => readAdmin || !IsAdmin(rows, c, u)
    case Deletion(u, listed) => forall c :: IsAdmin(rows, c, u) ==> c in listed
  }

  /** The admin row `(c, u)` would belie what the pending call read. */
  predicate Belies(p: Pending, c: ChannelId, u: UserId) {
    match p
    case Removal(c', u', readAdmin) => c' == c && u' == u && !readAdmin
    case Deletion(u', listed) => u' == u && c !in listed
  }

  /** No admin row is created under a pending call that has just read it was not there. */
  predicate Calm(s: State, e: Step) {
    (e.Create? || (e.Add? && e.role.Admin? && (e.c, e.u) !in s.rows)) ==>
      forall op :: op in s.pending ==> !Belies(s.pending[op], e.c, e.u)
  }

  ghost predicate AllCurrent(s: State) { forall op :: op in s.pending ==> Current(s.rows, s.pending[op]) }

  lemma ExecutedOnlyRemoves(rows: Rows, p: Pending)
    ensures forall c, u :: IsAdmin(Executed(rows, p), c, u) ==> IsAdmin(rows, c, u)
  {
    hide Admins;
  }

  lemma StepKeepsCurrent(s: State, e: Step)
    requires Enabled(s, e) && AllCurrent(s) && Calm(s, e)
    ensures AllCurrent(Next(s, e))
  {
    hide Executed;
    var s' := Next(s, e);
    forall op | op in s'.pending ensures Current(s'.rows, s'.pending[op]) {
      match e {
        case Execute(x) =>
          ExecutedOnlyRemoves(s.rows, s.pending[x]);
        case List(x, u) =>
          AdminChannelsAre(s.rows, u);
        case Create(c, u) =>
          assert forall d, v :: IsAdmin(s'.rows, d, v) ==> IsAdmin(s.rows, d, v) || (d == c && v == u);
        case Add(c, u, role) =>
          assert forall d, v :: IsAdmin(s'.rows, d, v) ==>
                   IsAdmin(s.rows, d, v) || (d == c && v == u && role.Admin? && (c, u) !in s.rows);
        case _ =>
      }
    }
  }

  lemma CurrentTakesNoLast(rows: Rows, p: Pending, c: ChannelId)
    requires Current(rows, p)
    ensures !TakesLast(rows, p, c)
  {
    AdminsAre(rows, c);
    hide Admins;
    assert TakesLast(rows, p, c) ==> p.u in Admins(rows, c);
  }

  predicate IsRun(ss: seq<State>, es: seq<Step>) {
    && |ss| == |es| + 1 && ss[0] == State(map[], map[], {})
    && forall k :: 0 <= k < |es| ==> Enabled(ss[k], es[k]) && ss[k + 1] == Next(ss[k], es[k])
  }

  lemma {:induction false} RunStaysCurrent(ss: seq<State>, es: seq<Step>, k: nat)
    requires IsRun(ss, es) && k < |ss| && forall j :: 0 <= j < |es| ==> Calm(ss[j], es[j])
    ensures AllCurrent(ss[k])
  {
    hide Enabled, Next, Calm, Current;
    if k > 0 {
      RunStaysCurrent(ss, es, k - 1);
      assert Enabled(ss[k - 1], es[k - 1]) && ss[k] == Next(ss[k - 1], es[k - 1]);
      StepKeepsCurrent(ss[k - 1], es[k - 1]);
    }
  }

  /** LAST ADMIN. In every run in which no admin row appears under a pending call that read its absence, a channel that
      has had an admin has one for ever, whatever leaves, removals, joins and account deletions interleave. */
  lemma {:induction false} AdminsNeverRunOut(ss: seq<State>, es: seq<Step>, j: nat, k: nat, c: ChannelId)
    requires IsRun(ss, es) && j <= k < |ss| && forall i :: 0 <= i < |es| ==> Calm(ss[i], es[i])
    requires Admins(ss[j].rows, c) != {}
    ensures Admins(ss[k].rows, c) != {}
  {
    hide Enabled, Next, Calm, TakesLast, Current, Admins;
    if k > j {
      AdminsNeverRunOut(ss, es, j, k - 1, c);
      RunStaysCurrent(ss, es, k - 1);
      assert Enabled(ss[k - 1], es[k - 1]) && ss[k] == Next(ss[k - 1], es[k - 1]);
      OrphansIff(ss[k - 1], es[k - 1], c);
      OnlyPendingExecutes(ss[k - 1], es[k - 1]);
      if es[k - 1].Execute? {
        CurrentTakesNoLast(ss[k - 1].rows, ss[k - 1].pending[es[k - 1].op], c);
      }
    }
  }

  lemma OnlyPendingExecutes(s: State, e: Step)
    requires Enabled(s, e)
    ensures e.Execute? ==> e.op in s.pending
  {
  }

  /** A `LastAdmin` answer means the row is still there; when the read is current it is the channel's only admin. */
  lemma LastAdminIsPresent(rows: Rows, c: ChannelId, u: UserId, readAdmin: bool)
    requires !Removed(rows, c, u, readAdmin).0
    ensures (c, u) in rows && readAdmin && Removed(rows, c, u, readAdmin).1 == rows
    ensures IsAdmin(rows, c, u) <==> Admins(rows, c) == {u}
  {
    AdminsAre(rows, c);
    if IsAdmin(rows, c, u) {
      SoleIffNotMore(Admins(rows, c), u);
    }
  }

  /** The condition is needed for deletions: an account deletion that listed no channels, a channel created by the same
      user, and the deletion carried out leave that channel without a single member. */
  lemma StaleListOrphans()
    ensures exists ss: seq<State> ::
              IsRun(ss, [List(0, "u"), Create("c", "u"), Execute(0)]) && Admins(ss[2].rows, "c") == {"u"} && ss[3].rows == map[]
  {
    var s0 := State(map[], map[], {});
    var s1 := Next(s0, List(0, "u"));
    var s2 := Next(s1, Create("c", "u"));
    assert s1.pending[0] == Deletion("u", {});
    assert s2.rows == map[("c", "u") := Admin];
    AdminsAre(s2.rows, "c");
    assert Admins(s2.rows, "c") == {"u"};
    assert Refused(s2.rows, "u", {}) == {};
    var s3 := Next(s2, Execute(0));
    assert s3.rows == map[];
    assert IsRun([s0, s1, s2, s3], [List(0, "u"), Create("c", "u"), Execute(0)]);
  }

  const A := ("c", "a")
  const B := ("c", "b")
  const FIRST := Removal("c", "b", false)

  const STALE_STEPS := [Create("c", "a"), Add("c", "b", Member), Read(0, "c", "b"), Read(1, "c", "b"), Execute(1),
                        Add("c", "b", Admin), Read(2, "c", "a"), Execute(2), Execute(0)]

  const STALE_STATES: seq<State> := [
    State(map[], map[], {}),
    State(map[A := Admin], map[], {"c"}),
    State(map[A := Admin, B := Member], map[], {"c"}),
    State(map[A := Admin, B := Member], map[0 := FIRST], {"c"}),
    State(map[A := Admin, B := Member], map[0 := FIRST, 1 := FIRST], {"c"}),
    State(map[A := Admin], map[0 := FIRST], {"c"}),
    State(map[A := Admin, B := Admin], map[0 := FIRST], {"c"}),
    State(map[A := Admin, B := Admin], map[0 := FIRST, 2 := Removal("c", "a", true)], {"c"}),
    State(map[B := Admin], map[0 := FIRST], {"c"}),
    State(map[], map[], {"c"})]

  predicate Follows(k: nat) {
    k < 9 && Enabled(STALE_STATES[k], STALE_STEPS[k]) && STALE_STATES[k + 1] == Next(STALE_STATES[k], STALE_STEPS[k])
  }

  lemma BothAdmins()
    ensures Admins(map[A := Admin, B := Admin], "c") == {"a", "b"}
    ensures Admins(map[B := Admin], "c") == {"b"}
  {
    AdminsAre(map[A := Admin, B := Admin], "c");
    AdminsAre(map[B := Admin], "c");
  }

  lemma StaleArrives(k: nat)
    requires k < 4
    ensures Follows(k)
  {
    hide Executed;
  }

  lemma StaleReturns(k: nat)
    requires 4 <= k < 7
    ensures Follows(k)
  {
    hide Admins;
  }

  lemma StaleLeaves(k: nat)
    requires 7 <= k < 9
    ensures Follows(k)
  {
    BothAdmins();
    hide Admins;
  }

  /** And for removals: a member about to be removed is removed by someone else, comes back as admin, is left the only
      admin, and then the first removal goes through. */
  lemma StaleReadOrphans()
    ensures IsRun(STALE_STATES, STALE_STEPS)
    ensures STALE_STATES[8].pending == map[0 := FIRST] && STALE_STEPS[8] == Execute(0)
    ensures Admins(STALE_STATES[8].rows, "c") == {"b"} && STALE_STATES[9].rows == map[]
  {
    StaleIsRun();
    hide IsRun;
    BothAdmins();
    hide Admins;
  }

  lemma StaleIsRun()
    ensures IsRun(STALE_STATES, STALE_STEPS)
  {
    hide Enabled, Next;
    forall k: nat | k < 9 ensures Follows(k) {
      hide Follows;
      if k < 4 { StaleArrives(k); } else if k < 7 { StaleReturns(k); } else { StaleLeaves(k); }
    }
    forall k | 0 <= k < |STALE_STEPS|
      ensures Enabled(STALE_STATES[k], STALE_STEPS[k]) && STALE_STATES[k + 1] == Next(STALE_STATES[k], STALE_STEPS[k])
    {
      assert Follows(k);
    }
  }
}
