/** Community membership and its counter (`communities_service.py`, `accounts_service.py`): a join reads twice before
    its write transaction, and `member_count` must equal the rows whatever happens in between. */
module Communities {
  import opened Store
  import opened Services

  type Table = map<CommunityId, Community>
  type Rows = set<(CommunityId, UserId)>

  datatype Outcome = NotFound | Rejoined | Joined

  predicate Joinable(t: Table, c: CommunityId) { c in t && t[c].visibility.Public? && !t[c].takenDown }

  /** The write transaction of a join: the insert guarded by its own visibility test, then the bump. A row that is
      already there surfaces as a duplicate key only when the guard lets the insert try. */
  function Inserted(t: Table, rows: Rows, c: CommunityId, u: UserId): (r: (Outcome, Table, Rows)) {
    if !Joinable(t, c) then (NotFound, t, rows)
    else if (c, u) in rows then (Rejoined, t, rows)
    else (Joined, t[c := t[c].(memberCount := t[c].memberCount + 1)], rows + {(c, u)})
  }

  /** `join`, run without interference: members of a live community re-join; others need it public. */
  function Join(t: Table, rows: Rows, c: CommunityId, u: UserId): (r: (Outcome, Table, Rows)) {
    if (c, u) in rows then (if c in t && !t[c].takenDown then Rejoined else NotFound, t, rows)
    else Inserted(t, rows, c, u)
  }

  /** JOINS, EXACTLY. A member re-joins a community that is not taken down, whatever its visibility; anyone else joins
      exactly a public one that is not, and then the one row and the one counter move; to all others it does not exist. */
  lemma JoinExact(t: Table, rows: Rows, c: CommunityId, u: UserId)
    ensures var (outcome, t', rows') := Join(t, rows, c, u);
            && (outcome.Rejoined? <==> (c, u) in rows && c in t && !t[c].takenDown)
            && (outcome.Joined? <==> (c, u) !in rows && c in t && t[c].visibility.Public? && !t[c].takenDown)
            && rows' == (if outcome.Joined? then rows + {(c, u)} else rows)
            && t' == (if outcome.Joined? then t[c := t[c].(memberCount := t[c].memberCount + 1)] else t)
  {
  }

  function MembersOf(rows: Rows, c: CommunityId): (us: set<UserId>) { set p | p in rows && p.0 == c :: p.1 }

  function RowsWithout(rows: Rows, u: UserId): (r: Rows) { set p: (CommunityId, UserId) | p in rows && p.1 != u }

  lemma MembersAre(rows: Rows, c: CommunityId)
    ensures forall u :: u in MembersOf(rows, c) <==> (c, u) in rows
  {
    forall u ensures u in MembersOf(rows, c) <==> (c, u) in rows {
      assert (c, u) in rows ==> (c, u).1 in MembersOf(rows, c);
    }
  }

  /** Every counter counts its rows, and every row has its community. */
  predicate Counted(t: Table, rows: Rows) {
    && (forall c :: c in t ==> t[c].memberCount == |MembersOf(rows, c)|)
    && (forall p :: p in rows ==> p.0 in t)
  }

  lemma OneMoreMember(rows: Rows, c: CommunityId, u: UserId, d: CommunityId)
    ensures MembersOf(rows + {(c, u)}, d) == MembersOf(rows, d) + if d == c then {u} else {}
  {
    MembersAre(rows, d);
    MembersAre(rows + {(c, u)}, d);
    hide MembersOf;
  }

  lemma InsertKeepsCount(t: Table, rows: Rows, c: CommunityId, u: UserId)
    requires Counted(t, rows)
    ensures Counted(Inserted(t, rows, c, u).1, Inserted(t, rows, c, u).2)
  {
    var (outcome, t', rows') := Inserted(t, rows, c, u);
    if outcome.Joined? {
      forall d | d in t' ensures t'[d].memberCount == |MembersOf(rows', d)| {
        OneMoreMember(rows, c, u, d);
        MembersAre(rows, d);
        hide MembersOf;
      }
    }
  }

  /** Account deletion counts down exactly the communities it leaves. */
  lemma DeletionKeepsCount(t: Table, rows: Rows, u: UserId)
    requires Counted(t, rows)
    ensures Counted(CountedDown(t, rows, u), RowsWithout(rows, u))
  {
    var t', rows' := CountedDown(t, rows, u), RowsWithout(rows, u);
    forall c | c in t' ensures t'[c].memberCount == |MembersOf(rows', c)| {
      MembersAre(rows, c);
      MembersAre(rows', c);
      assert MembersOf(rows', c) == MembersOf(rows, c) - {u};
    }
  }

  // ---- interleaved joins

  datatype Stage = Looking | Locking | Inserting

  datatype Call = Call(c: CommunityId, u: UserId, stage: Stage)

  /** `answers` records what finished calls reported; nothing reads it. */
  datatype State = State(table: Table, rows: Rows, calls: map<nat, Call>, answers: map<nat, Outcome>)

  datatype Step =
    | Found(c: CommunityId, name: string, visibility: Visibility, owner: Option<UserId>)
    | Begin(op: nat, c: CommunityId, u: UserId)
    | Look(op: nat)                                         // the fast path
    | Lock(op: nat)                                         // the row read that refuses early
    | Insert(op: nat)
    | Abandon(op: nat)
    | SetTakenDown(c: CommunityId, takenDown: bool)
    | SetVisibility(c: CommunityId, visibility: Visibility)
    | Delete(u: UserId)                                     // account deletion

  predicate Enabled(s: State, e: Step) {
    match e
    case Found(c, _, _, _) => c !in s.table
    case Begin(op, _, _) => op !in s.calls
    case Look(op) => op in s.calls && s.calls[op].stage.Looking?
    case Lock(op) => op in s.calls && s.calls[op].stage.Locking?
    case Insert(op) => op in s.calls && s.calls[op].stage.Inserting?
    case Abandon(op) => op in s.calls
    case SetTakenDown(c, _) => c in s.table
    case SetVisibility(c, _) => c in s.table
    case Delete(_) => true
  }

  function Answered(s: State, op: nat, outcome: Outcome): (s': State) {
    s.(calls := s.calls - {op}, answers := s.answers[op := outcome])
  }

  function Next(s: State, e: Step): (s': State)
    requires Enabled(s, e)
  {
    match e
    case Found(c, name, visibility, owner) => s.(table := s.table[c := Community(name, visibility, false, 0, owner)])
    case Begin(op, c, u) => s.(calls := s.calls[op := Call(c, u, Looking)])
    case Look(op) =>
      var j := s.calls[op];
      if (j.c, j.u) in s.rows then
        Answered(s, op, if j.c in s.table && !s.table[j.c].takenDown then Rejoined else NotFound)
      else s.(calls := s.calls[op := j.(stage := Locking)])
    case Lock(op) =>
      var j := s.calls[op];
      if Joinable(s.table, j.c) then s.(calls := s.calls[op := j.(stage := Inserting)]) else Answered(s, op, NotFound)
    case Insert(op) =>
      var (outcome, table, rows) := Inserted(s.table, s.rows, s.calls[op].c, s.calls[op].u);
      Answered(s.(table := table, rows := rows), op, outcome)
    case Abandon(op) => s.(calls := s.calls - {op})
    case SetTakenDown(c, v) => s.(table := s.table[c := s.table[c].(takenDown := v)])
    case SetVisibility(c, v) => s.(table := s.table[c := s.table[c].(visibility := v)])
    case Delete(u) => s.(table := CountedDown(s.table, s.rows, u), rows := RowsWithout(s.rows, u))
  }

  lemma StepKeepsCount(s: State, e: Step)
    requires Enabled(s, e) && Counted(s.table, s.rows)
    ensures Counted(Next(s, e).table, Next(s, e).rows)
  {
    match e {
      case Insert(op) => InsertKeepsCount(s.table, s.rows, s.calls[op].c, s.calls[op].u);
      case Delete(u) => DeletionKeepsCount(s.table, s.rows, u);
      case Found(c, _, _, _) => assert MembersOf(s.rows, c) == {};
      case _ =>
    }
  }

  predicate IsRun(ss: seq<State>, es: seq<Step>) {
    && |ss| == |es| + 1 && Counted(ss[0].table, ss[0].rows) && ss[0].calls == map[] && ss[0].answers == map[]
    && forall k :: 0 <= k < |es| ==> Enabled(ss[k], es[k]) && ss[k + 1] == Next(ss[k], es[k])
  }

  /** COUNTS. Through racing joins of one user, refusals, takedowns, flips and account deletions, every `member_count`
      is the number of membership rows. */
  lemma {:induction false} CountsHold(ss: seq<State>, es: seq<Step>, k: nat)
    requires IsRun(ss, es) && k < |ss|
    ensures Counted(ss[k].table, ss[k].rows)
  {
    hide Enabled, Next, Counted;
    if k > 0 {
      CountsHold(ss, es, k - 1);
      assert Enabled(ss[k - 1], es[k - 1]) && ss[k] == Next(ss[k - 1], es[k - 1]);
      StepKeepsCount(ss[k - 1], es[k - 1]);
    }
  }

  /** FAIL CLOSED AT WRITE TIME. A membership row appears only by a join's own insert, at a moment when the community
      is public and live, whatever the earlier reads saw; it disappears only with its account. */
  lemma RowsChangeOnlySo(s: State, e: Step, c: CommunityId, u: UserId)
    requires Enabled(s, e)
    ensures (c, u) !in s.rows && (c, u) in Next(s, e).rows <==>
              && e.Insert? && s.calls[e.op].c == c && s.calls[e.op].u == u && (c, u) !in s.rows
              && c in s.table && s.table[c].visibility.Public? && !s.table[c].takenDown
    ensures (c, u) in s.rows && (c, u) !in Next(s, e).rows <==> e == Delete(u) && (c, u) in s.rows
  {
  }

  /** With no interference in between, the staged call reports what `Join` reports and leaves what it leaves. */
  lemma StagedIsJoin(t: Table, rows: Rows, c: CommunityId, u: UserId, op: nat)
    ensures var s := Next(State(t, rows, map[], map[]), Begin(op, c, u));
            var s1 := Next(s, Look(op));
            var s2 := if op in s1.calls then Next(s1, Lock(op)) else s1;
            var s3 := if op in s2.calls then Next(s2, Insert(op)) else s2;
            op in s3.answers && (s3.answers[op], s3.table, s3.rows) == Join(t, rows, c, u)
  {
  }

  /** A call reports a new membership exactly at the step that adds its row: of racing calls for one pair, one does. */
  lemma JoinedIffAdded(s: State, op: nat)
    requires Enabled(s, Insert(op))
    ensures var s', j := Next(s, Insert(op)), s.calls[op];
            s'.answers[op].Joined? <==> (j.c, j.u) !in s.rows && (j.c, j.u) in s'.rows
  {
  }

  /** The two tables with the statements `join` and account deletion run on them. */
  class Registry {
    var table: Table
    var rows: Rows

    constructor (table: Table, rows: Rows)
      ensures this.table == table && this.rows == rows
    {
      this.table, this.rows := table, rows;
    }

    method JoinCommunity(c: CommunityId, u: UserId) returns (outcome: Outcome)
      modifies this
      ensures (outcome, table, rows) == Join(old(table), old(rows), c, u)
      ensures old(Counted(table, rows)) ==> Counted(table, rows)
      ensures outcome.Joined? <==> (c, u) !in old(rows) && (c, u) in rows
    {
      if Counted(table, rows) {
        InsertKeepsCount(table, rows, c, u);
      }
      hide Counted;
      if (c, u) in rows {
        return if c in table && !table[c].takenDown then Rejoined else NotFound;
      }
      if !Joinable(table, c) { return NotFound; }
      rows := rows + {(c, u)};
      table := table[c := table[c].(memberCount := table[c].memberCount + 1)];
      return Joined;
    }

    /** The community part of account deletion: count down, drop the rows, anonymize the owner. */
    method ForgetUser(u: UserId)
      modifies this
      ensures table == CountedDown(old(table), old(rows), u) && rows == RowsWithout(old(rows), u)
      ensures old(Counted(table, rows)) ==> Counted(table, rows)
    {
      if Counted(table, rows) {
        DeletionKeepsCount(table, rows, u);
      }
      hide Counted;
      table := map c | c in table :: if (c, u) in rows then table[c].(memberCount := table[c].memberCount - 1) else table[c];
      rows := set p | p in rows && p.1 != u;
      table := map c | c in table :: if table[c].owner == Some(u) then table[c].(owner := None) else table[c];
    }
  }
}
