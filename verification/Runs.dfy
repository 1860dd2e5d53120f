/** Theorems over whole runs: the report machine and direct-message sends under a block. */
module Runs {
  import opened Store
  import opened DmKey
  import opened History
  import opened Services
  import opened Gateway

  /** A run from the empty store: `states[k + 1]` is what step `k` leaves. */
  ghost predicate IsRun(states: seq<Db>, steps: seq<Step>) {
    && |states| == |steps| + 1 && states[0] == EMPTY
    && forall k :: 0 <= k < |steps| ==> Enabled(states[k], steps[k]) && states[k + 1] == Apply(states[k], steps[k])
  }

  lemma {:induction false} RunSound(states: seq<Db>, steps: seq<Step>, k: nat)
    requires IsRun(states, steps) && k < |states|
    ensures Sound(states[k])
  {
    if k == 0 {
      assert states[0] == EMPTY;
    } else {
      RunSound(states, steps, k - 1);
      assert Enabled(states[k - 1], steps[k - 1]) && states[k] == Apply(states[k - 1], steps[k - 1]);
      StepSound(states[k - 1], steps[k - 1]);
    }
  }

  // ---- the report machine

  /** No step changes the outcome or the subject of a resolved report that it leaves in place. */
  lemma OutcomeKept(db: Db, step: Step, r: Rank)
    requires Enabled(db, step) && r in db.reports && r in Apply(db, step).reports
    ensures Settles(db.reports[r], Apply(db, step).reports[r])
  {
    hide CreateOutbound, PersistInbound, CanonicalKey, SoleAdminChannels, TakeDown, Dismiss, IsDmName, Named;
    match step {
      case Send(u, c, cmid, body, id) => SendTouches(db, u, c, cmid, body, id);
      case BusMessage(name, username, body, c, id) => BusTouches(db, name, username, body, c, id);
      case TakeDownReport(r', u, id) => VerdictSettles(db, r', u, id, r);
      case DismissReport(r', u) => DismissalSettles(db, r', u, r);
      case _ =>
    }
  }

  /** A report keeps its subject, and once resolved its outcome. */
  ghost predicate Settles(before: Report, after: Report) {
    after.message == before.message && (!before.resolution.Pending? ==> after.resolution == before.resolution)
  }

  lemma VerdictSettles(db: Db, r': Rank, u: UserId, id: Rank, r: Rank)
    requires r in db.reports
    ensures r in TakeDown(db, r', u, id).1.reports && Settles(db.reports[r], TakeDown(db, r', u, id).1.reports[r])
  {
    hide Targets;
  }

  lemma DismissalSettles(db: Db, r': Rank, u: UserId, r: Rank)
    requires r in db.reports
    ensures r in Dismiss(db, r', u).1.reports && Settles(db.reports[r], Dismiss(db, r', u).1.reports[r])
  {
  }

  lemma SendTouches(db: Db, u: UserId, c: ChannelId, cmid: string, body: string, id: Rank)
    requires c in db.channels
    ensures CreateOutbound(db, u, c, cmid, body, id).1.reports == db.reports
  {
    hide DmSendRefused;
  }

  lemma BusTouches(db: Db, name: string, username: Option<string>, body: string, c: ChannelId, id: Rank)
    ensures PersistInbound(db, name, username, body, c, id).1.reports == db.reports
  {
    hide Named, IsDmName, TheOne;
  }

  /** A report resolves at most once: while its row lives, a resolved report keeps its outcome to the end of the
      run. */
  lemma {:induction false} ResolvesOnce(states: seq<Db>, steps: seq<Step>, i: nat, j: nat, r: Rank)
    requires IsRun(states, steps) && i <= j < |states|
    requires forall k :: i <= k <= j ==> r in states[k].reports
    requires !states[i].reports[r].resolution.Pending?
    ensures states[j].reports[r].resolution == states[i].reports[r].resolution
    ensures states[j].reports[r].message == states[i].reports[r].message
  {
    hide Apply, Enabled;
    if i < j {
      ResolvesOnce(states, steps, i, j - 1, r);
      assert r in states[j - 1].reports && r in states[j].reports;
      assert Enabled(states[j - 1], steps[j - 1]) && states[j] == Apply(states[j - 1], steps[j - 1]);
      OutcomeKept(states[j - 1], steps[j - 1], r);
    }
  }

  /** In every reachable store a taken-down report has a soft-deleted message and exactly one retraction, with a
      higher id, in the message's channel. */
  lemma TakenDownIsAnnounced(states: seq<Db>, steps: seq<Step>, k: nat, r: Rank)
    requires IsRun(states, steps) && k < |states|
    requires r in states[k].reports && states[k].reports[r].resolution.TakenDown?
    ensures var db := states[k];
            var m := db.reports[r].message;
            && m in db.messages && db.messages[m].deleted
            && exists i :: i in db.retractions && db.retractions[i] == Retraction(m, db.messages[m].channel) && i > m
                           && forall j :: j in db.retractions && db.retractions[j].target == m ==> j == i
  {
    RunSound(states, steps, k);
    hide IsRun;
    AnnouncedBy(states[k], r);
  }

  lemma AnnouncedBy(db: Db, r: Rank)
    requires Sound(db) && r in db.reports && db.reports[r].resolution.TakenDown?
    ensures var m := db.reports[r].message;
            && m in db.messages && db.messages[m].deleted
            && exists i :: i in db.retractions && db.retractions[i] == Retraction(m, db.messages[m].channel) && i > m
                           && forall j :: j in db.retractions && db.retractions[j].target == m ==> j == i
  {
    hide Names, MessageRefs, ReportRefs, PairRefs, Resends;
    var m := db.reports[r].message;
    assert m in Targets(db.retractions);
    var i :| i in db.retractions && db.retractions[i].target == m;
    assert db.retractions[i] == Retraction(m, db.messages[m].channel);
  }

  // ---- direct messages under a block

  /** Every id in the pair of `key` other than `sender` is free of blocks with them, in both directions. */
  ghost predicate PairUnblocked(db: Db, key: string, sender: UserId) {
    PeerIds(key, sender).Some? && forall p :: p in PeerIds(key, sender).value ==> !BlockBetween(db, sender, p)
  }

  /** A step that puts a new row into a direct message is a send by a member of an unblocked pair; in particular no
      bus message lands there. */
  lemma DmInsertGuarded(db: Db, step: Step, i: Rank)
    requires Sound(db) && Enabled(db, step)
    requires i !in db.messages && i in Apply(db, step).messages
    requires var c := Apply(db, step).messages[i].channel;
             c in Apply(db, step).channels && Apply(db, step).channels[c].kind.Dm?
    ensures step.Send? && step.id == i && Apply(db, step).messages[i].sender == Some(step.sender)
    ensures PairUnblocked(db, db.channels[step.channel].aikoChannel, step.sender)
  {
    hide MessageRefs, ReportRefs, PairRefs, Retracted, Announced, Resends, CanonicalKey, SoleAdminChannels;
    match step {
      case Send(u, c, cmid, body, id) =>
        assert !DmSendRefused(db, db.channels[c].aikoChannel, u);
      case BusMessage(name, username, body, c, id) =>
        BusAvoidsDms(db, name, username, body, c, id);
      case TakeDownReport(r, u, id) => TakeDownKeepsKeys(db, r, u, id);
      case _ =>
    }
  }

  lemma TakeDownKeepsKeys(db: Db, r: Rank, u: UserId, id: Rank)
    ensures TakeDown(db, r, u, id).1.messages.Keys == db.messages.Keys
  {
    hide Targets;
    if r in db.reports && db.reports[r].message in db.messages {
      var m := db.reports[r].message;
      assert db.messages[m := db.messages[m].(deleted := true)].Keys == db.messages.Keys;
    }
  }

  /** Bus traffic never lands in a direct message, nor is one ever federated out. */
  lemma BusAvoidsDms(db: Db, name: string, username: Option<string>, body: string, c: ChannelId, id: Rank)
    requires Sound(db)
    ensures var (r, db') := PersistInbound(db, name, username, body, c, id);
            r.Some? ==> db'.messages[r.value].channel in db'.channels
                        && db'.channels[db'.messages[r.value].channel].kind.Standard?
                        && forall i :: i in db'.messages && i !in db.messages ==> i == r.value
  {
    hide MessageRefs, ReportRefs, PairRefs, Retracted, Announced, Resends;
    var (found, db') := UpsertChannel(db, name, c);
    if found.Ok? && Named(db, name) != {} {
      assert found.value in Named(db, name);
    }
  }

  lemma FederatesOnlyStandard(db: Db, c: ChannelId)
    requires Sound(db) && c in db.channels
    ensures ShouldFederate(db.channels[c]) <==> db.channels[c].kind.Standard?
  {
    hide MessageRefs, ReportRefs, PairRefs, Retracted, Announced, Resends, IsDmName;
  }

  /** Two locks on one door: whatever the invariants, a channel marked as a direct message by its kind or by its name
      alone is not federated, and every other one is. */
  lemma EitherMarkKeepsPrivate(ch: Channel)
    ensures ShouldFederate(ch) <==> ch.kind.Standard? && !("dm:" <= ch.aikoChannel)
  {
  }

  /** A resend returns the first row, whatever was blocked in between, and changes nothing. */
  lemma ResendReturnsOriginal(db: Db, i: Rank, sender: UserId, body: string, id: Rank)
    requires Sound(db) && i in db.messages && db.messages[i].clientMsgId.Some?
    ensures db.messages[i].channel in db.channels
    ensures CreateOutbound(db, sender, db.messages[i].channel, db.messages[i].clientMsgId.value, body, id)
            == (Ok((i, false)), db)
  {
    hide Names, ReportRefs, PairRefs, Retracted, Announced, DmSendRefused;
    var m := db.messages[i];
    var sent := SentBefore(db, m.channel, m.clientMsgId.value);
    assert i in sent;
    forall j | j in sent ensures j == i {
    }
    assert sent == {i};
  }

  /** Over a whole run: whoever left or came back in between, each new row of a direct message was sent while no
      block stood between its sender and the rest of the pair. */
  lemma DmRunGuarded(states: seq<Db>, steps: seq<Step>, k: nat, i: Rank)
    requires IsRun(states, steps) && k < |steps|
    requires i !in states[k].messages && i in states[k + 1].messages
    requires var c := states[k + 1].messages[i].channel;
             c in states[k + 1].channels && states[k + 1].channels[c].kind.Dm?
    ensures steps[k].Send? && steps[k].channel in states[k].channels
    ensures PairUnblocked(states[k], states[k].channels[steps[k].channel].aikoChannel, steps[k].sender)
  {
    RunSound(states, steps, k);
    assert Enabled(states[k], steps[k]) && states[k + 1] == Apply(states[k], steps[k]);
    hide Sound, Apply, PairUnblocked;
    DmInsertGuarded(states[k], steps[k], i);
  }
}
