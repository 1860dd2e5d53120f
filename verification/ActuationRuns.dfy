/** At-most-once actuation over concurrent callers, failed writes, crashes and restarts. Each step below is one point
    at which the process can be interrupted; the lock is the only thing that keeps callers apart. */
module ActuationRuns {
  import opened Store
  import opened Bytes
  import opened Actuation

  type Thread = nat
  type Command = (Str, nat)       // robot id and sequence number of a verified envelope

  /** Where a call through the sealed door stands once its envelope is verified. */
  datatype Pc =
    | Waiting(cmd: Command)                       // for the lock
    | Locked(cmd: Command)                        // before the comparison
    | Marked(cmd: Command, prev: Option<nat>)     // memory advanced, store not yet replaced
    | Replaced(cmd: Command)                      // committed, lock still held
    | Returning(cmd: Command)                     // admitted: the bridge is about to actuate

  datatype Process = Process(marks: Marks, lock: Option<Thread>, threads: map<Thread, Pc>)

  /** `admitted` and `actuated` only record what happened; nothing reads them. */
  datatype World = World(disk: Disk, proc: Option<Process>, admitted: seq<Command>, actuated: seq<Command>)

  datatype Event =
    | Boot
    | Call(t: Thread, cmd: Command)
    | Lock(t: Thread)
    | Compare(t: Thread)
    | Replace(t: Thread)
    | PersistFails(t: Thread)      // an OSError before the replace
    | Return(t: Thread)
    | Actuate(t: Thread)
    | Crash

  /** What `Actuation.DoorExact` guarantees of a verified command. */
  predicate Verified(cmd: Command) { 0 < |cmd.0| <= MAX_ROBOT_ID && Encodable(cmd.0) && cmd.1 <= MAX_SEQ }

  predicate At(w: World, t: Thread) { w.proc.Some? && t in w.proc.value.threads }

  predicate Enabled(w: World, e: Event) {
    match e
    case Boot => w.proc.None?
    case Call(t, cmd) => w.proc.Some? && t !in w.proc.value.threads && Verified(cmd)
    case Lock(t) => At(w, t) && w.proc.value.threads[t].Waiting? && w.proc.value.lock.None?
    case Compare(t) => At(w, t) && w.proc.value.threads[t].Locked?
    case Replace(t) => At(w, t) && w.proc.value.threads[t].Marked?
    case PersistFails(t) => At(w, t) && w.proc.value.threads[t].Marked?
    case Return(t) => At(w, t) && w.proc.value.threads[t].Replaced?
    case Actuate(t) => At(w, t) && w.proc.value.threads[t].Returning?
    case Crash => w.proc.Some?
  }

  function Look(m: Marks, robot: Str): (prev: Option<nat>) { if robot in m then Some(m[robot]) else None }

  function RolledBack(m: Marks, robot: Str, prev: Option<nat>): (r: Marks) {
    if prev.None? then m - {robot} else m[robot := prev.value]
  }

  ghost function Next(w: World, e: Event): (w': World)
    requires Enabled(w, e)
  {
    if e.Boot? then
      var m := Load(w.disk);
      if m.Ok? then w.(proc := Some(Process(m.value, None, map[]))) else w
    else if e.Crash? then w.(proc := None)
    else
      var p := w.proc.value;
      match e
      case Call(t, cmd) => w.(proc := Some(p.(threads := p.threads[t := Waiting(cmd)])))
      case Lock(t) => w.(proc := Some(p.(lock := Some(t), threads := p.threads[t := Locked(p.threads[t].cmd)])))
      case Compare(t) =>
        var cmd := p.threads[t].cmd;
        if cmd.1 <= Mark(p.marks, cmd.0) then w.(proc := Some(p.(lock := None, threads := p.threads - {t})))
        else w.(proc := Some(p.(marks := p.marks[cmd.0 := cmd.1],
                                threads := p.threads[t := Marked(cmd, Look(p.marks, cmd.0))])))
      case Replace(t) =>
        w.(disk := Dump(p.marks), proc := Some(p.(threads := p.threads[t := Replaced(p.threads[t].cmd)])))
      case PersistFails(t) =>
        var pc := p.threads[t];
        w.(proc := Some(Process(RolledBack(p.marks, pc.cmd.0, pc.prev), None, p.threads - {t})))
      case Return(t) =>
        var cmd := p.threads[t].cmd;
        w.(proc := Some(p.(lock := None, threads := p.threads[t := Returning(cmd)])), admitted := w.admitted + [cmd])
      case Actuate(t) =>
        w.(proc := Some(p.(threads := p.threads - {t})), actuated := w.actuated + [p.threads[t].cmd])
  }

  // ---- the store

  predicate Critical(pc: Pc) { pc.Locked? || pc.Marked? || pc.Replaced? }

  /** The lock holder is the one thread in the critical section, and memory leads the disk only between its write to
      memory and its replace. */
  predicate Sync(disk: Marks, p: Process) {
    && (forall t :: t in p.threads ==> Verified(p.threads[t].cmd) && (Critical(p.threads[t]) ==> p.lock == Some(t)))
    && (p.lock.None? ==> p.marks == disk)
    && (p.lock.Some? ==>
          p.lock.value in p.threads &&
          match p.threads[p.lock.value]
          case Locked(_) => p.marks == disk
          case Marked(cmd, prev) => Mark(disk, cmd.0) < cmd.1 && p.marks == disk[cmd.0 := cmd.1] && prev == Look(disk, cmd.0)
          case Replaced(cmd) => p.marks == disk && cmd.0 in disk && disk[cmd.0] == cmd.1
          case _ => false)
  }

  predicate StoreOk(w: World) {
    Load(w.disk).Ok? && Parsed(w.disk) && (w.proc.Some? ==> Sync(Load(w.disk).value, w.proc.value))
  }

  lemma MarksStayGood(m: Marks, cmd: Command)
    requires GoodMarks(m) && Verified(cmd)
    ensures GoodMarks(m[cmd.0 := cmd.1])
  {
    EncodableHasNoPair(cmd.0);
    hide NoPair;
  }

  lemma ReplaceKeepsStore(w: World, t: Thread)
    requires StoreOk(w) && Enabled(w, Replace(t))
    ensures StoreOk(Next(w, Replace(t)))
    ensures Load(Next(w, Replace(t)).disk) == Ok(w.proc.value.marks)
  {
    hide Load, Dump, GoodMarks, Verified, Parsed;
    var p, disk := w.proc.value, Load(w.disk).value;
    assert Critical(p.threads[t]);
    LoadedIsGood(w.disk);
    MarksStayGood(disk, p.threads[t].cmd);
    LoadOfDump(p.marks);
    DumpParses(p.marks);
  }

  lemma FailKeepsStore(w: World, t: Thread)
    requires StoreOk(w) && Enabled(w, PersistFails(t))
    ensures StoreOk(Next(w, PersistFails(t)))
    ensures Next(w, PersistFails(t)).proc.value.marks == Load(w.disk).value
  {
    hide Load;
    var p, disk := w.proc.value, Load(w.disk).value;
    assert Critical(p.threads[t]);
    var pc := p.threads[t];
    assert RolledBack(disk[pc.cmd.0 := pc.cmd.1], pc.cmd.0, Look(disk, pc.cmd.0)) == disk;
  }

  /** Every step keeps the store readable and in step with memory. */
  lemma StepKeepsStore(w: World, e: Event)
    requires StoreOk(w) && Enabled(w, e)
    ensures StoreOk(Next(w, e))
  {
    if e.Replace? {
      ReplaceKeepsStore(w, e.t);
    } else if e.PersistFails? {
      FailKeepsStore(w, e.t);
    } else {
      hide Load, Dump;
      if At(w, if e.Boot? || e.Crash? then 0 else e.t) {
        assert e.Compare? || e.Return? ==> Critical(w.proc.value.threads[e.t]);
      }
    }
  }

  // ---- the record

  predicate Covered(admitted: seq<Command>, disk: Marks) {
    forall i :: 0 <= i < |admitted| ==> admitted[i].0 in disk && admitted[i].1 <= disk[admitted[i].0]
  }

  predicate Increasing(admitted: seq<Command>) {
    forall i, j :: 0 <= i < j < |admitted| && admitted[i].0 == admitted[j].0 ==> admitted[i].1 < admitted[j].1
  }

  predicate Beyond(admitted: seq<Command>, cmd: Command) {
    forall i :: 0 <= i < |admitted| && admitted[i].0 == cmd.0 ==> admitted[i].1 < cmd.1
  }

  predicate Once(actuated: seq<Command>) { forall i, j :: 0 <= i < j < |actuated| ==> actuated[i] != actuated[j] }

  /** Committed commands lie beyond everything admitted; commands on their way out are admitted and not yet actuated. */
  predicate Pending(w: World, threads: map<Thread, Pc>) {
    && (forall t :: t in threads && threads[t].Replaced? ==> Beyond(w.admitted, threads[t].cmd))
    && (forall t :: t in threads && threads[t].Returning? ==> threads[t].cmd in w.admitted && threads[t].cmd !in w.actuated)
    && (forall t, u :: t in threads && u in threads && threads[t].Returning? && threads[u].Returning? && t != u ==>
                         threads[t].cmd != threads[u].cmd)
  }

  predicate RecordOk(w: World) {
    && Load(w.disk).Ok? && Covered(w.admitted, Load(w.disk).value) && Increasing(w.admitted)
    && Once(w.actuated) && (forall i :: 0 <= i < |w.actuated| ==> w.actuated[i] in w.admitted)
    && (w.proc.Some? ==> Pending(w, w.proc.value.threads))
  }

  lemma ReplaceKeepsRecord(w: World, t: Thread)
    requires StoreOk(w) && RecordOk(w) && Enabled(w, Replace(t))
    ensures RecordOk(Next(w, Replace(t)))
  {
    hide Load, Dump, Verified, Parsed;
    ReplaceKeepsStore(w, t);
    var p := w.proc.value;
    assert Critical(p.threads[t]);
    var cmd := p.threads[t].cmd;
    assert Beyond(w.admitted, cmd);
  }

  lemma ReturnKeepsRecord(w: World, t: Thread)
    requires StoreOk(w) && RecordOk(w) && Enabled(w, Return(t))
    ensures RecordOk(Next(w, Return(t)))
  {
    hide Load;
    var w' := Next(w, Return(t));
    var p := w.proc.value;
    assert Critical(p.threads[t]);
    var cmd := p.threads[t].cmd;
    assert Beyond(w.admitted, cmd) && cmd !in w.admitted;
    forall u | u in p.threads && u != t ensures !p.threads[u].Replaced? {
      assert Critical(p.threads[u]) ==> p.lock == Some(u);
    }
    assert cmd == w'.admitted[|w.admitted|];
    assert forall x :: x in w.admitted ==> x in w'.admitted;
  }

  lemma ActuateKeepsRecord(w: World, t: Thread)
    requires StoreOk(w) && RecordOk(w) && Enabled(w, Actuate(t))
    ensures RecordOk(Next(w, Actuate(t)))
  {
    hide Load;
    var w' := Next(w, Actuate(t));
    var cmd := w.proc.value.threads[t].cmd;
    assert forall x :: x in w'.actuated ==> x in w.actuated || x == cmd;
  }

  /** Every step keeps the record. */
  lemma StepKeepsRecord(w: World, e: Event)
    requires StoreOk(w) && RecordOk(w) && Enabled(w, e)
    ensures RecordOk(Next(w, e))
  {
    hide StoreOk;
    match e {
      case Replace(t) => ReplaceKeepsRecord(w, t);
      case Return(t) => ReturnKeepsRecord(w, t);
      case Actuate(t) => ActuateKeepsRecord(w, t);
      case _ => hide Load;
    }
  }

  // ---- runs

  /** A run starts with no process and any store the loader accepts, a missing one included. */
  ghost predicate IsRun(ws: seq<World>, es: seq<Event>) {
    && |ws| == |es| + 1 && ws[0].proc.None? && Load(ws[0].disk).Ok? && Parsed(ws[0].disk) && ws[0].admitted == [] && ws[0].actuated == []
    && forall k :: 0 <= k < |es| ==> Enabled(ws[k], es[k]) && ws[k + 1] == Next(ws[k], es[k])
  }

  lemma {:induction false} RunIsSafe(ws: seq<World>, es: seq<Event>, k: nat)
    requires IsRun(ws, es) && k < |ws|
    ensures StoreOk(ws[k]) && RecordOk(ws[k])
  {
    hide Enabled, Next, Load;
    if k > 0 {
      RunIsSafe(ws, es, k - 1);
      hide StoreOk, RecordOk;
      assert Enabled(ws[k - 1], es[k - 1]) && ws[k] == Next(ws[k - 1], es[k - 1]);
      StepKeepsStore(ws[k - 1], es[k - 1]);
      StepKeepsRecord(ws[k - 1], es[k - 1]);
    }
  }

  /** AT MOST ONCE. In every run the numbers admitted for a robot strictly increase, across restarts too, and no
      command is actuated twice or without having been admitted. */
  lemma AtMostOnce(ws: seq<World>, es: seq<Event>, k: nat)
    requires IsRun(ws, es) && k < |ws|
    ensures Increasing(ws[k].admitted) && Once(ws[k].actuated)
    ensures forall i :: 0 <= i < |ws[k].actuated| ==> ws[k].actuated[i] in ws[k].admitted
  {
    RunIsSafe(ws, es, k);
  }

  /** ALWAYS RESTARTS. Whatever crashed where, the store loads, and covers everything ever admitted: a restarted
      process rejects every replay. */
  lemma RestartRejectsReplays(ws: seq<World>, es: seq<Event>, k: nat, i: nat)
    requires IsRun(ws, es) && k < |ws| && i < |ws[k].admitted|
    ensures Load(ws[k].disk).Ok?
    ensures var (robot, n) := ws[k].admitted[i]; n <= Mark(Load(ws[k].disk).value, robot)
  {
    RunIsSafe(ws, es, k);
  }

  /** MEMORY NEVER LEADS DISK. Outside the critical section the marks are what a restart would load, so refused and
      failed calls leave no trace. */
  lemma MemoryIsDisk(ws: seq<World>, es: seq<Event>, k: nat)
    requires IsRun(ws, es) && k < |ws| && ws[k].proc.Some? && ws[k].proc.value.lock.None?
    ensures Load(ws[k].disk) == Ok(ws[k].proc.value.marks)
  {
    RunIsSafe(ws, es, k);
  }

  /** A refusal or a failed write gives memory and disk back as they were when the caller took the lock. */
  lemma RefusalIsInert(ws: seq<World>, es: seq<Event>, k: nat)
    requires IsRun(ws, es) && k < |es|
    requires es[k].PersistFails? || (es[k].Compare? && ws[k + 1].proc.Some? && ws[k + 1].proc.value.lock.None?)
    ensures ws[k + 1].disk == ws[k].disk && ws[k + 1].admitted == ws[k].admitted
    ensures ws[k + 1].proc.Some? && Load(ws[k].disk) == Ok(ws[k + 1].proc.value.marks)
  {
    RunIsSafe(ws, es, k);
    assert Enabled(ws[k], es[k]) && ws[k + 1] == Next(ws[k], es[k]);
    if es[k].PersistFails? {
      FailKeepsStore(ws[k], es[k].t);
    } else {
      hide Load;
      assert Critical(ws[k].proc.value.threads[es[k].t]);
    }
  }

  /** One caller's pass through the critical section, uninterrupted, is exactly `_check_and_advance`. */
  lemma PassIsAdvance(w: World, t: Thread, persists: bool)
    requires StoreOk(w) && Enabled(w, Lock(t))
    ensures var w1 := Next(w, Lock(t));
            Enabled(w1, Compare(t)) &&
            var w2 := Next(w1, Compare(t));
            var (r, m, d) := Advance(w.proc.value.marks, w.disk, w.proc.value.threads[t].cmd.0, w.proc.value.threads[t].cmd.1, persists);
            if r == Ok(false) then !At(w2, t) && w2.proc.value.marks == m && w2.disk == d
            else
              var e := if persists then Replace(t) else PersistFails(t);
              Enabled(w2, e) && Next(w2, e).proc.value.marks == m && Next(w2, e).disk == d && (r == Ok(true) <==> persists)
  {
    hide Load, Dump;
    var p := w.proc.value;
    var cmd := p.threads[t].cmd;
    assert RolledBack(p.marks[cmd.0 := cmd.1], cmd.0, Look(p.marks, cmd.0)) == p.marks;
  }

  // ---- only a crash loses an admitted command

  ghost predicate Delivers(w: World, cmd: Command) {
    cmd in w.actuated || exists t :: At(w, t) && w.proc.value.threads[t] == Returning(cmd)
  }

  lemma StepDelivers(w: World, e: Event, cmd: Command)
    requires Enabled(w, e) && !e.Crash?
    requires Delivers(w, cmd) || (cmd !in w.admitted && cmd in Next(w, e).admitted)
    ensures Delivers(Next(w, e), cmd)
  {
    hide Load, Dump, Verified;
    var w' := Next(w, e);
    if !Delivers(w, cmd) {
      assert e.Return? && w'.proc.value.threads[e.t] == Returning(cmd);
    } else if cmd !in w.actuated {
      var t :| At(w, t) && w.proc.value.threads[t] == Returning(cmd);
      if e == Actuate(t) {
        assert w'.actuated[|w.actuated|] == cmd;
      } else {
        assert At(w', t) && w'.proc.value.threads[t] == Returning(cmd);
      }
    }
  }

  /** NOTHING ADMITTED IS LOST but by a crash: from its admission to the next crash a command is carried out or on its way
      to the bridge. */
  lemma {:induction false} NothingLost(ws: seq<World>, es: seq<Event>, j: nat, k: nat, cmd: Command)
    requires IsRun(ws, es) && j < k < |ws| && cmd !in ws[j].admitted && cmd in ws[j + 1].admitted
    requires forall i :: j <= i < k ==> !es[i].Crash?
    ensures Delivers(ws[k], cmd)
  {
    hide Next, Delivers, Enabled;
    assert Enabled(ws[k - 1], es[k - 1]) && ws[k] == Next(ws[k - 1], es[k - 1]);
    if j < k - 1 {
      NothingLost(ws, es, j, k - 1, cmd);
    }
    StepDelivers(ws[k - 1], es[k - 1], cmd);
  }

  /** A WHOLE CALL, uninterrupted, from the verified envelope to the bridge: carried out, recorded and on disk when its
      number is above the mark, and otherwise as if it had never been made. */
  lemma CallRuns(w: World, t: Thread, cmd: Command)
    requires StoreOk(w) && Enabled(w, Call(t, cmd)) && w.proc.value.lock.None?
    ensures Enabled(Next(w, Call(t, cmd)), Lock(t))
    ensures var w2 := Next(Next(w, Call(t, cmd)), Lock(t));
            Enabled(w2, Compare(t)) &&
            var w3, marks := Next(w2, Compare(t)), w.proc.value.marks;
            if cmd.0 in marks && cmd.1 <= marks[cmd.0] then w3 == w
            else
              && Enabled(w3, Replace(t)) && Enabled(Next(w3, Replace(t)), Return(t))
              && Enabled(Next(Next(w3, Replace(t)), Return(t)), Actuate(t))
              && var m := marks[cmd.0 := cmd.1];
              Next(Next(Next(w3, Replace(t)), Return(t)), Actuate(t))
              == World(Dump(m), Some(w.proc.value.(marks := m)), w.admitted + [cmd], w.actuated + [cmd])
  {
    hide Load, Dump, Verified, StoreOk;
    var p := w.proc.value;
    var w2 := Next(Next(w, Call(t, cmd)), Lock(t));
    assert w2.proc.value.threads == p.threads[t := Locked(cmd)];
    assert p.threads[t := Locked(cmd)] - {t} == p.threads;
    var w3 := Next(w2, Compare(t));
    if !(cmd.0 in p.marks && cmd.1 <= p.marks[cmd.0]) {
      var w5 := Next(Next(w3, Replace(t)), Return(t));
      assert w5.proc.value.threads == p.threads[t := Returning(cmd)];
      assert p.threads[t := Returning(cmd)] - {t} == p.threads;
    }
  }
}
