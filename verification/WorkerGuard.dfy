/** Single-worker enforcement (`worker_guard.py`): one `flock` per open file description, over forks and crashes. */
module WorkerGuard {
  import opened Store

  type Pid = nat
  type Fd = nat
  type Ofd = nat

  /** A live process: its descriptor table and the module globals `_lock_fd` and `_lock_pid`. */
  datatype Process = Process(fds: map<Fd, Ofd>, lockFd: Option<Fd>, lockPid: Option<Pid>)

  /** The host as seen from one lock path: live processes, every pid ever used, who opened each description ever
      opened on the path, and the description holding the exclusive lock. */
  datatype Host = Host(live: map<Pid, Process>, pids: set<Pid>, opener: map<Ofd, Pid>, owner: Option<Ofd>)

  datatype Action =
    | Spawn(pid: Pid)                            // a fresh process, nothing inherited
    | Fork(parent: Pid, child: Pid)
    | Acquire(pid: Pid, fd: Fd, ofd: Ofd, opens: bool, locks: bool)  // whether the kernel lets `open` and `flock` work
    | Release(pid: Pid, closes: bool)
    | Crash(pid: Pid)

  const BOOT := Host(map[], {}, map[], None)

  /** The process counts itself as the one worker: the guard at the top of `acquire_single_worker_lock`. */
  predicate Held(me: Process, p: Pid) { me.lockFd.Some? && me.lockPid == Some(p) }

  predicate Holds(h: Host, p: Pid) { p in h.live && Held(h.live[p], p) }

  /** Someone still has a descriptor on `o` open. */
  predicate Open(live: map<Pid, Process>, o: Ofd) {
    exists p, fd :: p in live && fd in live[p].fds && live[p].fds[fd] == o
  }

  /** The kernel drops a lock with the last descriptor of its description. */
  ghost function Settle(h: Host): (r: Host) {
    if h.owner.Some? && !Open(h.live, h.owner.value) then h.(owner := None) else h
  }

  /** Pids and descriptions are not reused; a process acts only while it lives. */
  ghost predicate Enabled(h: Host, a: Action) {
    match a
    case Spawn(p) => p !in h.pids
    case Fork(p, q) => p in h.live && q !in h.pids
    case Acquire(p, fd, o, _, locks) => p in h.live && fd !in h.live[p].fds && o !in h.opener && (locks ==> h.owner.None?)
    case Release(p, _) => p in h.live
    case Crash(p) => p in h.live
  }

  /** `acquire_single_worker_lock` on the process itself: one that already holds returns at once; any other forgets
      inherited globals, opens its own description, and keeps it only with the lock on it. */
  function TakeLock(me: Process, p: Pid, fd: Fd, o: Ofd, opens: bool, locks: bool): (r: Process) {
    if Held(me, p) then me
    else if opens && locks then Process(me.fds[fd := o], Some(fd), Some(p))
    else Process(me.fds, None, None)
  }

  /** `release_single_worker_lock`: closes the descriptor only in the process that took the lock. */
  function DropLock(me: Process, p: Pid, closes: bool): (r: Process) {
    Process(if Held(me, p) && closes then me.fds - {me.lockFd.value} else me.fds, None, None)
  }

  /** One process's view, updated the way the module updates its globals. */
  class Worker {
    const pid: Pid
    var fds: map<Fd, Ofd>
    var lockFd: Option<Fd>
    var lockPid: Option<Pid>

    function Me(): (me: Process) reads this { Process(fds, lockFd, lockPid) }

    constructor (pid: Pid, inherited: Process)
      ensures this.pid == pid && Me() == inherited
    {
      this.pid := pid;
      fds, lockFd, lockPid := inherited.fds, inherited.lockFd, inherited.lockPid;
    }

    /** `opens` and `locks` are the kernel's answers; a `false` result is the RuntimeError that refuses boot. */
    method Acquire(fd: Fd, o: Ofd, opens: bool, locks: bool) returns (booted: bool)
      requires fd !in fds
      modifies this
      ensures Me() == TakeLock(old(Me()), pid, fd, o, opens, locks)
      ensures booted <==> Held(Me(), pid)
    {
      if lockFd.Some? && lockPid == Some(pid) { return true; }
      lockFd := None;
      lockPid := None;
      if !opens { return false; }
      fds := fds[fd := o];
      if !locks {
        fds := fds - {fd};
        assert fds == old(fds);
        return false;
      }
      lockFd := Some(fd);
      lockPid := Some(pid);
      return true;
    }

    method Release(closes: bool)
      modifies this
      ensures Me() == DropLock(old(Me()), pid, closes)
      ensures !Held(Me(), pid)
    {
      if lockFd.Some? && lockPid == Some(pid) {
        if closes { fds := fds - {lockFd.value}; }
      }
      lockFd := None;
      lockPid := None;
    }
  }

  ghost function Acquired(h: Host, p: Pid, fd: Fd, o: Ofd, opens: bool, locks: bool): (r: Host)
    requires p in h.live
  {
    var tried := opens && !Holds(h, p);
    Host(h.live[p := TakeLock(h.live[p], p, fd, o, opens, locks)],
         h.pids,
         if tried then h.opener[o := p] else h.opener,
         if tried && locks then Some(o) else h.owner)
  }

  ghost function Released(h: Host, p: Pid, closes: bool): (r: Host)
    requires p in h.live
  {
    Settle(h.(live := h.live[p := DropLock(h.live[p], p, closes)]))
  }

  ghost function Next(h: Host, a: Action): (r: Host)
    requires Enabled(h, a)
  {
    match a
    case Spawn(p) => h.(live := h.live[p := Process(map[], None, None)], pids := h.pids + {p})
    case Fork(p, q) => h.(live := h.live[q := h.live[p]], pids := h.pids + {q})
    case Acquire(p, fd, o, opens, locks) => Acquired(h, p, fd, o, opens, locks)
    case Release(p, closes) => Released(h, p, closes)
    case Crash(p) => Settle(h.(live := h.live - {p}))
  }

  /** A holder's descriptor is open on the description that owns the lock, which that holder opened itself. */
  ghost predicate HolderOwns(h: Host, p: Pid) {
    Holds(h, p) ==>
      var me := h.live[p];
      && me.lockFd.value in me.fds
      && var o := me.fds[me.lockFd.value];
      h.owner == Some(o) && o in h.opener && h.opener[o] == p
  }

  /** The globals of a live process name only itself or an ancestor that existed. */
  ghost predicate Guarded(h: Host) {
    && h.live.Keys <= h.pids
    && (h.owner.Some? ==> h.owner.value in h.opener)
    && (forall p :: p in h.live && h.live[p].lockPid.Some? ==> h.live[p].lockPid.value in h.pids)
    && (forall p :: HolderOwns(h, p))
  }

  /** The lock has one owner and a description one opener, so there is one holder. */
  lemma OneHolder(h: Host, p: Pid, q: Pid)
    requires Guarded(h) && Holds(h, p) && Holds(h, q)
    ensures p == q
  {
    assert HolderOwns(h, p) && HolderOwns(h, q);
  }

  lemma ForkKeeps(h: Host, p: Pid, q: Pid)
    requires Guarded(h) && Enabled(h, Fork(p, q))
    ensures Guarded(Next(h, Fork(p, q))) && !Holds(Next(h, Fork(p, q)), q)
    ensures forall x :: Holds(Next(h, Fork(p, q)), x) ==> Holds(h, x)
  {
    var h' := Next(h, Fork(p, q));
    forall x ensures HolderOwns(h', x) {
      assert HolderOwns(h, x);
    }
  }

  /** The kernel never takes the lock from a holder. */
  lemma SettleKeeps(h: Host)
    requires Guarded(h)
    ensures Guarded(Settle(h))
    ensures forall x :: Holds(Settle(h), x) <==> Holds(h, x)
  {
    forall x ensures HolderOwns(Settle(h), x) {
      assert HolderOwns(h, x);
      assert Holds(h, x) ==> h.live[x].lockFd.value in h.live[x].fds;
    }
  }

  lemma ReleaseKeeps(h: Host, p: Pid, closes: bool)
    requires Guarded(h) && p in h.live
    ensures Guarded(Released(h, p, closes))
    ensures forall x :: Holds(Released(h, p, closes), x) ==> Holds(h, x)
  {
    var h' := h.(live := h.live[p := DropLock(h.live[p], p, closes)]);
    forall x ensures HolderOwns(h', x) {
      assert HolderOwns(h, x);
    }
    SettleKeeps(h');
    hide Settle;
  }

  lemma CrashKeeps(h: Host, p: Pid)
    requires Guarded(h) && p in h.live
    ensures Guarded(Next(h, Crash(p)))
    ensures forall x :: Holds(Next(h, Crash(p)), x) ==> Holds(h, x)
  {
    var h' := h.(live := h.live - {p});
    forall x ensures HolderOwns(h', x) {
      assert HolderOwns(h, x);
    }
    SettleKeeps(h');
    hide Settle;
  }

  /** The lock is granted only when nobody owns it, and then nobody else can be a holder. */
  lemma AcquireKeeps(h: Host, p: Pid, fd: Fd, o: Ofd, opens: bool, locks: bool)
    requires Guarded(h) && Enabled(h, Acquire(p, fd, o, opens, locks))
    ensures Guarded(Next(h, Acquire(p, fd, o, opens, locks)))
    ensures forall x :: Holds(Next(h, Acquire(p, fd, o, opens, locks)), x) ==> Holds(h, x) || (x == p && opens && locks)
  {
    var h' := Next(h, Acquire(p, fd, o, opens, locks));
    forall x ensures HolderOwns(h', x) {
      assert HolderOwns(h, x);
    }
  }

  lemma SpawnKeeps(h: Host, p: Pid)
    requires Guarded(h) && p !in h.pids
    ensures Guarded(Next(h, Spawn(p)))
    ensures forall x :: Holds(Next(h, Spawn(p)), x) ==> Holds(h, x)
  {
    var h' := Next(h, Spawn(p));
    forall x ensures HolderOwns(h', x) {
      assert HolderOwns(h, x);
    }
  }

  /** Every action keeps the guard, and only a process's own acquire can make it a holder. */
  lemma ActionKeeps(h: Host, a: Action)
    requires Guarded(h) && Enabled(h, a)
    ensures Guarded(Next(h, a))
    ensures forall x :: Holds(Next(h, a), x) && !Holds(h, x) ==> a.Acquire? && a.pid == x && a.opens && a.locks
  {
    hide Guarded;
    match a {
      case Spawn(p) => SpawnKeeps(h, p);
      case Fork(p, q) => ForkKeeps(h, p, q);
      case Acquire(p, fd, o, opens, locks) => AcquireKeeps(h, p, fd, o, opens, locks);
      case Release(p, closes) => ReleaseKeeps(h, p, closes);
      case Crash(p) => CrashKeeps(h, p);
    }
  }

  ghost predicate IsRun(hosts: seq<Host>, actions: seq<Action>) {
    && |hosts| == |actions| + 1 && hosts[0] == BOOT
    && forall k :: 0 <= k < |actions| ==> Enabled(hosts[k], actions[k]) && hosts[k + 1] == Next(hosts[k], actions[k])
  }

  lemma {:induction false} RunGuarded(hosts: seq<Host>, actions: seq<Action>, k: nat)
    requires IsRun(hosts, actions) && k < |hosts|
    ensures Guarded(hosts[k])
  {
    hide Enabled, Next;
    if k == 0 {
      assert Guarded(BOOT);
    } else {
      RunGuarded(hosts, actions, k - 1);
      assert Enabled(hosts[k - 1], actions[k - 1]) && hosts[k] == Next(hosts[k - 1], actions[k - 1]);
      ActionKeeps(hosts[k - 1], actions[k - 1]);
    }
  }

  /** SINGLE WORKER. In every run of spawns, forks, acquires, releases and crashes at most one live process counts
      itself as holder. */
  lemma AtMostOneWorker(hosts: seq<Host>, actions: seq<Action>, k: nat, p: Pid, q: Pid)
    requires IsRun(hosts, actions) && k < |hosts| && Holds(hosts[k], p) && Holds(hosts[k], q)
    ensures p == q
  {
    RunGuarded(hosts, actions, k);
    OneHolder(hosts[k], p, q);
  }

  /** No process, a forked child included, is ever a holder without an earlier successful acquire of its own. */
  lemma {:induction false} OwnAcquireNeeded(hosts: seq<Host>, actions: seq<Action>, k: nat, p: Pid)
    requires IsRun(hosts, actions) && k < |hosts| && Holds(hosts[k], p)
    ensures exists j :: 0 <= j < k && actions[j].Acquire? && actions[j].pid == p && actions[j].opens && actions[j].locks
  {
    hide Enabled, Next, Guarded;
    if k > 0 {
      RunGuarded(hosts, actions, k - 1);
      assert Enabled(hosts[k - 1], actions[k - 1]) && hosts[k] == Next(hosts[k - 1], actions[k - 1]);
      ActionKeeps(hosts[k - 1], actions[k - 1]);
      if Holds(hosts[k - 1], p) {
        OwnAcquireNeeded(hosts, actions, k - 1, p);
      }
    }
  }

  ghost predicate Backed(h: Host) { h.owner.Some? ==> Open(h.live, h.owner.value) }

  lemma ActionKeepsBacked(h: Host, a: Action)
    requires Guarded(h) && Backed(h) && Enabled(h, a)
    ensures Backed(Next(h, a))
  {
    if h.owner.Some? && !a.Release? && !a.Crash? {
      var p, fd :| p in h.live && fd in h.live[p].fds && h.live[p].fds[fd] == h.owner.value;
      assert HolderOwns(h, p);
      assert p in Next(h, a).live && fd in Next(h, a).live[p].fds;
    }
    if a.Acquire? && a.opens && a.locks && !Holds(h, a.pid) {
      assert a.fd in Next(h, a).live[a.pid].fds;
    }
  }

  /** NO STALE LOCK. However processes die, the lock is owned only while some live process has its description open:
      once none has, the next acquire the kernel serves succeeds. */
  lemma {:induction false} NoStaleLock(hosts: seq<Host>, actions: seq<Action>, k: nat)
    requires IsRun(hosts, actions) && k < |hosts|
    ensures Backed(hosts[k])
  {
    hide Enabled, Next, Guarded, Open;
    if k > 0 {
      NoStaleLock(hosts, actions, k - 1);
      RunGuarded(hosts, actions, k - 1);
      assert Enabled(hosts[k - 1], actions[k - 1]) && hosts[k] == Next(hosts[k - 1], actions[k - 1]);
      ActionKeepsBacked(hosts[k - 1], actions[k - 1]);
    }
  }

  /** Safety has a price the release path accepts: while a forked child keeps the inherited descriptor, the lock
      outlives the parent's release, and no one can acquire it. */
  lemma InheritedDescriptorKeepsLock()
    ensures exists hosts: seq<Host> ::
              && IsRun(hosts, [Spawn(1), Acquire(1, 3, 0, true, true), Fork(1, 2), Release(1, true)])
              && hosts[4].owner.Some? && forall p :: !Holds(hosts[4], p)
  {
    var h1 := Next(BOOT, Spawn(1));
    var h2 := Next(h1, Acquire(1, 3, 0, true, true));
    var h3 := Next(h2, Fork(1, 2));
    var h4 := Next(h3, Release(1, true));
    assert 2 in h4.live && 3 in h4.live[2].fds && h4.live[2].fds[3] == 0;
    assert IsRun([BOOT, h1, h2, h3, h4], [Spawn(1), Acquire(1, 3, 0, true, true), Fork(1, 2), Release(1, true)]);
  }

  /** A live process other than `p` has a descriptor on `o` open. */
  ghost predicate OpenElsewhere(h: Host, p: Pid, o: Ofd) {
    exists q, fd :: q in h.live && q != p && fd in h.live[q].fds && h.live[q].fds[fd] == o
  }

  /** Every descriptor is on a description someone opened, and no process has two on one. */
  ghost predicate OneEach(h: Host) {
    forall p :: p in h.live ==> OneEachIn(h.live[p].fds, h.opener.Keys)
  }

  ghost predicate OneEachIn(fds: map<Fd, Ofd>, known: set<Ofd>) {
    && (forall fd :: fd in fds ==> fds[fd] in known)
    && (forall fd, gd :: fd in fds && gd in fds && fds[fd] == fds[gd] ==> fd == gd)
  }

  lemma ActionKeepsOneEach(h: Host, a: Action)
    requires OneEach(h) && Enabled(h, a)
    ensures OneEach(Next(h, a))
  {
    hide Open;
    var h' := Next(h, a);
    forall p | p in h'.live ensures OneEachIn(h'.live[p].fds, h'.opener.Keys) {
      assert p in h.live ==> OneEachIn(h.live[p].fds, h.opener.Keys);
      if a.Fork? {
        assert OneEachIn(h.live[a.parent].fds, h.opener.Keys);
      }
    }
  }

  lemma {:induction false} RunKeepsOneEach(hosts: seq<Host>, actions: seq<Action>, k: nat)
    requires IsRun(hosts, actions) && k < |hosts|
    ensures OneEach(hosts[k])
  {
    hide Enabled, Next, OneEachIn;
    if k > 0 {
      RunKeepsOneEach(hosts, actions, k - 1);
      assert Enabled(hosts[k - 1], actions[k - 1]) && hosts[k] == Next(hosts[k - 1], actions[k - 1]);
      ActionKeepsOneEach(hosts[k - 1], actions[k - 1]);
    }
  }

  lemma ReleaseOf(h: Host, p: Pid, o: Ofd)
    requires p in h.live && Held(h.live[p], p) && h.live[p].lockFd.value in h.live[p].fds
    requires h.owner == Some(o) && h.live[p].fds[h.live[p].lockFd.value] == o && OneEachIn(h.live[p].fds, h.opener.Keys)
    ensures Released(h, p, true).owner == if OpenElsewhere(h, p, o) then Some(o) else None
  {
    var h' := h.(live := h.live[p := DropLock(h.live[p], p, true)]);
    if OpenElsewhere(h, p, o) {
      var q, fd :| q in h.live && q != p && fd in h.live[q].fds && h.live[q].fds[fd] == o;
      assert q in h'.live && fd in h'.live[q].fds && h'.live[q].fds[fd] == o;
    }
    if Open(h'.live, o) {
      var q, fd :| q in h'.live && fd in h'.live[q].fds && h'.live[q].fds[fd] == o;
      assert q != p;
      assert q in h.live && fd in h.live[q].fds && h.live[q].fds[fd] == o;
    }
  }

  /** RELEASE FREES. In every run, when the holder releases and its descriptor is closed, the lock is free exactly if no
      other live process has the description open, and nobody counts itself as holder. */
  lemma ReleaseFrees(hosts: seq<Host>, actions: seq<Action>, k: nat, p: Pid)
    requires IsRun(hosts, actions) && k < |actions| && actions[k] == Release(p, true) && Holds(hosts[k], p)
    ensures hosts[k].owner.Some?
    ensures hosts[k + 1].owner == if OpenElsewhere(hosts[k], p, hosts[k].owner.value) then hosts[k].owner else None
    ensures var freed := hosts[k + 1]; forall q :: !Holds(freed, q)
  {
    hide OpenElsewhere, Settle;
    assert Enabled(hosts[k], actions[k]) && hosts[k + 1] == Next(hosts[k], actions[k]);
    RunGuarded(hosts, actions, k);
    RunKeepsOneEach(hosts, actions, k);
    assert HolderOwns(hosts[k], p);
    hide IsRun, OneEachIn;
    ReleaseOf(hosts[k], p, hosts[k].owner.value);
    ReleaseKeeps(hosts[k], p, true);
    ReleaseEndsHolding(hosts[k], p);
    hide Released;
    var freed := hosts[k + 1];
    forall q ensures !Holds(freed, q) {
      if Holds(hosts[k], q) {
        OneHolder(hosts[k], p, q);
      }
    }
  }

  lemma ReleaseEndsHolding(h: Host, p: Pid)
    requires p in h.live
    ensures !Holds(Released(h, p, true), p) && !Holds(Released(h, p, false), p)
  {
    hide Open;
  }

  /** ACQUIRE TAKES. A process that does not hold becomes holder, and owner of the lock under its own new description, if
      and only if the kernel opens and locks, which it does only for a free lock; a holder's second acquire and a failed
      one leave owner and descriptors as they were. */
  lemma AcquireTakes(h: Host, p: Pid, fd: Fd, o: Ofd, opens: bool, locks: bool)
    requires Enabled(h, Acquire(p, fd, o, opens, locks))
    ensures var h' := Next(h, Acquire(p, fd, o, opens, locks));
            && (Holds(h', p) <==> Holds(h, p) || (opens && locks))
            && (Holds(h, p) ==> h' == h)
            && (!Holds(h, p) && opens && locks ==> h.owner.None? && h'.owner == Some(o) && h'.live[p].fds == h.live[p].fds[fd := o])
            && (!(opens && locks) ==> h'.owner == h.owner && h'.live[p].fds == h.live[p].fds)
            && forall q :: q != p ==> (q in h'.live <==> q in h.live) && (q in h.live ==> h'.live[q] == h.live[q])
  {
    assert h.live[p := h.live[p]] == h.live;
  }
}
