/**
  The process table (proc.c).  The table loops are methods over the array, tied to functions on
  the table's contents; the steps below are the critical sections of ptable.lock, including the
  hand-over of the lock between a CPU's scheduler and the process it switches to, in every
  interleaving.
 */
module Proc {
  import opened Common

  const NPROC: nat := 64

  datatype PState = UNUSED | EMBRYO | SLEEPING | RUNNABLE | RUNNING | ZOMBIE

  /** A sleep channel: the address of a process, as wait() uses, or any other kernel address. */
  datatype Chan = NoChan | ProcChan(p: nat) | Other(a: nat)

  /** Where a process gave up its CPU: not yet run, in yield(), in sleep(), in the sleep() of wait(). */
  datatype Point = Fresh | AtYield | AtSleep | AtWait

  /** Inside fork(): the new process, and whether its parent field is set. */
  datatype Activity = Idle | Forking(np: nat, linked: bool)

  datatype P = P(state: PState, pid: nat, parent: Option<nat>, chan: Chan, killed: bool, act: Activity, point: Point)

  // --------------------------------------------------------------- table loops as functions

  function Woken(p: P, chan: Chan): P {
    if p.state == SLEEPING && p.chan == chan then p.(state := RUNNABLE) else p
  }

  /** wakeup1() */
  function Wakeup1(ps: seq<P>, chan: Chan): (r: seq<P>)
    ensures |r| == |ps|
  {
    seq(|ps|, i requires 0 <= i < |ps| => Woken(ps[i], chan))
  }

  predicate IsZombieOf(p: P, parent: nat) {
    p.parent == Some(parent) && p.state == ZOMBIE
  }

  ghost predicate HasZombie(ps: seq<P>, parent: nat) {
    exists i :: 0 <= i < |ps| && IsZombieOf(ps[i], parent)
  }

  ghost predicate HasKid(ps: seq<P>, parent: nat) {
    exists i :: 0 <= i < |ps| && ps[i].parent == Some(parent)
  }

  function Adopted(p: P, cur: nat, init: nat): P {
    if p.parent == Some(cur) then p.(parent := Some(init)) else p
  }

  /** The loop of exit() that passes children to init, waking it for each one already dead. */
  ghost function Reparent(ps: seq<P>, cur: nat, init: nat): (r: seq<P>)
    ensures |r| == |ps|
  {
    seq(|ps|, i requires 0 <= i < |ps| =>
      var p := Adopted(ps[i], cur, init);
      if HasZombie(ps, cur) then Woken(p, ProcChan(init)) else p)
  }

  function Killed(p: P): P {
    p.(killed := true, state := if p.state == SLEEPING then RUNNABLE else p.state)
  }

  /** i is the first entry with property holding. */
  ghost predicate First(ps: seq<P>, i: int, good: P -> bool) {
    0 <= i < |ps| && good(ps[i]) && forall j :: 0 <= j < i ==> !good(ps[j])
  }

  class Table {
    const procs: array<P>

    constructor ()
      ensures procs.Length == NPROC && fresh(procs)
      ensures forall i :: 0 <= i < NPROC ==> procs[i] == P(UNUSED, 0, None, NoChan, false, Idle, Fresh)
    {
      procs := new P[NPROC](_ => P(UNUSED, 0, None, NoChan, false, Idle, Fresh));
    }

    /** wakeup1(): in place. */
    method Wake(chan: Chan)
      modifies procs
      ensures procs[..] == Wakeup1(old(procs[..]), chan)
    {
      var i := 0;
      while i < procs.Length
        invariant 0 <= i <= procs.Length
        invariant forall j :: 0 <= j < i ==> procs[j] == Woken(old(procs[j]), chan)
        invariant forall j :: i <= j < procs.Length ==> procs[j] == old(procs[j])
      {
        if procs[i].state == SLEEPING && procs[i].chan == chan {
          procs[i] := procs[i].(state := RUNNABLE);
        }
        i := i + 1;
      }
    }

    /** The children of cur go to init, and a dead one wakes it: the loop of exit(). */
    method PassChildren(cur: nat, init: nat)
      requires cur != init
      modifies procs
      ensures procs[..] == Reparent(old(procs[..]), cur, init)
    {
      ghost var ps := procs[..];
      ghost var woke := false;
      var i := 0;
      while i < procs.Length
        invariant 0 <= i <= procs.Length
        invariant woke <==> exists j :: 0 <= j < i && IsZombieOf(ps[j], cur)
        invariant forall j :: 0 <= j < procs.Length ==>
          procs[j] ==
            var p := if j < i then Adopted(ps[j], cur, init) else ps[j]; if woke then Woken(p, ProcChan(init)) else p
      {
        if procs[i].parent == Some(cur) {
          var dead := procs[i].state == ZOMBIE;
          procs[i] := procs[i].(parent := Some(init));
          if dead {
            Wake(ProcChan(init));
            woke := true;
            assert IsZombieOf(ps[i], cur);
          }
        }
        i := i + 1;
      }
    }

    /** kill(): the first entry with the pid, whatever its state. */
    method Kill(pid: nat) returns (found: bool)
      modifies procs
      ensures found <==> exists i :: 0 <= i < procs.Length && old(procs[i]).pid == pid
      ensures found ==> exists i :: First(old(procs[..]), i, (p: P) => p.pid == pid)
                               && procs[..] == old(procs[..])[i := Killed(old(procs[..])[i])]
      ensures !found ==> procs[..] == old(procs[..])
    {
      ghost var ps := procs[..];
      var i := 0;
      while i < procs.Length
        invariant 0 <= i <= procs.Length
        invariant procs[..] == ps && forall j :: 0 <= j < i ==> procs[j].pid != pid
      {
        if procs[i].pid == pid {
          assert First(ps, i, (p: P) => p.pid == pid);
          procs[i] := procs[i].(killed := true);
          if procs[i].state == SLEEPING {
            procs[i] := procs[i].(state := RUNNABLE);
          }
          assert procs[..] == ps[i := Killed(ps[i])];
          return true;
        }
        i := i + 1;
      }
      return false;
    }

    /** The scan of allocproc() for a free entry. */
    method FindUnused() returns (r: Option<nat>)
      ensures r.None? <==> forall i :: 0 <= i < procs.Length ==> procs[i].state != UNUSED
      ensures r.Some? ==> First(procs[..], r.value, (p: P) => p.state == UNUSED)
    {
      var i := 0;
      while i < procs.Length
        invariant 0 <= i <= procs.Length
        invariant forall j :: 0 <= j < i ==> procs[j].state != UNUSED
      {
        if procs[i].state == UNUSED {
          return Some(i);
        }
        i := i + 1;
      }
      return None;
    }

    /** The scan of wait(): the first dead child, and whether there are children at all. */
    method ScanChildren(cur: nat) returns (dead: Option<nat>, havekids: bool)
      ensures dead.None? <==> !HasZombie(procs[..], cur)
      ensures dead.Some? ==> First(procs[..], dead.value, (p: P) => IsZombieOf(p, cur))
      ensures dead.None? ==> (havekids <==> HasKid(procs[..], cur))
    {
      havekids := false;
      var i := 0;
      while i < procs.Length
        invariant 0 <= i <= procs.Length
        invariant forall j :: 0 <= j < i ==> !IsZombieOf(procs[j], cur)
        invariant havekids <==> exists j :: 0 <= j < i && procs[j].parent == Some(cur)
      {
        if procs[i].parent == Some(cur) {
          havekids := true;
          if procs[i].state == ZOMBIE {
            assert IsZombieOf(procs[..][i], cur);
            return Some(i), true;
          }
        }
        i := i + 1;
      }
      assert forall j :: 0 <= j < procs.Length ==> procs[..][j] == procs[j];
      return None, havekids;
    }
  }

  // --------------------------------------------------------------- steps

  /** Who holds ptable.lock: a CPU's scheduler, a process just switched to, or one scanning in wait(). */
  datatype Lock = Free | Sched(c: nat) | Resumed(p: nat) | Scanning(p: nat)

  datatype World = World(ps: seq<P>, cpus: seq<Option<nat>>, lock: Lock, nextpid: nat, init: nat,
                         exited: set<nat>, reaped: set<nat>)

  datatype Step =
    | SchedAcquire(c: nat) | Dispatch(c: nat, p: nat) | SchedRelease(c: nat) | Return(p: nat)
    | Yield(p: nat, c: nat) | Sleep(p: nat, c: nat, a: nat) | Wakeup(a: nat) | KillPid(pid: nat, i: nat)
    | Exit(p: nat, c: nat)
    | WaitStart(p: nat) | Reap(p: nat, z: nat) | WaitFail(p: nat) | WaitSleep(p: nat, c: nat)
    | Alloc(p: nat, np: nat) | ForkAbort(p: nat) | ForkLink(p: nat) | ForkDone(p: nat)

  ghost predicate On(w: World, c: nat, p: nat) {
    c < |w.cpus| && w.cpus[c] == Some(p)
  }

  /** p runs outside ptable.lock. */
  ghost predicate Runs(w: World, p: nat) {
    p < |w.ps| && w.ps[p].state == RUNNING && w.lock != Resumed(p) && w.lock != Scanning(p)
  }

  ghost predicate Enabled(w: World, step: Step) {
    match step
    case SchedAcquire(c) => w.lock == Free && c < |w.cpus| && w.cpus[c] == None
    case Dispatch(c, p) => w.lock == Sched(c) && c < |w.cpus| && p < |w.ps| && w.ps[p].state == RUNNABLE
    case SchedRelease(c) => w.lock == Sched(c)
    case Return(p) => w.lock == Resumed(p) && p < |w.ps|
    case Yield(p, c) => w.lock == Free && Runs(w, p) && On(w, c, p)
    case Sleep(p, c, a) => w.lock == Free && Runs(w, p) && On(w, c, p) && w.ps[p].act == Idle
    case Wakeup(a) => w.lock == Free
    case KillPid(pid, i) => w.lock == Free && First(w.ps, i, (p: P) => p.pid == pid)
    case Exit(p, c) => w.lock == Free && Runs(w, p) && On(w, c, p) && w.ps[p].act == Idle && p != w.init
    case WaitStart(p) => w.lock == Free && Runs(w, p) && w.ps[p].act == Idle
    case Reap(p, z) => w.lock == Scanning(p) && First(w.ps, z, (q: P) => IsZombieOf(q, p))
    case WaitFail(p) =>
      w.lock == Scanning(p) && p < |w.ps| && !HasZombie(w.ps, p) && (!HasKid(w.ps, p) || w.ps[p].killed)
    case WaitSleep(p, c) =>
      w.lock == Scanning(p) && p < |w.ps| && On(w, c, p) && !HasZombie(w.ps, p) && HasKid(w.ps, p) && !w.ps[p].killed
    case Alloc(p, np) =>
      w.lock == Free && Runs(w, p) && w.ps[p].act == Idle && First(w.ps, np, (q: P) => q.state == UNUSED)
    case ForkAbort(p) => Runs(w, p) && w.ps[p].act.Forking? && !w.ps[p].act.linked && w.ps[p].act.np < |w.ps|
    case ForkLink(p) => Runs(w, p) && w.ps[p].act.Forking? && !w.ps[p].act.linked && w.ps[p].act.np < |w.ps|
    case ForkDone(p) =>
      w.lock == Free && Runs(w, p) && w.ps[p].act.Forking? && w.ps[p].act.linked && w.ps[p].act.np < |w.ps|
  }

  /** Process p switches to the scheduler of CPU c, which still holds the lock. */
  function SwitchOut(w: World, c: nat): (r: World)
    requires c < |w.cpus|
  {
    w.(cpus := w.cpus[c := None], lock := Sched(c))
  }

  ghost function Dead(w: World, p: nat): (r: seq<P>)
    requires p < |w.ps|
    ensures |r| == |w.ps|
  {
    var woken := if w.ps[p].parent.Some? then Wakeup1(w.ps, ProcChan(w.ps[p].parent.value)) else w.ps;
    var passed := Reparent(woken, p, w.init);
    passed[p := passed[p].(state := ZOMBIE)]
  }

  ghost function Next(w: World, step: Step): (r: World)
    requires Enabled(w, step)
  {
    match step
    case SchedAcquire(c) => w.(lock := Sched(c))
    case Dispatch(c, p) =>
      w.(ps := w.ps[p := w.ps[p].(state := RUNNING)], cpus := w.cpus[c := Some(p)], lock := Resumed(p))
    case SchedRelease(c) => w.(lock := Free)
    case Return(p) =>
      (match w.ps[p].point
       case AtWait => w.(ps := w.ps[p := w.ps[p].(chan := NoChan)], lock := Scanning(p))
       case AtSleep => w.(ps := w.ps[p := w.ps[p].(chan := NoChan)], lock := Free)
       case _ => w.(lock := Free))
    case Yield(p, c) => SwitchOut(w.(ps := w.ps[p := w.ps[p].(state := RUNNABLE, point := AtYield)]), c)
    case Sleep(p, c, a) =>
      SwitchOut(w.(ps := w.ps[p := w.ps[p].(state := SLEEPING, chan := Other(a), point := AtSleep)]), c)
    case Wakeup(a) => w.(ps := Wakeup1(w.ps, Other(a)))
    case KillPid(pid, i) => w.(ps := w.ps[i := Killed(w.ps[i])])
    case Exit(p, c) => SwitchOut(w.(ps := Dead(w, p), exited := w.exited + {w.ps[p].pid}), c)
    case WaitStart(p) => w.(lock := Scanning(p))
    case Reap(p, z) =>
      w.(ps := w.ps[z := w.ps[z].(pid := 0, parent := None, killed := false, state := UNUSED)],
         lock := Free, reaped := w.reaped + {w.ps[z].pid})
    case WaitFail(p) => w.(lock := Free)
    case WaitSleep(p, c) =>
      SwitchOut(w.(ps := w.ps[p := w.ps[p].(state := SLEEPING, chan := ProcChan(p), point := AtWait)]), c)
    case Alloc(p, np) =>
      w.(ps := w.ps[np := w.ps[np].(state := EMBRYO, pid := w.nextpid, point := Fresh)]
                   [p := w.ps[p].(act := Forking(np, false))],
         nextpid := w.nextpid + 1)
    case ForkAbort(p) =>
      var np := w.ps[p].act.np;
      w.(ps := w.ps[np := w.ps[np].(state := UNUSED)][p := w.ps[p].(act := Idle)])
    case ForkLink(p) =>
      var np := w.ps[p].act.np;
      w.(ps := w.ps[np := w.ps[np].(parent := Some(p))][p := w.ps[p].(act := Forking(np, true))])
    case ForkDone(p) =>
      var np := w.ps[p].act.np;
      w.(ps := w.ps[np := w.ps[np].(state := RUNNABLE)][p := w.ps[p].(act := Idle)])
  }

  /** sleep(): the process sleeps on the channel it asked for, off its CPU, until a wakeup() or a kill(). */
  lemma SleepSleeps(w: World, p: nat, c: nat, a: nat)
    requires Enabled(w, Sleep(p, c, a))
    ensures var v := Next(w, Sleep(p, c, a));
            && v.ps == w.ps[p := v.ps[p]] && v.ps[p].state == SLEEPING && v.ps[p].chan == Other(a)
            && c < |v.cpus| && v.cpus[c] == None && v.ps[p].pid == w.ps[p].pid && v.ps[p].killed == w.ps[p].killed
  {
  }

  /** wakeup(): in whatever state the table is, nobody sleeps on the channel afterwards, the sleepers on it can run, and
      everything else is as before. */
  lemma WakeupWakes(w: World, a: nat, i: nat)
    requires Enabled(w, Wakeup(a)) && i < |w.ps|
    ensures var v := Next(w, Wakeup(a));
            && v == w.(ps := v.ps) && |v.ps| == |w.ps|
            && !(v.ps[i].state == SLEEPING && v.ps[i].chan == Other(a))
            && (if w.ps[i].state == SLEEPING && w.ps[i].chan == Other(a) then v.ps[i] == w.ps[i].(state := RUNNABLE)
                else v.ps[i] == w.ps[i])
  {
  }

  /** kill(): the process is killed and not asleep, and everything else is as before. */
  lemma KillWakes(w: World, pid: nat, i: nat)
    requires Enabled(w, KillPid(pid, i))
    ensures var v := Next(w, KillPid(pid, i));
            && v == w.(ps := v.ps) && |v.ps| == |w.ps| && v.ps == w.ps[i := v.ps[i]]
            && v.ps[i].killed && v.ps[i].state != SLEEPING && v.ps[i].pid == pid
            && v.ps[i] == w.ps[i].(killed := true, state := v.ps[i].state)
            && (w.ps[i].state == SLEEPING ==> v.ps[i].state == RUNNABLE)
            && (w.ps[i].state != SLEEPING ==> v.ps[i].state == w.ps[i].state)
  {
  }

  /** exit(): the process is dead, its children are init's, the parent that waits for it can run, and so can init if
      one of the children is dead. */
  lemma ExitPasses(w: World, p: nat, c: nat, i: nat)
    requires Enabled(w, Exit(p, c)) && i < |w.ps|
    ensures var v := Next(w, Exit(p, c));
            && |v.ps| == |w.ps| && v.ps[p].state == ZOMBIE
            && v.ps[i].parent == (if w.ps[i].parent == Some(p) then Some(w.init) else w.ps[i].parent)
            && v.ps[i].pid == w.ps[i].pid && v.ps[i].killed == w.ps[i].killed && v.ps[i].chan == w.ps[i].chan
            && (i != p ==> v.ps[i].state == w.ps[i].state || (w.ps[i].state == SLEEPING && v.ps[i].state == RUNNABLE))
            && (i != p && w.ps[i].chan == ProcChan(i) && w.ps[p].parent == Some(i) ==> v.ps[i].state != SLEEPING)
  {
  }

  // --------------------------------------------------------------- invariants

  /** Past EMBRYO and not dead. */
  predicate Alive(p: P) {
    p.state == SLEEPING || p.state == RUNNABLE || p.state == RUNNING
  }

  /** Each RUNNING process is current on exactly one CPU, and a CPU's current process is RUNNING. */
  ghost predicate CpuInv(w: World) {
    && (forall c ::
          0 <= c < |w.cpus| && w.cpus[c].Some? ==> w.cpus[c].value < |w.ps| && w.ps[w.cpus[c].value].state == RUNNING)
    && (forall c, d :: 0 <= c < d < |w.cpus| && w.cpus[c].Some? ==> w.cpus[c] != w.cpus[d])
    && (forall p :: 0 <= p < |w.ps| && w.ps[p].state == RUNNING ==> Some(p) in w.cpus)
  }

  ghost predicate LockInv(w: World) {
    match w.lock
    case Free => true
    case Sched(c) => c < |w.cpus| && w.cpus[c] == None
    case Resumed(p) => p < |w.ps| && w.ps[p].state == RUNNING && (w.ps[p].point == AtWait ==> w.ps[p].act == Idle)
    case Scanning(p) => p < |w.ps| && w.ps[p].state == RUNNING && w.ps[p].act == Idle
  }

  /** The parent of every process past EMBRYO, but init, is alive. */
  ghost predicate ParentOk(ps: seq<P>, init: nat, p: nat)
    requires p < |ps|
  {
    && ps[p].parent != Some(p)
    && match ps[p].state
    case UNUSED => ps[p].parent == None
    case EMBRYO => true
    case _ =>
      if p == init then ps[p].parent == None
      else ps[p].parent.Some? && ps[p].parent.value < |ps| && Alive(ps[ps[p].parent.value])
  }

  ghost predicate TreeInv(w: World) {
    && w.init < |w.ps| && Alive(w.ps[w.init])
    && forall p :: 0 <= p < |w.ps| ==> ParentOk(w.ps, w.init, p)
  }

  ghost predicate ForkOk(ps: seq<P>, p: nat)
    requires p < |ps|
  {
    match ps[p].act
    case Idle => true
    case Forking(np, linked) =>
      && Alive(ps[p]) && np < |ps| && ps[np].state == EMBRYO && ps[np].parent == (if linked then Some(p) else None)
      && (ps[p].state != RUNNING ==> ps[p].point != AtWait)
  }

  ghost predicate ForkInv(w: World) {
    && (forall p :: 0 <= p < |w.ps| ==> ForkOk(w.ps, p))
    && (forall p, q ::
          0 <= p < q < |w.ps| && w.ps[p].act.Forking? && w.ps[q].act.Forking? ==> w.ps[p].act.np != w.ps[q].act.np)
  }

  /** A process asleep in wait() has no dead child. */
  ghost predicate WaitOk(ps: seq<P>, q: nat)
    requires q < |ps|
  {
    ps[q].state == SLEEPING ==>
      && ps[q].chan != NoChan
      && (ps[q].chan.ProcChan? ==> ps[q].chan.p == q && forall i :: 0 <= i < |ps| ==> !IsZombieOf(ps[i], q))
  }

  ghost predicate WaitInv(w: World) {
    forall q :: 0 <= q < |w.ps| ==> WaitOk(w.ps, q)
  }

  /** Pids are unique; a dead process is one that exited and was not reaped, and the other way round. */
  ghost predicate PidOk(w: World, p: nat)
    requires p < |w.ps|
  {
    w.ps[p].state != UNUSED ==>
      && 0 < w.ps[p].pid < w.nextpid
      && (w.ps[p].state == ZOMBIE <==> w.ps[p].pid in w.exited)
      && w.ps[p].pid !in w.reaped
  }

  ghost predicate PidInv(w: World) {
    && (forall p :: 0 <= p < |w.ps| ==> PidOk(w, p))
    && (forall p, q ::
          0 <= p < q < |w.ps| && w.ps[p].state != UNUSED && w.ps[q].state != UNUSED ==> w.ps[p].pid != w.ps[q].pid)
    && 0 < w.nextpid && w.reaped <= w.exited
    && (forall x :: x in w.exited ==> x < w.nextpid)
    && (forall x :: x in w.exited && x !in w.reaped ==> DeadWith(w.ps, x))
  }

  ghost predicate DeadWith(ps: seq<P>, pid: nat) {
    exists p :: 0 <= p < |ps| && ps[p].state == ZOMBIE && ps[p].pid == pid
  }

  ghost predicate Inv(w: World) {
    CpuInv(w) && LockInv(w) && TreeInv(w) && ForkInv(w) && WaitInv(w) && PidInv(w)
  }

  // --------------------------------------------------------------- steps that only schedule

  /** Nobody is born, dies, forks or changes parent. */
  ghost predicate MildAt(p: P, q: P) {
    && q.pid == p.pid && q.parent == p.parent && q.act == p.act
    && (Alive(p) <==> Alive(q)) && (!Alive(p) ==> q.state == p.state)
    && (q.state != RUNNING && q.point == AtWait && q.act.Forking? ==> p.state != RUNNING && p.point == AtWait)
  }

  ghost predicate Mild(w: World, v: World) {
    && |v.ps| == |w.ps| && v.nextpid == w.nextpid && v.init == w.init && v.exited == w.exited && v.reaped == w.reaped
    && forall i :: 0 <= i < |w.ps| ==> MildAt(w.ps[i], v.ps[i])
  }

  lemma MildTree(w: World, v: World)
    requires Mild(w, v) && TreeInv(w)
    ensures TreeInv(v)
  {
    assert MildAt(w.ps[w.init], v.ps[v.init]);
    forall p | 0 <= p < |v.ps| ensures ParentOk(v.ps, v.init, p) {
      assert ParentOk(w.ps, w.init, p) && MildAt(w.ps[p], v.ps[p]);
    }
  }

  lemma MildFork(w: World, v: World)
    requires Mild(w, v) && ForkInv(w)
    ensures ForkInv(v)
  {
    forall p | 0 <= p < |v.ps| ensures ForkOk(v.ps, p) && v.ps[p].act == w.ps[p].act {
      assert ForkOk(w.ps, p) && MildAt(w.ps[p], v.ps[p]);
    }
  }

  lemma MildPid(w: World, v: World)
    requires Mild(w, v) && PidInv(w)
    ensures PidInv(v)
  {
    forall p | 0 <= p < |v.ps|
      ensures PidOk(v, p) && v.ps[p].pid == w.ps[p].pid && (v.ps[p].state == UNUSED <==> w.ps[p].state == UNUSED)
    {
      assert PidOk(w, p) && MildAt(w.ps[p], v.ps[p]);
    }
    forall x | DeadWith(w.ps, x) ensures DeadWith(v.ps, x) {
      var p :| 0 <= p < |w.ps| && w.ps[p].state == ZOMBIE && w.ps[p].pid == x;
      assert MildAt(w.ps[p], v.ps[p]);
    }
  }

  /** Whoever sleeps already slept so. */
  lemma MildWait(w: World, v: World)
    requires Mild(w, v) && WaitInv(w)
    requires forall q :: 0 <= q < |w.ps| && v.ps[q].state == SLEEPING ==>
               (w.ps[q].state == SLEEPING && w.ps[q].chan == v.ps[q].chan) || WaitOk(v.ps, q)
    ensures WaitInv(v)
  {
    forall q | 0 <= q < |v.ps| ensures WaitOk(v.ps, q) {
      assert WaitOk(w.ps, q);
      forall i | 0 <= i < |v.ps| ensures IsZombieOf(v.ps[i], q) == IsZombieOf(w.ps[i], q) {
        assert MildAt(w.ps[i], v.ps[i]);
      }
    }
  }

  lemma SameCpus(w: World, v: World)
    requires CpuInv(w) && |v.ps| == |w.ps| && v.cpus == w.cpus
    requires forall i :: 0 <= i < |w.ps| ==> (v.ps[i].state == RUNNING <==> w.ps[i].state == RUNNING)
    ensures CpuInv(v)
  {
  }

  lemma LeavesCpu(w: World, v: World, p: nat, c: nat)
    requires CpuInv(w) && |v.ps| == |w.ps| && On(w, c, p) && v.cpus == w.cpus[c := None]
    requires forall i :: 0 <= i < |w.ps| ==> (v.ps[i].state == RUNNING <==> w.ps[i].state == RUNNING && i != p)
    ensures CpuInv(v)
  {
    forall i | 0 <= i < |v.ps| && v.ps[i].state == RUNNING ensures Some(i) in v.cpus {
      assert Some(i) in w.cpus;
      var d :| 0 <= d < |w.cpus| && w.cpus[d] == Some(i);
      assert v.cpus[d] == Some(i);
    }
  }

  lemma EntersCpu(w: World, v: World, p: nat, c: nat)
    requires && CpuInv(w) && |v.ps| == |w.ps| && c < |w.cpus| && w.cpus[c] == None && p < |w.ps|
             && w.ps[p].state != RUNNING
    requires v.cpus == w.cpus[c := Some(p)]
    requires forall i :: 0 <= i < |w.ps| ==> (v.ps[i].state == RUNNING <==> w.ps[i].state == RUNNING || i == p)
    ensures CpuInv(v)
  {
    assert Some(p) !in w.cpus;
    forall i | 0 <= i < |v.ps| && v.ps[i].state == RUNNING ensures Some(i) in v.cpus {
      if i == p {
        assert v.cpus[c] == Some(i);
      } else {
        assert Some(i) in w.cpus;
        var d :| 0 <= d < |w.cpus| && w.cpus[d] == Some(i);
        assert v.cpus[d] == Some(i);
      }
    }
  }

  lemma LockStepKeeps(w: World, step: Step)
    requires Inv(w) && Enabled(w, step)
    requires step.SchedAcquire? || step.SchedRelease? || step.WaitStart? || step.WaitFail? || step.Return?
    ensures Inv(Next(w, step))
  {
    hide TreeInv, ForkInv, PidInv, WaitInv, CpuInv;
    var v := Next(w, step);
    assert Mild(w, v);
    MildTree(w, v);
    MildFork(w, v);
    MildPid(w, v);
    MildWait(w, v);
    SameCpus(w, v);
  }

  lemma WaitersIdle(w: World, p: nat)
    requires ForkInv(w) && p < |w.ps| && w.ps[p].point == AtWait && w.ps[p].state == RUNNABLE
    ensures w.ps[p].act == Idle
  {
    assert ForkOk(w.ps, p);
  }

  lemma DispatchKeeps(w: World, c: nat, p: nat)
    requires Inv(w) && Enabled(w, Dispatch(c, p))
    ensures Inv(Next(w, Dispatch(c, p)))
  {
    hide TreeInv, ForkInv, PidInv, WaitInv, CpuInv;
    var v := Next(w, Dispatch(c, p));
    if w.ps[p].point == AtWait {
      WaitersIdle(w, p);
    }
    assert Mild(w, v);
    MildTree(w, v);
    MildFork(w, v);
    MildPid(w, v);
    MildWait(w, v);
    EntersCpu(w, v, p, c);
  }

  /** yield() and sleep() */
  lemma GiveUpKeeps(w: World, step: Step)
    requires Inv(w) && Enabled(w, step) && (step.Yield? || step.Sleep?)
    ensures Inv(Next(w, step))
  {
    hide TreeInv, ForkInv, PidInv, WaitInv, CpuInv;
    var v := Next(w, step);
    assert Mild(w, v);
    MildTree(w, v);
    MildFork(w, v);
    MildPid(w, v);
    MildWait(w, v);
    LeavesCpu(w, v, step.p, step.c);
  }

  lemma WaitSleepKeeps(w: World, p: nat, c: nat)
    requires Inv(w) && Enabled(w, WaitSleep(p, c))
    ensures Inv(Next(w, WaitSleep(p, c)))
  {
    hide TreeInv, ForkInv, PidInv, WaitInv, CpuInv;
    var v := Next(w, WaitSleep(p, c));
    assert Mild(w, v);
    MildTree(w, v);
    MildFork(w, v);
    MildPid(w, v);
    forall i | 0 <= i < |v.ps| ensures !IsZombieOf(v.ps[i], p) {
      assert !IsZombieOf(w.ps[i], p);
    }
    MildWait(w, v);
    LeavesCpu(w, v, p, c);
  }

  /** wakeup() and kill() */
  lemma WakingKeeps(w: World, step: Step)
    requires Inv(w) && Enabled(w, step) && (step.Wakeup? || step.KillPid?)
    ensures Inv(Next(w, step))
  {
    hide TreeInv, ForkInv, PidInv, WaitInv, CpuInv;
    var v := Next(w, step);
    assert Mild(w, v);
    MildTree(w, v);
    MildFork(w, v);
    MildPid(w, v);
    MildWait(w, v);
    SameCpus(w, v);
  }

  // --------------------------------------------------------------- exit()

  /** What exit() leaves of another process: its parent may be init now, and it may have been woken. */
  ghost predicate Survives(w: World, p: nat, i: nat)
    requires p < |w.ps| && i < |w.ps|
  {
    var a, b := w.ps[i], Dead(w, p)[i];
    && b.pid == a.pid && b.act == a.act && b.point == a.point && b.chan == a.chan
    && b.parent == (if a.parent == Some(p) then Some(w.init) else a.parent)
    && (b.state == a.state || (a.state == SLEEPING && b.state == RUNNABLE))
    && (b.state == SLEEPING ==> w.ps[p].parent.Some? ==> a.chan != ProcChan(w.ps[p].parent.value))
    && (b.state == SLEEPING && a.chan == ProcChan(w.init) ==> !HasZombie(w.ps, p))
  }

  lemma OthersSurvive(w: World, p: nat, i: nat)
    requires p < |w.ps| && i < |w.ps| && i != p
    ensures Survives(w, p, i)
  {
    var woken := if w.ps[p].parent.Some? then Wakeup1(w.ps, ProcChan(w.ps[p].parent.value)) else w.ps;
    assert forall j :: 0 <= j < |w.ps| ==> IsZombieOf(woken[j], p) == IsZombieOf(w.ps[j], p);
    assert HasZombie(woken, p) == HasZombie(w.ps, p) by {
      if HasZombie(w.ps, p) {
        var j :| 0 <= j < |w.ps| && IsZombieOf(w.ps[j], p);
        assert IsZombieOf(woken[j], p);
      }
    }
  }

  /** The exiting process itself. */
  lemma TheDead(w: World, p: nat)
    requires p < |w.ps| && w.ps[p].state == RUNNING && w.ps[p].parent != Some(p)
    ensures Dead(w, p)[p] == w.ps[p].(state := ZOMBIE)
  {
  }

  lemma ExitTree(w: World, p: nat, c: nat)
    requires Inv(w) && Enabled(w, Exit(p, c))
    ensures TreeInv(Next(w, Exit(p, c))) && w.ps[p].parent != Some(p)
  {
    hide ForkInv, PidInv, WaitInv, CpuInv, Dead;
    var v := Next(w, Exit(p, c));
    assert ParentOk(w.ps, w.init, p) && ParentOk(w.ps, w.init, w.init);
    TheDead(w, p);
    OthersSurvive(w, p, w.init);
    forall i | 0 <= i < |v.ps| ensures ParentOk(v.ps, v.init, i) {
      assert ParentOk(w.ps, w.init, i);
      if i != p {
        OthersSurvive(w, p, i);
      }
      if v.ps[i].parent.Some? && v.ps[i].parent.value < |w.ps| && v.ps[i].parent.value != p {
        OthersSurvive(w, p, v.ps[i].parent.value);
      }
    }
  }

  lemma ExitFork(w: World, p: nat, c: nat)
    requires Inv(w) && Enabled(w, Exit(p, c)) && w.ps[p].parent != Some(p)
    ensures ForkInv(Next(w, Exit(p, c)))
  {
    hide TreeInv, PidInv, WaitInv, CpuInv, Dead;
    var v := Next(w, Exit(p, c));
    TheDead(w, p);
    forall i | 0 <= i < |v.ps| ensures ForkOk(v.ps, i) && v.ps[i].act == w.ps[i].act {
      assert ForkOk(w.ps, i);
      if i != p {
        OthersSurvive(w, p, i);
        if w.ps[i].act.Forking? {
          OthersSurvive(w, p, w.ps[i].act.np);
        }
      }
    }
  }

  lemma ExitPid(w: World, p: nat, c: nat)
    requires Inv(w) && Enabled(w, Exit(p, c)) && w.ps[p].parent != Some(p)
    ensures PidInv(Next(w, Exit(p, c)))
  {
    hide TreeInv, ForkInv, WaitInv, CpuInv, Dead;
    var v := Next(w, Exit(p, c));
    TheDead(w, p);
    forall i | 0 <= i < |v.ps| && i != p
      ensures && v.ps[i].pid == w.ps[i].pid
              && (v.ps[i].state == w.ps[i].state || (w.ps[i].state == SLEEPING && v.ps[i].state == RUNNABLE))
    {
      OthersSurvive(w, p, i);
    }
    forall i | 0 <= i < |v.ps| ensures PidOk(v, i) {
      assert PidOk(w, i) && PidOk(w, p);
    }
    forall x | x in v.exited && x !in v.reaped ensures DeadWith(v.ps, x) {
      if x == w.ps[p].pid {
        assert v.ps[p].state == ZOMBIE;
      } else {
        assert DeadWith(w.ps, x);
        var i :| 0 <= i < |w.ps| && w.ps[i].state == ZOMBIE && w.ps[i].pid == x;
        assert v.ps[i].state == ZOMBIE;
      }
    }
  }

  /** The parent is woken before the child is seen dead, and init for the dead children it inherits. */
  lemma ExitWait(w: World, p: nat, c: nat)
    requires Inv(w) && Enabled(w, Exit(p, c)) && w.ps[p].parent != Some(p)
    ensures WaitInv(Next(w, Exit(p, c)))
  {
    hide ForkInv, PidInv, CpuInv, Dead;
    var v := Next(w, Exit(p, c));
    TheDead(w, p);
    forall q | 0 <= q < |v.ps| ensures WaitOk(v.ps, q) {
      assert WaitOk(w.ps, q);
      if q != p {
        OthersSurvive(w, p, q);
      }
      if q != p && v.ps[q].state == SLEEPING && v.ps[q].chan.ProcChan? {
        forall i | 0 <= i < |v.ps| ensures !IsZombieOf(v.ps[i], q) {
          assert !IsZombieOf(w.ps[i], q);
          if i != p {
            OthersSurvive(w, p, i);
            assert q == w.init ==> !IsZombieOf(w.ps[i], p);
          }
        }
      }
    }
  }

  lemma ExitKeeps(w: World, p: nat, c: nat)
    requires Inv(w) && Enabled(w, Exit(p, c))
    ensures Inv(Next(w, Exit(p, c)))
  {
    hide TreeInv, ForkInv, PidInv, WaitInv, CpuInv, Dead;
    ExitTree(w, p, c);
    ExitFork(w, p, c);
    ExitPid(w, p, c);
    ExitWait(w, p, c);
    var v := Next(w, Exit(p, c));
    TheDead(w, p);
    forall i | 0 <= i < |w.ps| ensures v.ps[i].state == RUNNING <==> w.ps[i].state == RUNNING && i != p {
      if i != p {
        OthersSurvive(w, p, i);
      }
    }
    LeavesCpu(w, v, p, c);
  }

  // --------------------------------------------------------------- wait() reaps, fork() creates

  lemma ReapKeeps(w: World, p: nat, z: nat)
    requires Inv(w) && Enabled(w, Reap(p, z))
    ensures Inv(Next(w, Reap(p, z)))
    ensures w.ps[z].pid in w.exited && w.ps[z].pid !in w.reaped
  {
    hide CpuInv, TreeInv, ForkInv, PidInv, WaitInv;
    var v := Next(w, Reap(p, z));
    SameCpus(w, v);
    ReapTree(w, v, z);
    ReapFork(w, v, z);
    ReapPid(w, v, z);
    ReapWait(w, v, z);
  }

  ghost predicate Reaped(w: World, v: World, z: nat) {
    && z < |w.ps| && w.ps[z].state == ZOMBIE
    && v.ps == w.ps[z := w.ps[z].(pid := 0, parent := None, killed := false, state := UNUSED)]
    && v.init == w.init && v.nextpid == w.nextpid && v.exited == w.exited && v.reaped == w.reaped + {w.ps[z].pid}
  }

  lemma ReapTree(w: World, v: World, z: nat)
    requires Reaped(w, v, z) && TreeInv(w)
    ensures TreeInv(v)
  {
    forall i | 0 <= i < |v.ps| ensures ParentOk(v.ps, v.init, i) {
      assert ParentOk(w.ps, w.init, i);
    }
  }

  lemma ReapFork(w: World, v: World, z: nat)
    requires Reaped(w, v, z) && ForkInv(w)
    ensures ForkInv(v)
  {
    forall i | 0 <= i < |v.ps| ensures ForkOk(v.ps, i) {
      assert ForkOk(w.ps, i);
    }
  }

  lemma ReapPid(w: World, v: World, z: nat)
    requires Reaped(w, v, z) && PidInv(w)
    ensures PidInv(v) && w.ps[z].pid in w.exited && w.ps[z].pid !in w.reaped
  {
    assert PidOk(w, z);
    forall i | 0 <= i < |v.ps| ensures PidOk(v, i) {
      assert PidOk(w, i);
    }
    forall x | x in v.exited && x !in v.reaped ensures DeadWith(v.ps, x) {
      assert DeadWith(w.ps, x);
      var i :| 0 <= i < |w.ps| && w.ps[i].state == ZOMBIE && w.ps[i].pid == x;
      assert v.ps[i].state == ZOMBIE;
    }
  }

  lemma ReapWait(w: World, v: World, z: nat)
    requires Reaped(w, v, z) && WaitInv(w)
    ensures WaitInv(v)
  {
    forall q | 0 <= q < |v.ps| ensures WaitOk(v.ps, q) {
      assert WaitOk(w.ps, q);
    }
  }

  /** What a step of fork() by p does to the table: p is past EMBRYO, np is the new entry. */
  ghost predicate Forks(w: World, v: World, p: nat, np: nat) {
    && p < |w.ps| && np < |w.ps| && p != np && Alive(w.ps[p]) && w.ps[p].state == RUNNING
    && |v.ps| == |w.ps| && v.ps == w.ps[np := v.ps[np]][p := w.ps[p].(act := v.ps[p].act)]
    && v.cpus == w.cpus && v.lock == w.lock && v.init == w.init && v.exited == w.exited && v.reaped == w.reaped
    && v.ps[np].act == w.ps[np].act
    && (|| (&& w.ps[np].state == UNUSED && v.ps[np].state == EMBRYO && v.ps[np].pid == w.nextpid
            && v.nextpid == w.nextpid + 1 && v.ps[np].parent == w.ps[np].parent && w.ps[p].act == Idle
            && v.ps[p].act == Forking(np, false))
        || (&& w.ps[np].state == EMBRYO && v.nextpid == w.nextpid && v.ps[np].pid == w.ps[np].pid
            && w.ps[p].act.Forking? && w.ps[p].act.np == np
            && (|| (v.ps[np].state == UNUSED && w.ps[np].parent == v.ps[np].parent == None && v.ps[p].act == Idle)
                || (v.ps[np].state == EMBRYO && v.ps[np].parent == Some(p) && v.ps[p].act == Forking(np, true))
                || (&& v.ps[np].state == RUNNABLE && w.ps[np].parent == v.ps[np].parent == Some(p)
                    && v.ps[p].act == Idle))))
  }

  lemma ForkSteps(w: World, step: Step) returns (np: nat)
    requires ForkInv(w) && Enabled(w, step)
    requires step.Alloc? || step.ForkAbort? || step.ForkLink? || step.ForkDone?
    ensures Forks(w, Next(w, step), step.p, np)
  {
    assert ForkOk(w.ps, step.p);
    np := if step.Alloc? then step.np else w.ps[step.p].act.np;
  }

  lemma ForkKeeps(w: World, step: Step)
    requires Inv(w) && Enabled(w, step)
    requires step.Alloc? || step.ForkAbort? || step.ForkLink? || step.ForkDone?
    ensures Inv(Next(w, step))
  {
    hide Enabled, Next, CpuInv, TreeInv, ForkInv, PidInv, WaitInv;
    var v := Next(w, step);
    var np := ForkSteps(w, step);
    ForkTree(w, v, step.p, np);
    ForkFork(w, v, step.p, np);
    ForkPid(w, v, step.p, np);
    ForkWait(w, v, step.p, np);
    SameCpus(w, v);
    LockedElsewhere(w, step);
  }

  /** A process inside fork() is not the one scanning in wait(). */
  lemma LockedElsewhere(w: World, step: Step)
    requires LockInv(w) && Enabled(w, step)
    requires step.Alloc? || step.ForkAbort? || step.ForkLink? || step.ForkDone?
    ensures w.lock != Resumed(step.p) && w.lock != Scanning(step.p)
  {
  }

  lemma ForkTree(w: World, v: World, p: nat, np: nat)
    requires TreeInv(w) && Forks(w, v, p, np)
    ensures TreeInv(v)
  {
    forall i | 0 <= i < |v.ps| ensures ParentOk(v.ps, v.init, i) {
      assert ParentOk(w.ps, w.init, i);
    }
  }

  lemma ForkFork(w: World, v: World, p: nat, np: nat)
    requires ForkInv(w) && TreeInv(w) && Forks(w, v, p, np)
    ensures ForkInv(v)
  {
    hide TreeInv;
    UnusedParent(w, np);
    forall i | 0 <= i < |v.ps| ensures ForkOk(v.ps, i) && (v.ps[i].act.Forking? && i != p ==> v.ps[i].act.np != np) {
      assert ForkOk(w.ps, i);
    }
  }

  lemma UnusedParent(w: World, np: nat)
    requires TreeInv(w) && np < |w.ps|
    ensures w.ps[np].state == UNUSED ==> w.ps[np].parent == None
  {
    assert ParentOk(w.ps, w.init, np);
  }

  lemma ForkPid(w: World, v: World, p: nat, np: nat)
    requires PidInv(w) && Forks(w, v, p, np)
    ensures PidInv(v)
  {
    forall i | 0 <= i < |v.ps|
      ensures PidOk(v, i) && (i != np ==> v.ps[i].pid == w.ps[i].pid && v.ps[i].state == w.ps[i].state)
      ensures i != np && v.ps[i].state != UNUSED ==> v.ps[i].pid < w.nextpid
    {
      assert PidOk(w, i);
    }
    forall x | DeadWith(w.ps, x) ensures DeadWith(v.ps, x) {
      var i :| 0 <= i < |w.ps| && w.ps[i].state == ZOMBIE && w.ps[i].pid == x;
      assert v.ps[i].state == ZOMBIE;
    }
  }

  lemma ForkWait(w: World, v: World, p: nat, np: nat)
    requires WaitInv(w) && Forks(w, v, p, np)
    ensures WaitInv(v)
  {
    forall q | 0 <= q < |v.ps| ensures WaitOk(v.ps, q) {
      assert WaitOk(w.ps, q);
    }
  }

  // --------------------------------------------------------------- whole runs

  /** userinit() has made the first process runnable; nobody else exists. */
  ghost predicate Init(w: World) {
    && |w.ps| == NPROC && w.init < NPROC && w.nextpid > w.ps[w.init].pid > 0 && w.lock == Free
    && w.exited == {} && w.reaped == {}
    && w.ps[w.init].state == RUNNABLE && w.ps[w.init].act == Idle && w.ps[w.init].parent == None
    && (forall i ::
          0 <= i < NPROC && i != w.init ==> w.ps[i].state == UNUSED && w.ps[i].parent == None && w.ps[i].act == Idle)
    && (forall c :: 0 <= c < |w.cpus| ==> w.cpus[c] == None)
  }

  lemma InitInv(w: World)
    requires Init(w)
    ensures Inv(w)
  {
  }

  lemma NextKeeps(w: World, step: Step)
    requires Inv(w) && Enabled(w, step)
    ensures Inv(Next(w, step))
  {
    hide Inv, Next, Enabled;
    match step
    case SchedAcquire(_) => LockStepKeeps(w, step);
    case SchedRelease(_) => LockStepKeeps(w, step);
    case WaitStart(_) => LockStepKeeps(w, step);
    case WaitFail(_) => LockStepKeeps(w, step);
    case Return(_) => LockStepKeeps(w, step);
    case Dispatch(c, p) => DispatchKeeps(w, c, p);
    case Yield(_, _) => GiveUpKeeps(w, step);
    case Sleep(_, _, _) => GiveUpKeeps(w, step);
    case WaitSleep(p, c) => WaitSleepKeeps(w, p, c);
    case Wakeup(_) => WakingKeeps(w, step);
    case KillPid(_, _) => WakingKeeps(w, step);
    case Exit(p, c) => ExitKeeps(w, p, c);
    case Reap(p, z) => ReapKeeps(w, p, z);
    case Alloc(_, _) => ForkKeeps(w, step);
    case ForkAbort(_) => ForkKeeps(w, step);
    case ForkLink(_) => ForkKeeps(w, step);
    case ForkDone(_) => ForkKeeps(w, step);
  }

  ghost predicate Behavior(ws: seq<World>, steps: seq<Step>) {
    && |ws| == |steps| + 1 && Init(ws[0])
    && forall k :: 0 <= k < |steps| ==> Enabled(ws[k], steps[k]) && ws[k + 1] == Next(ws[k], steps[k])
  }

  lemma {:induction false} Reached(ws: seq<World>, steps: seq<Step>)
    requires Behavior(ws, steps)
    ensures Inv(ws[|steps|])
  {
    hide Inv;
    var n := |steps|;
    if n == 0 {
      InitInv(ws[0]);
    } else {
      hide Enabled, Next, Init;
      Reached(ws[..n], steps[..n - 1]);
      NextKeeps(ws[n - 1], steps[n - 1]);
    }
  }

  /** In every reachable state: a CPU's process is RUNNING, no two CPUs share one, every RUNNING process has
      one; the parent of every process past EMBRYO, but init, is alive (neither UNUSED nor ZOMBIE); and nobody
      sleeps in wait() while having a dead child. */
  lemma TableInvariants(ws: seq<World>, steps: seq<Step>, p: nat)
    requires Behavior(ws, steps) && p < |ws[|steps|].ps|
    ensures var w := ws[|steps|];
            && (w.ps[p].state == RUNNING <==> exists c :: On(w, c, p))
            && (forall c, d :: On(w, c, p) && On(w, d, p) ==> c == d)
            && (w.ps[p].state != UNUSED && w.ps[p].state != EMBRYO && p != w.init ==>
                  w.ps[p].parent.Some? && w.ps[p].parent.value < |w.ps| && Alive(w.ps[w.ps[p].parent.value]))
            && (w.ps[p].state == SLEEPING && w.ps[p].chan == ProcChan(p) ==> !HasZombie(w.ps, p))
  {
    Reached(ws, steps);
    var w := ws[|steps|];
    assert ParentOk(w.ps, w.init, p) && WaitOk(w.ps, p);
    if w.ps[p].state == RUNNING {
      assert Some(p) in w.cpus;
      var c :| 0 <= c < |w.cpus| && w.cpus[c] == Some(p);
      assert On(w, c, p);
    }
  }

  /** Each exited process is reaped exactly once: wait() only ever returns the pid of a child that exited and
      was never returned before, and one that exited and was not returned is still there as a ZOMBIE. */
  lemma ReapedOnce(ws: seq<World>, steps: seq<Step>)
    requires Behavior(ws, steps)
    ensures var w := ws[|steps|];
            && w.reaped <= w.exited
            && (forall x :: x in w.exited - w.reaped <==> DeadWith(w.ps, x))
            && (forall p: nat, z: nat :: Enabled(w, Reap(p, z)) ==>
                  w.ps[z].parent == Some(p) && w.ps[z].pid in w.exited && w.ps[z].pid !in w.reaped)
  {
    Reached(ws, steps);
    var w := ws[|steps|];
    hide CpuInv, TreeInv, ForkInv, WaitInv;
    forall x | DeadWith(w.ps, x) ensures x in w.exited - w.reaped {
      var i :| 0 <= i < |w.ps| && w.ps[i].state == ZOMBIE && w.ps[i].pid == x;
      assert PidOk(w, i);
    }
    forall p: nat, z: nat | Enabled(w, Reap(p, z))
      ensures w.ps[z].parent == Some(p) && w.ps[z].pid in w.exited && w.ps[z].pid !in w.reaped
    {
      assert PidOk(w, z);
    }
  }
}
