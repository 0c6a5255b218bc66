/**
  Pipes (pipe.c) with sleep() and wakeup() (proc.c), as interleaved steps of any number of
  readers, writers and closers of one pipe.  The pipe's lock and ptable.lock are explicit, so
  the window inside sleep() between releasing one and being asleep under the other is part
  of the model.
 */
module Pipe {
  import opened Common

  const PIPESIZE: nat := 512

  type Buffer = d: seq<byte> | |d| == PIPESIZE witness seq(PIPESIZE, i => 0)

  /** The system call a process is in: the bytes to write and how many are stored; the bytes wanted and
      those copied out; or which end is being closed. */
  datatype Call =
    | Write(buf: seq<byte>, i: nat)
    | Read(n: nat, got: seq<byte>, copying: bool)
    | Close(writeEnd: bool)

  /** Where in the call the process is. */
  datatype Pc =
    | Out
    | Acq(c: Call)        // about to acquire the pipe lock, on entry or after waking up
    | Run(c: Call)        // holds the lock, at the test of its loop
    | WakeFirst(c: Call)  // a writer that found the pipe full: wakeup(&p->nread), then sleep
    | ToSleep(c: Call)    // in sleep(), about to acquire ptable.lock
    | Both(c: Call)       // in sleep(), holding both locks
    | Falling(c: Call)    // in sleep(), has released the pipe lock, not yet SLEEPING
    | Asleep(c: Call)
    | WakeLast(c: Call)   // the final wakeup() of the call
    | Rel(c: Call)        // about to release the pipe lock and return

  datatype State = State(
    data: Buffer, nread: nat, nwrite: nat, readopen: bool, writeopen: bool,
    lk: Option<nat>, pt: Option<nat>, pcs: map<nat, Pc>, killed: set<nat>,
    readRef: bool, writeRef: bool,           // the file of each end is still referenced
    stored: seq<byte>, returned: seq<byte>)  // every byte stored and every byte copied out so far

  datatype Event =
    | Start(pid: nat, c: Call)
    | Go(pid: nat)
    | Kill(pid: nat)

  predicate IsFull(s: State) {
    s.nwrite == (s.nread + PIPESIZE) % UINT_LIMIT
  }

  predicate IsEmpty(s: State) {
    s.nread == s.nwrite
  }

  predicate HoldsPipe(pc: Pc) {
    pc.Run? || pc.WakeFirst? || pc.ToSleep? || pc.Both? || pc.WakeLast? || pc.Rel?
  }

  predicate HoldsPtable(pc: Pc) {
    pc.Both? || pc.Falling?
  }

  /** The calls that sleep on &p->nread (readers) and on &p->nwrite (writers). */
  predicate SleepsOnRead(c: Call) {
    c.Read?
  }

  /** The calls whose wakeup() is on &p->nread: writers, and the close of the write end. */
  predicate WakesRead(c: Call) {
    c.Write? || (c.Close? && c.writeEnd)
  }

  /** wakeup1(): everybody asleep on the channel becomes runnable, and will reacquire the pipe lock. */
  function Wakeup(pcs: map<nat, Pc>, readChan: bool): (r: map<nat, Pc>) {
    map p | p in pcs :: if pcs[p].Asleep? && SleepsOnRead(pcs[p].c) == readChan then Acq(pcs[p].c) else pcs[p]
  }

  /** What can happen next. */
  ghost predicate Possible(s: State, e: Event) {
    match e
    case Start(pid, c) =>
      && pid in s.pcs && s.pcs[pid] == Out
      && (match c
          case Write(buf, i) => i == 0 && s.writeRef
          case Read(n, got, copying) => got == [] && !copying && s.readRef
          case Close(true) => s.writeRef && forall p :: p in s.pcs && s.pcs[p] != Out ==> !s.pcs[p].c.Write?
          case Close(false) => s.readRef && forall p :: p in s.pcs && s.pcs[p] != Out ==> !s.pcs[p].c.Read?)
    case Go(pid) =>
      && pid in s.pcs && s.pcs[pid] != Out && !s.pcs[pid].Asleep?
      && (s.pcs[pid].Acq? ==> s.lk == None)
      && (s.pcs[pid].WakeFirst? || s.pcs[pid].ToSleep? || s.pcs[pid].WakeLast? ==> s.pt == None)
    case Kill(pid) => pid in s.pcs && s.pt == None
  }

  /** A killed writer finds the pipe full and gives up, without the wakeup() that a writer about to sleep makes, while
      a reader is asleep or on its way to be. */
  ghost predicate Lossy(s: State, e: Event) {
    && e.Go? && e.pid in s.pcs && s.pcs[e.pid].Run? && GivesUp(s, e.pid, s.pcs[e.pid].c)
    && exists p :: p in s.pcs && Drowsy(s.pcs[p])
  }

  /** The branch of pipewrite() that returns -1 because the writer is killed. */
  ghost predicate GivesUp(s: State, pid: nat, c: Call) {
    c.Write? && c.i < |c.buf| && IsFull(s) && s.readopen && pid in s.killed
  }

  ghost predicate Drowsy(pc: Pc) {
    (pc.Asleep? || pc.Falling?) && pc.c.Read?
  }

  /** What can happen next without a killed writer giving up on readers that sleep. */
  ghost predicate Enabled(s: State, e: Event) {
    Possible(s, e) && !Lossy(s, e)
  }

  function To(s: State, pid: nat, pc: Pc): (r: State) {
    s.(pcs := s.pcs[pid := pc])
  }

  /** One turn of the loop in pipewrite(). */
  function WriterRuns(s: State, pid: nat, buf: seq<byte>, i: nat): (r: State)
  {
    if i >= |buf| then To(s, pid, WakeLast(Write(buf, i)))
    else if IsFull(s) then
      if !s.readopen || pid in s.killed then To(s, pid, Rel(Write(buf, i)))
      else To(s, pid, WakeFirst(Write(buf, i)))
    else
      To(s, pid, Run(Write(buf, i + 1)))
      .(data := s.data[s.nwrite % PIPESIZE := buf[i]], nwrite := (s.nwrite + 1) % UINT_LIMIT,
        stored := s.stored + [buf[i]])
  }

  /** One turn of the loops in piperead(). */
  function ReaderRuns(s: State, pid: nat, n: nat, got: seq<byte>, copying: bool): (r: State)
  {
    if !copying then
      if IsEmpty(s) && s.writeopen then
        if pid in s.killed then To(s, pid, Rel(Read(n, got, false))) else To(s, pid, ToSleep(Read(n, got, false)))
      else To(s, pid, Run(Read(n, got, true)))
    else if |got| >= n || IsEmpty(s) then To(s, pid, WakeLast(Read(n, got, true)))
    else
      var b := s.data[s.nread % PIPESIZE];
      To(s, pid, Run(Read(n, got + [b], true)))
      .(nread := (s.nread + 1) % UINT_LIMIT, returned := s.returned + [b])
  }

  function CloserRuns(s: State, pid: nat, writeEnd: bool): (r: State) {
    var t := To(s, pid, WakeLast(Close(writeEnd)));
    if writeEnd then t.(writeopen := false) else t.(readopen := false)
  }

  /** The next action of a process inside a call. */
  function Advance(s: State, pid: nat): (r: State)
    requires pid in s.pcs
  {
    match s.pcs[pid]
    case Out => s
    case Asleep(c) => s
    case Acq(c) => To(s, pid, Run(c)).(lk := Some(pid))
    case Run(c) =>
      (match c
       case Write(buf, i) => WriterRuns(s, pid, buf, i)
       case Read(n, got, copying) => ReaderRuns(s, pid, n, got, copying)
       case Close(w) => CloserRuns(s, pid, w))
    case WakeFirst(c) => s.(pcs := Wakeup(s.pcs, WakesRead(c))[pid := ToSleep(c)])
    case ToSleep(c) => To(s, pid, Both(c)).(pt := Some(pid))
    case Both(c) => To(s, pid, Falling(c)).(lk := None)
    case Falling(c) => To(s, pid, Asleep(c)).(pt := None)
    case WakeLast(c) => s.(pcs := Wakeup(s.pcs, WakesRead(c))[pid := Rel(c)])
    case Rel(c) => To(s, pid, Out).(lk := None)
  }

  ghost function Next(s: State, e: Event): (r: State)
    requires Possible(s, e)
  {
    match e
    case Start(pid, c) =>
      var t := To(s, pid, Acq(c));
      if c.Close? then (if c.writeEnd then t.(writeRef := false) else t.(readRef := false)) else t
    case Go(pid) => Advance(s, pid)
    case Kill(pid) =>
      var t := s.(killed := s.killed + {pid});
      if s.pcs[pid].Asleep? then To(t, pid, Acq(s.pcs[pid].c)) else t
  }

  // --------------------------------------------------------------- FIFO

  /** The counters differ by the number n of bytes in flight, modulo 2^32. */
  ghost predicate Counted(nread: nat, nwrite: nat, n: int) {
    nread < UINT_LIMIT && 0 <= n <= PIPESIZE && nwrite == (nread + n) % UINT_LIMIT
  }

  /** The bytes in flight sit in the ring buffer in order. */
  ghost predicate Placed(data: Buffer, nread: nat, flight: seq<byte>) {
    forall j :: 0 <= j < |flight| ==> data[Slot(nread, j)] == flight[j]
  }

  /** What was copied out comes first in what was stored, and the rest is in the buffer, whatever the 32-bit
      counters have wrapped to. */
  ghost predicate Fifo(s: State) {
    && s.returned <= s.stored
    && Counted(s.nread, s.nwrite, |s.stored| - |s.returned|)
    && Placed(s.data, s.nread, s.stored[|s.returned|..])
  }

  /** The place of the j-th byte in flight. */
  function Slot(nread: nat, j: nat): (r: nat)
    ensures r < PIPESIZE
  {
    (nread + j) % PIPESIZE
  }

  /** Wrapping a counter at 2^32 does not move its place, since PIPESIZE divides 2^32. */
  lemma SlotWraps(nread: nat, j: nat, k: nat)
    ensures Slot((nread + j) % UINT_LIMIT, k) == Slot(nread, j + k)
    ensures (nread + j) % UINT_LIMIT % PIPESIZE == Slot(nread, j)
  {
    var q := (nread + j) / UINT_LIMIT;
    assert nread + j == (nread + j) % UINT_LIMIT + PIPESIZE * (0x80_0000 * q);
    ModMultiple((nread + j) % UINT_LIMIT + k, 0x80_0000 * q);
    ModMultiple((nread + j) % UINT_LIMIT, 0x80_0000 * q);
  }

  lemma {:induction false} ModMultiple(x: nat, q: nat)
    ensures (x + PIPESIZE * q) % PIPESIZE == x % PIPESIZE
  {
    if q > 0 {
      ModMultiple(x, q - 1);
    }
  }

  /** Fewer than PIPESIZE bytes in flight occupy different places. */
  lemma SlotsDiffer(nread: nat, j: nat, k: nat)
    requires j < k < j + PIPESIZE
    ensures Slot(nread, j) != Slot(nread, k)
  {
  }

  lemma FullEmpty(s: State)
    requires Fifo(s)
    ensures IsFull(s) <==> |s.stored| - |s.returned| == PIPESIZE
    ensures IsEmpty(s) <==> s.stored == s.returned
  {
    hide Placed;
  }

  lemma CountStore(nread: nat, nwrite: nat, n: nat)
    requires Counted(nread, nwrite, n) && n < PIPESIZE
    ensures Counted(nread, (nwrite + 1) % UINT_LIMIT, n + 1)
    ensures nwrite % PIPESIZE == Slot(nread, n)
  {
    SlotWraps(nread, n, 0);
  }

  lemma CountCopy(nread: nat, nwrite: nat, n: nat)
    requires Counted(nread, nwrite, n) && n > 0
    ensures Counted((nread + 1) % UINT_LIMIT, nwrite, n - 1)
    ensures nread % PIPESIZE == Slot(nread, 0)
  {
  }

  lemma PlaceStore(data: Buffer, nread: nat, flight: seq<byte>, b: byte)
    requires Placed(data, nread, flight) && |flight| < PIPESIZE
    ensures Placed(data[Slot(nread, |flight|) := b], nread, flight + [b])
  {
    hide Slot;
    forall j | 0 <= j < |flight| ensures data[Slot(nread, |flight|) := b][Slot(nread, j)] == flight[j] {
      SlotsDiffer(nread, j, |flight|);
    }
  }

  lemma PlaceCopy(data: Buffer, nread: nat, flight: seq<byte>)
    requires Placed(data, nread, flight) && flight != []
    ensures data[Slot(nread, 0)] == flight[0] && Placed(data, (nread + 1) % UINT_LIMIT, flight[1..])
  {
    hide Slot;
    forall j | 0 <= j < |flight| - 1 ensures data[Slot((nread + 1) % UINT_LIMIT, j)] == flight[1..][j] {
      SlotWraps(nread, 1, j);
    }
  }

  function Stored(s: State, b: byte): (r: State) {
    s.(data := s.data[s.nwrite % PIPESIZE := b], nwrite := (s.nwrite + 1) % UINT_LIMIT, stored := s.stored + [b])
  }

  /** Storing a byte keeps the order. */
  lemma StoreFifo(s: State, b: byte)
    requires Fifo(s) && !IsFull(s)
    ensures Fifo(Stored(s, b))
  {
    FullEmpty(s);
    hide Counted, Placed, Slot;
    var n := |s.stored| - |s.returned|;
    CountSize(s);
    CountStore(s.nread, s.nwrite, n);
    PlaceStore(s.data, s.nread, s.stored[|s.returned|..], b);
    assert (s.stored + [b])[|s.returned|..] == s.stored[|s.returned|..] + [b];
  }

  lemma CountSize(s: State)
    requires Fifo(s)
    ensures 0 <= |s.stored| - |s.returned| <= PIPESIZE
  {
    hide Placed;
  }

  /** Copying a byte out takes the oldest one. */
  lemma CopyFifo(s: State)
    requires Fifo(s) && !IsEmpty(s)
    ensures Fifo(s.(nread := (s.nread + 1) % UINT_LIMIT, returned := s.returned + [s.data[s.nread % PIPESIZE]]))
  {
    FullEmpty(s);
    hide Counted, Placed, Slot;
    var r := |s.returned|;
    CountSize(s);
    CountCopy(s.nread, s.nwrite, |s.stored| - r);
    PlaceCopy(s.data, s.nread, s.stored[r..]);
    assert s.stored[r + 1..] == s.stored[r..][1..];
    assert s.returned + [s.stored[r]] == s.stored[..r + 1];
  }

  // --------------------------------------------------------------- the invariant

  ghost predicate Locks(s: State) {
    && (forall p :: p in s.pcs && HoldsPipe(s.pcs[p]) ==> s.lk == Some(p))
    && (s.lk.Some? ==> s.lk.value in s.pcs && HoldsPipe(s.pcs[s.lk.value]))
    && (forall p :: p in s.pcs && HoldsPtable(s.pcs[p]) ==> s.pt == Some(p))
    && (s.pt.Some? ==> s.pt.value in s.pcs && HoldsPtable(s.pcs[s.pt.value]))
  }

  /** A process is in a call only while its end of the pipe is referenced. */
  ghost predicate EndOf(s: State, p: nat, c: Call) {
    match c
    case Write(buf, i) => s.writeRef && i <= |buf|
    case Read(n, got, copying) => s.readRef && |got| <= n && (!copying ==> got == [])
    case Close(true) => !s.writeRef
    case Close(false) => !s.readRef
  }

  ghost predicate Ends(s: State) {
    && (s.writeRef ==> s.writeopen) && (s.readRef ==> s.readopen)
    && (forall p :: p in s.pcs && s.pcs[p] != Out ==> EndOf(s, p, s.pcs[p].c))
  }

  /** The holder of the pipe lock is going to wake the channel before it lets the lock go. */
  ghost predicate Pending(s: State, readChan: bool) {
    && s.lk.Some? && s.lk.value in s.pcs
    && match s.pcs[s.lk.value]
       case Run(c) => if readChan then c.Write? else c.Read? && c.copying
       case WakeFirst(c) => readChan
       case WakeLast(c) => WakesRead(c) == readChan
       case _ => false
  }

  /** The reason for which a call sleeps. */
  ghost predicate MustWait(s: State, c: Call) {
    match c
    case Write(_, _) => IsFull(s) && s.readopen
    case Read(_, _, copying) => IsEmpty(s) && s.writeopen && !copying
    case Close(_) => false
  }

  /** A process on its way to sleep has its reason; one that gave up the lock has it or will be woken. */
  ghost predicate Waits(s: State, pc: Pc) {
    match pc
    case WakeFirst(c) => c.Write? && MustWait(s, c)
    case ToSleep(c) => MustWait(s, c)
    case Both(c) => MustWait(s, c)
    case Falling(c) => !c.Close? && (c.Read? ==> !c.copying) && (MustWait(s, c) || Pending(s, SleepsOnRead(c)))
    case Asleep(c) => !c.Close? && (c.Read? ==> !c.copying) && (MustWait(s, c) || Pending(s, SleepsOnRead(c)))
    case _ => true
  }

  ghost predicate Inv(s: State) {
    Fifo(s) && Locks(s) && Ends(s) && AllWait(s)
  }

  // --------------------------------------------------------------- what a step leaves alone

  lemma FifoFrame(s: State, t: State)
    requires Fifo(s) && t.data == s.data && t.nread == s.nread && t.nwrite == s.nwrite
    requires t.stored == s.stored && t.returned == s.returned
    ensures Fifo(t)
  {
  }

  ghost predicate SamePipe(s: State, t: State) {
    t.nread == s.nread && t.nwrite == s.nwrite && t.readopen == s.readopen && t.writeopen == s.writeopen
  }

  /** No wakeup that was to come is lost. */
  ghost predicate KeepsPending(s: State, t: State) {
    (Pending(s, true) ==> Pending(t, true)) && (Pending(s, false) ==> Pending(t, false))
  }

  lemma WaitsFrame(s: State, t: State, pc: Pc)
    requires Waits(s, pc) && SamePipe(s, t) && KeepsPending(s, t)
    ensures Waits(t, pc)
  {
  }

  /** A step of a process that does not hold the pipe lock leaves the pending wakeups. */
  lemma PendingFrame(s: State, t: State, pid: nat)
    requires Locks(s) && pid in s.pcs && !HoldsPipe(s.pcs[pid])
    requires t.lk == s.lk && t.pcs.Keys == s.pcs.Keys && forall p :: p in s.pcs && p != pid ==> t.pcs[p] == s.pcs[p]
    ensures KeepsPending(s, t)
  {
  }

  ghost predicate AllWait(s: State) {
    forall p :: p in s.pcs ==> Waits(s, s.pcs[p])
  }

  lemma AllWaitFrame(s: State, t: State, pid: nat)
    requires AllWait(s) && SamePipe(s, t) && KeepsPending(s, t)
    requires t.pcs.Keys == s.pcs.Keys && forall p :: p in s.pcs && p != pid ==> t.pcs[p] == s.pcs[p]
    requires pid in s.pcs && Waits(t, t.pcs[pid])
    ensures AllWait(t)
  {
    hide Waits, KeepsPending, SamePipe;
    forall p | p in t.pcs ensures Waits(t, t.pcs[p]) {
      if p != pid {
        WaitsFrame(s, t, s.pcs[p]);
      }
    }
  }

  // --------------------------------------------------------------- every step keeps it

  lemma StartKeeps(s: State, pid: nat, c: Call)
    requires Inv(s) && Enabled(s, Start(pid, c))
    ensures Inv(Next(s, Start(pid, c)))
  {
    hide Lossy, Fifo, Waits, KeepsPending;
    var t := Next(s, Start(pid, c));
    FifoFrame(s, t);
    PendingFrame(s, t, pid);
    WaitsTrivially(t, Acq(c));
    AllWaitFrame(s, t, pid);
  }

  lemma WaitsTrivially(t: State, pc: Pc)
    requires pc.Out? || pc.Acq? || pc.Run? || pc.WakeLast? || pc.Rel?
    ensures Waits(t, pc)
  {
  }

  lemma KillKeeps(s: State, pid: nat)
    requires Inv(s) && Enabled(s, Kill(pid))
    ensures Inv(Next(s, Kill(pid)))
  {
    hide Lossy, Fifo, Waits, KeepsPending, Ends, Next, Locks;
    var t := Next(s, Kill(pid));
    OutsideStep(s, Kill(pid));
    FifoFrame(s, t);
    KillEnds(s, pid);
    NextLocks(s, Kill(pid));
    if s.pcs[pid].Asleep? {
      PendingFrame(s, t, pid);
      WaitsTrivially(t, t.pcs[pid]);
    } else {
      assert t.pcs == s.pcs;
      SamePending(s, t);
      WaitsFrame(s, t, s.pcs[pid]);
    }
    AllWaitFrame(s, t, pid);
  }

  lemma KillEnds(s: State, pid: nat)
    requires Ends(s) && Possible(s, Kill(pid))
    ensures Ends(Next(s, Kill(pid)))
  {
    var t := Next(s, Kill(pid));
    forall p | p in t.pcs && t.pcs[p] != Out ensures EndOf(t, p, t.pcs[p].c) {
      assert EndOf(s, p, s.pcs[p].c);
    }
  }

  lemma SamePending(s: State, t: State)
    requires t.lk == s.lk && t.pcs == s.pcs
    ensures KeepsPending(s, t)
  {
  }

  lemma AcquireKeeps(s: State, pid: nat)
    requires Inv(s) && Enabled(s, Go(pid)) && s.pcs[pid].Acq?
    ensures Inv(Next(s, Go(pid)))
  {
    hide Lossy, Fifo, Waits;
    var t := Next(s, Go(pid));
    FifoFrame(s, t);
    WaitsTrivially(t, t.pcs[pid]);
    AllWaitFrame(s, t, pid);
  }

  lemma ReleaseKeeps(s: State, pid: nat)
    requires Inv(s) && Enabled(s, Go(pid)) && s.pcs[pid].Rel?
    ensures Inv(Next(s, Go(pid)))
  {
    hide Lossy, Fifo, Waits;
    var t := Next(s, Go(pid));
    FifoFrame(s, t);
    WaitsTrivially(t, t.pcs[pid]);
    AllWaitFrame(s, t, pid);
  }

  /** The steps of sleep(): ptable.lock taken, the pipe lock dropped, asleep. */
  lemma SleepStepKeeps(s: State, pid: nat)
    requires Inv(s) && Enabled(s, Go(pid))
    requires s.pcs[pid].ToSleep? || s.pcs[pid].Both? || s.pcs[pid].Falling?
    ensures Inv(Next(s, Go(pid)))
  {
    hide Lossy, Fifo, AllWait;
    var t := Next(s, Go(pid));
    FifoFrame(s, t);
    SleepWaits(s, pid);
    hide Waits, KeepsPending;
    AllWaitFrame(s, t, pid);
  }

  lemma SleepWaits(s: State, pid: nat)
    requires Locks(s) && AllWait(s) && Enabled(s, Go(pid))
    requires s.pcs[pid].ToSleep? || s.pcs[pid].Both? || s.pcs[pid].Falling?
    ensures var t := Next(s, Go(pid)); Waits(t, t.pcs[pid]) && KeepsPending(s, t)
  {
    assert Waits(s, s.pcs[pid]);
  }

  /** wakeup() leaves nobody asleep on the channel; nobody is falling asleep, as ptable.lock is free. */
  lemma WakeStepKeeps(s: State, pid: nat)
    requires Inv(s) && Enabled(s, Go(pid))
    requires s.pcs[pid].WakeFirst? || s.pcs[pid].WakeLast?
    ensures Inv(Next(s, Go(pid)))
  {
    hide Lossy, Fifo, AllWait;
    var t := Next(s, Go(pid));
    FifoFrame(s, t);
    WakeWaits(s, pid);
  }

  lemma WakeWaits(s: State, pid: nat)
    requires Inv(s) && Enabled(s, Go(pid))
    requires s.pcs[pid].WakeFirst? || s.pcs[pid].WakeLast?
    ensures AllWait(Next(s, Go(pid)))
  {
    hide Lossy, Fifo, Ends;
    var t := Next(s, Go(pid));
    var chan := WakesRead(s.pcs[pid].c);
    assert Waits(s, s.pcs[pid]);
    assert !Pending(s, !chan);
    forall p | p in t.pcs ensures Waits(t, t.pcs[p]) {
      assert Waits(s, s.pcs[p]);
    }
  }

  lemma WriterRunKeeps(s: State, pid: nat)
    requires Inv(s) && Enabled(s, Go(pid)) && s.pcs[pid].Run? && s.pcs[pid].c.Write?
    ensures Inv(Next(s, Go(pid)))
  {
    hide Fifo, AllWait;
    WriterFifo(s, pid);
    WriterWaits(s, pid);
  }

  lemma WriterFifo(s: State, pid: nat)
    requires Fifo(s) && Possible(s, Go(pid)) && s.pcs[pid].Run? && s.pcs[pid].c.Write?
    ensures Fifo(Next(s, Go(pid)))
  {
    hide Fifo;
    var c := s.pcs[pid].c;
    var t := Next(s, Go(pid));
    if c.i < |c.buf| && !IsFull(s) {
      StoreFifo(s, c.buf[c.i]);
      FifoFrame(Stored(s, c.buf[c.i]), t);
    } else {
      FifoFrame(s, t);
    }
  }

  lemma WriterWaits(s: State, pid: nat)
    requires Inv(s) && Enabled(s, Go(pid)) && s.pcs[pid].Run? && s.pcs[pid].c.Write?
    ensures AllWait(Next(s, Go(pid)))
  {
    hide Fifo;
    var t := Next(s, Go(pid));
    assert !Pending(s, false);
    forall p | p in t.pcs ensures Waits(t, t.pcs[p]) {
      assert Waits(s, s.pcs[p]);
    }
  }

  lemma ReaderFifo(s: State, pid: nat)
    requires Fifo(s) && Possible(s, Go(pid)) && s.pcs[pid].Run? && s.pcs[pid].c.Read?
    ensures Fifo(Next(s, Go(pid)))
  {
    hide Fifo;
    var c := s.pcs[pid].c;
    var t := Next(s, Go(pid));
    if c.copying && |c.got| < c.n && !IsEmpty(s) {
      CopyFifo(s);
      FifoFrame(s.(nread := (s.nread + 1) % UINT_LIMIT, returned := s.returned + [s.data[s.nread % PIPESIZE]]), t);
    } else {
      FifoFrame(s, t);
    }
  }

  lemma ReaderWaits(s: State, pid: nat)
    requires Inv(s) && Enabled(s, Go(pid)) && s.pcs[pid].Run? && s.pcs[pid].c.Read?
    ensures AllWait(Next(s, Go(pid)))
  {
    hide Lossy, Fifo;
    var t := Next(s, Go(pid));
    assert !Pending(s, true);
    forall p | p in t.pcs ensures Waits(t, t.pcs[p]) {
      assert Waits(s, s.pcs[p]);
    }
  }

  /** A step under the pipe lock that keeps holding it. */
  lemma ReaderLocks(s: State, pid: nat)
    requires Locks(s) && Ends(s) && Enabled(s, Go(pid)) && s.pcs[pid].Run? && s.pcs[pid].c.Read?
    ensures Locks(Next(s, Go(pid))) && Ends(Next(s, Go(pid)))
  {
    hide Lossy;
    var t := Next(s, Go(pid));
    assert HoldsPipe(t.pcs[pid]) && !HoldsPtable(t.pcs[pid]);
    assert EndOf(s, pid, s.pcs[pid].c);
    assert EndOf(t, pid, t.pcs[pid].c);
  }

  lemma ReaderRunKeeps(s: State, pid: nat)
    requires Inv(s) && Enabled(s, Go(pid)) && s.pcs[pid].Run? && s.pcs[pid].c.Read?
    ensures Inv(Next(s, Go(pid)))
  {
    hide Lossy, Fifo, AllWait;
    ReaderFifo(s, pid);
    ReaderLocks(s, pid);
    ReaderWaits(s, pid);
  }

  lemma CloserWaits(s: State, pid: nat)
    requires Inv(s) && Enabled(s, Go(pid)) && s.pcs[pid].Run? && s.pcs[pid].c.Close?
    ensures AllWait(Next(s, Go(pid)))
  {
    hide Lossy, Fifo;
    var t := Next(s, Go(pid));
    assert !Pending(s, true) && !Pending(s, false);
    forall p | p in t.pcs ensures Waits(t, t.pcs[p]) {
      assert Waits(s, s.pcs[p]);
    }
  }

  lemma CloserRunKeeps(s: State, pid: nat)
    requires Inv(s) && Enabled(s, Go(pid)) && s.pcs[pid].Run? && s.pcs[pid].c.Close?
    ensures Inv(Next(s, Go(pid)))
  {
    hide Lossy, Fifo, AllWait;
    FifoFrame(s, Next(s, Go(pid)));
    CloserWaits(s, pid);
  }

  lemma NextKeeps(s: State, e: Event)
    requires Inv(s) && Enabled(s, e)
    ensures Inv(Next(s, e))
  {
    hide Inv, Next;
    match e
    case Start(pid, c) => StartKeeps(s, pid, c);
    case Kill(pid) => KillKeeps(s, pid);
    case Go(pid) =>
      match s.pcs[pid]
      case Acq(_) => AcquireKeeps(s, pid);
      case Rel(_) => ReleaseKeeps(s, pid);
      case ToSleep(_) => SleepStepKeeps(s, pid);
      case Both(_) => SleepStepKeeps(s, pid);
      case Falling(_) => SleepStepKeeps(s, pid);
      case WakeFirst(_) => WakeStepKeeps(s, pid);
      case WakeLast(_) => WakeStepKeeps(s, pid);
      case Run(c) =>
        match c
        case Write(_, _) => WriterRunKeeps(s, pid);
        case Read(_, _, _) => ReaderRunKeeps(s, pid);
        case Close(_) => CloserRunKeeps(s, pid);
  }

  // --------------------------------------------------------------- whole runs

  /** pipealloc() for processes none of which is in the pipe yet. */
  ghost predicate Init(s: State) {
    && s.nread == 0 && s.nwrite == 0 && s.readopen && s.writeopen && s.readRef && s.writeRef
    && s.lk == None && s.pt == None && s.stored == [] && s.returned == []
    && forall p :: p in s.pcs ==> s.pcs[p] == Out
  }

  /** Any run. */
  ghost predicate AnyRun(ss: seq<State>, events: seq<Event>) {
    && |ss| == |events| + 1 && Init(ss[0])
    && forall k :: 0 <= k < |events| ==> Possible(ss[k], events[k]) && ss[k + 1] == Next(ss[k], events[k])
  }

  /** No step of the run is lossy. */
  ghost predicate NoneLossy(ss: seq<State>, events: seq<Event>)
    requires |events| <= |ss|
  {
    forall k :: 0 <= k < |events| ==> !Lossy(ss[k], events[k])
  }

  lemma {:induction false} Reached(ss: seq<State>, events: seq<Event>)
    requires AnyRun(ss, events) && NoneLossy(ss, events)
    ensures Inv(ss[|events|])
  {
    hide Inv;
    var n := |events|;
    if n == 0 {
      InitInv(ss[0]);
    } else {
      hide Possible, Lossy, Next, Init;
      Reached(ss[..n], events[..n - 1]);
      NextKeeps(ss[n - 1], events[n - 1]);
    }
  }

  lemma InitInv(s: State)
    requires Init(s)
    ensures Inv(s)
  {
  }

  /** No lost wakeup: in every interleaving without a lossy step, whenever the pipe lock is free, a reader sleeps only
      on an empty pipe whose write end is open, and a writer only on a full pipe whose read end is open. */
  lemma NoLostWakeup(ss: seq<State>, events: seq<Event>, p: nat)
    requires AnyRun(ss, events) && NoneLossy(ss, events)
    requires ss[|events|].lk == None && p in ss[|events|].pcs && ss[|events|].pcs[p].Asleep?
    ensures var s := ss[|events|];
            match s.pcs[p].c
            case Read(_, _, _) => IsEmpty(s) && s.writeopen
            case Write(_, _) => IsFull(s) && s.readopen
            case Close(_) => false
  {
    Reached(ss, events);
    hide AnyRun, Fifo;
    var s := ss[|events|];
    assert Waits(s, s.pcs[p]);
  }

  /** That condition is exact: a run has no state in which somebody sleeps, or goes to sleep, without a reason and
      without a wakeup() to come, if and only if it has no lossy step. */
  lemma ExactlyLossy(ss: seq<State>, events: seq<Event>)
    requires AnyRun(ss, events)
    ensures (forall k :: 0 <= k <= |events| ==> AllWait(ss[k])) <==> NoneLossy(ss, events)
  {
    hide Init, Possible, Next, Fifo, AllWait, Lossy;
    if NoneLossy(ss, events) {
      forall k | 0 <= k <= |events| ensures AllWait(ss[k]) {
        Reached(ss[..k + 1], events[..k]);
      }
    } else {
      var k := FirstLossy(ss, events);
      Reached(ss[..k + 1], events[..k]);
      LossyStrands(ss[k], events[k]);
      var i := k + 1;
      assert !AllWait(ss[i]);
    }
  }

  /** The first lossy step of a run that has one. */
  lemma FirstLossy(ss: seq<State>, events: seq<Event>) returns (k: nat)
    requires |ss| == |events| + 1 && !NoneLossy(ss, events)
    ensures k < |events| && Lossy(ss[k], events[k]) && NoneLossy(ss[..k + 1], events[..k])
  {
    hide Lossy;
    k := 0;
    while !Lossy(ss[k], events[k])
      invariant k < |events| && forall j :: 0 <= j < k ==> !Lossy(ss[j], events[j])
      decreases |events| - k
    {
      k := k + 1;
    }
  }

  /** A lossy step leaves a reader asleep, or going to sleep, on a full pipe, and nobody is going to wake it. */
  lemma LossyStrands(s: State, e: Event)
    requires Fifo(s) && Locks(s) && Possible(s, e) && Lossy(s, e)
    ensures !AllWait(Next(s, e))
  {
    var p :| p in s.pcs && Drowsy(s.pcs[p]);
    var t := Next(s, e);
    FullEmpty(s);
    hide Fifo;
    assert t.pcs[p] == s.pcs[p] && !IsEmpty(t);
    assert t.lk == Some(e.pid) && t.pcs[e.pid].Rel?;
    assert !Waits(t, t.pcs[p]);
  }

  /** And in at most two steps more the reader is asleep on the full pipe with the pipe lock free. */
  lemma LossyLosesWakeup(ss: seq<State>, events: seq<Event>, e: Event)
    returns (ss': seq<State>, events': seq<Event>, p: nat)
    requires AnyRun(ss, events) && NoneLossy(ss, events) && Possible(ss[|events|], e) && Lossy(ss[|events|], e)
    ensures AnyRun(ss', events') && ss + [Next(ss[|events|], e)] <= ss' && |events'| <= |events| + 3
    ensures var s := ss'[|events'|];
            s.lk == None && p in s.pcs && s.pcs[p].Asleep? && s.pcs[p].c.Read? && IsFull(s) && !IsEmpty(s)
  {
    Reached(ss, events);
    var s0 := ss[|events|];
    FullEmpty(s0);
    p :| p in s0.pcs && Drowsy(s0.pcs[p]);
    ghost var pid := e.pid;
    var s1 := Next(s0, e);
    hide AnyRun, Fifo;
    ss', events' := Then(ss, events, e, s1);
    assert s1.pcs[p] == s0.pcs[p] && s1.pcs[pid].Rel? && p != pid;
    var s2 := s1;
    if s1.pcs[p].Falling? {
      s2 := Next(s1, Go(p));
      ss', events' := Then(ss', events', Go(p), s2);
    }
    ss', events' := Then(ss', events', Go(pid), Next(s2, Go(pid)));
  }

  lemma NextFifo(s: State, e: Event)
    requires Fifo(s) && Possible(s, e)
    ensures Fifo(Next(s, e))
  {
    hide Fifo, Wakeup;
    match e
    case Start(pid, c) => FifoFrame(s, Next(s, e));
    case Kill(pid) => FifoFrame(s, Next(s, e));
    case Go(pid) => GoFifo(s, pid);
  }

  lemma GoFifo(s: State, pid: nat)
    requires Fifo(s) && Possible(s, Go(pid))
    ensures Fifo(Next(s, Go(pid)))
  {
    hide Fifo, Wakeup, WriterRuns, ReaderRuns;
    var pc := s.pcs[pid];
    if pc.Run? && pc.c.Write? {
      WriterFifo(s, pid);
    } else if pc.Run? && pc.c.Read? {
      ReaderFifo(s, pid);
    } else {
      FifoFrame(s, Next(s, Go(pid)));
    }
  }

  lemma {:induction false} FifoReached(ss: seq<State>, events: seq<Event>)
    requires AnyRun(ss, events)
    ensures Fifo(ss[|events|])
  {
    var n := |events|;
    if n > 0 {
      hide Possible, Next, Fifo;
      FifoReached(ss[..n], events[..n - 1]);
      NextFifo(ss[n - 1], events[n - 1]);
    }
  }

  /** FIFO: over every interleaving the bytes copied out are a prefix of the bytes stored, in order, with at
      most PIPESIZE in between, whatever the 32-bit counters have wrapped to. */
  lemma FirstInFirstOut(ss: seq<State>, events: seq<Event>)
    requires AnyRun(ss, events)
    ensures var s := ss[|events|];
            s.returned <= s.stored && |s.stored| - |s.returned| <= PIPESIZE
            && (IsFull(s) <==> |s.stored| - |s.returned| == PIPESIZE) && (IsEmpty(s) <==> s.stored == s.returned)
  {
    FifoReached(ss, events);
    FullEmpty(ss[|events|]);
  }

  // --------------------------------------------------------------- what the calls hand over

  /** What step k - 1 adds to the bytes stored, if it is one of process p. */
  ghost function SentAt(ss: seq<State>, events: seq<Event>, p: nat, k: nat): (r: seq<byte>)
    requires 0 < k <= |events| < |ss|
  {
    if events[k - 1] == Go(p) && |ss[k - 1].stored| <= |ss[k].stored| then ss[k].stored[|ss[k - 1].stored|..] else []
  }

  /** The bytes that steps a to b of process p store. */
  ghost function SentBy(ss: seq<State>, events: seq<Event>, p: nat, a: nat, b: nat): (r: seq<byte>)
    requires a <= b <= |events| < |ss|
    decreases b
  {
    if a == b then [] else SentBy(ss, events, p, a, b - 1) + SentAt(ss, events, p, b)
  }

  ghost function TakenAt(ss: seq<State>, events: seq<Event>, p: nat, k: nat): (r: seq<byte>)
    requires 0 < k <= |events| < |ss|
  {
    if events[k - 1] == Go(p) && |ss[k - 1].returned| <= |ss[k].returned| then ss[k].returned[|ss[k - 1].returned|..]
    else []
  }

  /** The bytes that steps a to b of process p copy out. */
  ghost function TakenBy(ss: seq<State>, events: seq<Event>, p: nat, a: nat, b: nat): (r: seq<byte>)
    requires a <= b <= |events| < |ss|
    decreases b
  {
    if a == b then [] else TakenBy(ss, events, p, a, b - 1) + TakenAt(ss, events, p, b)
  }

  /** The parts of the state that only the holder of the pipe lock changes, and the process's own place. */
  ghost predicate Moves(s: State, t: State, p: nat) {
    && p in s.pcs && p in t.pcs && t.pcs == s.pcs[p := t.pcs[p]] && t.lk == s.lk && t.pt == s.pt
    && t.killed == s.killed
  }

  /** One turn of pipewrite(): nothing is stored out of order, and where the call is then. */
  lemma WriterTurn(s: State, p: nat, buf: seq<byte>, i: nat)
    requires p in s.pcs && i <= |buf|
    ensures var t := WriterRuns(s, p, buf, i);
            && p in t.pcs && HoldsPipe(t.pcs[p]) && t.pcs[p].c.Write?
            && var j := t.pcs[p].c.i;
               && t.pcs[p].c == Write(buf, j) && i <= j <= |buf| && t.stored == s.stored + buf[i..j]
               && (t.pcs[p].WakeLast? ==> j == |buf|)
               && (t.pcs[p].Rel? ==> IsFull(t) && (!t.readopen || p in t.killed))
  {
    WriterMoves(s, p, buf, i);
    var t := WriterRuns(s, p, buf, i);
    if i < |buf| && !IsFull(s) {
      assert t.pcs[p] == Run(Write(buf, i + 1)) && buf[i..i + 1] == [buf[i]];
    } else {
      assert buf[i..i] == [] && t.stored == s.stored && t.pcs[p].c == Write(buf, i);
    }
  }

  /** One turn of piperead(), likewise. */
  lemma ReaderTurn(s: State, p: nat, n: nat, got: seq<byte>, copying: bool)
    requires p in s.pcs && |got| <= n
    ensures var t := ReaderRuns(s, p, n, got, copying);
            && p in t.pcs && HoldsPipe(t.pcs[p]) && t.pcs[p].c.Read?
            && var more := t.pcs[p].c.got;
               && t.pcs[p].c == Read(n, more, t.pcs[p].c.copying) && got <= more && |more| <= n
               && t.returned == s.returned + more[|got|..]
               && (!copying ==> more == got) && (copying ==> t.pcs[p].c.copying)
               && (t.pcs[p].c.copying ==> t.pcs[p].Run? || t.pcs[p].WakeLast?)
               && (t.pcs[p].WakeLast? ==> copying && (|more| == n || IsEmpty(t)))
               && (t.pcs[p].Rel? ==> !t.pcs[p].c.copying && IsEmpty(t) && t.writeopen && p in t.killed)
  {
    ReaderMoves(s, p, n, got, copying);
    var t := ReaderRuns(s, p, n, got, copying);
    if copying && |got| < n && !IsEmpty(s) {
      var b := s.data[s.nread % PIPESIZE];
      assert t.pcs[p] == Run(Read(n, got + [b], true)) && (got + [b])[|got|..] == [b];
    } else {
      assert got[|got|..] == [] && t.returned == s.returned && t.pcs[p].c.got == got;
    }
  }

  lemma CloserTurn(s: State, p: nat, writeEnd: bool)
    requires p in s.pcs
    ensures var t := CloserRuns(s, p, writeEnd);
            && Moves(s, t, p) && t.pcs[p] == WakeLast(Close(writeEnd)) && t.stored == s.stored
            && t.returned == s.returned && (if writeEnd then !t.writeopen else !t.readopen)
  {
  }

  /** Where a step outside the loops leads. */
  ghost function After(pc: Pc): (r: Pc) {
    match pc
    case Acq(c) => Run(c)
    case WakeFirst(c) => ToSleep(c)
    case ToSleep(c) => Both(c)
    case Both(c) => Falling(c)
    case Falling(c) => Asleep(c)
    case WakeLast(c) => Rel(c)
    case Rel(_) => Out
    case _ => pc
  }

  lemma QuietStep(s: State, p: nat)
    requires Possible(s, Go(p)) && !s.pcs[p].Run? && !s.pcs[p].WakeFirst? && !s.pcs[p].WakeLast?
    ensures var pc := s.pcs[p];
            && Next(s, Go(p)) ==
                 s.(pcs := s.pcs[p := After(pc)],
                    lk := if pc.Acq? then Some(p) else if pc.Both? || pc.Rel? then None else s.lk,
                    pt := if pc.ToSleep? then Some(p) else if pc.Falling? then None else s.pt)
            && (pc.Acq? ==> s.lk == None) && (pc.ToSleep? ==> s.pt == None)
  {
    hide WriterRuns, ReaderRuns, CloserRuns, Wakeup;
  }

  lemma WakeStep(s: State, p: nat)
    requires Possible(s, Go(p)) && (s.pcs[p].WakeFirst? || s.pcs[p].WakeLast?)
    ensures Next(s, Go(p)) == s.(pcs := Wakeup(s.pcs, WakesRead(s.pcs[p].c))[p := After(s.pcs[p])])
  {
    hide WriterRuns, ReaderRuns, CloserRuns, Wakeup;
  }

  lemma WakeupRouses(pcs: map<nat, Pc>, readChan: bool)
    ensures var r := Wakeup(pcs, readChan);
            r.Keys == pcs.Keys && forall q :: q in pcs ==> r[q] == pcs[q] || Roused(pcs[q], r[q])
  {
  }

  /** The steps outside the loops: the call and the pipe stay as they are. */
  lemma PlainStep(s: State, p: nat)
    requires Possible(s, Go(p)) && !s.pcs[p].Run?
    ensures var pc, t := s.pcs[p], Next(s, Go(p));
            && SamePipe(s, t) && t.stored == s.stored && t.returned == s.returned && t.killed == s.killed
            && t.pcs.Keys == s.pcs.Keys && t.pcs[p] == After(pc)
            && (forall q :: q in s.pcs && q != p ==> t.pcs[q] == s.pcs[q] || Roused(s.pcs[q], t.pcs[q]))
            && t.lk == (if pc.Acq? then Some(p) else if pc.Both? || pc.Rel? then None else s.lk)
            && t.pt == (if pc.ToSleep? then Some(p) else if pc.Falling? then None else s.pt)
            && (pc.Acq? ==> s.lk == None) && (pc.ToSleep? ==> s.pt == None) && pc != Out && !pc.Asleep?
  {
    hide Next, Wakeup, IsFull, IsEmpty;
    if s.pcs[p].WakeFirst? || s.pcs[p].WakeLast? {
      WakeStep(s, p);
      WakeupRouses(s.pcs, WakesRead(s.pcs[p].c));
    } else {
      QuietStep(s, p);
    }
  }

  /** A sleeper that was woken. */
  ghost predicate Roused(pc: Pc, pc': Pc) {
    pc.Asleep? && pc' == Acq(pc.c)
  }

  /** A turn of one of the loops. */
  lemma TurnIs(s: State, p: nat)
    requires Possible(s, Go(p)) && s.pcs[p].Run?
    ensures var c, t := s.pcs[p].c, Next(s, Go(p));
            && (c.Write? ==> t == WriterRuns(s, p, c.buf, c.i))
            && (c.Read? ==> t == ReaderRuns(s, p, c.n, c.got, c.copying))
            && (c.Close? ==> t == CloserRuns(s, p, c.writeEnd))
  {
    hide WriterRuns, ReaderRuns, CloserRuns;
  }

  /** Starting a call and killing a process. */
  lemma OutsideStep(s: State, e: Event)
    requires Possible(s, e) && !e.Go?
    ensures var t := Next(s, e);
            && SamePipe(s, t) && t.data == s.data && t.stored == s.stored && t.returned == s.returned
            && s.killed <= t.killed && t.lk == s.lk && t.pt == s.pt && t.pcs.Keys == s.pcs.Keys
            && (forall q :: q in s.pcs && q != e.pid ==> t.pcs[q] == s.pcs[q])
            && (e.Start? ==> t.pcs[e.pid] == Acq(e.c) && s.pcs[e.pid] == Out)
            && (e.Kill? ==> e.pid in t.killed
                            && if s.pcs[e.pid].Asleep? then Roused(s.pcs[e.pid], t.pcs[e.pid])
                               else t.pcs[e.pid] == s.pcs[e.pid])
  {
    hide WriterRuns, ReaderRuns, CloserRuns, Wakeup;
  }

  /** A step of process p moves its own bytes on, in the order of its buffer. */
  lemma OwnBytes(s: State, p: nat)
    requires Possible(s, Go(p)) && (s.pcs[p].c.Write? ==> s.pcs[p].c.i <= |s.pcs[p].c.buf|)
    requires s.pcs[p].c.Read? ==> |s.pcs[p].c.got| <= s.pcs[p].c.n
    ensures var t := Next(s, Go(p));
            p in t.pcs && (t.pcs[p] != Out ==> Moved(s, t, s.pcs[p].c, t.pcs[p].c))
  {
    hide Possible, Next, WriterRuns, ReaderRuns, CloserRuns;
    assert p in s.pcs && s.pcs[p] != Out by {
      InACall(s, p);
    }
    var c := s.pcs[p].c;
    if s.pcs[p].Run? {
      TurnIs(s, p);
      match c
      case Write(buf, i) => WriterTurn(s, p, buf, i);
      case Read(n, got, copying) => ReaderTurn(s, p, n, got, copying);
      case Close(w) => CloserTurn(s, p, w);
    } else {
      PlainStep(s, p);
    }
  }

  lemma InACall(s: State, p: nat)
    requires Possible(s, Go(p))
    ensures p in s.pcs && s.pcs[p] != Out
  {
  }

  /** Call c has become d, and the bytes moved are the next ones of d. */
  ghost predicate Moved(s: State, t: State, c: Call, d: Call) {
    match c
    case Write(buf, i) => d.Write? && d.buf == buf && i <= d.i <= |buf| && t.stored == s.stored + buf[i..d.i]
    case Read(n, got, _) =>
      d.Read? && d.n == n && got <= d.got && |d.got| <= n && t.returned == s.returned + d.got[|got|..]
    case Close(_) => d == c
  }

  /** A step of another process leaves p in its call. */
  lemma OthersBytes(s: State, e: Event, p: nat)
    requires Possible(s, e) && e != Go(p) && p in s.pcs && s.pcs[p] != Out
    ensures p in Next(s, e).pcs && (Next(s, e).pcs[p] == s.pcs[p] || Roused(s.pcs[p], Next(s, e).pcs[p]))
  {
    hide WriterRuns, ReaderRuns, CloserRuns, Possible, Next;
    if e.Go? {
      InACall(s, e.pid);
      if s.pcs[e.pid].Run? {
        TurnIs(s, e.pid);
        TurnMoves(s, e.pid);
      } else {
        PlainStep(s, e.pid);
      }
    } else {
      OutsideStep(s, e);
    }
  }

  lemma TurnMoves(s: State, p: nat)
    requires Possible(s, Go(p)) && s.pcs[p].Run?
    ensures Moves(s, Next(s, Go(p)), p) && HoldsPipe(Next(s, Go(p)).pcs[p]) && !HoldsPtable(Next(s, Go(p)).pcs[p])
  {
    hide Possible, Next, WriterRuns, ReaderRuns, CloserRuns;
    TurnIs(s, p);
    assert p in s.pcs by {
      InACall(s, p);
    }
    match s.pcs[p].c
    case Write(buf, i) => WriterMoves(s, p, buf, i);
    case Read(n, got, copying) => ReaderMoves(s, p, n, got, copying);
    case Close(w) => CloserTurn(s, p, w);
  }

  lemma WriterMoves(s: State, p: nat, buf: seq<byte>, i: nat)
    requires p in s.pcs
    ensures var t := WriterRuns(s, p, buf, i); Moves(s, t, p) && HoldsPipe(t.pcs[p]) && !HoldsPtable(t.pcs[p])
  {
  }

  lemma ReaderMoves(s: State, p: nat, n: nat, got: seq<byte>, copying: bool)
    requires p in s.pcs
    ensures var t := ReaderRuns(s, p, n, got, copying); Moves(s, t, p) && HoldsPipe(t.pcs[p]) && !HoldsPtable(t.pcs[p])
  {
  }

  /** From the start of a call of p, after step a, to step b it has not returned. */
  ghost predicate InCall(ss: seq<State>, events: seq<Event>, p: nat, c: Call, a: nat, b: nat) {
    && a < b <= |events| < |ss| && events[a] == Start(p, c)
    && forall k :: a < k <= b ==> p in ss[k].pcs && ss[k].pcs[p] != Out
  }

  /** However the steps of other readers and writers come in between: the bytes a write has stored are the first i of
      its buffer, in order, and the bytes a read hands to its caller are those it has taken, in order. */
  lemma {:induction false} CallBytes(ss: seq<State>, events: seq<Event>, p: nat, c: Call, a: nat, b: nat)
    requires AnyRun(ss, events) && InCall(ss, events, p, c, a, b)
    ensures var d := ss[b].pcs[p].c;
            match c
            case Write(buf, _) => d.Write? && d.buf == buf && d.i <= |buf| && SentBy(ss, events, p, a, b) == buf[..d.i]
            case Read(n, _, _) => d.Read? && d.n == n && |d.got| <= n && TakenBy(ss, events, p, a, b) == d.got
            case Close(_) => d == c
    decreases b
  {
    hide Possible, Next, Init;
    var k := b - 1;
    assert Possible(ss[k], events[k]) && ss[b] == Next(ss[k], events[k]);
    if b == a + 1 {
      Started(ss[a], p, c);
      assert SentAt(ss, events, p, b) == [] && TakenAt(ss, events, p, b) == [];
    } else {
      CallBytes(ss, events, p, c, a, k);
      CallStep(ss, events, p, c, a, b);
    }
  }

  lemma CallStep(ss: seq<State>, events: seq<Event>, p: nat, c: Call, a: nat, b: nat)
    requires AnyRun(ss, events) && InCall(ss, events, p, c, a, b) && a + 1 < b
    requires var d := ss[b - 1].pcs[p].c;
             match c
             case Write(buf, _) =>
               d.Write? && d.buf == buf && d.i <= |buf| && SentBy(ss, events, p, a, b - 1) == buf[..d.i]
             case Read(n, _, _) => d.Read? && d.n == n && |d.got| <= n && TakenBy(ss, events, p, a, b - 1) == d.got
             case Close(_) => d == c
    ensures var d := ss[b].pcs[p].c;
            match c
            case Write(buf, _) => d.Write? && d.buf == buf && d.i <= |buf| && SentBy(ss, events, p, a, b) == buf[..d.i]
            case Read(n, _, _) => d.Read? && d.n == n && |d.got| <= n && TakenBy(ss, events, p, a, b) == d.got
            case Close(_) => d == c
  {
    hide Possible, Next, Init;
    var k := b - 1;
    assert Possible(ss[k], events[k]) && ss[b] == Next(ss[k], events[k]);
    if events[k] == Go(p) {
      OwnBytes(ss[k], p);
      match c
      case Write(buf, _) =>
        assert SentAt(ss, events, p, b) == buf[ss[k].pcs[p].c.i..ss[b].pcs[p].c.i];
      case Read(_, _, _) =>
        assert TakenAt(ss, events, p, b) == ss[b].pcs[p].c.got[|ss[k].pcs[p].c.got|..];
      case Close(_) =>
    } else {
      OthersBytes(ss[k], events[k], p);
      assert SentAt(ss, events, p, b) == [] && TakenAt(ss, events, p, b) == [];
    }
  }

  lemma Started(s: State, p: nat, c: Call)
    requires Possible(s, Start(p, c))
    ensures p in Next(s, Start(p, c)).pcs && Next(s, Start(p, c)).pcs[p] == Acq(c)
    ensures (c.Write? ==> c.i == 0) && (c.Read? ==> c.got == [] && !c.copying)
  {
  }

  /** Nothing else is ever stored or copied out. */
  lemma OnlyCalls(ss: seq<State>, events: seq<Event>, k: nat)
    requires AnyRun(ss, events) && 0 < k <= |events|
    ensures ss[k].stored != ss[k - 1].stored ==>
              events[k - 1].Go? && events[k - 1].pid in ss[k - 1].pcs && ss[k - 1].pcs[events[k - 1].pid].Run?
              && ss[k - 1].pcs[events[k - 1].pid].c.Write?
    ensures ss[k].returned != ss[k - 1].returned ==>
              events[k - 1].Go? && events[k - 1].pid in ss[k - 1].pcs && ss[k - 1].pcs[events[k - 1].pid].Run?
              && ss[k - 1].pcs[events[k - 1].pid].c.Read?
  {
    hide Possible, Next, Init, WriterRuns, ReaderRuns, CloserRuns;
    var s, e := ss[k - 1], events[k - 1];
    assert Possible(s, e) && ss[k] == Next(s, e);
    if e.Go? {
      InACall(s, e.pid);
      if s.pcs[e.pid].Run? {
        TurnIs(s, e.pid);
        TurnLogs(s, e.pid);
      } else {
        PlainStep(s, e.pid);
      }
    } else {
      OutsideStep(s, e);
    }
  }

  lemma TurnLogs(s: State, p: nat)
    requires p in s.pcs && s.pcs[p].Run?
    ensures match s.pcs[p].c
            case Write(buf, i) => WriterRuns(s, p, buf, i).returned == s.returned
            case Read(n, got, copying) => ReaderRuns(s, p, n, got, copying).stored == s.stored
            case Close(w) => CloserRuns(s, p, w).stored == s.stored && CloserRuns(s, p, w).returned == s.returned
  {
  }

  /** The last n bytes. */
  ghost predicate EndsWith(all: seq<byte>, last: seq<byte>) {
    |last| <= |all| && all[|all| - |last|..] == last
  }

  /** Where a call is in its work: a reader keeps the lock while it copies, so that its bytes are the last ones copied
      out; and what it has done when it is about to return. */
  ghost predicate HandsOver(s: State, p: nat, pc: Pc) {
    pc != Out ==>
      match pc.c
      case Write(buf, i) =>
        && i <= |buf| && (pc.WakeLast? ==> i == |buf|)
        && (pc.Rel? ==> i == |buf| || (IsFull(s) && (!s.readopen || p in s.killed)))
      case Read(n, got, copying) =>
        && |got| <= n
        && (copying ==> (pc.Run? || pc.WakeLast? || pc.Rel?) && EndsWith(s.returned, got))
        && (copying && (pc.WakeLast? || pc.Rel?) ==> |got| == n || IsEmpty(s))
        && (!copying ==> got == [] && !pc.WakeLast?)
        && (pc.Rel? && !copying ==> IsEmpty(s) && s.writeopen && p in s.killed)
      case Close(writeEnd) => pc.WakeLast? || pc.Rel? ==> if writeEnd then !s.writeopen else !s.readopen
  }

  ghost predicate AllHandOver(s: State) {
    forall p :: p in s.pcs ==> HandsOver(s, p, s.pcs[p])
  }

  lemma NextLocks(s: State, e: Event)
    requires Locks(s) && Possible(s, e)
    ensures Locks(Next(s, e))
  {
    hide Possible, Next, WriterRuns, ReaderRuns, CloserRuns;
    if e.Go? {
      InACall(s, e.pid);
      if s.pcs[e.pid].Run? {
        TurnMoves(s, e.pid);
      } else {
        PlainStep(s, e.pid);
      }
    } else {
      OutsideStep(s, e);
    }
  }

  /** A process that does not hold the pipe lock leaves the pipe alone. */
  lemma WithoutLock(s: State, e: Event, p: nat)
    requires Locks(s) && Possible(s, e) && e != Go(p) && p in s.pcs && HoldsPipe(s.pcs[p])
    ensures var t := Next(s, e);
            SamePipe(s, t) && t.returned == s.returned && s.killed <= t.killed
  {
    hide Possible, Next, WriterRuns, ReaderRuns, CloserRuns;
    if e.Go? {
      InACall(s, e.pid);
      PlainStep(s, e.pid);
    } else {
      OutsideStep(s, e);
    }
  }

  lemma EndsWithMore(all: seq<byte>, last: seq<byte>, more: seq<byte>)
    requires EndsWith(all, last) && last <= more
    ensures EndsWith(all + more[|last|..], more)
  {
    var x := more[|last|..];
    assert more == last + x;
    assert (all + x)[|all| - |last|..] == all[|all| - |last|..] + x;
  }

  lemma OwnHandsOver(s: State, p: nat)
    requires Possible(s, Go(p)) && p in s.pcs && HandsOver(s, p, s.pcs[p])
    ensures p in Next(s, Go(p)).pcs && HandsOver(Next(s, Go(p)), p, Next(s, Go(p)).pcs[p])
  {
    hide Possible, Next, WriterRuns, ReaderRuns, CloserRuns, EndsWith;
    InACall(s, p);
    if s.pcs[p].Run? {
      TurnIs(s, p);
      match s.pcs[p].c
      case Write(buf, i) => WriterTurn(s, p, buf, i);
      case Read(n, got, copying) => ReadHandsOver(s, p, n, got, copying);
      case Close(w) => CloserTurn(s, p, w);
    } else {
      PlainStep(s, p);
    }
  }

  lemma ReadHandsOver(s: State, p: nat, n: nat, got: seq<byte>, copying: bool)
    requires p in s.pcs && s.pcs[p] == Run(Read(n, got, copying)) && HandsOver(s, p, s.pcs[p])
    ensures var t := ReaderRuns(s, p, n, got, copying); p in t.pcs && HandsOver(t, p, t.pcs[p])
  {
    hide ReaderRuns, EndsWith, IsEmpty;
    ReaderTurn(s, p, n, got, copying);
    var t := ReaderRuns(s, p, n, got, copying);
    assert EndsWith(s.returned, got) by {
      NothingLast(s.returned);
    }
    EndsWithMore(s.returned, got, t.pcs[p].c.got);
  }

  lemma NothingLast(all: seq<byte>)
    ensures EndsWith(all, [])
  {
  }

  lemma OtherHandsOver(s: State, e: Event, p: nat)
    requires Locks(s) && Possible(s, e) && p in s.pcs && HandsOver(s, p, s.pcs[p]) && e != Go(p)
    ensures p in Next(s, e).pcs && HandsOver(Next(s, e), p, Next(s, e).pcs[p])
  {
    hide Possible, Next, WriterRuns, ReaderRuns, CloserRuns, EndsWith, Locks;
    if s.pcs[p] == Out {
      OutStays(s, e, p);
    } else {
      OthersBytes(s, e, p);
      if HoldsPipe(s.pcs[p]) {
        WithoutLock(s, e, p);
      }
    }
  }

  /** A process outside stays there, or starts a call. */
  lemma OutStays(s: State, e: Event, p: nat)
    requires Possible(s, e) && p in s.pcs && s.pcs[p] == Out
    ensures var t := Next(s, e); p in t.pcs && HandsOver(t, p, t.pcs[p])
  {
    hide Possible, Next, WriterRuns, ReaderRuns, CloserRuns, EndsWith;
    if e.Go? {
      InACall(s, e.pid);
      if s.pcs[e.pid].Run? {
        TurnMoves(s, e.pid);
      } else {
        PlainStep(s, e.pid);
      }
    } else {
      OutsideStep(s, e);
      if e.Start? && e.pid == p {
        Started(s, p, e.c);
      }
    }
  }

  lemma NextHandsOver(s: State, e: Event)
    requires Locks(s) && AllHandOver(s) && Possible(s, e)
    ensures AllHandOver(Next(s, e))
  {
    hide Possible, Next, HandsOver, Locks;
    forall p | p in Next(s, e).pcs ensures HandsOver(Next(s, e), p, Next(s, e).pcs[p]) {
      SameProcesses(s, e);
      if e == Go(p) {
        OwnHandsOver(s, p);
      } else {
        OtherHandsOver(s, e, p);
      }
    }
  }

  lemma SameProcesses(s: State, e: Event)
    requires Possible(s, e)
    ensures Next(s, e).pcs.Keys == s.pcs.Keys
  {
    hide Possible, Next, WriterRuns, ReaderRuns, CloserRuns;
    if e.Go? {
      InACall(s, e.pid);
      if s.pcs[e.pid].Run? {
        TurnMoves(s, e.pid);
      } else {
        PlainStep(s, e.pid);
      }
    } else {
      OutsideStep(s, e);
    }
  }

  lemma {:induction false} HandsOverReached(ss: seq<State>, events: seq<Event>)
    requires AnyRun(ss, events)
    ensures Locks(ss[|events|]) && AllHandOver(ss[|events|])
  {
    var n := |events|;
    if n > 0 {
      hide Possible, Next, Locks, AllHandOver;
      HandsOverReached(ss[..n], events[..n - 1]);
      NextLocks(ss[n - 1], events[n - 1]);
      NextHandsOver(ss[n - 1], events[n - 1]);
    }
  }

  /** What a call has done when it is about to return, in every interleaving.  A write has stored its whole buffer, or
      it found the pipe full with no reader or itself killed.  A read has the last bytes copied out, which are
      consecutive ones of those stored, as many as it wanted or all there were; or it found the pipe empty, with a
      writer, and itself killed.  A close has closed its end. */
  lemma CallsReturn(ss: seq<State>, events: seq<Event>, p: nat)
    requires AnyRun(ss, events) && p in ss[|events|].pcs && ss[|events|].pcs[p].Rel?
    ensures var s := ss[|events|];
            match s.pcs[p].c
            case Write(buf, i) => i == |buf| || (i < |buf| && IsFull(s) && (!s.readopen || p in s.killed))
            case Read(n, got, true) =>
              && (|got| == n || (|got| < n && IsEmpty(s))) && |got| <= |s.returned| <= |s.stored|
              && got == s.stored[|s.returned| - |got|..|s.returned|]
            case Read(n, got, false) => got == [] && IsEmpty(s) && s.writeopen && p in s.killed
            case Close(writeEnd) => if writeEnd then !s.writeopen else !s.readopen
  {
    HandsOverReached(ss, events);
    FirstInFirstOut(ss, events);
    var s := ss[|events|];
    assert HandsOver(s, p, s.pcs[p]);
    assert s.returned == s.stored[..|s.returned|];
  }

  // --------------------------------------------------------------- a killed writer

  lemma Extend(ss: seq<State>, events: seq<Event>, e: Event)
    requires AnyRun(ss, events) && Possible(ss[|events|], e)
    ensures AnyRun(ss + [Next(ss[|events|], e)], events + [e])
  {
    hide Possible, Next, Init;
    var ss', es' := ss + [Next(ss[|events|], e)], events + [e];
    forall k | 0 <= k < |es'| ensures Possible(ss'[k], es'[k]) && ss'[k + 1] == Next(ss'[k], es'[k]) {
      if k < |events| {
        assert ss'[k] == ss[k] && ss'[k + 1] == ss[k + 1] && es'[k] == events[k];
      } else {
        assert ss'[k] == ss[|events|];
      }
    }
  }

  /** The state when reader r sleeps on an empty pipe and the killed writer w has stored i bytes. */
  ghost predicate Filling(s: State, r: nat, w: nat, buf: seq<byte>, i: nat) {
    && s.pcs.Keys == {r, w} && s.pcs[r] == Asleep(Read(1, [], false)) && s.pcs[w] == Run(Write(buf, i))
    && s.lk == Some(w) && s.pt == None && w in s.killed && s.readopen && s.nread == 0 && s.nwrite == i
  }

  /** Reader r goes to sleep on the empty pipe. */
  lemma ReaderSleeps(s0: State, r: nat, w: nat) returns (ss: seq<State>, events: seq<Event>)
    requires Init(s0) && s0.pcs.Keys == {r, w} && r != w && s0.killed == {}
    ensures AnyRun(ss, events) && ss[0] == s0
    ensures var s := ss[|events|];
            s == s0.(pcs := s0.pcs[r := Asleep(Read(1, [], false))])
  {
    var rd := Read(1, [], false);
    ss, events := [s0], [];
    ss, events := Then(ss, events, Start(r, rd), s0.(pcs := s0.pcs[r := Acq(rd)]));
    ss, events := Then(ss, events, Go(r), s0.(pcs := s0.pcs[r := Run(rd)], lk := Some(r)));
    ss, events := Then(ss, events, Go(r), s0.(pcs := s0.pcs[r := ToSleep(rd)], lk := Some(r)));
    ss, events := Then(ss, events, Go(r), s0.(pcs := s0.pcs[r := Both(rd)], lk := Some(r), pt := Some(r)));
    ss, events := Then(ss, events, Go(r), s0.(pcs := s0.pcs[r := Falling(rd)], pt := Some(r)));
    ss, events := Then(ss, events, Go(r), s0.(pcs := s0.pcs[r := Asleep(rd)]));
  }

  /** A run, and one more step of it that leads to t. */
  lemma Then(ss: seq<State>, events: seq<Event>, e: Event, t: State) returns (ss': seq<State>, events': seq<Event>)
    requires AnyRun(ss, events) && Possible(ss[|events|], e) && Next(ss[|events|], e) == t
    ensures AnyRun(ss', events') && |ss'| == |events'| + 1 && ss'[0] == ss[0] && ss'[|events'|] == t
    ensures ss' == ss + [t] && |events'| == |events| + 1
  {
    hide Possible, Next, Init;
    Extend(ss, events, e);
    ss', events' := ss + [t], events + [e];
  }

  lemma FillingStarts(s0: State, r: nat, w: nat, buf: seq<byte>) returns (ss: seq<State>, events: seq<Event>)
    requires Init(s0) && s0.pcs.Keys == {r, w} && r != w && s0.killed == {}
    ensures AnyRun(ss, events) && |ss| == |events| + 1 && ss[0] == s0 && Filling(ss[|events|], r, w, buf, 0)
  {
    ss, events := ReaderSleeps(s0, r, w);
    var wr := Write(buf, 0);
    hide Wakeup;
    ss, events := Then(ss, events, Start(w, wr), Next(ss[|events|], Start(w, wr)));
    ss, events := Then(ss, events, Kill(w), Next(ss[|events|], Kill(w)));
    ss, events := Then(ss, events, Go(w), Next(ss[|events|], Go(w)));
  }

  lemma FillingStep(s: State, r: nat, w: nat, buf: seq<byte>, i: nat)
    requires Filling(s, r, w, buf, i) && i < PIPESIZE < |buf|
    ensures Possible(s, Go(w)) && Filling(Next(s, Go(w)), r, w, buf, i + 1)
  {
    hide Wakeup;
  }

  lemma FillingEnds(s: State, r: nat, w: nat, buf: seq<byte>)
    requires Filling(s, r, w, buf, PIPESIZE) && r != w && |buf| > PIPESIZE
    ensures Possible(s, Go(w))
    ensures var t := Next(s, Go(w));
            t == s.(pcs := s.pcs[w := Rel(Write(buf, PIPESIZE))]) && Possible(t, Go(w))
            && Next(t, Go(w)) == s.(pcs := s.pcs[w := Out], lk := None) && IsFull(s)
  {
    hide Wakeup;
  }

  /** Such a step can happen: a writer that is killed, fills the pipe and gives up leaves a reader
      asleep, with the pipe lock free, although the pipe is full. */
  lemma KilledWriterLosesWakeup(s0: State, r: nat, w: nat, buf: seq<byte>) returns (ss: seq<State>, events: seq<Event>)
    requires Init(s0) && s0.pcs.Keys == {r, w} && r != w && s0.killed == {} && |buf| > PIPESIZE
    ensures AnyRun(ss, events) && ss[0] == s0
    ensures var s := ss[|events|];
            s.lk == None && r in s.pcs && s.pcs[r].Asleep? && s.pcs[r].c.Read? && IsFull(s) && !IsEmpty(s)
  {
    ss, events := FillingStarts(s0, r, w, buf);
    hide Possible, Next, AnyRun, Init;
    var i := 0;
    while i < PIPESIZE
      invariant && 0 <= i <= PIPESIZE && |ss| == |events| + 1 && AnyRun(ss, events) && ss[0] == s0
                && Filling(ss[|events|], r, w, buf, i)
    {
      FillingStep(ss[|events|], r, w, buf, i);
      ss, events := Then(ss, events, Go(w), Next(ss[|events|], Go(w)));
      i := i + 1;
    }
    FillingEnds(ss[|events|], r, w, buf);
    ss, events := Then(ss, events, Go(w), Next(ss[|events|], Go(w)));
    ss, events := Then(ss, events, Go(w), Next(ss[|events|], Go(w)));
  }
}
