/**
  The logging layer (log.c) on top of the buffer cache.  Its methods are tied to the write
  sequences of RedoLog, so the crash theorems there are about what this code writes.
 */
module Log {
  import opened Common
  import opened Blocks
  import opened RedoLog
  import opened BufferCache
  import R = LogReservation

  /** What an operation may log so that the log never overflows. */
  const LIMIT: nat := MAXOPBLOCKS - 1

  /** The numbers in a sequence, and that distinct ones are as many as the sequence is long. */
  function Numbers(s: seq<nat>): (r: set<nat>) {
    set b | b in s
  }

  lemma {:induction false} NumbersSize(s: seq<nat>)
    ensures |Numbers(s)| <= |s|
  {
    if s != [] {
      var k := |s| - 1;
      NumbersSize(s[..k]);
      assert s == s[..k] + [s[k]];
      assert Numbers(s) == Numbers(s[..k]) + {s[k]};
    }
  }

  lemma {:induction false} DistinctSize(s: seq<nat>)
    requires Distinct(s)
    ensures |Numbers(s)| == |s|
  {
    if s != [] {
      var k := |s| - 1;
      DistinctSize(s[..k]);
      assert s == s[..k] + [s[k]];
      assert Numbers(s) == Numbers(s[..k]) + {s[k]};
    }
  }

  lemma MoreNumbers(s: seq<nat>, b: nat)
    ensures Numbers(if b in s then s else s + [b]) == Numbers(s) + {b}
  {
  }

  /** With nobody holding a buffer, an unlogged block reads the same from cache and disk. */
  lemma UnpinnedAgree(s: seq<Buf>, disk: Disk, view: Disk, pinned: set<nat>, b: nat)
    requires Consistent(s, disk, view, pinned) && b in disk && b !in pinned
    requires forall i :: 0 <= i < NBUF ==> s[i].refcnt == 0
    ensures view[b] == disk[b]
  {
    if Loaded(s, b) {
      var i :| 0 <= i < NBUF && s[i].valid && s[i].blockno == b;
      assert GoodBuf(s[i], disk, view, pinned);
    }
  }

  lemma SourceReads(c: Cache, b: nat)
    requires c.Valid() && c.Idle() && b in c.disk
    ensures b in c.view && (b in c.pinned || c.disk[b] == c.view[b])
  {
    if b !in c.pinned {
      UnpinnedAgree(c.bufs[..], c.disk, c.view, c.pinned, b);
    }
  }

  lemma PinnedIsCached(s: seq<Buf>, disk: Disk, view: Disk, pinned: set<nat>, b: nat)
    requires Consistent(s, disk, view, pinned) && b in pinned
    ensures Cached(s, ROOTDEV, b)
    ensures forall i :: 0 <= i < NBUF && Holds(s[i], ROOTDEV, b) ==> s[i].dirty
  {
    assert PinnedIn(s, b);
    var i :| 0 <= i < NBUF && s[i].dirty && s[i].blockno == b;
    assert GoodBuf(s[i], disk, view, pinned);
    assert Holds(s[i], ROOTDEV, b);
  }

  /** A buffer for block b is cached or can be recycled, as long as the pinned and held blocks leave room. */
  lemma CanRead(s: seq<Buf>, disk: Disk, view: Disk, pinned: set<nat>, held: set<nat>, b: nat)
    requires Consistent(s, disk, view, pinned)
    requires forall i :: 0 <= i < NBUF && s[i].refcnt > 0 ==> s[i].dev == ROOTDEV && s[i].blockno in held
    requires |pinned + held + {b}| <= NBUF && b !in held
    ensures Cached(s, ROOTDEV, b) || exists i :: 0 <= i < NBUF && Recyclable(s[i])
  {
    if b in pinned {
      PinnedIsCached(s, disk, view, pinned, b);
    } else {
      assert pinned + held + {b} == (pinned + held) + {b};
      SomeRecyclable(s, disk, view, pinned, held);
    }
  }

  /** Buffer i is the only reference to block b, locked, holding its latest contents. */
  ghost predicate HeldFor(c: Cache, i: nat, b: nat)
    requires c.bufs.Length == NBUF + 1
    reads c, c.bufs
  {
    && i < NBUF && Holds(c.bufs[i], ROOTDEV, b) && c.bufs[i].locked && c.bufs[i].valid && c.bufs[i].refcnt == 1
    && b in c.view && c.bufs[i].data == c.view[b]
    && (c.bufs[i].dirty <==> b in c.pinned)
  }

  /** bread() of one block while at most block other is held. */
  method ReadHeld(c: Cache, b: nat, ghost held: set<nat>) returns (i: nat)
    requires c.Valid() && b in c.disk && b !in held
    requires forall k :: 0 <= k < NBUF && c.bufs[k].refcnt > 0 ==> c.bufs[k].dev == ROOTDEV && c.bufs[k].blockno in held
    requires |c.pinned + held + {b}| <= NBUF
    modifies c.bufs
    ensures c.Valid() && HeldFor(c, i, b)
    ensures forall k :: 0 <= k < NBUF && k != i ==> c.bufs[k] == old(c.bufs[k])
    ensures old(c.bufs[i].refcnt) == 0
  {
    ghost var s := c.bufs[..];
    CanRead(s, c.disk, c.view, c.pinned, held, b);
    assert forall k :: 0 <= k < NBUF ==> GoodBuf(s[k], c.disk, c.view, c.pinned);
    if b in c.pinned {
      PinnedIsCached(s, c.disk, c.view, c.pinned, b);
    }
    var r := c.Bread(ROOTDEV, b);
    i := r.value;
    assert GoodBuf(c.bufs[..][i], c.disk, c.view, c.pinned);
  }

  /** bread(a), bread(b); memmove one over the other; bwrite the target; release both.  This is the body of
      the loops in write_log() (log block to) and install_trans() (home block to): a is the log block. */
  method CopyBlock(c: Cache, a: nat, b: nat, toLog: bool)
    requires c.Valid() && c.Idle() && a in c.disk && b in c.disk && a != b
    requires |c.pinned + {a, b}| <= NBUF
    modifies c, c.bufs
    ensures c.Valid() && c.Idle()
    ensures var src, dst := if toLog then b else a, if toLog then a else b;
            && src in old(c.view)
            && c.disk == old(c.disk)[dst := old(c.view)[src]]
            && c.view == old(c.view)[dst := old(c.view)[src]]
            && c.pinned == old(c.pinned) - {dst}
            && c.trace == old(c.trace) + [Write(dst, old(c.view)[src])]
  {
    hide Ring, Consistent;
    assert c.pinned + {} + {a} <= c.pinned + {a, b};
    SubsetSize(c.pinned + {} + {a}, c.pinned + {a, b});
    SourceReads(c, if toLog then b else a);
    var i := ReadHeld(c, a, {});
    assert c.pinned + {a} + {b} == c.pinned + {a, b};
    var j := ReadHeld(c, b, {a});
    if toLog {
      MoveAndRelease(c, j, i, b, a);
    } else {
      MoveAndRelease(c, i, j, a, b);
    }
  }

  method MoveAndRelease(c: Cache, i: nat, j: nat, ghost src: nat, ghost dst: nat)
    requires c.Valid() && i != j && HeldFor(c, i, src) && HeldFor(c, j, dst)
    requires forall k :: 0 <= k < NBUF && k != i && k != j ==> c.bufs[k].refcnt == 0
    requires src in c.pinned || (src in c.disk && c.disk[src] == c.view[src])
    modifies c, c.bufs
    ensures c.Valid() && c.Idle()
    ensures c.disk == old(c.disk)[dst := old(c.view)[src]]
    ensures c.view == old(c.view)[dst := old(c.view)[src]]
    ensures c.pinned == old(c.pinned) - {dst}
    ensures c.trace == old(c.trace) + [Write(dst, old(c.view)[src])]
  {
    hide Ring, Consistent;
    c.Store(j, c.bufs[i].data);
    c.Bwrite(j);
    c.Brelse(i);
    c.Brelse(j);
  }

  /** The latest contents of each listed block. */
  ghost function Latest(view: Disk, blocks: seq<nat>): (r: seq<Block>)
    requires forall t :: 0 <= t < |blocks| ==> blocks[t] in view
  {
    seq(|blocks|, t requires 0 <= t < |blocks| => view[blocks[t]])
  }

  /** One more of the writes ws, seen from the disk, the cache and the trace. */
  lemma Advance(d: Disk, v: Disk, trace: seq<Write>, ws: seq<Write>, k: nat)
    requires k < |ws|
    ensures Apply(d, ws[..k + 1]) == Apply(d, ws[..k])[ws[k].bno := ws[k].data]
    ensures Apply(v, ws[..k + 1]) == Apply(v, ws[..k])[ws[k].bno := ws[k].data]
    ensures trace + ws[..k + 1] == trace + ws[..k] + [ws[k]]
  {
    assert ws[..k + 1][..k] == ws[..k];
  }

  /** The cache after the first k of the writes ws, from disk d, latest contents v and the given trace. */
  ghost predicate Progress(c: Cache, d: Disk, v: Disk, trace: seq<Write>, ws: seq<Write>, k: nat)
    reads c
  {
    && k <= |ws|
    && c.trace == trace + ws[..k]
    && c.disk == Apply(d, ws[..k])
    && c.view == Apply(v, ws[..k])
  }

  lemma Start(c: Cache, ws: seq<Write>)
    ensures Progress(c, c.disk, c.view, c.trace, ws, 0)
  {
  }

  lemma Finish(c: Cache, d: Disk, v: Disk, trace: seq<Write>, ws: seq<Write>)
    requires Progress(c, d, v, trace, ws, |ws|)
    ensures c.trace == trace + ws && c.disk == Apply(d, ws) && c.view == Apply(v, ws)
  {
    assert ws[..|ws|] == ws;
  }

  /** One copy that performs the next of the writes ws. */
  method CopyNext(c: Cache, a: nat, b: nat, toLog: bool,
                  ghost d: Disk, ghost v: Disk, ghost trace: seq<Write>, ghost ws: seq<Write>, ghost k: nat)
    requires c.Valid() && c.Idle() && Progress(c, d, v, trace, ws, k)
    requires a in Apply(d, ws[..k]) && b in Apply(d, ws[..k]) && a != b && |c.pinned + {a, b}| <= NBUF
    requires var src, dst := if toLog then b else a, if toLog then a else b;
             k < |ws| && src in Apply(v, ws[..k]) && ws[k] == Write(dst, Apply(v, ws[..k])[src])
    modifies c, c.bufs
    ensures c.Valid() && c.Idle() && Progress(c, d, v, trace, ws, k + 1)
    ensures c.pinned == old(c.pinned) - {ws[k].bno}
  {
    hide Ring, Consistent, Apply;
    CopyBlock(c, a, b, toLog);
    Advance(d, v, trace, ws, k);
  }

  /** With nothing pinned and nobody holding a buffer, the disk is up to date. */
  lemma NothingPinned(c: Cache)
    requires c.Valid() && c.Idle() && c.pinned == {}
    ensures c.disk == c.view
  {
    forall b | b in c.disk ensures c.view[b] == c.disk[b] {
      UnpinnedAgree(c.bufs[..], c.disk, c.view, c.pinned, b);
    }
  }

  lemma BufFacts(c: Cache, b: nat)
    requires c.Valid() && b < NBUF && c.bufs[b].valid
    ensures c.bufs[b].dev == ROOTDEV && c.bufs[b].blockno in c.disk
  {
    assert GoodBuf(c.bufs[..][b], c.disk, c.view, c.pinned);
  }

  class Log {
    const cache: Cache
    const g: Geometry
    const lh: array<nat>
    var n: nat
    var outstanding: nat
    var committing: bool
    ghost var ops: seq<set<nat>>      // what each running operation has logged
    ghost var waiting: set<nat>       // the processes asleep in begin_op()
    ghost var states: seq<R.State>    // the run of begin_op(), log_write() and end_op() so far
    ghost var steps: seq<R.Step>

    /** The logged block numbers, lh.block[0..lh.n]. */
    ghost function Blocks(): (r: seq<nat>)
      requires lh.Length == LOGSIZE && n <= LOGSIZE
      reads this, lh
    {
      lh[..n]
    }

    ghost predicate Shape()
      reads this, lh, cache, cache.bufs
    {
      && lh.Length == LOGSIZE && n <= LOGSIZE
      && cache.Valid()
      && WfDisk(cache.disk, g)
      && WfBlocks(cache.disk, g, Blocks())
    }

    /** Between operations: no committed transaction on disk, and exactly the logged blocks are pinned. */
    ghost predicate Valid()
      reads this, lh, cache, cache.bufs
    {
      Shape() && Clean(cache.disk, g) && cache.pinned == Numbers(Blocks())
    }

    /** What the calls of begin_op(), log_write() and end_op() see of the log. */
    ghost function View(): (s: R.State)
      requires lh.Length == LOGSIZE && n <= LOGSIZE
      reads this, lh
    {
      R.State(ops, Numbers(Blocks()), committing, waiting)
    }

    /** Between calls of operations that log at most LIMIT distinct blocks each: the calls so far are a run of
        LogReservation that has come to this state. */
    ghost predicate Serving()
      reads this, lh, cache, cache.bufs
    {
      && Valid() && g.size >= LOGSIZE && outstanding == |ops| && !committing
      && R.Run(states, steps, LIMIT) && states[|steps|] == View()
    }

    /** What the reservation of begin_op() gives: the log never overflows. */
    lemma NeverFull()
      requires Serving()
      ensures n == |View().lh| <= LOGSIZE - 2 < NBUF && n < g.size - 1 && R.Inv(View(), LIMIT)
    {
      hide Ring, Consistent;
      R.Reservation(states, steps, LIMIT);
      DistinctSize(Blocks());
    }

    /** The memory of a freshly booted machine, before recovery. */
    constructor (c: Cache, geometry: Geometry)
      requires c.Valid() && WfDisk(c.disk, geometry)
      ensures cache == c && g == geometry && n == 0 && outstanding == 0 && !committing && fresh(lh) && Shape()
      ensures ops == [] && waiting == {} && steps == [] && states == [R.Init]
    {
      cache, g, n, outstanding, committing := c, geometry, 0, 0, false;
      ops, waiting, steps, states := [], {}, [], [R.Init];
      lh := new nat[LOGSIZE];
    }

    /** log_write(): record the block unless already logged, and pin it.  ok is false on the two panics. */
    method LogWrite(b: nat) returns (ok: bool)
      requires Valid() && b < NBUF && cache.bufs[b].locked && cache.bufs[b].valid
      requires !InLog(g, cache.bufs[b].blockno)
      modifies this`n, lh, cache`pinned, cache.bufs
      ensures Valid() && cache.view == old(cache.view) && cache.disk == old(cache.disk)
      ensures ok <==> old(n) < LOGSIZE && old(n) < g.size - 1 && outstanding >= 1
      ensures ok ==> var bno := old(cache.bufs[b].blockno);
                     && Blocks() == (if bno in old(Blocks()) then old(Blocks()) else old(Blocks()) + [bno])
                     && cache.bufs[..] == old(cache.bufs[..])[b := old(cache.bufs[b]).(dirty := true)]
      ensures !ok ==> n == old(n) && lh[..] == old(lh[..]) && cache.bufs[..] == old(cache.bufs[..])
    {
      hide Ring, Consistent, WfDisk;
      if n >= LOGSIZE || n >= g.size - 1 || outstanding < 1 {
        return false;
      }
      BufFacts(cache, b);
      assert cache.bufs[b].blockno in cache.disk;
      Record(cache.bufs[b].blockno);
      cache.Pin(b);
      return true;
    }

    /** One turn of the loop in begin_op(), by process pid: the operation is admitted, or the process sleeps.  EndOp is
        one step here, so nobody comes in during a commit; that wait is in LogReservation. */
    method BeginOp(pid: nat) returns (admitted: bool)
      requires Serving()
      modifies this`outstanding, this`ops, this`waiting, this`states, this`steps
      ensures Serving() && View() == R.Next(old(View()), R.Begin(pid), LIMIT)
      ensures admitted <==> R.MayBegin(old(View()))
      ensures ops == if admitted then old(ops) + [{}] else old(ops)
    {
      hide Ring, Consistent, R.Run;
      NeverFull();
      ghost var was := View();
      if committing {
        admitted := false;
      } else if n + (outstanding + 1) * MAXOPBLOCKS > LOGSIZE {
        admitted := false;
      } else {
        outstanding := outstanding + 1;
        admitted := true;
      }
      if admitted {
        ops, waiting := ops + [{}], waiting - {pid};
      } else {
        waiting := waiting + {pid};
      }
      Goes(was, R.Begin(pid));
    }

    /** The run goes on by one step. */
    ghost method Goes(was: R.State, step: R.Step)
      requires lh.Length == LOGSIZE && n <= LOGSIZE
      requires && R.Run(states, steps, LIMIT) && states[|steps|] == was && R.Enabled(was, step, LIMIT)
               && View() == R.Next(was, step, LIMIT)
      modifies this`states, this`steps
      ensures R.Run(states, steps, LIMIT) && states[|steps|] == View()
    {
      ghost var t := View();
      states, steps := states + [t], steps + [step];
      assert states[|steps|] == t;
    }

    /** log_write() by running operation op, of a block with which it stays within the limit: it does not panic. */
    method OpWrite(op: nat, b: nat)
      requires Serving() && op < |ops| && b < NBUF && cache.bufs[b].locked && cache.bufs[b].valid
      requires !InLog(g, cache.bufs[b].blockno) && |ops[op] + {cache.bufs[b].blockno}| <= LIMIT
      modifies this`n, lh, cache`pinned, cache.bufs, this`ops, this`states, this`steps
      ensures Serving() && cache.view == old(cache.view) && cache.disk == old(cache.disk)
      ensures View() == R.Next(old(View()), R.LogWrite(op, old(cache.bufs[b].blockno)), LIMIT)
      ensures cache.bufs[..] == old(cache.bufs[..])[b := old(cache.bufs[b]).(dirty := true)]
    {
      hide Ring, Consistent, R.Run, WfDisk, WfBlocks, Clean, Numbers, R.Inv, InLog;
      NeverFull();
      ghost var was, bno := View(), cache.bufs[b].blockno;
      var ok := LogWrite(b);
      assert ok;
      ops := ops[op := ops[op] + {bno}];
      MoreNumbers(old(Blocks()), bno);
      Goes(was, R.LogWrite(op, bno));
    }

    /** end_op() by running operation op.  The last one commits: commit() finds the buffers it needs, and its block
        writes are exactly those of RedoLog. */
    method EndOp(op: nat)
      requires Serving() && op < |ops| && (|ops| == 1 ==> cache.Idle())
      modifies this`n, this`outstanding, this`committing, cache, cache.bufs
      modifies this`ops, this`waiting, this`states, this`steps
      ensures Serving()
      ensures old(|ops|) > 1 ==>
                && View() == R.Next(old(View()), R.End(op), LIMIT) && cache.disk == old(cache.disk)
                && cache.view == old(cache.view)
                && cache.trace == old(cache.trace)
      ensures old(|ops|) == 1 ==>
                && n == 0 && ops == [] && cache.Idle()
                && old(WfDisk(cache.disk, g)) && (forall t :: 0 <= t < old(n) ==> old(Blocks())[t] in old(cache.view))
                && var tx := Tx(old(Blocks()), Latest(old(cache.view), old(Blocks())));
                   && WfTx(old(cache.disk), g, tx)
                   && cache.trace == old(cache.trace) + CommitWrites(old(cache.disk), g, tx)
                   && cache.disk == Apply(old(cache.disk), CommitWrites(old(cache.disk), g, tx)) == cache.view
                   && Home(cache.disk, g) == Home(old(cache.view), g)
    {
      hide Ring, Consistent, R.Run, WfDisk, Apply, Home, CommitWrites, Clean, WfBlocks;
      NeverFull();
      ghost var was := View();
      outstanding := outstanding - 1;
      var doCommit := outstanding == 0;
      ops := ops[..op] + ops[op + 1..];
      if doCommit {
        committing := true;
      } else {
        waiting := {};
      }
      Goes(was, R.End(op));
      if doCommit {
        was := View();
        Commit();
        committing := false;
        waiting := {};
        assert Blocks() == [];
        Goes(was, R.Committed);
      }
    }

    /** The scan of log_write(): a block already logged is absorbed, a new one goes to the end. */
    method Record(bno: nat)
      requires lh.Length == LOGSIZE && n < LOGSIZE
      modifies this`n, lh
      ensures n <= LOGSIZE
      ensures Blocks() == if bno in old(Blocks()) then old(Blocks()) else old(Blocks()) + [bno]
    {
      var i := 0;
      while i < n && lh[i] != bno
        invariant 0 <= i <= n
        invariant forall j :: 0 <= j < i ==> lh[j] != bno
      {
        i := i + 1;
      }
      ghost var before := lh[..n];
      lh[i] := bno;
      if i == n {
        n := n + 1;
        assert lh[..n] == before + [bno];
      } else {
        assert before[i] == bno;
        assert lh[..n] == before;
      }
    }

    /** The stores of write_head() into the header buffer. */
    method FillHeader(buf: Block) returns (h: Block)
      requires lh.Length == LOGSIZE && n <= LOGSIZE && Fits(Blocks())
      ensures h == PutHeader(buf, Blocks())
    {
      h := PutWord(buf, 0, n);
      for k := 0 to n
        invariant Fits(lh[..k]) && h == PutHeaderBlocks(PutWord(buf, 0, n), lh[..k])
      {
        assert lh[k] == Blocks()[k] && lh[..k + 1][..k] == lh[..k];
        h := PutWord(h, k + 1, lh[k]);
      }
    }

    /** write_head(): the header block names the logged blocks; words past the count keep their old values. */
    method WriteHead()
      requires Shape() && cache.Idle() && g.start !in cache.pinned && |cache.pinned| < NBUF
      modifies cache, cache.bufs
      ensures cache.Valid() && cache.Idle() && cache.pinned == old(cache.pinned)
      ensures g.start in old(cache.disk) && Fits(Blocks())
      ensures var h := PutHeader(old(cache.disk)[g.start], Blocks());
              && cache.disk == old(cache.disk)[g.start := h]
              && cache.view == old(cache.view)[g.start := h]
              && cache.trace == old(cache.trace) + [Write(g.start, h)]
    {
      hide Ring, Consistent, PutHeader, HeaderBlocks;
      assert InLog(g, g.start);
      UnpinnedAgree(cache.bufs[..], cache.disk, cache.view, cache.pinned, g.start);
      var i := ReadHeld(cache, g.start, {});
      var h := FillHeader(cache.bufs[i].data);
      cache.Store(i, h);
      cache.Bwrite(i);
      cache.Brelse(i);
    }

    /** write_log(): each logged block goes to its log block. */
    method WriteLog()
      requires Shape() && cache.Idle() && n < NBUF && cache.pinned == Numbers(Blocks())
      modifies cache, cache.bufs
      ensures cache.Valid() && cache.Idle() && cache.pinned == old(cache.pinned)
      ensures forall t :: 0 <= t < n ==> Blocks()[t] in old(cache.view)
      ensures var ws := LogWrites(g, Latest(old(cache.view), Blocks()));
              && cache.trace == old(cache.trace) + ws
              && cache.disk == Apply(old(cache.disk), ws)
              && cache.view == Apply(old(cache.view), ws)
    {
      hide Ring, Consistent, HeaderBlocks, HeaderCount, Apply, WfArea, Numbers, Distinct, Progress;
      SameBlocks(cache);
      ghost var d, v, trace, blocks := cache.disk, cache.view, cache.trace, Blocks();
      ghost var ws := LogWrites(g, Latest(v, blocks));
      Start(cache, ws);
      var tail := 0;
      while tail < n
        invariant 0 <= tail <= n
        invariant cache.Valid() && cache.Idle() && cache.pinned == old(cache.pinned)
        invariant Progress(cache, d, v, trace, ws, tail)
      {
        LogPrefix(d, v, g, blocks, tail);
        assert blocks[tail] == lh[tail];
        RoomFor(cache.pinned, blocks, g.start + tail + 1, lh[tail]);
        CopyNext(cache, g.start + tail + 1, lh[tail], true, d, v, trace, ws, tail);
        tail := tail + 1;
      }
      Finish(cache, d, v, trace, ws);
    }

    /** install_trans(): each log block goes to its home block, which is then clean. */
    method InstallTrans()
      requires Shape() && cache.Idle() && cache.pinned <= Numbers(Blocks())
      requires cache.pinned == {} || n < NBUF
      modifies cache, cache.bufs
      ensures cache.Valid() && cache.Idle() && cache.pinned == {}
      ensures old(cache.disk).Keys == old(cache.view).Keys
      ensures var ws := InstallWrites(Blocks(), LogData(old(cache.view), g, n));
              && cache.trace == old(cache.trace) + ws
              && cache.disk == Apply(old(cache.disk), ws)
    {
      hide Ring, Consistent, WfDisk, Apply, WfArea, WfBlocks, Numbers, InstallWrites, LogData, InLog, Progress,
        Unpinned;
      ghost var p := cache.pinned;
      ghost var d, v, trace, blocks := cache.disk, cache.view, cache.trace, Blocks();
      SameBlocks(cache);
      LogAreaPresent(d, v, g, blocks);
      UnpinNone(p, blocks);
      ghost var ws := InstallWrites(blocks, LogData(v, g, n));
      Start(cache, ws);
      var tail := 0;
      while tail < n
        invariant 0 <= tail <= n
        invariant cache.Valid() && cache.Idle()
        invariant cache.pinned == Unpinned(p, blocks, tail)
        invariant Progress(cache, d, v, trace, ws, tail)
      {
        InstallStep(d, v, g, blocks, tail);
        assert blocks[tail] == lh[tail];
        UnpinOne(p, blocks, tail, g.start + tail + 1);
        CopyNext(cache, g.start + tail + 1, lh[tail], false, d, v, trace, ws, tail);
        tail := tail + 1;
      }
      Finish(cache, d, v, trace, ws);
      UnpinAll(p, blocks);
    }

    /** read_head(): the in-memory header gets the block numbers on disk. */
    method ReadHead()
      requires Shape() && cache.Idle() && cache.pinned == {}
      modifies this`n, lh, cache, cache.bufs
      ensures Shape() && cache.Idle() && cache.pinned == {}
      ensures cache.disk == old(cache.disk) && cache.view == old(cache.view) && cache.trace == old(cache.trace)
      ensures g.start in cache.disk && Blocks() == HeaderBlocks(cache.disk[g.start])
    {
      hide Ring, Consistent;
      assert InLog(g, g.start);
      NothingPinned(cache);
      var i := ReadHeld(cache, g.start, {});
      var h := cache.bufs[i].data;
      assert h == cache.disk[g.start];
      CopyHeader(h);
      cache.Brelse(i);
    }

    /** The loads of read_head() from the header buffer. */
    method CopyHeader(h: Block)
      requires lh.Length == LOGSIZE && HeaderCount(h) <= LOGSIZE
      modifies this`n, lh
      ensures n <= LOGSIZE && Blocks() == HeaderBlocks(h)
    {
      n := Word(h, 0);
      for i := 0 to n
        invariant n == HeaderCount(h) && forall k :: 0 <= k < i ==> lh[k] == Word(h, k + 1)
      {
        lh[i] := Word(h, i + 1);
      }
    }

    /** recover_from_log(), run on a freshly booted machine: it writes exactly RecoverWrites and leaves
        the home blocks the disk was committed to. */
    method RecoverFromLog()
      requires Shape() && cache.Idle() && cache.pinned == {}
      modifies this`n, lh, cache, cache.bufs
      ensures Valid() && cache.Idle() && n == 0
      ensures cache.trace == old(cache.trace) + RecoverWrites(old(cache.disk), g)
      ensures cache.disk == Apply(old(cache.disk), RecoverWrites(old(cache.disk), g)) == cache.view
      ensures Home(cache.disk, g) == Committed(old(cache.disk), g)
      ensures && g.size >= LOGSIZE && states == [R.Init] && steps == [] && ops == [] && waiting == {} && !committing
              && outstanding == 0 ==>
                Serving()
    {
      hide Ring, Consistent, Apply, Home, Committed, Overlay;
      ReadHead();
      NothingPinned(cache);
      ghost var blocks := Blocks();
      ghost var data := LogData(cache.disk, g, |blocks|);
      ghost var iw := InstallWrites(blocks, data);
      InstallTrans();
      InstallPrefix(old(cache.disk), g, blocks, data, |blocks|);
      assert iw[..|blocks|] == iw;
      n := 0;
      WriteHead();
      ghost var ws := RecoverWrites(old(cache.disk), g);
      assert ws[..|ws|] == ws;
      RecoverCut(old(cache.disk), g, |ws|);
      ApplyLast(old(cache.disk), iw, ws[|ws| - 1]);
      NothingPinned(cache);
    }

    /** commit(): it writes exactly CommitWrites for the logged blocks and their latest contents, finds a
        buffer for every step, and leaves the disk up to date and the log empty. */
    method Commit()
      requires Valid() && cache.Idle() && n < NBUF
      modifies this`n, cache, cache.bufs
      ensures Valid() && cache.Idle() && n == 0
      ensures old(WfDisk(cache.disk, g)) && forall t :: 0 <= t < old(n) ==> old(Blocks())[t] in old(cache.view)
      ensures var tx := Tx(old(Blocks()), Latest(old(cache.view), old(Blocks())));
              && WfTx(old(cache.disk), g, tx)
              && cache.trace == old(cache.trace) + CommitWrites(old(cache.disk), g, tx)
              && cache.disk == Apply(old(cache.disk), CommitWrites(old(cache.disk), g, tx)) == cache.view
      ensures Home(cache.disk, g) == Home(old(cache.view), g)
    {
      hide Ring, Consistent, Apply, Home, Committed, Overlay, PutHeader, Numbers;
      SameBlocks(cache);
      ghost var d, v, trace, blocks := cache.disk, cache.view, cache.trace, Blocks();
      ghost var tx := Tx(blocks, Latest(v, blocks));
      ghost var ws := CommitWrites(d, g, tx);
      CommitHome(cache, g, blocks);
      NumbersFit(d, g, blocks);
      NothingApplied(d);
      if n > 0 {
        WriteLog();
        LogWritten(d, v, g, tx);
        WriteHead();
        HeadWritten(d, v, g, tx);
        InstallTrans();
        Installed(d, g, tx);
        n := 0;
        WriteHead();
        ghost var h := PutHeader(d[g.start], blocks);
        Chain(d, trace, LogWrites(g, tx.data), Write(g.start, h),
              InstallWrites(blocks, tx.data), Write(g.start, PutHeader(h, [])));
      }
      NothingPinned(cache);
    }
  }

  lemma SameBlocks(c: Cache)
    requires c.Valid()
    ensures c.disk.Keys == c.view.Keys
  {
  }

  /** The pinned blocks, the block being copied and its log block fit in the cache. */
  lemma RoomFor(pinned: set<nat>, blocks: seq<nat>, a: nat, b: nat)
    requires pinned == {} || (pinned <= Numbers(blocks) && |blocks| < NBUF && b in blocks)
    ensures |pinned + {a, b}| <= NBUF
  {
    if pinned == {} {
      SubsetSize(pinned + {a, b}, {a} + {b});
    } else {
      NumbersSize(blocks);
      SubsetSize(pinned + {a, b}, Numbers(blocks) + {a});
    }
  }

  /** Writing log blocks leaves the home blocks, on disk and in the cache, as they were. */
  lemma LogPrefix(d: Disk, v: Disk, g: Geometry, blocks: seq<nat>, k: nat)
    requires WfArea(d, g) && WfBlocks(d, g, blocks) && d.Keys == v.Keys && k < |blocks|
    ensures var ws := LogWrites(g, Latest(v, blocks));
            && Apply(d, ws[..k]).Keys == d.Keys
            && blocks[k] in Apply(v, ws[..k]) && Apply(v, ws[..k])[blocks[k]] == v[blocks[k]]
            && g.start + k + 1 in d && g.start + k + 1 !in Numbers(blocks) && blocks[k] in Numbers(blocks)
  {
    var data := Latest(v, blocks);
    ApplyLogWrites(d, g, data, k);
    ApplyLogWrites(v, g, data, k);
    assert InLog(g, g.start + k + 1);
  }

  lemma LogAreaPresent(d: Disk, v: Disk, g: Geometry, blocks: seq<nat>)
    requires WfDisk(d, g) && d.Keys == v.Keys && WfBlocks(d, g, blocks)
    ensures WfArea(d, g) && |blocks| < g.size && forall b :: InLog(g, b) ==> b in v
  {
  }

  /** What is left pinned after the first k of the blocks are installed. */
  ghost function Unpinned(pinned: set<nat>, blocks: seq<nat>, k: nat): (r: set<nat>)
    requires k <= |blocks|
  {
    pinned - Numbers(blocks[..k])
  }

  lemma UnpinNone(pinned: set<nat>, blocks: seq<nat>)
    ensures Unpinned(pinned, blocks, 0) == pinned
  {
  }

  lemma UnpinAll(pinned: set<nat>, blocks: seq<nat>)
    requires pinned <= Numbers(blocks)
    ensures Unpinned(pinned, blocks, |blocks|) == {}
  {
    assert blocks[..|blocks|] == blocks;
  }

  lemma UnpinOne(pinned: set<nat>, blocks: seq<nat>, k: nat, a: nat)
    requires k < |blocks| && pinned <= Numbers(blocks) && (pinned == {} || |blocks| < NBUF)
    ensures Unpinned(pinned, blocks, k) - {blocks[k]} == Unpinned(pinned, blocks, k + 1)
    ensures |Unpinned(pinned, blocks, k) + {a, blocks[k]}| <= NBUF
  {
    assert blocks[..k + 1] == blocks[..k] + [blocks[k]];
    RoomFor(Unpinned(pinned, blocks, k), blocks, a, blocks[k]);
  }

  lemma ApplyLast(d: Disk, ws: seq<Write>, w: Write)
    ensures Apply(d, ws + [w]) == Apply(d, ws)[w.bno := w.data]
  {
    ApplyConcat(d, ws, [w]);
  }

  /** Installing home blocks leaves the log blocks, on disk and in the cache, as they were. */
  lemma InstallStep(d: Disk, v: Disk, g: Geometry, blocks: seq<nat>, k: nat)
    requires WfArea(d, g) && WfBlocks(d, g, blocks) && d.Keys == v.Keys && k < |blocks|
    ensures var ws := InstallWrites(blocks, LogData(v, g, |blocks|));
            var a := g.start + k + 1;
            && Apply(d, ws[..k]).Keys == d.Keys
            && a in d && a in Apply(v, ws[..k]) && Apply(v, ws[..k])[a] == v[a]
            && a != blocks[k] && blocks[k] in d && ws[k] == Write(blocks[k], v[a])
  {
    hide Overlay, Apply;
    var data := LogData(v, g, |blocks|);
    ApplyInstall(d, blocks, data, k);
    ApplyInstall(v, blocks, data, k);
    OverlayKeepsLog(d, g, blocks[..k], data[..k]);
    OverlayKeepsLog(v, g, blocks[..k], data[..k]);
    assert InLog(g, g.start + k + 1);
  }

  /** After write_log(): nothing committed yet. */
  lemma LogWritten(d: Disk, v: Disk, g: Geometry, tx: Tx)
    requires WfDisk(d, g) && Clean(d, g) && WfTx(d, g, tx)
    ensures var e := Apply(d, LogWrites(g, tx.data));
            e.Keys == d.Keys && WfDisk(e, g) && e[g.start] == d[g.start] && WfBlocks(e, g, tx.blocks)
  {
    var ws := LogWrites(g, tx.data);
    assert ws[..|ws|] == ws;
    BeforeCommitPoint(d, g, tx, |ws|);
    ApplyLogWrites(d, g, tx.data, |ws|);
  }

  /** After write_head(): the transaction is committed, and the cache sees its log blocks. */
  lemma HeadWritten(d: Disk, v: Disk, g: Geometry, tx: Tx)
    requires WfDisk(d, g) && Clean(d, g) && WfTx(d, g, tx) && tx.blocks != [] && d.Keys == v.Keys
    ensures var h := PutHeader(d[g.start], tx.blocks);
            var e := Apply(d, LogWrites(g, tx.data))[g.start := h];
            var u := Apply(v, LogWrites(g, tx.data))[g.start := h];
            && WfDisk(e, g) && WfBlocks(e, g, tx.blocks)
            && (forall b :: InLog(g, b) ==> b in u) && LogData(u, g, |tx.blocks|) == tx.data
  {
    hide Committed, Overlay, Home, PutHeader, HeaderBlocks, RecoverWrites, InstallWrites, Apply;
    var ws := LogWrites(g, tx.data);
    assert ws[..|ws|] == ws;
    CommitPoint(d, g, tx);
    ApplyLogWrites(v, g, tx.data, |ws|);
  }

  /** After install_trans(): the header is still in place. */
  lemma Installed(d: Disk, g: Geometry, tx: Tx)
    requires WfDisk(d, g) && Clean(d, g) && WfTx(d, g, tx) && tx.blocks != []
    ensures var h := PutHeader(d[g.start], tx.blocks);
            var e := Apply(Apply(d, LogWrites(g, tx.data))[g.start := h], InstallWrites(tx.blocks, tx.data));
            WfDisk(e, g) && e[g.start] == h
  {
    CommitPoint(d, g, tx);
    var e0 := Apply(d, LogWrites(g, tx.data))[g.start := PutHeader(d[g.start], tx.blocks)];
    var iw := InstallWrites(tx.blocks, tx.data);
    assert iw[..|iw|] == iw;
    InstallPrefix(e0, g, tx.blocks, tx.data, |tx.blocks|);
  }

  lemma Chain(d: Disk, trace: seq<Write>, a: seq<Write>, w: Write, b: seq<Write>, x: Write)
    ensures Apply(d, a + [w] + b + [x]) == Apply(Apply(d, a)[w.bno := w.data], b)[x.bno := x.data]
    ensures trace + a + [w] + b + [x] == trace + (a + [w] + b + [x])
  {
    ApplyLast(d, a + [w] + b, x);
    ApplyConcat(d, a + [w], b);
    ApplyLast(d, a, w);
  }

  /** The latest home contents are the disk's with the logged blocks overlaid. */
  lemma LatestHome(c: Cache, g: Geometry, blocks: seq<nat>)
    requires c.Valid() && c.Idle() && c.pinned == Numbers(blocks) && c.disk.Keys == c.view.Keys
    requires WfBlocks(c.disk, g, blocks)
    ensures Home(c.view, g) == Overlay(Home(c.disk, g), blocks, Latest(c.view, blocks))
  {
    hide Ring, Consistent;
    var data := Latest(c.view, blocks);
    var o := Overlay(Home(c.disk, g), blocks, data);
    forall b ensures (b in Home(c.view, g) <==> b in o) && (b in o ==> Home(c.view, g)[b] == o[b]) {
      if b in blocks {
        var t :| 0 <= t < |blocks| && blocks[t] == b;
        OverlayHit(Home(c.disk, g), blocks, data, t);
      } else {
        OverlayMiss(Home(c.disk, g), blocks, data, b);
        if b in c.disk {
          UnpinnedAgree(c.bufs[..], c.disk, c.view, c.pinned, b);
        }
      }
    }
  }

  lemma CommitHome(c: Cache, g: Geometry, blocks: seq<nat>)
    requires c.Valid() && c.Idle() && c.pinned == Numbers(blocks) && c.disk.Keys == c.view.Keys
    requires WfDisk(c.disk, g) && Clean(c.disk, g) && WfBlocks(c.disk, g, blocks)
    ensures var tx := Tx(blocks, Latest(c.view, blocks));
            var e := Apply(c.disk, CommitWrites(c.disk, g, tx));
            WfDisk(e, g) && Clean(e, g) && Home(e, g) == Home(c.view, g)
  {
    hide Ring, Consistent, Overlay, Home, Apply, Committed;
    var tx := Tx(blocks, Latest(c.view, blocks));
    var ws := CommitWrites(c.disk, g, tx);
    LatestHome(c, g, blocks);
    CommitCut(c.disk, g, tx, |ws|);
    assert ws[..|ws|] == ws;
  }

  lemma NumbersFit(d: Disk, g: Geometry, blocks: seq<nat>)
    requires WfArea(d, g) && WfBlocks(d, g, blocks) && |blocks| < NBUF
    ensures g.start !in Numbers(blocks) && |Numbers(blocks)| < NBUF
  {
    assert InLog(g, g.start);
    NumbersSize(blocks);
  }

  lemma NothingApplied(d: Disk)
    ensures Apply(d, []) == d
    ensures Numbers([]) == {}
  {
  }
}
