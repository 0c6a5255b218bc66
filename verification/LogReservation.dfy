/**
  begin_op(), log_write() and end_op() (log.c) as interleaved steps of any number of
  operations, each step being one critical section of log.lock.
 */
module LogReservation {
  import opened Common

  /** ops[i] is the set of distinct blocks the i-th running operation has logged; waiting is the set of
      processes asleep in begin_op(). */
  datatype State = State(ops: seq<set<nat>>, lh: set<nat>, committing: bool, waiting: set<nat>)

  const Init := State([], {}, false, {})

  datatype Step =
    | Begin(pid: nat)              // one turn of the loop in begin_op()
    | LogWrite(op: nat, blk: nat)  // log_write() by running operation op
    | End(op: nat)                 // the first critical section of end_op()
    | Committed                    // commit() has run; the second critical section of end_op()

  /** The test of begin_op(). */
  predicate MayBegin(s: State) {
    !s.committing && |s.lh| + (|s.ops| + 1) * MAXOPBLOCKS <= LOGSIZE
  }

  /** The first test of log_write(), before it looks for an absorbed block. */
  predicate Panics(s: State, logSize: nat) {
    |s.lh| >= LOGSIZE || |s.lh| >= logSize - 1
  }

  /** Operations log at most limit distinct blocks, and only running operations log or end. */
  ghost predicate Enabled(s: State, step: Step, limit: nat) {
    match step
    case Begin(pid) => true
    case LogWrite(op, blk) => op < |s.ops| && |s.ops[op] + {blk}| <= limit
    case End(op) => op < |s.ops|
    case Committed => s.committing
  }

  ghost function Next(s: State, step: Step, limit: nat): (r: State)
    requires Enabled(s, step, limit)
  {
    match step
    case Begin(pid) =>
      if MayBegin(s) then s.(ops := s.ops + [{}], waiting := s.waiting - {pid})
      else s.(waiting := s.waiting + {pid})
    case LogWrite(op, blk) =>
      s.(ops := s.ops[op := s.ops[op] + {blk}], lh := s.lh + {blk})
    case End(op) =>
      var rest := s.ops[..op] + s.ops[op + 1..];
      if rest == [] then s.(ops := rest, committing := true)
      else s.(ops := rest, waiting := {})
    case Committed => s.(lh := {}, committing := false, waiting := {})
  }

  /** ss is a run from the initial state. */
  ghost predicate Run(ss: seq<State>, steps: seq<Step>, limit: nat) {
    && |ss| == |steps| + 1 && ss[0] == Init
    && forall i :: 0 <= i < |steps| ==>
         Enabled(ss[i], steps[i], limit) && ss[i + 1] == Next(ss[i], steps[i], limit)
  }

  /** Blocks the running operations may still log. */
  ghost function Reserved(ops: seq<set<nat>>, limit: nat): (r: int) {
    if ops == [] then 0 else Reserved(ops[..|ops| - 1], limit) + limit - |ops[|ops| - 1]|
  }

  ghost predicate Within(ops: seq<set<nat>>, limit: nat) {
    forall i :: 0 <= i < |ops| ==> |ops[i]| <= limit
  }

  lemma {:induction false} ReservedBounds(ops: seq<set<nat>>, limit: nat)
    requires Within(ops, limit)
    ensures 0 <= Reserved(ops, limit) <= |ops| * limit
  {
    if ops != [] {
      ReservedBounds(ops[..|ops| - 1], limit);
      assert (|ops| - 1) * limit + limit == |ops| * limit;
    }
  }

  lemma {:induction false} ReservedSplit(a: seq<set<nat>>, b: seq<set<nat>>, limit: nat)
    ensures Reserved(a + b, limit) == Reserved(a, limit) + Reserved(b, limit)
  {
    if b == [] {
      assert a + b == a;
    } else {
      ReservedSplit(a, b[..|b| - 1], limit);
      assert (a + b)[..|a + b| - 1] == a + b[..|b| - 1];
    }
  }

  /** Removing or replacing the operation at position op. */
  lemma ReservedAt(ops: seq<set<nat>>, op: nat, x: set<nat>, limit: nat)
    requires op < |ops|
    ensures Reserved(ops[..op] + ops[op + 1..], limit) == Reserved(ops, limit) - limit + |ops[op]|
    ensures Reserved(ops[op := x], limit) == Reserved(ops, limit) + |ops[op]| - |x|
  {
    assert ops == ops[..op] + [ops[op]] + ops[op + 1..];
    assert ops[op := x] == ops[..op] + [x] + ops[op + 1..];
    ReservedSplit(ops[..op], ops[op + 1..], limit);
    ReservedSplit(ops[..op] + [ops[op]], ops[op + 1..], limit);
    ReservedSplit(ops[..op] + [x], ops[op + 1..], limit);
    ReservedSplit(ops[..op], [ops[op]], limit);
    ReservedSplit(ops[..op], [x], limit);
  }

  ghost predicate Inv(s: State, limit: nat) {
    && Within(s.ops, limit)
    && (forall i :: 0 <= i < |s.ops| ==> s.ops[i] <= s.lh)
    && (s.committing ==> s.ops == [])
    && (s.ops == [] && !s.committing ==> s.lh == {})
    && |s.lh| + Reserved(s.ops, limit) <= LOGSIZE - 2
    && (s.waiting != {} ==> s.committing || s.ops != [])
  }

  lemma BeginKeeps(s: State, pid: nat, limit: nat)
    requires Inv(s, limit) && limit < MAXOPBLOCKS && MayBegin(s)
    ensures Inv(Next(s, Begin(pid), limit), limit)
  {
    ReservedBounds(s.ops, limit);
    ReservedSplit(s.ops, [{}], limit);
    if s.ops != [] {
      assert |s.lh| + |s.ops| * limit + limit <= LOGSIZE - 2 by {
        assert |s.ops| * limit <= |s.ops| * (MAXOPBLOCKS - 1);
      }
    }
  }

  lemma LogWriteKeeps(s: State, op: nat, blk: nat, limit: nat)
    requires Inv(s, limit) && Enabled(s, LogWrite(op, blk), limit)
    ensures Inv(Next(s, LogWrite(op, blk), limit), limit)
  {
    var x := s.ops[op] + {blk};
    ReservedAt(s.ops, op, x, limit);
    if blk in s.lh {
      assert s.lh + {blk} == s.lh;
      assert |x| >= |s.ops[op]| by {
        if blk in s.ops[op] {
          assert x == s.ops[op];
        }
      }
    } else {
      assert blk !in s.ops[op];
    }
  }

  lemma EndKeeps(s: State, op: nat, limit: nat)
    requires Inv(s, limit) && op < |s.ops|
    ensures Inv(Next(s, End(op), limit), limit)
  {
    ReservedAt(s.ops, op, {}, limit);
  }

  /** Reservation: if no operation logs more than MAXOPBLOCKS - 1 distinct blocks, then in every
      interleaving the log never holds more than LOGSIZE - 2 blocks, so log_write() does not panic even
      with an on-disk log of LOGSIZE blocks; commits run only with no operation outstanding; and a
      process sleeping in begin_op() always has an operation or a commit that will wake it. */
  lemma {:induction false} Reservation(ss: seq<State>, steps: seq<Step>, limit: nat)
    requires Run(ss, steps, limit) && limit < MAXOPBLOCKS
    ensures var s := ss[|steps|];
            && |s.lh| <= LOGSIZE - 2 && !Panics(s, LOGSIZE)
            && (s.committing ==> s.ops == [])
            && (s.waiting != {} ==> s.committing || s.ops != [])
            && Inv(s, limit)
  {
    var k := |steps| - 1;
    if k >= 0 {
      Reservation(ss[..k + 1], steps[..k], limit);
      var s := ss[k];
      assert s == ss[..k + 1][k];
      match steps[k]
      case Begin(pid) =>
        if MayBegin(s) {
          BeginKeeps(s, pid, limit);
        } else {
          assert s.ops == [] && !s.committing ==> |s.lh| == 0;
        }
      case LogWrite(op, blk) => LogWriteKeeps(s, op, blk, limit);
      case End(op) => EndKeeps(s, op, limit);
      case Committed =>
    }
    ReservedBounds(ss[|steps|].ops, limit);
  }

  /** No wakeup is lost in begin_op(): whatever operations log, nobody sleeps there who could begin. */
  lemma {:induction false} NobodyWaitsInVain(ss: seq<State>, steps: seq<Step>, limit: nat)
    requires Run(ss, steps, limit)
    ensures ss[|steps|].waiting != {} ==> !MayBegin(ss[|steps|])
  {
    var k := |steps| - 1;
    if k >= 0 {
      NobodyWaitsInVain(ss[..k + 1], steps[..k], limit);
      assert ss[k] == ss[..k + 1][k];
      if steps[k].LogWrite? {
        SubsetSize(ss[k].lh, ss[k + 1].lh);
      }
    }
  }

  // ------------------------------------------------- the bound is exact: MAXOPBLOCKS blocks can panic

  /** The k blocks from lo on. */
  ghost function Span(lo: nat, k: nat): (r: set<nat>) {
    if k == 0 then {} else Span(lo, k - 1) + {lo + k - 1}
  }

  lemma {:induction false} SpanMembers(lo: nat, k: nat)
    ensures |Span(lo, k)| == k
    ensures forall x :: x in Span(lo, k) <==> lo <= x < lo + k
  {
    if k > 0 {
      SpanMembers(lo, k - 1);
    }
  }

  /** Three running operations that have logged a, b and c blocks of their own. */
  ghost function Busy(a: nat, b: nat, c: nat): (r: State) {
    State([Span(0, a), Span(10, b), Span(20, c)], Span(0, a) + Span(10, b) + Span(20, c), false, {})
  }

  ghost predicate Reachable(s: State, limit: nat) {
    exists ss, steps :: Run(ss, steps, limit) && ss[|steps|] == s
  }

  lemma ReachNext(s: State, step: Step, limit: nat)
    requires Reachable(s, limit) && Enabled(s, step, limit)
    ensures Reachable(Next(s, step, limit), limit)
  {
    var ss, steps :| Run(ss, steps, limit) && ss[|steps|] == s;
    var t := Next(s, step, limit);
    assert Run(ss + [t], steps + [step], limit);
    assert (ss + [t])[|steps + [step]|] == t;
  }

  lemma ReachInit()
    ensures Reachable(Init, MAXOPBLOCKS)
  {
    assert Run([Init], [], MAXOPBLOCKS) && [Init][0] == Init;
  }

  lemma ReachThree()
    ensures Reachable(Busy(0, 0, 0), MAXOPBLOCKS)
  {
    ReachInit();
    hide Reachable;
    var one := State([{}], {}, false, {});
    var two := State([{}, {}], {}, false, {});
    ReachNext(Init, Begin(0), MAXOPBLOCKS);
    assert Next(Init, Begin(0), MAXOPBLOCKS) == one;
    ReachNext(one, Begin(1), MAXOPBLOCKS);
    assert Next(one, Begin(1), MAXOPBLOCKS) == two;
    ReachNext(two, Begin(2), MAXOPBLOCKS);
    assert Next(two, Begin(2), MAXOPBLOCKS) == Busy(0, 0, 0);
  }

  /** From s, operation op logs one more block of its span. */
  lemma OneMore(s: State, op: nat, lo: nat, k: nat)
    requires Reachable(s, MAXOPBLOCKS) && op < |s.ops| && s.ops[op] == Span(lo, k) && k < MAXOPBLOCKS
    ensures Reachable(s.(ops := s.ops[op := Span(lo, k + 1)], lh := s.lh + {lo + k}), MAXOPBLOCKS)
  {
    hide Reachable, Span;
    SpanMembers(lo, k + 1);
    SpanGrows(lo, k + 1);
    ReachNext(s, LogWrite(op, lo + k), MAXOPBLOCKS);
  }

  lemma {:induction false} ReachBusy(a: nat, b: nat, c: nat)
    requires a <= 10 && b <= 10 && c <= 10
    ensures Reachable(Busy(a, b, c), MAXOPBLOCKS)
    decreases a + b + c
  {
    hide Reachable, Span;
    if a > 0 {
      ReachBusy(a - 1, b, c);
      OneMore(Busy(a - 1, b, c), 0, 0, a - 1);
      SpanGrows(0, a);
      assert Busy(a, b, c).lh == Busy(a - 1, b, c).lh + {0 + a - 1};
      assert Busy(a, b, c).ops == Busy(a - 1, b, c).ops[0 := Span(0, a)];
    } else if b > 0 {
      ReachBusy(a, b - 1, c);
      OneMore(Busy(a, b - 1, c), 1, 10, b - 1);
      SpanGrows(10, b);
      assert Busy(a, b, c).lh == Busy(a, b - 1, c).lh + {10 + b - 1};
      assert Busy(a, b, c).ops == Busy(a, b - 1, c).ops[1 := Span(10, b)];
    } else if c > 0 {
      ReachBusy(a, b, c - 1);
      OneMore(Busy(a, b, c - 1), 2, 20, c - 1);
      SpanGrows(20, c);
      assert Busy(a, b, c).lh == Busy(a, b, c - 1).lh + {20 + c - 1};
      assert Busy(a, b, c).ops == Busy(a, b, c - 1).ops[2 := Span(20, c)];
    } else {
      ReachThree();
    }
  }

  lemma SpanGrows(lo: nat, k: nat)
    requires k > 0
    ensures Span(lo, k) == Span(lo, k - 1) + {lo + k - 1}
  {
  }

  /** With operations of MAXOPBLOCKS blocks a state is reached, with an operation that still has a block to
      log, in which log_write() panics on a log of LOGSIZE blocks. */
  lemma FullOperationsCanPanic()
    ensures exists s, op, blk ::
              Reachable(s, MAXOPBLOCKS) && Enabled(s, LogWrite(op, blk), MAXOPBLOCKS) && Panics(s, LOGSIZE)
  {
    hide Reachable, Span;
    var s := Busy(10, 10, 9);
    ReachBusy(10, 10, 9);
    SpanMembers(0, 10);
    SpanMembers(10, 10);
    SpanMembers(20, 9);
    SpanMembers(0, 29);
    assert s.lh == Span(0, 29);
    SpanMembers(20, 10);
    assert Enabled(s, LogWrite(2, 29), MAXOPBLOCKS);
  }

  /** A larger limit allows the same runs. */
  lemma RunMore(ss: seq<State>, steps: seq<Step>, limit: nat, limit': nat)
    requires Run(ss, steps, limit) && limit <= limit'
    ensures Run(ss, steps, limit')
  {
    forall i | 0 <= i < |steps| ensures Enabled(ss[i], steps[i], limit') && ss[i + 1] == Next(ss[i], steps[i], limit') {
      assert Enabled(ss[i], steps[i], limit);
    }
  }

  /** The exact limit: log_write() can panic, on a log of LOGSIZE blocks, if and only if operations may log MAXOPBLOCKS
      distinct blocks or more. */
  lemma PanicsFromLimit(limit: nat)
    ensures limit >= MAXOPBLOCKS <==>
              exists s, op, blk :: Reachable(s, limit) && Enabled(s, LogWrite(op, blk), limit) && Panics(s, LOGSIZE)
  {
    if limit >= MAXOPBLOCKS {
      FullOperationsCanPanic();
      var s, op, blk :| Reachable(s, MAXOPBLOCKS) && Enabled(s, LogWrite(op, blk), MAXOPBLOCKS) && Panics(s, LOGSIZE);
      var ss, steps :| Run(ss, steps, MAXOPBLOCKS) && ss[|steps|] == s;
      RunMore(ss, steps, MAXOPBLOCKS, limit);
      assert Reachable(s, limit) && Enabled(s, LogWrite(op, blk), limit);
    } else {
      forall s | Reachable(s, limit) ensures !Panics(s, LOGSIZE) {
        var ss, steps :| Run(ss, steps, limit) && ss[|steps|] == s;
        Reservation(ss, steps, limit);
      }
    }
  }

  /** An operation that logs the blocks of a set of at most limit, in whatever order, stays within the limit. */
  lemma WithinLimit(s: State, op: nat, blk: nat, logged: set<nat>, limit: nat)
    requires op < |s.ops| && s.ops[op] <= logged && blk in logged && |logged| <= limit
    ensures Enabled(s, LogWrite(op, blk), limit) && Next(s, LogWrite(op, blk), limit).ops[op] <= logged
  {
    assert logged == (s.ops[op] + {blk}) + (logged - (s.ops[op] + {blk}));
  }
}
