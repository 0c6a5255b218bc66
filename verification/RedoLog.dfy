/**
  The on-disk redo log (log.c), as the sequence of single-block writes that commit()
  and recover_from_log() issue.  A crash keeps the disk and cuts such a sequence at
  any point; the theorems at the end say what recovery then leaves.
 */
module RedoLog {
  import opened Common
  import opened Blocks

  type Disk = map<nat, Block>

  /** log.start and log.size: the header block, then size - 1 log blocks. */
  datatype Geometry = Geometry(start: nat, size: nat)

  /** One bwrite() reaching the disk. */
  datatype Write = Write(bno: nat, data: Block)

  /** The blocks of one transaction and their new contents. */
  datatype Tx = Tx(blocks: seq<nat>, data: seq<Block>)

  predicate InLog(g: Geometry, b: nat) {
    g.start <= b < g.start + g.size
  }

  function Apply(d: Disk, ws: seq<Write>): (r: Disk) {
    if ws == [] then d
    else Apply(d, ws[..|ws| - 1])[ws[|ws| - 1].bno := ws[|ws| - 1].data]
  }

  /** home overwritten with data[t] at blocks[t], for t in increasing order. */
  function Overlay(home: Disk, blocks: seq<nat>, data: seq<Block>): (r: Disk)
    requires |blocks| == |data|
  {
    if blocks == [] then home
    else
      var k := |blocks| - 1;
      Overlay(home, blocks[..k], data[..k])[blocks[k] := data[k]]
  }

  /** The disk without its log area. */
  function Home(d: Disk, g: Geometry): (r: Disk) {
    map b | b in d && !InLog(g, b) :: d[b]
  }

  // --------------------------------------------------------------- header block

  /** Every block number fits a header word. */
  predicate Fits(blocks: seq<nat>) {
    forall t :: 0 <= t < |blocks| ==> blocks[t] < UINT_LIMIT
  }

  function HeaderCount(h: Block): uint32 {
    Word(h, 0)
  }

  function HeaderBlocks(h: Block): seq<nat>
    requires HeaderCount(h) <= LOGSIZE
  {
    seq(HeaderCount(h), i requires 0 <= i < HeaderCount(h) => Word(h, i + 1))
  }

  function PutHeaderBlocks(h: Block, blocks: seq<nat>): (r: Block)
    requires |blocks| <= LOGSIZE && Fits(blocks)
  {
    if blocks == [] then h
    else
      var k := |blocks| - 1;
      PutWord(PutHeaderBlocks(h, blocks[..k]), k + 1, blocks[k])
  }

  /** What write_head() leaves in the header buffer; words past the count stay stale. */
  function PutHeader(h: Block, blocks: seq<nat>): (r: Block)
    requires |blocks| <= LOGSIZE && Fits(blocks)
  {
    PutHeaderBlocks(PutWord(h, 0, |blocks|), blocks)
  }

  lemma {:induction false} PutHeaderBlocksWord(h: Block, blocks: seq<nat>, j: nat)
    requires |blocks| <= LOGSIZE && j < WORDS && Fits(blocks)
    ensures Word(PutHeaderBlocks(h, blocks), j) ==
            if 1 <= j <= |blocks| then blocks[j - 1] else Word(h, j)
  {
    if blocks != [] {
      var k := |blocks| - 1;
      PutHeaderBlocksWord(h, blocks[..k], j);
      WordAfterPut(PutHeaderBlocks(h, blocks[..k]), k + 1, blocks[k], j);
    }
  }

  /** read_head() gets back exactly the block numbers write_head() stored. */
  lemma HeaderRoundTrip(h: Block, blocks: seq<nat>)
    requires |blocks| <= LOGSIZE && Fits(blocks)
    ensures HeaderCount(PutHeader(h, blocks)) == |blocks|
    ensures HeaderBlocks(PutHeader(h, blocks)) == blocks
  {
    var h0 := PutWord(h, 0, |blocks|);
    WordAfterPut(h, 0, |blocks|, 0);
    PutHeaderBlocksWord(h0, blocks, 0);
    forall i | 0 <= i < |blocks| ensures Word(PutHeader(h, blocks), i + 1) == blocks[i] {
      PutHeaderBlocksWord(h0, blocks, i + 1);
    }
  }

  // --------------------------------------------------- well-formed disks and transactions

  ghost predicate Distinct(s: seq<nat>) {
    forall i, j :: 0 <= i < j < |s| ==> s[i] != s[j]
  }

  /** The log area exists, and block numbers fit a header word. */
  ghost predicate WfArea(d: Disk, g: Geometry) {
    && 1 <= g.size
    && (forall b :: InLog(g, b) ==> b in d)
    && (forall b :: b in d ==> b < UINT_LIMIT)
  }

  /** What log_write() guarantees of lh: distinct home blocks that fit the log area. */
  ghost predicate WfBlocks(d: Disk, g: Geometry, blocks: seq<nat>) {
    && |blocks| <= LOGSIZE && |blocks| < g.size
    && Distinct(blocks)
    && (forall t :: 0 <= t < |blocks| ==> blocks[t] in d && !InLog(g, blocks[t]))
  }

  ghost predicate WfTx(d: Disk, g: Geometry, tx: Tx) {
    |tx.blocks| == |tx.data| && WfBlocks(d, g, tx.blocks)
  }

  ghost predicate WfDisk(d: Disk, g: Geometry) {
    && WfArea(d, g)
    && HeaderCount(d[g.start]) <= LOGSIZE
    && WfBlocks(d, g, HeaderBlocks(d[g.start]))
  }

  /** The header on disk names no transaction. */
  ghost predicate Clean(d: Disk, g: Geometry) {
    g.start in d && HeaderCount(d[g.start]) == 0
  }

  /** The contents of the first n log blocks. */
  function LogData(d: Disk, g: Geometry, n: nat): (r: seq<Block>)
    requires n < g.size
    requires forall b :: InLog(g, b) ==> b in d
    ensures |r| == n
  {
    seq(n, t requires 0 <= t < n => assert InLog(g, g.start + 1 + t); d[g.start + 1 + t])
  }

  /** The home blocks a finished recovery of d would leave. */
  ghost function Committed(d: Disk, g: Geometry): (r: Disk)
    requires WfDisk(d, g)
  {
    var blocks := HeaderBlocks(d[g.start]);
    Overlay(Home(d, g), blocks, LogData(d, g, |blocks|))
  }

  // --------------------------------------------------------------- the write sequences

  /** write_log(): one log block per logged block. */
  function LogWrites(g: Geometry, data: seq<Block>): (ws: seq<Write>)
    ensures |ws| == |data|
  {
    seq(|data|, t requires 0 <= t < |data| => Write(g.start + 1 + t, data[t]))
  }

  /** install_trans(): one home block per logged block. */
  function InstallWrites(blocks: seq<nat>, data: seq<Block>): (ws: seq<Write>)
    requires |blocks| == |data|
    ensures |ws| == |blocks|
  {
    seq(|blocks|, t requires 0 <= t < |blocks| => Write(blocks[t], data[t]))
  }

  /** The writes of commit(), in order. */
  function CommitWrites(d: Disk, g: Geometry, tx: Tx): (ws: seq<Write>)
    requires g.start in d && |tx.blocks| == |tx.data| <= LOGSIZE
    requires Fits(tx.blocks)
  {
    if tx.blocks == [] then []
    else
      var h := PutHeader(d[g.start], tx.blocks);
      LogWrites(g, tx.data) + [Write(g.start, h)]
      + InstallWrites(tx.blocks, tx.data) + [Write(g.start, PutHeader(h, []))]
  }

  /** The writes of recover_from_log(), in order. */
  function RecoverWrites(d: Disk, g: Geometry): (ws: seq<Write>)
    requires g.start in d && HeaderCount(d[g.start]) <= LOGSIZE
    requires HeaderCount(d[g.start]) < g.size
    requires forall b :: InLog(g, b) ==> b in d
  {
    var blocks := HeaderBlocks(d[g.start]);
    InstallWrites(blocks, LogData(d, g, |blocks|)) + [Write(g.start, PutHeader(d[g.start], []))]
  }

  // --------------------------------------------------------------- facts about overlays

  lemma {:induction false} ApplyConcat(d: Disk, a: seq<Write>, b: seq<Write>)
    ensures Apply(d, a + b) == Apply(Apply(d, a), b)
  {
    if b == [] {
      assert a + b == a;
    } else {
      ApplyConcat(d, a, b[..|b| - 1]);
      assert (a + b)[..|a + b| - 1] == a + b[..|b| - 1];
    }
  }

  lemma {:induction false} OverlayHit(home: Disk, blocks: seq<nat>, data: seq<Block>, t: nat)
    requires |blocks| == |data| && Distinct(blocks) && t < |blocks|
    ensures blocks[t] in Overlay(home, blocks, data) && Overlay(home, blocks, data)[blocks[t]] == data[t]
  {
    var k := |blocks| - 1;
    if t < k {
      OverlayHit(home, blocks[..k], data[..k], t);
    }
  }

  lemma {:induction false} OverlayMiss(home: Disk, blocks: seq<nat>, data: seq<Block>, b: nat)
    requires |blocks| == |data| && b !in blocks
    ensures b in Overlay(home, blocks, data) <==> b in home
    ensures b in home ==> Overlay(home, blocks, data)[b] == home[b]
  {
    if blocks != [] {
      var k := |blocks| - 1;
      assert blocks[k] in blocks;
      OverlayMiss(home, blocks[..k], data[..k], b);
    }
  }

  /** With distinct block numbers an overlay is a simultaneous update. */
  lemma OverlayLookup(home: Disk, blocks: seq<nat>, data: seq<Block>)
    requires |blocks| == |data| && Distinct(blocks)
    ensures forall b :: b in Overlay(home, blocks, data) <==> b in home || b in blocks
    ensures forall t :: 0 <= t < |blocks| ==> Overlay(home, blocks, data)[blocks[t]] == data[t]
    ensures forall b :: b in home && b !in blocks ==> Overlay(home, blocks, data)[b] == home[b]
  {
    forall t | 0 <= t < |blocks|
      ensures blocks[t] in Overlay(home, blocks, data) && Overlay(home, blocks, data)[blocks[t]] == data[t]
    {
      OverlayHit(home, blocks, data, t);
    }
    forall b | b !in blocks
      ensures b in Overlay(home, blocks, data) <==> b in home
      ensures b in home ==> Overlay(home, blocks, data)[b] == home[b]
    {
      OverlayMiss(home, blocks, data, b);
    }
  }

  lemma {:induction false} ApplyInstall(d: Disk, blocks: seq<nat>, data: seq<Block>, k: nat)
    requires |blocks| == |data| && k <= |blocks|
    ensures Apply(d, InstallWrites(blocks, data)[..k]) == Overlay(d, blocks[..k], data[..k])
  {
    var ws := InstallWrites(blocks, data);
    if k > 0 {
      ApplyInstall(d, blocks, data, k - 1);
      assert ws[..k][..k - 1] == ws[..k - 1];
      assert blocks[..k][..k - 1] == blocks[..k - 1] && data[..k][..k - 1] == data[..k - 1];
    }
  }

  /** Writing log blocks changes the log blocks and nothing else. */
  lemma {:induction false} ApplyLogWrites(d: Disk, g: Geometry, data: seq<Block>, k: nat)
    requires WfArea(d, g) && |data| < g.size && k <= |data|
    ensures var d' := Apply(d, LogWrites(g, data)[..k]);
            && d'.Keys == d.Keys
            && (forall t :: 0 <= t < k ==> d'[g.start + 1 + t] == data[t])
            && (forall b :: b in d && !(g.start < b <= g.start + k) ==> d'[b] == d[b])
  {
    var ws := LogWrites(g, data);
    if k > 0 {
      ApplyLogWrites(d, g, data, k - 1);
      assert ws[..k][..k - 1] == ws[..k - 1] && ws[..k][k - 1] == Write(g.start + k, data[k - 1]);
      assert InLog(g, g.start + k);
      OneLogWrite(d, Apply(d, ws[..k - 1]), Apply(d, ws[..k]), g, data, k);
    }
  }

  lemma OneLogWrite(d: Disk, d1: Disk, d2: Disk, g: Geometry, data: seq<Block>, k: nat)
    requires WfArea(d, g) && |data| < g.size && 0 < k <= |data|
    requires d1.Keys == d.Keys && d2 == d1[g.start + k := data[k - 1]] && d2.Keys == d.Keys
    requires forall t :: 0 <= t < k - 1 ==> d1[g.start + 1 + t] == data[t]
    requires forall b :: b in d && !(g.start < b <= g.start + k - 1) ==> d1[b] == d[b]
    ensures forall t :: 0 <= t < k ==> d2[g.start + 1 + t] == data[t]
    ensures forall b :: b in d && !(g.start < b <= g.start + k) ==> d2[b] == d[b]
  {
    forall t | 0 <= t < k ensures d2[g.start + 1 + t] == data[t] {
      assert t < k - 1 ==> d1[g.start + 1 + t] == data[t];
    }
  }

  /** Re-applying a transaction over any prefix of itself gives the whole transaction. */
  lemma OverlayIdempotent(home: Disk, blocks: seq<nat>, data: seq<Block>, k: nat)
    requires |blocks| == |data| && Distinct(blocks) && k <= |blocks|
    ensures Overlay(Overlay(home, blocks[..k], data[..k]), blocks, data) == Overlay(home, blocks, data)
  {
    var part := Overlay(home, blocks[..k], data[..k]);
    var twice, once := Overlay(part, blocks, data), Overlay(home, blocks, data);
    forall b ensures (b in twice <==> b in once) && (b in once ==> twice[b] == once[b]) {
      if b in blocks {
        var t :| 0 <= t < |blocks| && blocks[t] == b;
        OverlayHit(part, blocks, data, t);
        OverlayHit(home, blocks, data, t);
      } else {
        OverlayMiss(part, blocks, data, b);
        OverlayMiss(home, blocks, data, b);
        OverlayMiss(home, blocks[..k], data[..k], b);
      }
    }
  }

  /** Overlaying home blocks commutes with forgetting the log area. */
  lemma HomeOfOverlay(d: Disk, g: Geometry, blocks: seq<nat>, data: seq<Block>)
    requires |blocks| == |data| && WfBlocks(d, g, blocks)
    ensures Home(Overlay(d, blocks, data), g) == Overlay(Home(d, g), blocks, data)
  {
    OverlayLookup(d, blocks, data);
    OverlayLookup(Home(d, g), blocks, data);
  }

  lemma CleanCommitted(d: Disk, g: Geometry)
    requires WfDisk(d, g) && Clean(d, g)
    ensures Committed(d, g) == Home(d, g)
  {
  }

  // --------------------------------------------------------------- recovery cut anywhere

  /** Installing home blocks keeps the header and the log blocks. */
  lemma OverlayKeepsLog(d: Disk, g: Geometry, blocks: seq<nat>, data: seq<Block>)
    requires WfArea(d, g) && |blocks| == |data| && WfBlocks(d, g, blocks)
    ensures var e := Overlay(d, blocks, data);
            && e.Keys == d.Keys
            && (forall b :: InLog(g, b) ==> e[b] == d[b])
  {
    OverlayLookup(d, blocks, data);
  }

  /** A disk with the same log area and the same set of blocks has the same well-formed log. */
  lemma SameLog(d: Disk, e: Disk, g: Geometry)
    requires WfDisk(d, g) && e.Keys == d.Keys
    requires forall b :: InLog(g, b) ==> e[b] == d[b]
    ensures WfDisk(e, g) && e[g.start] == d[g.start]
    ensures LogData(e, g, HeaderCount(d[g.start])) == LogData(d, g, HeaderCount(d[g.start]))
  {
    assert InLog(g, g.start);
    var n := HeaderCount(d[g.start]);
    forall t | 0 <= t < n ensures LogData(e, g, n)[t] == LogData(d, g, n)[t] {
      assert InLog(g, g.start + 1 + t);
    }
  }

  /** A partly installed disk keeps its header and its log blocks. */
  lemma InstallPrefix(d: Disk, g: Geometry, blocks: seq<nat>, data: seq<Block>, k: nat)
    requires WfDisk(d, g) && blocks == HeaderBlocks(d[g.start]) && data == LogData(d, g, |blocks|)
    requires k <= |blocks|
    ensures var e := Apply(d, InstallWrites(blocks, data)[..k]);
            && e.Keys == d.Keys && WfDisk(e, g) && e[g.start] == d[g.start]
            && Home(e, g) == Overlay(Home(d, g), blocks[..k], data[..k])
            && Committed(e, g) == Committed(d, g)
  {
    ApplyInstall(d, blocks, data, k);
    OverlayKeepsLog(d, g, blocks[..k], data[..k]);
    SameLog(d, Overlay(d, blocks[..k], data[..k]), g);
    HomeOfOverlay(d, g, blocks[..k], data[..k]);
    OverlayIdempotent(Home(d, g), blocks, data, k);
  }

  /** Replacing the header block alone changes no home block. */
  lemma HeaderWriteKeepsHome(d: Disk, g: Geometry, h: Block)
    requires WfArea(d, g)
    ensures Home(d[g.start := h], g) == Home(d, g)
    ensures d[g.start := h].Keys == d.Keys
  {
    assert InLog(g, g.start);
  }

  /** However many of its block writes a recovery manages, what the disk commits to is unchanged;
      all of them leave it clean, with the committed contents at home. */
  lemma RecoverCut(d: Disk, g: Geometry, cut: nat)
    requires WfDisk(d, g) && cut <= |RecoverWrites(d, g)|
    ensures var e := Apply(d, RecoverWrites(d, g)[..cut]);
            && e.Keys == d.Keys && WfDisk(e, g)
            && Committed(e, g) == Committed(d, g)
            && (cut == |RecoverWrites(d, g)| ==> Clean(e, g) && Home(e, g) == Committed(d, g))
  {
    var blocks := HeaderBlocks(d[g.start]);
    var data := LogData(d, g, |blocks|);
    var ws := RecoverWrites(d, g);
    var iw := InstallWrites(blocks, data);
    if cut < |ws| {
      assert ws[..cut] == iw[..cut];
      InstallPrefix(d, g, blocks, data, cut);
    } else {
      InstallPrefix(d, g, blocks, data, |blocks|);
      assert iw[..|blocks|] == iw && blocks[..|blocks|] == blocks && data[..|blocks|] == data;
      var w := [Write(g.start, PutHeader(d[g.start], []))];
      ApplyConcat(d, iw, w);
      assert ws[..cut] == iw + w;
      ClearHeader(Apply(d, iw), g);
    }
  }

  /** Clearing the header of an installed disk. */
  lemma ClearHeader(d: Disk, g: Geometry)
    requires WfDisk(d, g)
    ensures var h := PutHeader(d[g.start], []);
            var e := Apply(d, [Write(g.start, h)]);
            && e.Keys == d.Keys && WfDisk(e, g) && Clean(e, g)
            && Home(e, g) == Home(d, g) == Committed(e, g)
  {
    var h := PutHeader(d[g.start], []);
    HeaderRoundTrip(d[g.start], []);
    HeaderWriteKeepsHome(d, g, h);
    CleanCommitted(d[g.start := h], g);
  }

  // --------------------------------------------------------------- commit cut anywhere

  /** The disk just after write_log() and write_head(): it commits to the new transaction. */
  lemma CommitPoint(d: Disk, g: Geometry, tx: Tx)
    requires WfDisk(d, g) && Clean(d, g) && WfTx(d, g, tx) && tx.blocks != []
    ensures var e := Apply(d, LogWrites(g, tx.data))[g.start := PutHeader(d[g.start], tx.blocks)];
            && e.Keys == d.Keys && WfDisk(e, g)
            && HeaderBlocks(e[g.start]) == tx.blocks
            && LogData(e, g, |tx.blocks|) == tx.data
            && Home(e, g) == Home(d, g)
            && Committed(e, g) == Overlay(Home(d, g), tx.blocks, tx.data)
            && RecoverWrites(e, g) == InstallWrites(tx.blocks, tx.data) + [Write(g.start, PutHeader(e[g.start], []))]
  {
    var n := |tx.blocks|;
    var e0 := Apply(d, LogWrites(g, tx.data));
    assert LogWrites(g, tx.data)[..n] == LogWrites(g, tx.data);
    ApplyLogWrites(d, g, tx.data, n);
    NewHeader(d, e0, g, tx);
  }

  lemma NewHeader(d: Disk, e0: Disk, g: Geometry, tx: Tx)
    requires WfArea(d, g) && e0.Keys == d.Keys && WfTx(d, g, tx)
    requires forall t :: 0 <= t < |tx.blocks| ==> e0[g.start + 1 + t] == tx.data[t]
    requires forall b :: b in d && !(g.start < b <= g.start + |tx.blocks|) ==> e0[b] == d[b]
    ensures var e := e0[g.start := PutHeader(d[g.start], tx.blocks)];
            && e.Keys == d.Keys && WfDisk(e, g)
            && HeaderBlocks(e[g.start]) == tx.blocks
            && LogData(e, g, |tx.blocks|) == tx.data
            && Home(e, g) == Home(d, g)
  {
    HeaderRoundTrip(d[g.start], tx.blocks);
    HeaderWriteKeepsHome(e0, g, PutHeader(d[g.start], tx.blocks));
  }

  /** An uncommitted prefix of write_log() leaves a clean disk with the old home blocks. */
  lemma BeforeCommitPoint(d: Disk, g: Geometry, tx: Tx, cut: nat)
    requires WfDisk(d, g) && Clean(d, g) && WfTx(d, g, tx) && cut <= |tx.blocks|
    ensures var e := Apply(d, LogWrites(g, tx.data)[..cut]);
            && e.Keys == d.Keys && WfDisk(e, g) && Clean(e, g) && Home(e, g) == Home(d, g)
            && Committed(e, g) == Home(d, g)
  {
    ApplyLogWrites(d, g, tx.data, cut);
    CleanCommitted(Apply(d, LogWrites(g, tx.data)[..cut]), g);
  }

  /** commit() cut after any number of its block writes: before the header write the disk still
      commits to the old contents, from the header write on to the whole transaction; complete,
      it is clean with the transaction installed. */
  lemma CommitCut(d: Disk, g: Geometry, tx: Tx, cut: nat)
    requires WfDisk(d, g) && Clean(d, g) && WfTx(d, g, tx)
    requires cut <= |CommitWrites(d, g, tx)|
    ensures var e := Apply(d, CommitWrites(d, g, tx)[..cut]);
            var after := Overlay(Home(d, g), tx.blocks, tx.data);
            && e.Keys == d.Keys && WfDisk(e, g)
            && Committed(e, g) == (if cut > |tx.blocks| then after else Home(d, g))
            && (cut == |CommitWrites(d, g, tx)| ==> Clean(e, g) && Home(e, g) == after)
  {
    var n := |tx.blocks|;
    var ws := CommitWrites(d, g, tx);
    if n == 0 {
      assert ws[..cut] == [];
      CleanCommitted(d, g);
    } else if cut <= n {
      assert ws[..cut] == LogWrites(g, tx.data)[..cut];
      BeforeCommitPoint(d, g, tx, cut);
    } else {
      AfterCommitPoint(d, g, tx, cut);
    }
  }

  /** From the header write on, the disk evolves exactly as a recovery of it would. */
  lemma AfterCommitPoint(d: Disk, g: Geometry, tx: Tx, cut: nat)
    requires WfDisk(d, g) && Clean(d, g) && WfTx(d, g, tx) && tx.blocks != []
    requires |tx.blocks| < cut <= |CommitWrites(d, g, tx)|
    ensures var e := Apply(d, CommitWrites(d, g, tx)[..cut]);
            var after := Overlay(Home(d, g), tx.blocks, tx.data);
            && e.Keys == d.Keys && WfDisk(e, g) && Committed(e, g) == after
            && (cut == |CommitWrites(d, g, tx)| ==> Clean(e, g) && Home(e, g) == after)
  {
    hide Committed, Home, Overlay;
    var h := PutHeader(d[g.start], tx.blocks);
    var e0 := Apply(d, LogWrites(g, tx.data))[g.start := h];
    CommitPoint(d, g, tx);
    CutConcat(d, LogWrites(g, tx.data), Write(g.start, h), InstallWrites(tx.blocks, tx.data),
              [Write(g.start, PutHeader(h, []))], cut);
    RecoverCut(e0, g, cut - |tx.blocks| - 1);
  }

  lemma CutConcat(d: Disk, a: seq<Write>, w: Write, b: seq<Write>, c: seq<Write>, cut: nat)
    requires |a| < cut <= |a| + 1 + |b| + |c|
    ensures Apply(d, (a + [w] + b + c)[..cut]) == Apply(Apply(d, a)[w.bno := w.data], (b + c)[..cut - |a| - 1])
  {
    assert (a + [w] + b + c)[..cut] == a + [w] + (b + c)[..cut - |a| - 1];
    ApplyConcat(d, a + [w], (b + c)[..cut - |a| - 1]);
    ApplyConcat(d, a, [w]);
  }

  // --------------------------------------------------------------- whole runs

  /** What a machine does between crashes; cut is the number of block writes reaching the disk. */
  datatype Event = Commit(tx: Tx, cut: nat) | Reboot(cut: nat)

  /** The disk, and whether the machine is up (recovered, and not stopped inside a commit). */
  datatype Machine = Machine(disk: Disk, up: bool)

  ghost predicate Enabled(m: Machine, g: Geometry, e: Event)
    requires WfDisk(m.disk, g)
  {
    match e
    case Commit(tx, cut) =>
      m.up && WfTx(m.disk, g, tx) && cut <= |CommitWrites(m.disk, g, tx)|
    case Reboot(cut) => cut <= |RecoverWrites(m.disk, g)|
  }

  ghost function Next(m: Machine, g: Geometry, e: Event): (r: Machine)
    requires WfDisk(m.disk, g) && Enabled(m, g, e)
  {
    match e
    case Commit(tx, cut) =>
      var ws := CommitWrites(m.disk, g, tx);
      Machine(Apply(m.disk, ws[..cut]), cut == |ws|)
    case Reboot(cut) =>
      var ws := RecoverWrites(m.disk, g);
      Machine(Apply(m.disk, ws[..cut]), cut == |ws|)
  }

  /** home after event e: changed only by a commit whose header write happened. */
  ghost function Taken(home: Disk, e: Event): (r: Disk) {
    if e.Commit? && e.cut > |e.tx.blocks| == |e.tx.data| then Overlay(home, e.tx.blocks, e.tx.data) else home
  }

  /** The transactions whose header write happened, applied in order. */
  ghost function Included(home: Disk, events: seq<Event>): (r: Disk) {
    if events == [] then home
    else Taken(Included(home, events[..|events| - 1]), events[|events| - 1])
  }

  /** ms is a run of the machine: ms[0], then one state per event. */
  ghost predicate Run(ms: seq<Machine>, g: Geometry, events: seq<Event>) {
    && |ms| == |events| + 1
    && WfDisk(ms[0].disk, g) && Clean(ms[0].disk, g) && ms[0].up
    && (forall i :: 0 <= i < |events| ==>
          WfDisk(ms[i].disk, g) && Enabled(ms[i], g, events[i]) && ms[i + 1] == Next(ms[i], g, events[i]))
  }

  /** One event: the disk takes the transaction on exactly when its header write happened. */
  lemma EventKeeps(m: Machine, g: Geometry, e: Event)
    requires WfDisk(m.disk, g) && (m.up ==> Clean(m.disk, g) && Home(m.disk, g) == Committed(m.disk, g))
    requires Enabled(m, g, e)
    ensures var r := Next(m, g, e);
            && WfDisk(r.disk, g) && r.disk.Keys == m.disk.Keys
            && Committed(r.disk, g) == Taken(Committed(m.disk, g), e)
            && (r.up ==> Clean(r.disk, g) && Home(r.disk, g) == Committed(r.disk, g))
  {
    hide WfArea, WfBlocks, Committed, Home, Apply;
    match e
    case Commit(tx, cut) => CommitCut(m.disk, g, tx, cut);
    case Reboot(cut) => RecoverCut(m.disk, g, cut);
  }

  /** Crash atomicity: over every run of commits, crashes and repeated interrupted recoveries,
      the disk always commits to exactly the transactions whose header write happened, in order,
      and whenever the machine is up those are the home blocks on disk. */
  lemma {:induction false} CrashAtomicity(ms: seq<Machine>, g: Geometry, events: seq<Event>)
    requires Run(ms, g, events)
    ensures var m := ms[|events|];
            && WfDisk(m.disk, g) && m.disk.Keys == ms[0].disk.Keys
            && Committed(m.disk, g) == Included(Home(ms[0].disk, g), events)
            && (m.up ==> Clean(m.disk, g) && Home(m.disk, g) == Included(Home(ms[0].disk, g), events))
  {
    hide WfDisk, Committed, Home, Enabled, Next, Taken;
    if events == [] {
      CleanCommitted(ms[0].disk, g);
    } else {
      var k := |events| - 1;
      CrashAtomicity(ms[..k + 1], g, events[..k]);
      EventKeeps(ms[k], g, events[k]);
    }
  }
}
