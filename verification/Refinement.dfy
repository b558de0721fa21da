/** The held blocks refine the unbounded chain of accepted blocks. */
module Refinement {
  import opened Types
  import opened BlockWindow
  import opened Messages
  import opened History

  // ----- the environment -----

  /** Heights for which the 32-bit arithmetic on them is exact. */
  predicate HeightInRange(height: uint32) {
    DEPTH - 1 <= height < U32_MOD - 1
  }

  /** What Bitcoin is relied on for: a block at a held height with the held hash is the held block. */
  ghost predicate Genuine(w: World, b: Block) {
    && HeightInRange(b.height)
    && (b.height in w.blocks && w.blocks[b.height].hash == b.hash ==> w.blocks[b.height] == b)
  }

  ghost predicate GenuineRun(tr: Trace, ms: seq<Message>)
    decreases |ms|
  {
    ms != [] ==>
      && (ms[0].MNewBlock? ==> Genuine(tr.world, ms[0].block))
      && GenuineRun(Next(tr, ms[0]), ms[1..])
  }

  /** The bound is 63 below the height exactly for heights of at least 63; below, it wraps above the height. */
  lemma ConfirmedHeightExact(height: uint32)
    ensures ConfirmedHeight(height) == height - 63 <==> height >= 63
    ensures height < 63 ==> ConfirmedHeight(height) == U32_MOD - 63 + height > height
  {
  }

  /** A block at a height below 63 that is answered Ok is pruned at once, and so is every block held below the
      last 63 heights of the 32-bit word. */
  lemma {:induction false} LowBlockIsPruned(w: World, b: Block)
    requires b.height < DEPTH - 1 && NewBlock(w, b).reply.Ok?
    ensures var after := NewBlock(w, b).world;
            b.height !in after.blocks && forall h | h in after.blocks :: h > U32_MOD - DEPTH + b.height + 1
  {
    hide NewBlock, Admit, Confirm;
    NewBlockReplies(w, b);
    NewBlockStores(w, b);
  }

  // ----- the abstract chain -----

  /** The least height that the window holds. */
  function Floor(log: ChainLog): int {
    if log.base <= log.peak - (DEPTH - 2) then log.peak - (DEPTH - 2) else log.base
  }

  predicate Held(log: ChainLog, height: int) {
    log.base <= height <= log.Tip() && Floor(log) <= height
  }

  /** The chain restricted to the heights above the peak less 63. */
  function Window(log: ChainLog): (blocks: Blocks)
    ensures forall h: uint32 :: h in blocks <==> Held(log, h)
    ensures forall h: uint32 | Held(log, h) :: blocks[h] == log.canon[h - log.base]
  {
    map h: uint32 | log.base <= h <= log.Tip() && Held(log, h) :: log.canon[h - log.base]
  }

  ghost predicate LogInv(log: ChainLog) {
    && (log.canon == [] ==> log.peak == -1)
    && (log.canon != [] ==>
          && DEPTH - 1 <= log.base
          && log.Tip() < U32_MOD - 1
          && Held(log, log.Tip())
          && forall i | 0 <= i < |log.canon| :: log.canon[i].height == log.base + i)
  }

  function Txids(canon: seq<Block>): set<Txid> {
    set i, t | 0 <= i < |canon| && t in canon[i].txids :: t
  }

  /** How the unbounded chain classifies a block. */
  function Classify(log: ChainLog, b: Block): Verdict {
    if log.canon == [] || b.height == log.Tip() + 1 then Extends
    else if b.height > log.Tip() + 1 then Unrecoverable
    else if log.Tip() - b.height + 1 > DEPTH || log.Tip() + 1 >= U32_MOD then Unrecoverable
    else if !Held(log, b.height) then NotFound(b.height)
    else if log.canon[b.height - log.base].hash == b.hash then Duplicate
    else Recoverable(log.Tip(), log.Tip() - b.height + 1)
  }

  /** The chain with everything from a height on taken away. */
  function CutAt(log: ChainLog, height: int): ChainLog {
    if log.base <= height <= log.Tip() then log.(canon := log.canon[..height - log.base]) else log
  }

  /** The stores hold the window of a chain, and only the chain's transactions are confirmed. */
  ghost predicate Refines(log: ChainLog, blocks: Blocks, records: Records) {
    && LogInv(log)
    && blocks == Window(log)
    && forall t | t in records.confirmed :: t in Txids(log.canon)
  }

  ghost predicate BlockInv(tr: Trace) {
    Refines(tr.past.log, tr.world.blocks, tr.world.records)
  }

  // ----- the window classifies as the chain does -----

  lemma {:induction false} WindowTip(log: ChainLog)
    requires LogInv(log) && log.canon != []
    ensures Window(log) != map[]
    ensures MaxKey(Window(log).Keys) == log.Tip()
    ensures Window(log)[log.Tip()].height == log.Tip()
  {
    assert log.Tip() in Window(log);
    assert IsMax(Window(log).Keys, MaxKey(Window(log).Keys));
  }

  /** Classifying a block against the held window gives what the unbounded chain gives. */
  lemma {:induction false} DetectMatches(log: ChainLog, b: Block)
    requires LogInv(log)
    ensures DetectReorg(Window(log), b) == Classify(log, b)
  {
    if log.canon == [] {
      assert Window(log) == map[];
    } else {
      WindowTip(log);
      if b.height <= log.Tip() {
        DepthExact(log.Tip(), b.height);
      }
    }
  }

  /** At the last height of the 32-bit word the next height wraps: only a block at height 0 extends the chain, and
      every other is unrecoverable. */
  lemma {:induction false} EndOfHeights(blocks: Blocks, b: Block)
    requires blocks != map[] && blocks[MaxKey(blocks.Keys)].height == U32_MOD - 1
    ensures DetectReorg(blocks, b) == if b.height == 0 then Extends else Unrecoverable
  {
  }

  lemma {:induction false} DepthExact(tip: uint32, height: uint32)
    requires 0 <= height <= tip < U32_MOD - 1
    ensures WrapAdd32(WrapSub32(tip, height), 1) == tip - height + 1
    ensures WrapAdd32(tip, 1) == tip + 1
  {
  }

  // ----- reverting -----

  lemma {:induction false} TxidsConcat(left: seq<Block>, right: seq<Block>)
    ensures Txids(left + right) == Txids(left) + Txids(right)
  {
    var both := left + right;
    forall t
      ensures t in Txids(both) <==> t in Txids(left) || t in Txids(right)
    {
      if t in Txids(left) {
        var i :| 0 <= i < |left| && t in left[i].txids;
        assert both[i] == left[i];
      }
      if t in Txids(right) {
        var i :| 0 <= i < |right| && t in right[i].txids;
        assert both[|left| + i] == right[i];
      }
      if t in Txids(both) {
        var i :| 0 <= i < |both| && t in both[i].txids;
        assert both[i] == if i < |left| then left[i] else right[i - |left|];
      }
    }
  }

  lemma {:induction false} RangeOfWindow(log: ChainLog, height: int)
    requires LogInv(log) && log.canon != []
    requires Held(log, height)
    ensures RangeTxids(Window(log), height, log.Tip()) == Txids(log.canon[height - log.base..])
  {
    hide RangeTxids, Txids, Floor;
    forall t
      ensures t in RangeTxids(Window(log), height, log.Tip()) <==> t in Txids(log.canon[height - log.base..])
    {
      if t in Txids(log.canon[height - log.base..]) {
        OnChainInRange(log, height, t);
      }
      if t in RangeTxids(Window(log), height, log.Tip()) {
        InRangeOnChain(log, height, t);
      }
    }
  }

  lemma {:induction false} OnChainInRange(log: ChainLog, height: int, t: Txid)
    requires LogInv(log) && log.canon != [] && Held(log, height)
    requires t in Txids(log.canon[height - log.base..])
    ensures t in RangeTxids(Window(log), height, log.Tip())
  {
    var k := height - log.base;
    var i :| 0 <= i < |log.canon[k..]| && t in log.canon[k..][i].txids;
    assert Held(log, height + i) && t in Window(log)[height + i].txids;
  }

  lemma {:induction false} InRangeOnChain(log: ChainLog, height: int, t: Txid)
    requires LogInv(log) && log.canon != [] && Held(log, height)
    requires t in RangeTxids(Window(log), height, log.Tip())
    ensures t in Txids(log.canon[height - log.base..])
  {
    var h :| h in Window(log) && height <= h <= log.Tip() && t in Window(log)[h].txids;
    assert t in log.canon[height - log.base..][h - height].txids;
  }

  lemma {:induction false} WindowCut(log: ChainLog, height: int)
    requires LogInv(log) && log.canon != []
    requires Floor(log) <= height <= log.Tip() + 1 && log.base <= height
    ensures WithoutRange(Window(log), height, log.Tip()) == Window(CutAt(log, height))
  {
    var cut := CutAt(log, height);
    assert forall h: uint32 :: Held(cut, h) <==> Held(log, h) && h < height;
  }

  /** Reverting never unwraps a missing block: from any height still held up to the tip it removes exactly
      those blocks and un-confirms exactly their transactions. */
  lemma {:induction false} RevertSucceeds(log: ChainLog, records: Records, height: uint32)
    requires LogInv(log) && log.canon != []
    requires Held(log, height)
    ensures RevertBlocks(Window(log), records, log.Tip(), log.Tip() - height + 1)
         == Ok(ReorgResult(Window(CutAt(log, height)),
                           Unconfirm(records, Txids(log.canon[height - log.base..]))))
  {
    RangeOfWindow(log, height);
    WindowCut(log, height);
    LowestReverted(log.Tip(), height);
    assert forall h: uint32 | height <= h <= log.Tip() :: Held(log, h);
  }

  lemma {:induction false} LowestReverted(tip: uint32, height: uint32)
    requires DEPTH - 1 <= height <= tip
    ensures WrapAdd32(WrapSub32(tip, tip - height + 1), 1) == height
  {
  }

  // ----- accepting -----

  lemma {:induction false} ExtendKeepsPeak(log: ChainLog, b: Block)
    ensures Extend(log, b).peak == log.peak
  {
  }

  lemma {:induction false} CanonPut(log: ChainLog, b: Block)
    requires LogInv(log) && log.canon != []
    requires log.base <= b.height <= log.Tip() + 1
    requires b.height <= log.Tip() ==> log.canon[b.height - log.base].hash != b.hash
    ensures CutAt(log, b.height).canon == log.canon[..b.height - log.base]
    ensures Extend(log, b) == log.(canon := log.canon[..b.height - log.base] + [b])
  {
  }

  /** The chain and its window once a block is put on top of a cut. */
  lemma {:induction false} WindowPut(log: ChainLog, b: Block)
    requires LogInv(log) && HeightInRange(b.height)
    requires log.canon != []
    requires log.base <= b.height <= log.Tip() + 1 && Floor(log) <= b.height
    requires b.height <= log.Tip() ==> log.canon[b.height - log.base].hash != b.hash
    ensures LogInv(Extend(log, b))
    ensures Extend(log, b).canon == CutAt(log, b.height).canon + [b]
    ensures Extend(log, b).Tip() == b.height
    ensures Window(CutAt(log, b.height))[b.height := b] == Window(Extend(log, b))
  {
    CanonPut(log, b);
    hide Extend;
    var cut, put := CutAt(log, b.height), Extend(log, b);
    forall h: uint32
      ensures h in Window(cut)[b.height := b] <==> h in Window(put)
      ensures h in Window(put) ==> Window(put)[h] == Window(cut)[b.height := b][h]
    {
    }
  }

  lemma {:induction false} WindowFirst(log: ChainLog, b: Block)
    requires LogInv(log) && HeightInRange(b.height) && log.canon == []
    ensures LogInv(Extend(log, b))
    ensures Window(log)[b.height := b] == Window(Extend(log, b))
  {
    assert Window(log) == map[];
  }

  lemma {:induction false} WindowPruned(log: ChainLog, height: uint32)
    requires LogInv(log) && HeightInRange(height) && log.canon != []
    requires height <= log.Tip()
    ensures var raised := if height > log.peak then log.(peak := height) else log;
            LogInv(raised) && Prune(Window(log), ConfirmedHeight(height)) == Window(raised)
  {
    ConfirmedHeightExact(height);
  }

  lemma {:induction false} StoreExtension(log: ChainLog, blocks: Blocks, records: Records, b: Block)
    requires Refines(log, blocks, records) && HeightInRange(b.height) && Classify(log, b).Extends?
    ensures Refines(Extend(log, b), blocks[b.height := b], Confirm(records, AsSet(b.txids)))
    ensures Extend(log, b).Tip() == b.height && Extend(log, b).canon != []
  {
    if log.canon == [] {
      WindowFirst(log, b);
      assert log.canon + [b] == [b];
    } else {
      WindowPut(log, b);
      assert CutAt(log, b.height) == log;
    }
    AppendedTxids(log.canon, b, records);
  }

  lemma {:induction false} StoreDuplicate(log: ChainLog, blocks: Blocks, records: Records, b: Block)
    requires Refines(log, blocks, records) && Classify(log, b).Duplicate?
    requires b.height in blocks && blocks[b.height] == b
    ensures Extend(log, b) == log
    ensures Refines(log, blocks[b.height := b], Confirm(records, AsSet(b.txids)))
  {
    assert blocks[b.height := b] == blocks;
    AlreadyIn(log.canon, b.height - log.base, records);
  }

  lemma {:induction false} StoreOnCut(log: ChainLog, records: Records, b: Block)
    requires LogInv(log) && HeightInRange(b.height) && Classify(log, b).Recoverable?
    requires forall t | t in records.confirmed :: t in Txids(log.canon[..b.height - log.base] + [b])
    ensures Refines(Extend(log, b), Window(CutAt(log, b.height))[b.height := b], records)
    ensures Extend(log, b).Tip() == b.height && Extend(log, b).canon != []
  {
    WindowPut(log, b);
  }

  lemma {:induction false} ReplacedTxids(log: ChainLog, records: Records, b: Block)
    requires forall t | t in records.confirmed :: t in Txids(log.canon)
    requires log.base <= b.height <= log.Tip()
    ensures var k := b.height - log.base;
            forall t | t in Confirm(Unconfirm(records, Txids(log.canon[k..])), AsSet(b.txids)).confirmed ::
              t in Txids(log.canon[..k] + [b])
  {
    var k := b.height - log.base;
    RevertedTxids(log.canon, k, records);
    AppendedTxids(log.canon[..k], b, Unconfirm(records, Txids(log.canon[k..])));
  }

  /** What admission leaves, by verdict. */
  lemma {:induction false} AdmittedStores(tr: Trace, b: Block)
    requires BlockInv(tr)
    ensures var log, w, v := tr.past.log, tr.world, Classify(tr.past.log, b);
            if v.Extends? || v.Duplicate? then Admit(w, b) == Ok(w)
            else if v.Recoverable? then
              Admit(w, b) == Ok(w.(blocks := Window(CutAt(log, b.height)),
                                   records := Unconfirm(w.records, Txids(log.canon[b.height - log.base..]))))
            else Admit(w, b).Err?
  {
    hide RevertBlocks, DetectReorg, Unconfirm, WithoutRange, RangeTxids, Txids, AcceptBlock;
    var log, w := tr.past.log, tr.world;
    DetectMatches(log, b);
    if Classify(log, b).Recoverable? {
      RevertSucceeds(log, w.records, b.height);
      AdmitReverted(w, b, log.Tip(), log.Tip() - b.height + 1,
                    ReorgResult(Window(CutAt(log, b.height)),
                                Unconfirm(w.records, Txids(log.canon[b.height - log.base..]))));
    }
  }

  /** Whatever is admitted, storing it puts it on the chain, and the stores hold the chain's window again. */
  lemma {:induction false} AdmittedBlocks(tr: Trace, b: Block)
    requires BlockInv(tr) && Genuine(tr.world, b) && Admit(tr.world, b).Ok?
    ensures var log, admitted := Extend(tr.past.log, b), Admit(tr.world, b).value;
            && Refines(log, admitted.blocks[b.height := b], Confirm(admitted.records, AsSet(b.txids)))
            && log.canon != [] && b.height <= log.Tip()
  {
    hide DetectReorg, RevertBlocks, Admit, CutAt, Txids, Confirm, Unconfirm, LogInv, Extend;
    var log, w := tr.past.log, tr.world;
    AdmittedStores(tr, b);
    var records := Admit(w, b).value.records;
    match Classify(log, b)
    case Extends => StoreExtension(log, w.blocks, w.records, b);
    case Duplicate => StoreDuplicate(log, w.blocks, w.records, b);
    case Recoverable(_, _) =>
      ReplacedTxids(log, w.records, b);
      StoreOnCut(log, Confirm(records, AsSet(b.txids)), b);
    case _ =>
  }

  lemma {:induction false} AppendedTxids(canon: seq<Block>, b: Block, records: Records)
    requires forall t | t in records.confirmed :: t in Txids(canon)
    ensures forall t | t in Confirm(records, AsSet(b.txids)).confirmed :: t in Txids(canon + [b])
  {
    TxidsConcat(canon, [b]);
    forall t | t in b.txids
      ensures t in Txids([b])
    {
      assert t in [b][0].txids;
    }
  }

  lemma {:induction false} AlreadyIn(canon: seq<Block>, i: nat, records: Records)
    requires i < |canon|
    requires forall t | t in records.confirmed :: t in Txids(canon)
    ensures forall t | t in Confirm(records, AsSet(canon[i].txids)).confirmed :: t in Txids(canon)
  {
  }

  lemma {:induction false} RevertedTxids(canon: seq<Block>, k: nat, records: Records)
    requires k <= |canon|
    requires forall t | t in records.confirmed :: t in Txids(canon)
    ensures forall t | t in Unconfirm(records, Txids(canon[k..])).confirmed :: t in Txids(canon[..k])
  {
    assert canon == canon[..k] + canon[k..];
    TxidsConcat(canon[..k], canon[k..]);
  }

  lemma {:induction false} StorePruned(log: ChainLog, blocks: Blocks, records: Records, height: uint32)
    requires Refines(log, blocks, records) && log.canon != [] && HeightInRange(height) && height <= log.Tip()
    ensures Refines(if height > log.peak then log.(peak := height) else log, Prune(blocks, ConfirmedHeight(height)),
                   records)
  {
    WindowPruned(log, height);
  }

  lemma {:induction false} BlockInvNewBlock(tr: Trace, b: Block)
    requires BlockInv(tr) && Genuine(tr.world, b)
    ensures BlockInv(Next(tr, MNewBlock(b)))
  {
    hide Next, NewBlock, Admit, Confirm, Prune, Refines;
    BlockDelivered(tr, b);
    NewBlockStores(tr.world, b);
    if Admit(tr.world, b).Ok? {
      AdmittedBlocks(tr, b);
      var admitted := Admit(tr.world, b).value;
      StorePruned(Extend(tr.past.log, b), admitted.blocks[b.height := b], Confirm(admitted.records, AsSet(b.txids)),
                  b.height);
    }
  }

  lemma {:induction false} RecordsStay(w: World, m: Message)
    requires !m.MNewBlock?
    ensures Process(w, m).records.confirmed == w.records.confirmed
    ensures Process(w, m).blocks == w.blocks
  {
    hide NewBlock, RollbackTx, PrepareRegister;
    match m
    case MRollback(txid) =>
      if RollbackTx(w, txid).world != w {
        RollbackEffect(w, txid);
      }
    case MClaim(caller, nanos) => ClaimFrame(w, caller, nanos);
    case _ =>
  }

  lemma {:induction false} BlockInvStep(tr: Trace, m: Message)
    requires BlockInv(tr)
    requires m.MNewBlock? ==> Genuine(tr.world, m.block)
    ensures BlockInv(Next(tr, m))
  {
    hide Process, Window, LogInv, Txids, Genuine;
    if m.MNewBlock? {
      BlockInvNewBlock(tr, m.block);
    } else {
      RecordsStay(tr.world, m);
    }
  }

  lemma {:induction false} BlockInvRun(tr: Trace, ms: seq<Message>)
    requires BlockInv(tr) && GenuineRun(tr, ms)
    ensures BlockInv(Run(tr, ms))
    decreases |ms|
  {
    if ms != [] {
      BlockInvStep(tr, ms[0]);
      BlockInvRun(Next(tr, ms[0]), ms[1..]);
    }
  }
}
