/** What the refinement gives for reorganizations: no missing block, a bounded window, an exact round trip
    and harmless duplicates. */
module Reorgs {
  import opened Types
  import opened BlockWindow
  import opened Messages
  import opened History
  import opened Refinement

  /** After any run of genuine blocks and other messages from the start, the held blocks are the window of the
      unbounded chain, only its transactions are confirmed, every further block is classified as the chain
      classifies it, and reverting what a recoverable one replaces meets no missing block. */
  lemma {:induction false} WindowRefinement(registerFee: uint64, coolingDown: uint64, perClaim: uint128,
                                            ms: seq<Message>, b: Block)
    requires GenuineRun(Start(registerFee, coolingDown, perClaim), ms)
    ensures var tr := Run(Start(registerFee, coolingDown, perClaim), ms);
            var w, log := tr.world, tr.past.log;
            && BlockInv(tr)
            && DetectReorg(w.blocks, b) == Classify(log, b)
            && (DetectReorg(w.blocks, b).Recoverable? ==>
                  RevertBlocks(w.blocks, w.records, log.Tip(), log.Tip() - b.height + 1)
                  == Ok(ReorgResult(Window(CutAt(log, b.height)),
                                    Unconfirm(w.records, Txids(log.canon[b.height - log.base..])))))
  {
    hide Next, RevertBlocks, DetectReorg, Unconfirm, CutAt, Txids;
    var start := Start(registerFee, coolingDown, perClaim);
    assert Window(start.past.log) == map[];
    BlockInvRun(start, ms);
    var tr := Run(start, ms);
    assert LogInv(tr.past.log);
    DetectMatches(tr.past.log, b);
    if Classify(tr.past.log, b).Recoverable? {
      RevertSucceeds(tr.past.log, tr.world.records, b.height);
    }
  }

  // ----- how many blocks are held -----

  lemma {:induction false} IntervalSize(keys: set<uint32>, lo: int, hi: int)
    requires forall k | k in keys :: lo <= k <= hi
    requires lo <= hi + 1
    ensures |keys| <= hi - lo + 1
    decreases hi - lo
  {
    if lo > hi {
      assert keys == {};
    } else {
      var rest := set k | k in keys && k != hi;
      IntervalSize(rest, lo, hi - 1);
      assert keys <= rest + (if hi in keys then {hi} else {});
      assert |keys| <= |rest| + 1 by {
        if hi in keys {
          assert keys == rest + {hi};
        } else {
          assert keys == rest;
        }
      }
    }
  }

  /** After an accepted block that is not a duplicate at most 63 blocks are held; a duplicate adds none. */
  lemma {:induction false} WindowBound(tr: Trace, b: Block)
    requires BlockInv(tr) && Genuine(tr.world, b)
    requires NewBlock(tr.world, b).reply.Ok?
    ensures var after := NewBlock(tr.world, b).world;
            if DetectReorg(tr.world.blocks, b).Duplicate? then after.blocks.Keys <= tr.world.blocks.Keys
            else |after.blocks| <= 63
  {
    hide Next, NewBlock, Confirm, OnTop, LogInv, Window, Accepted, DetectReorg;
    AcceptedLog(tr, b);
    BlockDelivered(tr, b);
    DetectMatches(tr.past.log, b);
    if DetectReorg(tr.world.blocks, b).Duplicate? {
      NewBlockStores(tr.world, b);
      NewBlockReplies(tr.world, b);
    } else {
      AcceptedWindow(Next(tr, MNewBlock(b)).past.log);
    }
  }

  lemma {:induction false} AcceptedWindow(log: ChainLog)
    requires LogInv(log) && (log.canon == [] || log.Tip() <= log.peak)
    ensures |Window(log)| <= 63
  {
    if log.canon == [] {
      assert Window(log) == map[];
    } else {
      WindowSize(log);
    }
  }

  /** Every height accepted so far was accepted with an Ok reply. */
  ghost predicate AllAccepted(tr: Trace) {
    tr.world.address.Some? && (tr.past.log.canon == [] || tr.past.log.Tip() <= tr.past.log.peak)
  }

  lemma {:induction false} AddressStays(w: World, m: Message)
    requires w.address.Some?
    ensures Process(w, m).address == w.address
  {
    hide NewBlock, RollbackTx, PrepareRegister, CommitRegister;
    match m
    case MNewBlock(b) => NewBlockFrame(w, b);
    case MRollback(txid) =>
      if RollbackTx(w, txid).world != w {
        RollbackEffect(w, txid);
      }
    case MRegister(call) => RegisterFrame(w, call);
    case _ =>
  }

  lemma {:induction false} AllAcceptedNewBlock(tr: Trace, b: Block)
    requires BlockInv(tr) && AllAccepted(tr) && Genuine(tr.world, b)
    ensures AllAccepted(Next(tr, MNewBlock(b)))
  {
    AddressStays(tr.world, MNewBlock(b));
    NewBlockReplies(tr.world, b);
    if NewBlock(tr.world, b).reply.Ok? {
      AcceptedLog(tr, b);
    }
  }

  lemma {:induction false} AllAcceptedStep(tr: Trace, m: Message)
    requires BlockInv(tr) && AllAccepted(tr)
    requires m.MNewBlock? ==> Genuine(tr.world, m.block)
    ensures AllAccepted(Next(tr, m))
  {
    if m.MNewBlock? {
      AllAcceptedNewBlock(tr, m.block);
    } else {
      AddressStays(tr.world, m);
    }
  }

  lemma {:induction false} WindowSize(log: ChainLog)
    requires LogInv(log) && log.canon != []
    ensures |Window(log)| == log.Tip() - Floor(log) + 1
  {
    var lo, hi := Floor(log), log.Tip();
    var keys := Window(log).Keys;
    IntervalSize(keys, lo, hi);
    IntervalFilled(keys, lo, hi);
    assert |Window(log)| == |keys|;
  }

  lemma {:induction false} IntervalFilled(keys: set<uint32>, lo: int, hi: int)
    requires 0 <= lo && hi < U32_MOD
    requires forall k: uint32 | lo <= k <= hi :: k in keys
    ensures |keys| >= hi - lo + 1
    decreases hi - lo
  {
    if lo <= hi {
      IntervalFilled(keys - {hi}, lo, hi - 1);
      assert |keys| == |keys - {hi}| + 1;
    }
  }

  /** The reorganization depths that some block can have in a state. */
  ghost predicate Revertible(w: World, depth: int) {
    exists b: Block :: HeightInRange(b.height)
                       && DetectReorg(w.blocks, b).Recoverable? && DetectReorg(w.blocks, b).depth == depth
  }

  /** The depths that can be reverted are exactly those up to the number of blocks held, and up to 64. */
  lemma {:induction false} RevertibleDepths(tr: Trace, depth: int)
    requires BlockInv(tr)
    ensures Revertible(tr.world, depth) <==> 1 <= depth <= 64 && depth <= |tr.world.blocks|
  {
    hide DetectReorg, Window, Txids, LogInv, Revertible;
    var log := tr.past.log;
    if log.canon == [] {
      NoneRevertible(tr.world, log, depth);
    } else {
      WindowSize(log);
      OnlyHeldRevertible(tr.world, log, depth);
      if 1 <= depth <= 64 && depth <= |tr.world.blocks| {
        HeldRevertible(tr.world, log, depth);
      }
    }
  }

  lemma {:induction false} NoneRevertible(w: World, log: ChainLog, depth: int)
    requires LogInv(log) && w.blocks == Window(log) && log.canon == []
    ensures w.blocks == map[] && !Revertible(w, depth)
  {
  }

  lemma {:induction false} OnlyHeldRevertible(w: World, log: ChainLog, depth: int)
    requires LogInv(log) && w.blocks == Window(log) && log.canon != []
    ensures Revertible(w, depth) ==> 1 <= depth <= 64 && depth <= log.Tip() - Floor(log) + 1
  {
    hide DetectReorg, Window, LogInv;
    if Revertible(w, depth) {
      var b: Block :| HeightInRange(b.height)
                      && DetectReorg(w.blocks, b).Recoverable? && DetectReorg(w.blocks, b).depth == depth;
      DetectMatches(log, b);
    }
  }

  /** A block that differs from the held one at the lowest reverted height has that depth. */
  lemma {:induction false} HeldRevertible(w: World, log: ChainLog, depth: int)
    requires LogInv(log) && w.blocks == Window(log) && log.canon != []
    requires 1 <= depth <= 64 && depth <= log.Tip() - Floor(log) + 1
    ensures Revertible(w, depth)
  {
    hide DetectReorg, Window;
    var height: uint32 := log.Tip() - depth + 1;
    var held := log.canon[height - log.base];
    var other := held.(hash := held.hash + "'");
    DetectMatches(log, other);
    assert DetectReorg(w.blocks, other) == Recoverable(log.Tip(), depth);
  }

  /** At most 63 blocks are held in a state that has accepted all of them. */
  lemma {:induction false} AcceptedHold63(tr: Trace)
    requires BlockInv(tr) && AllAccepted(tr)
    ensures |tr.world.blocks| <= 63
  {
    AcceptedWindow(tr.past.log);
  }

  lemma {:induction false} AllAcceptedRun(tr: Trace, ms: seq<Message>)
    requires BlockInv(tr) && AllAccepted(tr) && GenuineRun(tr, ms)
    ensures BlockInv(Run(tr, ms)) && AllAccepted(Run(tr, ms))
    decreases |ms|
  {
    hide Process, BlockInv, Genuine, AllAccepted, Remember;
    if ms != [] {
      AllAcceptedStep(tr, ms[0]);
      BlockInvStep(tr, ms[0]);
      AllAcceptedRun(Next(tr, ms[0]), ms[1..]);
    }
  }

  /** The nominal limit is 64. Over any run, a reorganization that deep is recoverable exactly in the states that
      hold 64 blocks or more; and if the address was set before the first block, there are none. */
  lemma {:induction false} ReorgDepthBound(tr: Trace, ms: seq<Message>)
    requires BlockInv(tr) && GenuineRun(tr, ms)
    ensures Revertible(Run(tr, ms).world, 64) <==> |Run(tr, ms).world.blocks| >= 64
    ensures AllAccepted(tr) ==> forall depth | Revertible(Run(tr, ms).world, depth) :: depth <= 63
  {
    hide BlockInv, AllAccepted, Revertible, GenuineRun;
    BlockInvRun(tr, ms);
    RevertibleDepths(Run(tr, ms), 64);
    if AllAccepted(tr) {
      AllAcceptedRun(tr, ms);
      AcceptedHold63(Run(tr, ms));
      forall depth | Revertible(Run(tr, ms).world, depth)
        ensures depth <= 63
      {
        RevertibleDepths(Run(tr, ms), depth);
      }
    }
  }

  // ----- duplicates -----

  lemma {:induction false} NothingDeep(blocks: Blocks, records: Records, pool: Address, bound: uint32)
    requires forall h | h in blocks :: h > bound
    ensures DeepTxids(blocks, records, pool, bound) == []
    ensures Prune(blocks, bound) == blocks
  {
    assert KeysUpTo(blocks.Keys, bound) == {};
  }

  /** The log once a block is accepted: the block is on it, at or below the tip and the peak, and it is
      classified as a duplicate from then on. */
  ghost predicate OnTop(log: ChainLog, b: Block) {
    && LogInv(log) && log.canon != []
    && Held(log, b.height) && log.canon[b.height - log.base] == b
    && b.height <= log.peak
    && Classify(log, b) == Duplicate
  }

  function Accepted(log: ChainLog, b: Block): ChainLog {
    var extended := Extend(log, b);
    if b.height > log.peak then extended.(peak := b.height) else extended
  }

  lemma {:induction false} ExtensionOnTop(log: ChainLog, b: Block)
    requires LogInv(log) && HeightInRange(b.height) && Classify(log, b).Extends?
    ensures OnTop(Accepted(log, b), b)
    ensures Accepted(log, b).Tip() == b.height
  {
    hide Window, CutAt;
    if log.canon == [] {
      WindowFirst(log, b);
    } else {
      WindowPut(log, b);
    }
  }

  lemma {:induction false} ReplacementOnTop(log: ChainLog, b: Block)
    requires LogInv(log) && HeightInRange(b.height) && Classify(log, b).Recoverable?
    ensures OnTop(Accepted(log, b), b)
    ensures Accepted(log, b).Tip() == b.height
  {
    hide Window;
    WindowPut(log, b);
  }

  lemma {:induction false} DuplicateOnTop(log: ChainLog, b: Block)
    requires LogInv(log) && HeightInRange(b.height) && Classify(log, b).Duplicate?
    requires log.canon[b.height - log.base] == b
    ensures OnTop(Accepted(log, b), b)
    ensures Accepted(log, b).Tip() == log.Tip()
  {
    hide Window, CutAt;
  }

  lemma {:induction false} AcceptedOnTop(log: ChainLog, b: Block)
    requires LogInv(log) && HeightInRange(b.height)
    requires var v := Classify(log, b);
             v.Extends? || v.Recoverable? || (v.Duplicate? && log.canon[b.height - log.base] == b)
    ensures OnTop(Accepted(log, b), b)
    ensures !Classify(log, b).Duplicate? || log.Tip() <= log.peak ==> Accepted(log, b).Tip() <= Accepted(log, b).peak
  {
    hide OnTop, Window, CutAt, Held;
    match Classify(log, b)
    case Extends => ExtensionOnTop(log, b);
    case Recoverable(_, _) => ReplacementOnTop(log, b);
    case Duplicate => DuplicateOnTop(log, b);
    case _ =>
  }

  lemma {:induction false} AcceptedLog(tr: Trace, b: Block)
    requires BlockInv(tr) && Genuine(tr.world, b) && NewBlock(tr.world, b).reply.Ok?
    ensures var next := Next(tr, MNewBlock(b));
            && BlockInv(next)
            && next.past.log == Accepted(tr.past.log, b)
            && OnTop(next.past.log, b)
            && (!Classify(tr.past.log, b).Duplicate? || tr.past.log.Tip() <= tr.past.log.peak ==>
                  next.past.log.Tip() <= next.past.log.peak)
  {
    hide AcceptBlock, Admit, Extend, OnTop, Unconfirm, Txids;
    BlockInvNewBlock(tr, b);
    AdmittedStores(tr, b);
    NewBlockReplies(tr.world, b);
    AcceptedOnTop(tr.past.log, b);
  }

  /** A redelivered block that changes neither blocks nor records and finds nothing deep changes nothing. */
  lemma {:induction false} Redelivered(w: World, b: Block)
    requires w.address.Some? && DetectReorg(w.blocks, b) == Duplicate
    requires w.blocks[b.height := b] == w.blocks && Confirm(w.records, AsSet(b.txids)) == w.records
    requires forall h | h in w.blocks :: h > ConfirmedHeight(b.height)
    ensures NewBlock(w, b).reply.Ok? && NewBlock(w, b).world == w
  {
    NothingDeep(w.blocks, w.records, w.address.value, ConfirmedHeight(b.height));
  }

  lemma {:induction false} ConfirmAgain(records: Records, txids: set<Txid>)
    ensures Confirm(Confirm(records, txids), txids) == Confirm(records, txids)
  {
    ConfirmTwice(records, txids, txids);
    assert txids + txids == txids;
  }

  /** Delivering an accepted block again is seen as a duplicate and leaves every store as it is. */
  lemma {:induction false} DuplicateIsIdempotent(tr: Trace, b: Block)
    requires BlockInv(tr) && Genuine(tr.world, b)
    requires NewBlock(tr.world, b).reply.Ok?
    ensures var once := NewBlock(tr.world, b).world;
            && DetectReorg(once.blocks, b) == Duplicate
            && NewBlock(once, b).reply.Ok?
            && NewBlock(once, b).world == once
  {
    hide NewBlock, Next, DetectReorg, Confirm, Window, OnTop, LogInv, Classify;
    var next, once := Next(tr, MNewBlock(b)), NewBlock(tr.world, b).world;
    assert next.world == once by {
      BlockDelivered(tr, b);
    }
    AcceptedLog(tr, b);
    NewBlockReplies(tr.world, b);
    NewBlockFrame(tr.world, b);
    ConfirmedSoFar(tr.world, b);
    DetectMatches(next.past.log, b);
    OnTopIsStored(next.past.log, b);
    Redelivered(once, b);
  }

  lemma {:induction false} ConfirmedSoFar(w: World, b: Block)
    requires NewBlock(w, b).reply.Ok?
    ensures var once := NewBlock(w, b).world; Confirm(once.records, AsSet(b.txids)) == once.records
  {
    NewBlockReplies(w, b);
    NewBlockStores(w, b);
    ConfirmAgain(Admit(w, b).value.records, AsSet(b.txids));
  }

  lemma {:induction false} OnTopIsStored(log: ChainLog, b: Block)
    requires OnTop(log, b) && HeightInRange(b.height)
    ensures Classify(log, b) == Duplicate
    ensures Window(log)[b.height := b] == Window(log)
    ensures forall h | h in Window(log) :: h > ConfirmedHeight(b.height)
  {
    ConfirmedHeightExact(b.height);
    assert b.height in Window(log);
  }

  // ----- there and back -----

  function Deliveries(bs: seq<Block>): seq<Message> {
    if bs == [] then [] else [MNewBlock(bs[0])] + Deliveries(bs[1..])
  }

  /** The blocks extend the tip one by one, or start a chain, and are all accepted. */
  ghost predicate Grows(tr: Trace, bs: seq<Block>)
    decreases |bs|
  {
    bs != [] ==>
      && Genuine(tr.world, bs[0])
      && (tr.past.log.canon != [] ==> bs[0].height == tr.past.log.Tip() + 1)
      && NewBlock(tr.world, bs[0]).reply.Ok?
      && Grows(Next(tr, MNewBlock(bs[0])), bs[1..])
  }

  lemma {:induction false} SingleGrows(tr: Trace, b: Block)
    requires Genuine(tr.world, b) && b.height == tr.past.log.Tip() + 1 && NewBlock(tr.world, b).reply.Ok?
    ensures Grows(tr, [b])
  {
    hide NewBlock, Next;
    assert [b][1..] == [];
  }

  lemma {:induction false} GrowOne(tr: Trace, b: Block)
    requires BlockInv(tr) && Grows(tr, [b])
    ensures var next := Next(tr, MNewBlock(b));
            && BlockInv(next)
            && next.past.log == GrownLog(tr.past.log, [b])
            && next.world.records == Confirm(tr.world.records, AsSet(b.txids))
  {
    hide Next, NewBlock, Admit, Confirm, Unconfirm, Window, Txids, OnTop, LogInv;
    BlockDelivered(tr, b);
    AcceptedLog(tr, b);
    AdmittedStores(tr, b);
    NewBlockReplies(tr.world, b);
    NewBlockStores(tr.world, b);
    assert tr.past.log.canon[..|tr.past.log.canon|] == tr.past.log.canon;
  }

  /** The first block of a chain gives it its base. */
  function Based(log: ChainLog, bs: seq<Block>): ChainLog {
    if log.canon == [] && bs != [] then log.(base := bs[0].height) else log
  }

  /** The log after the chain has grown by accepted blocks. */
  function GrownLog(log: ChainLog, bs: seq<Block>): ChainLog {
    var tip := Based(log, bs).Tip() + |bs|;
    ChainLog(Based(log, bs).base, log.canon + bs, if bs != [] && tip > log.peak then tip else log.peak)
  }

  lemma {:induction false} GrownLogStep(log: ChainLog, bs: seq<Block>)
    requires LogInv(log) && bs != []
    requires log.canon != [] ==> bs[0].height == log.Tip() + 1
    ensures GrownLog(GrownLog(log, [bs[0]]), bs[1..]) == GrownLog(log, bs)
  {
    assert log.canon + [bs[0]] + bs[1..] == log.canon + bs;
  }

  lemma {:induction false} GrowEffect(tr: Trace, bs: seq<Block>)
    requires BlockInv(tr) && Grows(tr, bs)
    ensures var after := Run(tr, Deliveries(bs));
            && BlockInv(after)
            && after.past.log == GrownLog(tr.past.log, bs)
            && after.world.records == Confirm(tr.world.records, Txids(bs))
    decreases |bs|
  {
    if bs == [] {
      ConfirmNone(tr.world.records);
      assert Txids(bs) == {} && tr.past.log.canon + bs == tr.past.log.canon;
    } else {
      var next := Next(tr, MNewBlock(bs[0]));
      assert [bs[0]][1..] == [];
      GrowOne(tr, bs[0]);
      GrowEffect(next, bs[1..]);
      assert Deliveries(bs)[1..] == Deliveries(bs[1..]);
      GrowRecords(tr.world.records, bs);
      GrownLogStep(tr.past.log, bs);
    }
  }

  lemma {:induction false} GrowRecords(records: Records, bs: seq<Block>)
    requires bs != []
    ensures Confirm(Confirm(records, AsSet(bs[0].txids)), Txids(bs[1..])) == Confirm(records, Txids(bs))
  {
    assert bs == [bs[0]] + bs[1..];
    TxidsConcat([bs[0]], bs[1..]);
    OneBlock(bs[0]);
    ConfirmTwice(records, AsSet(bs[0].txids), Txids(bs[1..]));
  }

  lemma {:induction false} OneBlock(b: Block)
    ensures Txids([b]) == AsSet(b.txids)
  {
    forall t | t in b.txids
      ensures t in Txids([b])
    {
      assert t in [b][0].txids;
    }
  }

  function Above(blocks: Blocks, bound: int): Blocks {
    map h | h in blocks && h > bound :: blocks[h]
  }

  /** Reverting the blocks `bs` from the later stores succeeds exactly while there are at most 63 of them. It
      gives back the earlier blocks, less those pruned meanwhile, and gives back the earlier records exactly
      when none of the reverted transactions was confirmed in them. */
  ghost predicate RoundTrip(blocks: Blocks, records: Records, laterBlocks: Blocks, laterRecords: Records,
                            tip: int, bs: seq<Block>)
  {
    && 0 <= tip < U32_MOD && |bs| < U32_MOD
    && var back := RevertBlocks(laterBlocks, laterRecords, tip, |bs|);
    && (back.Ok? <==> |bs| <= 63)
    && (back.Ok? ==>
          && back.value.blocks == Above(blocks, tip - 63)
          && (back.value.records == records <==> NoneConfirmed(records, Txids(bs))))
  }

  /** Extending by accepted blocks, or starting with them, and then reverting as many is a round trip. */
  lemma {:induction false} ReorgRoundTrip(tr: Trace, bs: seq<Block>)
    requires BlockInv(tr) && Grows(tr, bs) && bs != []
    ensures var w, after := tr.world, Run(tr, Deliveries(bs)).world;
            RoundTrip(w.blocks, w.records, after.blocks, after.records, bs[|bs| - 1].height, bs)
  {
    hide Next, Confirm, Window, RoundTrip, Grows, GrownLog, Txids, Deliveries, LogInv;
    GrowEffect(tr, bs);
    BasedWindow(tr.past.log, bs);
    GrownTip(tr.past.log, bs);
    RoundTripOnLog(Based(tr.past.log, bs), bs, tr.world.records);
  }

  lemma {:induction false} BasedWindow(log: ChainLog, bs: seq<Block>)
    requires LogInv(log)
    ensures LogInv(Based(log, bs)) && Window(Based(log, bs)) == Window(log)
    ensures GrownLog(Based(log, bs), bs) == GrownLog(log, bs)
  {
  }

  lemma {:induction false} GrownTip(log: ChainLog, bs: seq<Block>)
    requires LogInv(GrownLog(log, bs)) && bs != []
    ensures bs[|bs| - 1].height == Based(log, bs).Tip() + |bs|
  {
    var grown := GrownLog(log, bs);
    assert grown.canon[|grown.canon| - 1] == bs[|bs| - 1];
  }

  lemma {:induction false} RoundTripOnLog(earlier: ChainLog, bs: seq<Block>, records: Records)
    requires LogInv(earlier) && LogInv(GrownLog(earlier, bs)) && bs != [] && Based(earlier, bs) == earlier
    ensures RoundTrip(Window(earlier), records, Window(GrownLog(earlier, bs)), Confirm(records, Txids(bs)),
                      earlier.Tip() + |bs|, bs)
  {
    hide RevertBlocks, Confirm, Unconfirm, Window, Txids, Above, NoneConfirmed, CutAt;
    var log, later := GrownLog(earlier, bs), Confirm(records, Txids(bs));
    BackToWindow(earlier, log, bs);
    RevertGrown(earlier, log, later, bs);
    UnconfirmInvertsConfirm(records, Txids(bs));
  }

  lemma {:induction false} RevertGrown(earlier: ChainLog, log: ChainLog, records: Records, bs: seq<Block>)
    requires LogInv(earlier) && LogInv(log) && bs != []
    requires log.base == earlier.base && log.canon == earlier.canon + bs
    requires log.peak == if log.Tip() > earlier.peak then log.Tip() else earlier.peak
    ensures |bs| < U32_MOD
    ensures RevertBlocks(Window(log), records, log.Tip(), |bs|)
         == if |bs| <= 63 then Ok(ReorgResult(Window(CutAt(log, earlier.Tip() + 1)), Unconfirm(records, Txids(bs))))
            else Trap
  {
    hide Unconfirm, Txids, RevertBlocks, Window, CutAt, LogInv;
    var first := earlier.Tip() + 1;
    FirstGrown(earlier, log, bs);
    if |bs| <= 63 {
      RevertSucceeds(log, records, first);
    } else {
      LowestReverted(log.Tip(), first);
      RevertMissing(Window(log), records, log.Tip(), |bs|, first);
    }
  }

  /** The first grown block is held exactly while at most 63 were added. */
  lemma {:induction false} FirstGrown(earlier: ChainLog, log: ChainLog, bs: seq<Block>)
    requires LogInv(log) && bs != []
    requires log.base == earlier.base && log.canon == earlier.canon + bs && log.Tip() <= log.peak
    requires log.peak == if log.Tip() > earlier.peak then log.Tip() else earlier.peak
    requires LogInv(earlier)
    ensures var first := earlier.Tip() + 1;
            && DEPTH - 1 <= first <= log.Tip() < U32_MOD - 1
            && |bs| == log.Tip() - first + 1
            && log.canon[first - log.base..] == bs
            && (Held(log, first) <==> |bs| <= 63)
  {
  }

  lemma {:induction false} BackToWindow(earlier: ChainLog, log: ChainLog, bs: seq<Block>)
    requires LogInv(earlier) && LogInv(log) && bs != []
    requires log.base == earlier.base && log.canon == earlier.canon + bs
    requires log.peak == if log.Tip() > earlier.peak then log.Tip() else earlier.peak
    ensures Window(CutAt(log, earlier.Tip() + 1)) == Above(Window(earlier), log.Tip() - 63)
  {
    var cut := CutAt(log, earlier.Tip() + 1);
    assert cut.canon == earlier.canon;
    forall h: uint32
      ensures Held(cut, h) <==> Held(earlier, h) && h > log.Tip() - 63
    {
    }
  }
}
