/** When a block message finalizes, what it leaves, and when it traps. */
module Sweep {
  import opened Types
  import opened PoolChain
  import opened BlockWindow
  import opened Messages
  import opened History
  import opened Ledger
  import opened Refinement
  import opened Finality

  // ----- distinct transaction ids -----

  /** A registration brings a transaction that has no state in the chain. */
  ghost predicate Fresh(w: World, m: Message) {
    m.MRegister? ==> forall i | 0 <= i < |w.states| :: w.states[i].id != Some(m.call.txid)
  }

  ghost predicate FreshRun(tr: Trace, ms: seq<Message>)
    decreases |ms|
  {
    ms != [] ==> Fresh(tr.world, ms[0]) && FreshRun(Next(tr, ms[0]), ms[1..])
  }

  lemma {:induction false} DistinctStep(w: World, m: Message)
    requires DistinctIds(w.states) && Fresh(w, m)
    ensures DistinctIds(Process(w, m).states)
  {
    hide AcceptBlock, Admit, RollbackEach;
    match m
    case MNewBlock(b) => NewBlockFrame(w, b);
    case MRollback(txid) =>
      if RollbackTx(w, txid).world != w {
        RollbackEffect(w, txid);
      }
    case MRegister(call) =>
      if ExecuteRegister(w, call).world != w {
        PreparedState(w, call);
      }
    case MClaim(caller, nanos) => ClaimFrame(w, caller, nanos);
    case _ =>
  }

  /** With fresh transactions the ids in the chain stay distinct over any run. */
  lemma {:induction false} DistinctRun(tr: Trace, ms: seq<Message>)
    requires DistinctIds(tr.world.states) && FreshRun(tr, ms)
    ensures DistinctIds(Run(tr, ms).world.states)
    decreases |ms|
  {
    hide Process, DistinctIds, Fresh;
    if ms != [] {
      DistinctStep(tr.world, ms[0]);
      DistinctRun(Next(tr, ms[0]), ms[1..]);
    }
  }

  // ----- the outcome of a block -----

  /** The transactions a block message would finalize, in order. */
  function DeepAfter(admitted: World, b: Block, pool: Address): seq<Txid> {
    DeepTxids(admitted.blocks[b.height := b], Confirm(admitted.records, AsSet(b.txids)), pool,
              ConfirmedHeight(b.height))
  }

  /** A block that is admitted while the address is set replies Ok exactly when the pool's deep confirmed
      transactions all have states, in the chain's order; it then leaves the chain from the last of them on.
      Otherwise it traps and changes nothing. */
  lemma {:induction false} BlockOutcome(w: World, b: Block)
    requires DistinctIds(w.states) && w.address.Some? && Admit(w, b).Ok?
    ensures var d, deep := NewBlock(w, b), DeepAfter(Admit(w, b).value, b, w.address.value);
            && (d.reply.Ok? <==> FollowsChain(w.states, deep))
            && (d.reply.Ok? ==>
                  d.world.states == if deep == [] then w.states
                                    else w.states[Position(w.states, deep[|deep| - 1])..])
            && (!d.reply.Ok? ==> d.reply.Trap? && d.world == w)
  {
    hide DetectReorg, RevertBlocks, Confirm, DeepTxids, Prune, DistinctIds, FollowsChain, Admit;
    var admitted := Admit(w, b).value;
    assert admitted.states == w.states && admitted.address == w.address by {
      AdmitFrame(w, b);
    }
    SweepIsOneDrop(w.states, DeepAfter(admitted, b, w.address.value));
  }

  /** So a deep confirmed transaction of the pool that was rolled back makes every such block trap. */
  lemma {:induction false} RolledBackBlocksFinalizing(w: World, b: Block, t: Txid)
    requires DistinctIds(w.states) && w.address.Some? && Admit(w, b).Ok?
    requires t in DeepAfter(Admit(w, b).value, b, w.address.value)
    requires forall i | 0 <= i < |w.states| :: w.states[i].id != Some(t)
    ensures NewBlock(w, b) == Delivery(w, Trap)
  {
    hide DeepAfter, NewBlock;
    BlockOutcome(w, b);
    var deep := DeepAfter(Admit(w, b).value, b, w.address.value);
    var i :| 0 <= i < |deep| && deep[i] == t;
    assert Position(w.states, deep[i]) == |w.states|;
  }

  /** Whatever an accepted block finalizes is sealed from then on. */
  lemma {:induction false} FinalizedAreSealed(tr: Trace, b: Block, t: Txid)
    requires BlockInv(tr) && Genuine(tr.world, b) && NewBlock(tr.world, b).reply.Ok?
    requires tr.world.address.Some?
    requires t in DeepAfter(Admit(tr.world, b).value, b, tr.world.address.value)
    ensures BlockInv(Next(tr, MNewBlock(b)))
    ensures t in Sealed(Next(tr, MNewBlock(b)))
  {
    hide Next, NewBlock, Admit, Txids, Window, DeepTxids, Confirm, Prune, Extend, Sealed, Pruned, LogInv;
    var next, w := Next(tr, MNewBlock(b)), tr.world;
    var log := Extend(tr.past.log, b);
    NewBlockReplies(w, b);
    BlockDelivered(tr, b);
    BlockInvNewBlock(tr, b);
    AdmittedBlocks(tr, b);
    NewBlockStores(w, b);
    DeepIsListed(Window(log), next.world.records, w.address.value, ConfirmedHeight(b.height), t);
    ConfirmedHeightExact(b.height);
    var h :| h in Window(log) && h <= b.height - 63 && t in Window(log)[h].txids;
    BelowWindow(log, b.height, h, t);
    ExtendKeepsPeak(tr.past.log, b);
    SealedWhen(next, t);
  }

  /** Whatever an accepted block finalizes has its state among the committed ones from then on. */
  lemma {:induction false} FinalizedAreCommitted(tr: Trace, b: Block, t: Txid)
    requires DistinctIds(tr.world.states) && tr.world.address.Some? && NewBlock(tr.world, b).reply.Ok?
    requires Admit(tr.world, b).Ok?
    requires t in DeepAfter(Admit(tr.world, b).value, b, tr.world.address.value)
    ensures var committed := Committed(Next(tr, MNewBlock(b)));
            exists i :: 0 <= i < |committed| && committed[i].id == Some(t)
  {
    hide NewBlock, DeepAfter, Admit, FollowsChain, DistinctIds, Position, Next, Committed;
    var w, next := tr.world, Next(tr, MNewBlock(b));
    BlockOutcome(w, b);
    var deep := DeepAfter(Admit(w, b).value, b, w.address.value);
    FollowsLast(w.states, deep, t);
    var p, q := Position(w.states, t), Position(w.states, deep[|deep| - 1]);
    CommittedUpTo(tr, b, q, p);
    assert Committed(next)[|tr.past.archive| + p].id == Some(t);
  }

  lemma {:induction false} CommittedUpTo(tr: Trace, b: Block, q: nat, p: nat)
    requires p <= q < |tr.world.states| && NewBlock(tr.world, b).world.states == tr.world.states[q..]
    ensures var committed := Committed(Next(tr, MNewBlock(b)));
            |tr.past.archive| + p < |committed| && committed[|tr.past.archive| + p] == tr.world.states[p]
  {
    hide NewBlock, NextLog;
    var next := Next(tr, MNewBlock(b));
    assert next.past.archive == tr.past.archive + tr.world.states[..q];
  }

  lemma {:induction false} FollowsLast(states: seq<PoolState>, txids: seq<Txid>, t: Txid)
    requires FollowsChain(states, txids) && t in txids
    ensures Position(states, t) <= Position(states, txids[|txids| - 1]) < |states|
  {
    var k :| 0 <= k < |txids| && txids[k] == t;
    assert Position(states, txids[k]) <= Position(states, txids[|txids| - 1]);
  }

  lemma {:induction false} BelowWindow(log: ChainLog, height: uint32, h: uint32, t: Txid)
    requires LogInv(log) && log.canon != [] && HeightInRange(height) && height <= log.Tip()
    requires Held(log, h) && h <= height - 63 && t in Window(log)[h].txids
    ensures var raised := if height > log.peak then log.(peak := height) else log;
            0 <= Pruned(raised) <= |raised.canon| && t in Txids(raised.canon[..Pruned(raised)])
  {
    var raised := if height > log.peak then log.(peak := height) else log;
    assert t in raised.canon[..Pruned(raised)][h - log.base].txids;
  }
}
