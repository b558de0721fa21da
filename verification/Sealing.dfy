/** Whatever is confirmed below the window is finalized: no transaction gets deep without its state. */
module Sealing {
  import opened Types
  import opened PoolChain
  import opened BlockWindow
  import opened Messages
  import opened History
  import opened Ledger
  import opened Refinement
  import opened Finality
  import opened Inverse
  import opened Sweep
  import opened Alignment

  /** Every transaction confirmed below the window has its state among the committed ones. */
  ghost predicate Settled(tr: Trace) {
    && LedgerInv(tr) && BlockInv(tr) && RecordInv(tr.world)
    && DistinctIds(Full(tr))
    && forall t | t in Sealed(tr) :: HasState(Committed(tr), t)
  }

  /** A registration brings a transaction that never had a state, or whose state was rolled back. */
  ghost predicate BringsNew(tr: Trace, m: Message) {
    m.MRegister? ==> !HasState(Full(tr), m.call.txid)
  }

  ghost predicate BringsNewRun(tr: Trace, ms: seq<Message>)
    decreases |ms|
  {
    ms != [] ==> BringsNew(tr, ms[0]) && BringsNewRun(Next(tr, ms[0]), ms[1..])
  }

  // ----- distinct states -----

  lemma {:induction false} DistinctPush(full: seq<PoolState>, s: PoolState)
    requires DistinctIds(full) && (s.id.Some? ==> !HasState(full, s.id.value))
    ensures DistinctIds(full + [s])
  {
    var longer := full + [s];
    forall i, j | 0 <= i < j < |longer| && longer[i].id.Some?
      ensures longer[i].id != longer[j].id
    {
      assert longer[i] == full[i];
    }
  }

  lemma {:induction false} DistinctRelabelled(full: seq<PoolState>, after: seq<PoolState>)
    requires DistinctIds(full) && |after| == |full|
    requires forall i | 0 <= i < |full| :: after[i].(runeBalance := 0) == full[i].(runeBalance := 0)
    ensures DistinctIds(after)
  {
    forall i | 0 <= i < |full|
      ensures after[i].id == full[i].id
    {
      assert after[i].(runeBalance := 0).id == full[i].(runeBalance := 0).id;
    }
  }

  lemma {:induction false} DistinctFullStep(tr: Trace, m: Message)
    requires LedgerInv(tr) && DistinctIds(Full(tr)) && BringsNew(tr, m)
    ensures DistinctIds(Full(Next(tr, m)))
  {
    hide LedgerInv, Process, HasState;
    var full, after := Full(tr), Full(Next(tr, m));
    FullStep(tr, m);
    AppendedByMessage(tr.world, m);
    if m.MUpdateRuneInfo? {
      DistinctRelabelled(full, after);
    } else if !m.MRollback? && after != full {
      assert after == full + [after[|full|]];
      DistinctPush(full, after[|full|]);
    }
  }

  // ----- a block message -----

  lemma {:induction false} HasStateContinues(before: seq<PoolState>, after: seq<PoolState>, t: Txid)
    requires Continues(before, after) && HasState(before, t)
    ensures HasState(after, t)
  {
    var n :| 0 <= n < |before| && before[n].id == Some(t);
    assert after[n].(runeBalance := 0).id == before[n].(runeBalance := 0).id;
  }

  /** An admitted block is on the chain then, at its height and no lower than the window. */
  lemma {:induction false} StoredAt(tr: Trace, b: Block)
    requires BlockInv(tr) && Genuine(tr.world, b) && Admit(tr.world, b).Ok?
    ensures var log := Extend(tr.past.log, b);
            && LogInv(log) && log.canon != []
            && Held(log, b.height) && log.canon[b.height - log.base] == b
  {
    hide Admit, NewBlock, Confirm, Txids;
    AdmittedBlocks(tr, b);
    var log, admitted := Extend(tr.past.log, b), Admit(tr.world, b).value;
    assert b.height in Window(log) && Window(log)[b.height] == b;
  }

  /** What is listed below the old window and confirmed now was confirmed before. */
  lemma {:induction false} ConfirmedBefore(tr: Trace, b: Block, t: Txid)
    requires BlockInv(tr) && Genuine(tr.world, b) && Admit(tr.world, b).Ok?
    requires Unrepeated(Extend(tr.past.log, b).canon)
    requires t in Confirm(Admit(tr.world, b).value.records, AsSet(b.txids)).confirmed
    requires LogInv(Extend(tr.past.log, b)) && 0 <= Pruned(Extend(tr.past.log, b)) <= |Extend(tr.past.log, b).canon|
    requires t in Txids(Extend(tr.past.log, b).canon[..Pruned(Extend(tr.past.log, b))])
    ensures t in Sealed(tr)
  {
    hide Admit, Txids, Extend, LogInv, Unrepeated, Window, CutAt;
    var earlier, log := tr.past.log, Extend(tr.past.log, b);
    StoredAt(tr, b);
    AdmittedStores(tr, b);
    PrunedStays(earlier, b, b.height);
    SamePruned(earlier, b);
    PrunedWithin(earlier);
    var n := Pruned(log);
    ApartFromSuffix(log.canon, n, b.height - log.base, t);
    InSuffix(log.canon, b.height - log.base);
    assert t !in b.txids;
    SealedWhen(tr, t);
  }

  lemma {:induction false} InSuffix(canon: seq<Block>, i: nat)
    requires i < |canon|
    ensures AsSet(canon[i].txids) <= Txids(canon[i..])
  {
    forall t | t in canon[i].txids
      ensures t in Txids(canon[i..])
    {
      assert t in canon[i..][0].txids;
    }
  }

  /** Before the peak is raised the window starts where it did, unless the chain just begins. */
  lemma {:induction false} SamePruned(log: ChainLog, b: Block)
    requires LogInv(log) && HeightInRange(b.height)
    requires var v := Classify(log, b); v.Extends? || v.Duplicate? || v.Recoverable?
    ensures Pruned(Extend(log, b)) == Pruned(log)
    ensures Extend(log, b).canon[..Pruned(log)] == log.canon[..Pruned(log)]
  {
    hide Window, CutAt;
    PrunedStays(log, b, b.height);
    if log.canon == [] {
      WindowFirst(log, b);
    }
  }

  /** What leaves the window with an accepted block was deep in it. */
  lemma {:induction false} LeavesDeep(log: ChainLog, records: Records, pool: Address, height: uint32, t: Txid)
    requires LogInv(log) && log.canon != [] && HeightInRange(height) && height <= log.Tip()
    requires Tracked(records.confirmed, Some(pool)) && t in records.confirmed
    requires var raised := if height > log.peak then log.(peak := height) else log;
             && 0 <= Pruned(log) <= Pruned(raised) <= |log.canon|
             && t in Txids(log.canon[..Pruned(raised)]) && t !in Txids(log.canon[..Pruned(log)])
    ensures t in DeepTxids(Window(log), records, pool, ConfirmedHeight(height))
  {
    hide DeepTxids, LogInv;
    var raised := if height > log.peak then log.(peak := height) else log;
    var i := ListedBetween(log.canon, Pruned(log), Pruned(raised), t);
    ConfirmedHeightExact(height);
    TipFits(log);
    var h: uint32 := log.base + i;
    assert Held(log, h) && Window(log)[h] == log.canon[i];
    ListedIsDeep(Window(log), records, pool, ConfirmedHeight(height), h, t);
  }

  lemma {:induction false} ListedBetween(canon: seq<Block>, n: nat, k: nat, t: Txid) returns (i: nat)
    requires n <= k <= |canon| && t in Txids(canon[..k]) && t !in Txids(canon[..n])
    ensures n <= i < k && t in canon[i].txids
  {
    forall j | 0 <= j < n
      ensures t !in canon[j].txids
    {
      assert canon[..n][j] == canon[j];
    }
    i :| 0 <= i < |canon[..k]| && t in canon[..k][i].txids;
  }

  lemma {:induction false} TipFits(log: ChainLog)
    requires LogInv(log) && log.canon != []
    ensures 0 <= log.base && log.Tip() < U32_MOD - 1
  {
  }

  lemma {:induction false} SettledByOk(tr: Trace, b: Block, t: Txid)
    requires Settled(tr) && Genuine(tr.world, b) && NewBlock(tr.world, b).reply.Ok?
    requires Unrepeated(Next(tr, MNewBlock(b)).past.log.canon)
    requires BlockInv(Next(tr, MNewBlock(b))) && t in Sealed(Next(tr, MNewBlock(b)))
    ensures HasState(Committed(Next(tr, MNewBlock(b))), t)
  {
    hide Next, NewBlock, Admit, LedgerInv, RecordInv, HasState, Continues, Committed, Extend, LogInv, Txids, Unrepeated,
         Confirm, Window, DeepTxids, Genuine, Pruned, DistinctIds;
    var w, next, log := tr.world, Next(tr, MNewBlock(b)), Extend(tr.past.log, b);
    NewBlockReplies(w, b);
    BlockDelivered(tr, b);
    NewBlockStores(w, b);
    AdmittedBlocks(tr, b);
    ExtendKeepsPeak(tr.past.log, b);
    PrunedWithin(log);
    PrunedWithin(next.past.log);
    if t in Txids(log.canon[..Pruned(log)]) {
      ConfirmedBefore(tr, b, t);
      CommittedStep(tr, MNewBlock(b));
      HasStateContinues(Committed(tr), Committed(next), t);
    } else {
      StoredTracked(tr, b);
      InRange(w, b);
      PrunedRises(log, b.height);
      LeavesDeep(log, next.world.records, w.address.value, b.height, t);
      DistinctSuffix(tr);
      FinalizedAreCommitted(tr, b, t);
      ById(Committed(next), t);
    }
  }

  lemma {:induction false} InRange(w: World, b: Block)
    requires Genuine(w, b)
    ensures HeightInRange(b.height)
  {
  }

  lemma {:induction false} ById(states: seq<PoolState>, t: Txid)
    requires exists i :: 0 <= i < |states| && states[i].id == Some(t)
    ensures HasState(states, t)
  {
  }

  lemma {:induction false} PrunedRises(log: ChainLog, height: uint32)
    requires log.canon != []
    ensures height > log.peak ==> Pruned(log) <= Pruned(log.(peak := height))
  {
  }

  lemma {:induction false} DistinctSuffix(tr: Trace)
    requires DistinctIds(Full(tr))
    ensures DistinctIds(tr.world.states)
  {
    var states, full, d := tr.world.states, Full(tr), |tr.past.archive|;
    forall i, j | 0 <= i < j < |states| && states[i].id.Some?
      ensures states[i].id != states[j].id
    {
      assert states[i] == full[d + i] && states[j] == full[d + j];
    }
  }

  /** A block that is not answered Ok seals nothing new. */
  lemma {:induction false} SettledByErr(tr: Trace, b: Block, t: Txid)
    requires Settled(tr) && Genuine(tr.world, b) && !NewBlock(tr.world, b).reply.Ok?
    requires BlockInv(Next(tr, MNewBlock(b))) && t in Sealed(Next(tr, MNewBlock(b)))
    ensures t in Sealed(tr)
  {
    hide Next, NewBlock, Admit, LedgerInv, HasState, Committed, Extend, LogInv, Txids, Confirm, Window, Genuine, Pruned,
         DistinctIds;
    NewBlockReplies(tr.world, b);
    NewBlockStores(tr.world, b);
    NewBlockFrame(tr.world, b);
    RecordsNewBlock(tr.world, b);
    BlockDelivered(tr, b);
    if Admit(tr.world, b).Err? || NewBlock(tr.world, b).reply.Trap? {
      assert Next(tr, MNewBlock(b)).past.log == tr.past.log;
    }
  }

  lemma {:induction false} SettledNewBlock(tr: Trace, b: Block)
    requires Settled(tr) && Genuine(tr.world, b) && Unrepeated(Next(tr, MNewBlock(b)).past.log.canon)
    ensures Settled(Next(tr, MNewBlock(b)))
  {
    hide NewBlock, Process, Next, LedgerInv, LogInv, Window, Txids, RecordInv, HasState, Genuine, DistinctIds,
         Unrepeated, Sealed, Committed, Continues;
    var next := Next(tr, MNewBlock(b));
    LedgerNewBlock(tr, b);
    BlockInvNewBlock(tr, b);
    RecordsNewBlock(tr.world, b);
    BlockDelivered(tr, b);
    CommittedStep(tr, MNewBlock(b));
    forall t | t in Sealed(next)
      ensures HasState(Committed(next), t)
    {
      if NewBlock(tr.world, b).reply.Ok? {
        SettledByOk(tr, b, t);
      } else {
        SettledByErr(tr, b, t);
        HasStateContinues(Committed(tr), Committed(next), t);
      }
    }
  }

  // ----- runs -----

  lemma {:induction false} SettledStep(tr: Trace, m: Message)
    requires Settled(tr) && BringsNew(tr, m)
    requires m.MNewBlock? ==> Genuine(tr.world, m.block) && Unrepeated(Next(tr, m).past.log.canon)
    ensures Settled(Next(tr, m))
  {
    hide LedgerInv, RecordInv, LogInv, Window, Txids, Process, HasState, DistinctIds, Genuine, Unrepeated, Committed,
         Continues, BringsNew;
    if m.MNewBlock? {
      SettledNewBlock(tr, m.block);
    } else {
      var next := Next(tr, m);
      LedgerStep(tr, m);
      BlockInvStep(tr, m);
      RecordStep(tr.world, m);
      RecordsStay(tr.world, m);
      DistinctFullStep(tr, m);
      CommittedStep(tr, m);
      assert Sealed(next) == Sealed(tr);
      forall t | t in Sealed(next)
        ensures HasState(Committed(next), t)
      {
        HasStateContinues(Committed(tr), Committed(next), t);
      }
    }
  }

  lemma {:induction false} SettledRun(tr: Trace, ms: seq<Message>)
    requires Settled(tr) && GenuineRun(tr, ms) && UnrepeatedRun(tr, ms) && BringsNewRun(tr, ms)
    ensures Settled(Run(tr, ms))
    decreases |ms|
  {
    hide Next, Settled, BringsNew, Genuine, Unrepeated;
    if ms != [] {
      assert UnrepeatedRun(Next(tr, ms[0]), ms[1..]);
      SettledStep(tr, ms[0]);
      SettledRun(Next(tr, ms[0]), ms[1..]);
    }
  }

  /** A committed state's transaction cannot be rolled back. */
  lemma {:induction false} CommittedRollbackTraps(tr: Trace, t: Txid)
    requires Settled(tr) && t in Sealed(tr)
    ensures RollbackTx(tr.world, t) == Delivery(tr.world, Trap)
  {
    hide LedgerInv, RecordInv, RollbackTx, LogInv, Txids, Window;
    var w, full, d := tr.world, Full(tr), |tr.past.archive|;
    TrackedRollback(w, t);
    var i :| 0 <= i < |Committed(tr)| && Committed(tr)[i].id == Some(t);
    assert full[i].id == Some(t) && i <= d;
    var p := Position(w.states, t);
    if p < |w.states| {
      assert full[d + p].id == Some(t);
    }
    assert p == 0 || p == |w.states|;
  }

  lemma {:induction false} StartSettled(registerFee: uint64, coolingDown: uint64, perClaim: uint128)
    ensures Settled(Start(registerFee, coolingDown, perClaim))
  {
    hide LogInv, Txids;
    StartAligned(registerFee, coolingDown, perClaim);
  }

  /** Over any genuine run from the start that lists no transaction twice and registers no transaction twice,
      everything confirmed below the window is finalized, and rolling it back traps. */
  lemma {:induction false} SealedAreCommitted(registerFee: uint64, coolingDown: uint64, perClaim: uint128,
                                              ms: seq<Message>)
    requires var start := Start(registerFee, coolingDown, perClaim);
             GenuineRun(start, ms) && UnrepeatedRun(start, ms) && BringsNewRun(start, ms)
    ensures var tr := Run(Start(registerFee, coolingDown, perClaim), ms);
            && LogInv(tr.past.log)
            && forall t | t in Sealed(tr) ::
                 HasState(Committed(tr), t) && RollbackTx(tr.world, t) == Delivery(tr.world, Trap)
  {
    hide Next, RollbackTx, HasState, Committed, Sealed, LedgerInv, RecordInv, LogInv, DistinctIds;
    StartSettled(registerFee, coolingDown, perClaim);
    SettledRun(Start(registerFee, coolingDown, perClaim), ms);
    var tr := Run(Start(registerFee, coolingDown, perClaim), ms);
    forall t | t in Sealed(tr)
      ensures RollbackTx(tr.world, t) == Delivery(tr.world, Trap)
    {
      CommittedRollbackTraps(tr, t);
    }
  }
}
