/** Concrete runs of blocks: an orderly one that finalizes, one whose sweep traps because the transaction was
    rolled back, one that makes a reorganization of depth 64 recoverable, and one whose block is gone at once. */
module BlockRuns {
  import opened Types
  import opened PoolChain
  import opened BlockWindow
  import opened Messages
  import opened History
  import opened Refinement
  import opened Reorgs
  import opened Sweep
  import opened Alignment

  const POOL: Address := "pool"
  const T: Txid := Txid("t")
  const SEED := PoolState(None, 0, Utxo("seed", None, 5000), None, 0, Init)
  const NEXT := PoolState(Some(T), 1, Utxo("next", None, 6000), None, 0, Register("gamer"))
  const FIRST := Block(100, "100", 0, [T])

  function Empty(height: uint32): Block {
    Block(height, "empty", 0, [])
  }

  /** A registration. */
  function Opening(): seq<Message> {
    [ MInitKey(Some(("key", POOL))),
      MInitBtcUtxo(SEED.utxo),
      MRegister(RegisterCall(T, "gamer",
                             Intention(POOL, 0, ["seed"], ["next"], [InputCoin("gamer", CoinBalance(BTC, 1000))], []),
                             true, Some("next"), true, Some("principal")))]
  }

  /** Empty blocks from a height on. */
  function EmptyBlocks(height: uint32, count: nat): seq<Message>
    requires height + count < U32_MOD
    decreases count
  {
    if count == 0 then [] else [MNewBlock(Empty(height))] + EmptyBlocks(height + 1, count - 1)
  }

  // ----- a registration and its block -----

  ghost predicate Opened(tr: Trace) {
    var w := tr.world;
    && w.address == Some(POOL) && w.states == [SEED, NEXT] && w.blocks == map[]
    && w.records == Records(map[T := TxRecord([POOL])], map[])
    && tr.past.archive == [] && tr.past.log == ChainLog(0, [], -1)
  }

  lemma {:induction false} OpeningOpens(coolingDown: uint64, perClaim: uint128)
    ensures var start := Start(1000, coolingDown, perClaim);
            Opened(Run(start, Opening())) && OrderlyRun(start, Opening())
  {
    var tr0, ms := Start(1000, coolingDown, perClaim), Opening();
    var tr1 := Next(tr0, ms[0]);
    var tr2 := Next(tr1, ms[1]);
    assert tr2.world.status == Play && tr2.world.states == [SEED];
    var tr3 := Next(tr2, ms[2]);
    TRegisters(tr2);
    assert !HasState(Full(tr2), T);
    NoneListed();
    assert ms[2..][1..] == [] && ms[1..][1..] == ms[2..];
    assert Run(tr2, ms[2..]) == tr3;
    assert OrderlyRun(tr2, ms[2..]);
    assert OrderlyRun(tr1, ms[1..]);
  }

  lemma {:induction false} TRegisters(tr: Trace)
    requires var w := tr.world;
             && w.address == Some(POOL) && w.states == [SEED] && w.blocks == map[] && w.gamers == map[]
             && w.records == Records(map[], map[]) && w.game.registerFee == 1000
             && tr.past.archive == [] && tr.past.log == ChainLog(0, [], -1)
    ensures Opened(Next(tr, Opening()[2]))
  {
    var call := Opening()[2].call;
    assert PrepareRegister(tr.world, call) == Ok((NEXT, SEED.utxo));
    assert AddPool(TxRecord([]), POOL) == TxRecord([POOL]);
  }

  /** `T` is confirmed, nothing is finalized, and the block of `T` is the deepest one held. */
  ghost predicate Waiting(tr: Trace, height: uint32, states: seq<PoolState>) {
    var w, log := tr.world, tr.past.log;
    && BlockInv(tr)
    && w.address == Some(POOL) && w.states == states && tr.past.archive == []
    && w.records.confirmed == map[T := TxRecord([POOL])]
    && log.base == 100 && log.Tip() == height && log.peak == height
    && log.canon[0] == FIRST
    && forall i | 0 < i < |log.canon| :: log.canon[i].txids == []
  }

  lemma {:induction false} FirstBlock(tr: Trace)
    requires Opened(tr)
    ensures Waiting(Next(tr, MNewBlock(FIRST)), 100, [SEED, NEXT])
    ensures Orderly(tr, MNewBlock(FIRST))
  {
    hide NewBlock, Admit, Txids;
    assert Window(tr.past.log) == map[];
    BlockInvNewBlock(tr, FIRST);
    FirstAccepted(tr.world);
    BlockDelivered(tr, FIRST);
    assert Gone(tr.world.states, tr.world.states) == [];
    assert Full(tr)[1].id == Some(T);
    OnlyFirstListed([FIRST]);
  }

  lemma {:induction false} FirstAccepted(w: World)
    requires w.blocks == map[] && w.address == Some(POOL)
    requires w.records == Records(map[T := TxRecord([POOL])], map[])
    ensures var d := NewBlock(w, FIRST);
            && d.reply.Ok? && Admit(w, FIRST) == Ok(w)
            && d.world == w.(blocks := d.world.blocks, records := d.world.records)
            && d.world.records == Records(map[T := TxRecord([POOL])], map[T := TxRecord([POOL])])
  {
    hide DeepTxids, Prune;
    var records := Confirm(w.records, AsSet(FIRST.txids));
    assert records.confirmed == map[T := TxRecord([POOL])];
    assert ConfirmedHeight(100) == 37;
    NothingDeep(w.blocks[100 := FIRST], records, POOL, 37);
  }

  /** A chain of the first block and empty ones lists only `T`. */
  lemma {:induction false} OnlyFirstListed(canon: seq<Block>)
    requires canon != [] && canon[0] == FIRST
    requires forall i | 0 < i < |canon| :: canon[i].txids == []
    ensures Listing(canon) == [T]
  {
    EmptyListed(canon[1..]);
  }

  lemma {:induction false} EmptyListed(canon: seq<Block>)
    requires forall i | 0 <= i < |canon| :: canon[i].txids == []
    ensures Listing(canon) == []
  {
    if canon != [] {
      EmptyListed(canon[1..]);
    }
  }

  // ----- waiting for it to get deep -----

  lemma {:induction false} EmptyAdmitted(tr: Trace, height: uint32, states: seq<PoolState>)
    requires 100 <= height < 163 && Waiting(tr, height, states)
    ensures var b := Empty(height + 1);
            && Genuine(tr.world, b)
            && Admit(tr.world, b) == Ok(tr.world)
            && Extend(tr.past.log, b) == tr.past.log.(canon := tr.past.log.canon + [b])
            && Confirm(tr.world.records, AsSet(b.txids)) == tr.world.records
  {
    hide NewBlock, Confirm, DetectReorg, RevertBlocks, Txids, Window;
    var b, log := Empty(height + 1), tr.past.log;
    DetectMatches(log, b);
    assert AsSet(b.txids) == {};
    ConfirmNone(tr.world.records);
    assert log.canon[..|log.canon|] == log.canon;
  }

  lemma {:induction false} EmptyOrderly(tr: Trace, height: uint32)
    requires 100 <= height < 163 && Waiting(tr, height, [SEED, NEXT])
    ensures Orderly(tr, MNewBlock(Empty(height + 1)))
  {
    hide Admit, Genuine, BlockInv, Extend, Listing;
    EmptyAdmitted(tr, height, [SEED, NEXT]);
    OnlyFirstListed(tr.past.log.canon + [Empty(height + 1)]);
  }

  lemma {:induction false} EmptyAccepted(tr: Trace, height: uint32, states: seq<PoolState>)
    requires 100 <= height < 162 && Waiting(tr, height, states) && DistinctIds(states)
    ensures var d := NewBlock(tr.world, Empty(height + 1)); d.reply.Ok? && d.world.states == states
  {
    hide NewBlock, Admit, Confirm, DeepTxids, DistinctIds, Extend, LogInv, Txids;
    var b, w := Empty(height + 1), tr.world;
    EmptyAdmitted(tr, height, states);
    ConfirmedHeightExact(b.height);
    NothingDeep(w.blocks[b.height := b], w.records, POOL, ConfirmedHeight(b.height));
    BlockOutcome(w, b);
    FollowsNone(states);
  }

  /** Another empty block is accepted while the bound stays below the first block. */
  lemma {:induction false} WaitOneMore(tr: Trace, height: uint32, states: seq<PoolState>)
    requires 100 <= height < 162 && Waiting(tr, height, states) && DistinctIds(states)
    ensures Waiting(Next(tr, MNewBlock(Empty(height + 1))), height + 1, states)
  {
    hide NewBlock, Admit, Confirm, Extend, LogInv, Txids, Window, DistinctIds, Genuine;
    var b, w := Empty(height + 1), tr.world;
    EmptyAdmitted(tr, height, states);
    EmptyAccepted(tr, height, states);
    BlockInvNewBlock(tr, b);
    BlockDelivered(tr, b);
    NewBlockStores(w, b);
    NewBlockFrame(w, b);
    assert Gone(states, states) == [];
  }

  lemma {:induction false} FirstEmpty(height: uint32, count: nat)
    requires 0 < count && height + count < U32_MOD
    ensures var ms := EmptyBlocks(height, count);
            ms != [] && ms[0] == MNewBlock(Empty(height)) && ms[1..] == EmptyBlocks(height + 1, count - 1)
  {
  }

  lemma {:induction false} NoneEmpty(height: uint32)
    ensures EmptyBlocks(height, 0) == []
  {
  }

  lemma {:induction false} WaitOn(tr: Trace, height: uint32, count: nat, states: seq<PoolState>)
    requires 100 <= height && height + count <= 162 && Waiting(tr, height, states) && DistinctIds(states)
    ensures Waiting(Run(tr, EmptyBlocks(height + 1, count)), height + count, states)
    ensures states == [SEED, NEXT] ==> OrderlyRun(tr, EmptyBlocks(height + 1, count))
    decreases count
  {
    hide Waiting, Next, EmptyBlocks, Empty, Orderly, DistinctIds;
    if count == 0 {
      NoneEmpty(height + 1);
    } else {
      var ms := EmptyBlocks(height + 1, count);
      FirstEmpty(height + 1, count);
      WaitOneMore(tr, height, states);
      if states == [SEED, NEXT] {
        EmptyOrderly(tr, height);
      }
      WaitOn(Next(tr, ms[0]), height + 1, count - 1, states);
    }
  }

  /** The block at height 163 finds `T` deep, and nothing else. */
  lemma {:induction false} OnlyTIsDeep(tr: Trace, states: seq<PoolState>)
    requires Waiting(tr, 162, states)
    ensures Admit(tr.world, Empty(163)) == Ok(tr.world)
    ensures var deep := DeepAfter(tr.world, Empty(163), POOL); T in deep && forall i | 0 <= i < |deep| :: deep[i] == T
  {
    hide NewBlock, Admit, Confirm, DeepTxids, Extend, Txids;
    var b, w := Empty(163), tr.world;
    EmptyAdmitted(tr, 162, states);
    ConfirmedHeightExact(163);
    var blocks := w.blocks[163 := b];
    assert Held(tr.past.log, 100) && blocks[100] == FIRST;
    ListedIsDeep(blocks, w.records, POOL, 100, 100, T);
    var deep := DeepTxids(blocks, w.records, POOL, 100);
    forall i | 0 <= i < |deep|
      ensures deep[i] == T
    {
      DeepIsListed(blocks, w.records, POOL, 100, deep[i]);
    }
  }

  // ----- it is finalized, or the sweep traps -----

  lemma {:induction false} DeepBlockFinalizes(tr: Trace)
    requires Waiting(tr, 162, [SEED, NEXT])
    ensures var next := Next(tr, MNewBlock(Empty(163))); next.past.archive == [SEED] && next.world.states == [NEXT]
  {
    hide NewBlock, Admit, DeepAfter, BlockInv;
    var w, deep := tr.world, DeepAfter(tr.world, Empty(163), POOL);
    OnlyTIsDeep(tr, [SEED, NEXT]);
    assert Position(w.states, T) == 1 by {
      assert w.states[0].id.None? && w.states[1].id == Some(T);
    }
    BlockOutcome(w, Empty(163));
    BlockDelivered(tr, Empty(163));
    assert w.states[1..] == [NEXT] && tr.past.archive + Gone(w.states, [NEXT]) == [SEED];
  }

  /** The environment is not empty: on this orderly run the registration is confirmed, gets deep and is
      finalized. */
  lemma {:induction false} OrderlyRunFinalizes(coolingDown: uint64, perClaim: uint128)
    ensures var start, ms := Start(1000, coolingDown, perClaim), Opening() + [MNewBlock(FIRST)] + EmptyBlocks(101, 63);
            && OrderlyRun(start, ms)
            && Run(start, ms).past.archive == [SEED] && Run(start, ms).world.states == [NEXT]
  {
    hide Waiting, Next, Opening, EmptyBlocks, Opened, Orderly, Empty;
    var start := Start(1000, coolingDown, perClaim);
    var ready := Run(start, Opening());
    OpeningOpens(coolingDown, perClaim);
    FirstBlock(ready);
    var tr := Next(ready, MNewBlock(FIRST));
    OneMessage(ready, MNewBlock(FIRST));
    RunConcat(start, Opening(), [MNewBlock(FIRST)]);
    OrderlyConcat(start, Opening(), [MNewBlock(FIRST)]);
    DistinctPair();
    WaitOn(tr, 100, 62, [SEED, NEXT]);
    var deep := Run(tr, EmptyBlocks(101, 62));
    EmptyOrderly(deep, 162);
    DeepBlockFinalizes(deep);
    OneMessage(deep, MNewBlock(Empty(163)));
    LastEmpty(101, 62);
    RunConcat(tr, EmptyBlocks(101, 62), [MNewBlock(Empty(163))]);
    OrderlyConcat(tr, EmptyBlocks(101, 62), [MNewBlock(Empty(163))]);
    RunConcat(start, Opening() + [MNewBlock(FIRST)], EmptyBlocks(101, 63));
    OrderlyConcat(start, Opening() + [MNewBlock(FIRST)], EmptyBlocks(101, 63));
  }

  lemma {:induction false} DistinctPair()
    ensures DistinctIds([SEED, NEXT]) && DistinctIds([SEED])
  {
  }

  lemma {:induction false} OneMessage(tr: Trace, m: Message)
    ensures Run(tr, [m]) == Next(tr, m)
    ensures Orderly(tr, m) ==> OrderlyRun(tr, [m])
  {
    hide Next, Orderly;
    assert [m][1..] == [];
  }

  lemma {:induction false} LastEmpty(height: uint32, count: nat)
    requires height + count + 1 < U32_MOD
    ensures EmptyBlocks(height, count + 1) == EmptyBlocks(height, count) + [MNewBlock(Empty(height + count))]
    decreases count
  {
    if count > 0 {
      LastEmpty(height + 1, count - 1);
    }
  }

  lemma {:induction false} RollbackOfT(tr: Trace)
    requires Waiting(tr, 100, [SEED, NEXT])
    ensures Waiting(Next(tr, MRollback(T)), 100, [SEED])
  {
    hide Refines;
    var w := tr.world;
    assert Position(w.states, T) == 1 by {
      assert w.states[0].id.None? && w.states[1].id == Some(T);
    }
    assert w.states[..1] == [SEED];
    var once := RollbackChain(w.states, w.gamers, T);
    assert Unwind(w.states[..1], w.gamers - {"gamer"}, 1).states == [SEED];
    assert once.states == [SEED];
    assert [POOL][1..] == [];
    assert RollbackEach(once.states, once.gamers, [], POOL, T).reply.Ok?;
  }

  lemma {:induction false} DeepBlockTraps(tr: Trace)
    requires Waiting(tr, 162, [SEED])
    ensures NewBlock(tr.world, Empty(163)) == Delivery(tr.world, Trap)
  {
    hide NewBlock, Admit, DeepAfter, BlockInv;
    OnlyTIsDeep(tr, [SEED]);
    RolledBackBlocksFinalizing(tr.world, Empty(163), T);
  }

  /** The unwrap in the sweep is not safe on every run: with the registration rolled back once its block has
      arrived, the same blocks end in one that traps. */
  lemma {:induction false} FinalizingCanTrap(coolingDown: uint64, perClaim: uint128)
    ensures var ms := Opening() + [MNewBlock(FIRST), MRollback(T)] + EmptyBlocks(101, 62);
            var w := Run(Start(1000, coolingDown, perClaim), ms).world;
            NewBlock(w, Empty(163)) == Delivery(w, Trap)
  {
    hide Waiting, Next, NewBlock, Opening, EmptyBlocks, Opened, Empty;
    var start, two := Start(1000, coolingDown, perClaim), [MNewBlock(FIRST), MRollback(T)];
    var ready := Run(start, Opening());
    OpeningOpens(coolingDown, perClaim);
    FirstBlock(ready);
    RollbackOfT(Next(ready, MNewBlock(FIRST)));
    OneMessage(ready, MNewBlock(FIRST));
    OneMessage(Next(ready, MNewBlock(FIRST)), MRollback(T));
    RunConcat(ready, [MNewBlock(FIRST)], [MRollback(T)]);
    assert two == [MNewBlock(FIRST)] + [MRollback(T)];
    RunConcat(start, Opening(), two);
    DistinctPair();
    WaitOn(Run(ready, two), 100, 62, [SEED]);
    RunConcat(start, Opening() + two, EmptyBlocks(101, 62));
    DeepBlockTraps(Run(Run(ready, two), EmptyBlocks(101, 62)));
  }

  // ----- 64 blocks before the address is set -----

  /** `n` empty blocks were delivered from height 100 on and nothing else happened. */
  ghost predicate Unaddressed(tr: Trace, n: nat) {
    var log := tr.past.log;
    && BlockInv(tr) && tr.world.address.None?
    && |log.canon| == n && log.peak == -1
    && (n > 0 ==> log.base == 100)
  }

  lemma {:induction false} UnaddressedStep(tr: Trace, n: nat)
    requires n < 1000 && Unaddressed(tr, n)
    ensures Genuine(tr.world, Empty(100 + n))
    ensures Unaddressed(Next(tr, MNewBlock(Empty(100 + n))), n + 1)
  {
    hide Confirm, DetectReorg, RevertBlocks, Admit, Txids;
    var b, log := Empty(100 + n), tr.past.log;
    DetectMatches(log, b);
    AdmittedStores(tr, b);
    assert Classify(log, b) == Extends;
    BlockInvNewBlock(tr, b);
  }

  lemma {:induction false} UnaddressedOn(tr: Trace, n: nat, count: nat)
    requires n + count < 1000 && Unaddressed(tr, n)
    ensures Unaddressed(Run(tr, EmptyBlocks(100 + n, count)), n + count)
    ensures GenuineRun(tr, EmptyBlocks(100 + n, count))
    decreases count
  {
    hide Unaddressed, Next, EmptyBlocks, Empty, Genuine;
    if count == 0 {
      NoneEmpty(100 + n);
    } else {
      var ms := EmptyBlocks(100 + n, count);
      FirstEmpty(100 + n, count);
      UnaddressedStep(tr, n);
      UnaddressedOn(Next(tr, ms[0]), n + 1, count - 1);
    }
  }

  /** Blocks that arrive before the address is set are stored although they are answered with an error, and none
      is ever pruned: after 64 of them a reorganization of depth 64 is recoverable. */
  lemma {:induction false} DepthSixtyFour(registerFee: uint64, coolingDown: uint64, perClaim: uint128)
    ensures var w := Run(Start(registerFee, coolingDown, perClaim), EmptyBlocks(100, 64)).world;
            |w.blocks| == 64 && Revertible(w, 64)
  {
    hide Next, EmptyBlocks, Revertible;
    var start := Start(registerFee, coolingDown, perClaim);
    assert Window(start.past.log) == map[];
    UnaddressedOn(start, 0, 64);
    var tr := Run(start, EmptyBlocks(100, 64));
    WindowSize(tr.past.log);
    RevertibleDepths(tr, 64);
  }

  // ----- a block below height 63 -----

  /** A block at height 10 is answered Ok and is gone at once: every store is as before. */
  lemma {:induction false} LowBlockVanishes(registerFee: uint64, coolingDown: uint64, perClaim: uint128)
    ensures var w := Run(Start(registerFee, coolingDown, perClaim), [MInitKey(Some(("key", POOL)))]).world;
            && w.address == Some(POOL) && w.blocks == map[]
            && NewBlock(w, Empty(10)) == Delivery(w, Ok(()))
  {
    hide Next, DeepTxids, NewBlock;
    var start := Start(registerFee, coolingDown, perClaim);
    OneMessage(start, MInitKey(Some(("key", POOL))));
    KeySet(start);
    LowBlockOnEmpty(Next(start, MInitKey(Some(("key", POOL)))).world, Empty(10));
  }

  lemma {:induction false} KeySet(tr: Trace)
    requires tr.world.address.None? && tr.world.status == Initialize(false, false)
    ensures var w := Next(tr, MInitKey(Some(("key", POOL)))).world;
            w.address == Some(POOL) && w.blocks == tr.world.blocks && w.records == tr.world.records
  {
  }

  lemma {:induction false} LowBlockOnEmpty(w: World, b: Block)
    requires w.address.Some? && w.blocks == map[] && w.records.pending == map[] == w.records.confirmed
    requires b.height < 63
    ensures NewBlock(w, b) == Delivery(w, Ok(()))
  {
    hide DeepTxids, Ascending;
    var stored, bound := w.blocks[b.height := b], ConfirmedHeight(b.height);
    ConfirmedHeightExact(b.height);
    assert Confirm(w.records, AsSet(b.txids)).confirmed == w.records.confirmed;
    assert Prune(stored, bound) == w.blocks;
    var deep := DeepTxids(stored, w.records, w.address.value, bound);
    assert deep == [] by {
      if deep != [] {
        DeepIsListed(stored, w.records, w.address.value, bound, deep[0]);
      }
    }
  }
}
