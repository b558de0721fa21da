/** Concrete runs on which the premine goes wrong: lost by a registration that is committed late, lost by a
    rollback of the minted state, and overflowing. */
module MintRuns {
  import opened Types
  import opened GameRules
  import opened PoolChain
  import opened Messages
  import opened History
  import opened Ledger
  import opened Mint
  import opened Inverse
  import opened Stability

  const POOL: Address := "pool"
  const SEED := PoolState(None, 0, Utxo("seed", None, 5000), None, 0, Init)
  const FIRST := PoolState(Some(Txid("a")), 1, Utxo("first", None, 6000), None, 0, Register("alice"))
  const SECOND := PoolState(Some(Txid("b")), 2, Utxo("second", None, 7000), None, 0, Register("bob"))
  const HALF: uint128 := 0x8000_0000_0000_0000_0000_0000_0000_0000

  /** The output of a mint. */
  function Runes(amount: uint128): Utxo {
    Utxo("runes", Some(CoinBalance("1:1", amount)), 546)
  }

  /** A registration for the fee of 1000 on top of a state. */
  function Joining(last: PoolState, txid: Txid, who: Address, output: string): RegisterCall {
    RegisterCall(txid, who,
                 Intention(POOL, last.nonce, [last.utxo.outpoint], [output],
                           [InputCoin(who, CoinBalance(BTC, 1000))], []),
                 true, Some(output), true, Some(who))
  }

  /** Alice registers and claims once, then the game ends. */
  function Played(): seq<Message> {
    [ MInitKey(Some(("key", POOL))),
      MInitBtcUtxo(SEED.utxo),
      MRegister(Joining(SEED, Txid("a"), "alice", "first")),
      MClaim("alice", 100_000_000_000),
      MEndGame]
  }

  /** Where such a game ends when a claim earns `perClaim`. */
  ghost function AfterPlay(perClaim: uint128): Trace {
    Run(Start(1000, 60, perClaim), Played())
  }

  ghost predicate Registered(w: World, perClaim: uint128) {
    && w.address == Some(POOL) && w.status == Play && w.states == [SEED, FIRST]
    && w.game == GameData(false, 1000, 60, perClaim, 0)
    && w.gamers == map["alice" := NewGamer("alice")]
    && w.principals == map["alice" := "alice"]
    && Txid("a") in w.records.pending
  }

  ghost predicate OneClaim(w: World, perClaim: uint128) {
    && w.address == Some(POOL) && w.status == Ended
    && w.states == [SEED, FIRST]
    && w.gamers == map["alice" := Gamer("alice", perClaim, 100, false)]
    && w.game == GameData(true, 1000, 60, perClaim, perClaim)
    && Txid("a") in w.records.pending
  }

  lemma {:induction false} AliceRegisters(perClaim: uint128)
    ensures Registered(Run(Start(1000, 60, perClaim), Played()[..3]).world, perClaim)
  {
    var ms := Played()[..3];
    var tr1 := Next(Start(1000, 60, perClaim), ms[0]);
    var tr2 := Next(tr1, ms[1]);
    assert tr2.world.status == Play && tr2.world.states == [SEED];
    var tr3 := Next(tr2, ms[2]);
    assert PrepareRegister(tr2.world, ms[2].call).Ok?;
    assert tr3.world.states == [SEED, FIRST];
    assert Run(tr2, ms[2..]) == tr3 by {
      assert ms[2..][1..] == [];
    }
    assert ms[1..][1..] == ms[2..];
  }

  lemma {:induction false} ClaimedAndEnded(tr: Trace, perClaim: uint128)
    requires Registered(tr.world, perClaim)
    ensures OneClaim(Next(Next(tr, MClaim("alice", 100_000_000_000)), MEndGame).world, perClaim)
  {
    var claimed := Next(tr, MClaim("alice", 100_000_000_000));
    assert claimed.world.game.claimed == perClaim;
    assert claimed.world.gamers == map["alice" := Gamer("alice", perClaim, 100, false)];
  }

  lemma {:induction false} AlicePlays(perClaim: uint128)
    ensures OneClaim(AfterPlay(perClaim).world, perClaim)
  {
    hide Next;
    var start, ms := Start(1000, 60, perClaim), Played();
    var tr := Run(start, ms[..3]);
    AliceRegisters(perClaim);
    RunSplit(start, ms, 3);
    ClaimedAndEnded(tr, perClaim);
    assert ms[3..][1..] == ms[4..] && ms[4..][1..] == [];
  }

  // ----- a late commit -----

  /** Bob's registration validates after this run, then the 120 runes for 100 cookies are minted and recorded,
      then the registration is committed: the last state, which the next registration continues, carries no
      runes, although the premine recorded before it is still due. */
  lemma {:induction false} CommitLosesPremine()
    ensures var tr, call := AfterPlay(100), Joining(FIRST, Txid("b"), "bob", "second");
            && PrepareRegister(tr.world, call) == Ok((SECOND, FIRST.utxo))
            && UpdateRuneInfo(tr.world, Runes(120)).reply.Ok?
            && var minted := Next(tr, MUpdateRuneInfo(Runes(120)));
            && var after := Trace(CommitLater(minted.world, call, SECOND), minted.past);
            && MintInv(minted) && !MintInv(after)
            && after.world.states == [SEED, FIRST.(runeBalance := 120), SECOND]
            && Premine(after.world.game.claimed) == 120
  {
    hide Next, Played, MintInv, LedgerInv;
    var tr, call := AfterPlay(100), Joining(FIRST, Txid("b"), "bob", "second");
    AlicePlays(100);
    LedgerReachable(1000, 60, 100, Played());
    MintReachable(1000, 60, 100, Played());
    BobPrepared(tr.world);
    MintedStates(tr);
    var ms := [MUpdateRuneInfo(Runes(120))];
    assert Run(tr, ms) == Next(tr, ms[0]) by {
      assert ms[1..] == [];
    }
    QuietMint(tr, ms);
    MintDuringRegistration(tr, ms, call);
  }

  lemma {:induction false} BobPrepared(w: World)
    requires OneClaim(w, 100)
    ensures PrepareRegister(w, Joining(FIRST, Txid("b"), "bob", "second")) == Ok((SECOND, FIRST.utxo))
  {
  }

  lemma {:induction false} MintedStates(tr: Trace)
    requires OneClaim(tr.world, 100)
    ensures UpdateRuneInfo(tr.world, Runes(120)).reply.Ok?
    ensures var minted := Next(tr, MUpdateRuneInfo(Runes(120))).world;
            && minted == tr.world.(runeId := Some("1:1"), status := RunesMinted,
                                   states := [SEED, FIRST.(runeBalance := 120)])
            && Premine(minted.game.claimed) == 120
  {
    assert Premine(100) == 120;
  }

  // ----- the minted state rolled back -----

  /** Alice's registration is rolled back after the mint: the seed is left, which carries no runes, and nothing
      can record the premine of 120 again. */
  lemma {:induction false} RollbackLosesPremine(again: Utxo)
    ensures var minted := Next(AfterPlay(100), MUpdateRuneInfo(Runes(120)));
            var now := Next(minted, MRollback(Txid("a")));
            && minted.past.mint == Some(1)
            && now.past.mint == None
            && now.world.states == [SEED]
            && now.world.status == RunesMinted && Premine(now.world.game.claimed) == 120
            && UpdateRuneInfo(now.world, again) == Delivery(now.world, Trap)
  {
    hide Process, Played, MintInv, LedgerInv, RecordInv;
    var tr := AfterPlay(100);
    AlicePlays(100);
    Reachable(1000, 60, 100, Played());
    MintedStates(tr);
    MintRecords(tr, Runes(120));
    var minted := Next(tr, MUpdateRuneInfo(Runes(120)));
    AliceAlone(tr, minted);
    RecordStep(tr.world, MUpdateRuneInfo(Runes(120)));
    AliceRolledBack(minted.world);
    MintedTwice(RollbackTx(minted.world, Txid("a")).world, again);
    ProcessRollback(minted.world, Txid("a"));
  }

  lemma {:induction false} ProcessRollback(w: World, t: Txid)
    ensures Process(w, MRollback(t)) == RollbackTx(w, t).world
  {
  }

  /** Finalizing has dropped nothing. */
  lemma {:induction false} AliceAlone(tr: Trace, minted: Trace)
    requires OneClaim(tr.world, 100) && tr == AfterPlay(100)
    requires minted == Next(tr, MUpdateRuneInfo(Runes(120)))
    ensures |Full(tr)| == 2 && minted.past.archive == [] && Txid("a") in minted.world.records.pending
  {
    hide Run, Process, Played, UpdateRuneInfo;
    PlayArchivesNothing(100);
    MintedStates(tr);
  }

  lemma {:induction false} PlayArchivesNothing(perClaim: uint128)
    ensures AfterPlay(perClaim).past.archive == []
  {
    hide Next;
    NothingArchived(Start(1000, 60, perClaim), Played());
  }

  lemma {:induction false} NothingArchived(tr: Trace, ms: seq<Message>)
    requires tr.past.archive == [] && forall i | 0 <= i < |ms| :: !ms[i].MNewBlock?
    ensures Run(tr, ms).past.archive == []
    decreases |ms|
  {
    hide Process;
    if ms != [] {
      NothingArchived(Next(tr, ms[0]), ms[1..]);
    }
  }

  lemma {:induction false} AliceRolledBack(w: World)
    requires RecordInv(w) && Txid("a") in w.records.pending
    requires w.states == [SEED, FIRST.(runeBalance := 120)] && w.gamers.Keys == {"alice"}
    ensures RollbackTx(w, Txid("a")).world == w.(states := [SEED], gamers := map[])
  {
    hide RollbackTx, RecordInv;
    TrackedRollback(w, Txid("a"));
    var t := Txid("a");
    assert Position(w.states, t) == 1 by {
      assert w.states[0].id.None? && w.states[1].id == Some(t);
    }
    var gamers := w.gamers - {"alice"};
    assert w.states[..1] == [SEED] && gamers == map[];
    assert Unwind([SEED], gamers, 1) == UnwindResult([SEED], gamers, Ok(()));
  }

  lemma {:induction false} MintedTwice(w: World, again: Utxo)
    requires w.status == RunesMinted
    ensures UpdateRuneInfo(w, again) == Delivery(w, Trap)
  {
  }

  // ----- an overflowing premine -----

  /** When a claim earns 2^127 cookies, one claim makes the premine zero: a mint of nothing is accepted for it,
      and the amount left for liquidity wraps. */
  lemma {:induction false} PremineOverflows()
    ensures var w := AfterPlay(HALF).world;
            && w.game.claimed == HALF && w.gamers == map["alice" := Gamer("alice", HALF, 100, false)]
            && Premine(w.game.claimed) == 0
            && UpdateRuneInfo(w, Runes(0)).reply.Ok?
            && QueryAddLiquidityInfo(w).runes == HALF
  {
    hide Run, Played;
    AlicePlays(HALF);
    assert HALF * 120 == 60 * U128_MOD;
    assert (0 - HALF) % U128_MOD == HALF;
  }
}
