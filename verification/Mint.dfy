/** The premine: where it is recorded, how long, and what it covers. */
module Mint {
  import opened Types
  import opened GameRules
  import opened PoolChain
  import opened BlockWindow
  import opened Messages
  import opened History
  import opened Ledger
  import opened Cookies
  import opened Finality

  /** The runes were minted when the full chain ended in state `k`: the states before it carry none, and it and
      all later ones carry the premine as recomputed now. */
  ghost predicate MintedFrom(tr: Trace, k: nat) {
    && tr.world.status.RunesMinted?
    && k < |Full(tr)|
    && forall i | 0 <= i < |Full(tr)| ::
         Full(tr)[i].runeBalance == if i < k then 0 else Premine(tr.world.game.claimed)
  }

  ghost predicate NoRunes(states: seq<PoolState>) {
    forall i | 0 <= i < |states| :: states[i].runeBalance == 0
  }

  /** No state carries runes until the mint; from then on the premine is recorded as long as the minted state
      is not popped. Once it is popped, no state ever carries runes again. */
  ghost predicate MintInv(tr: Trace) {
    match tr.past.mint
    case None => NoRunes(Full(tr))
    case Some(k) => MintedFrom(tr, k)
  }

  /** A registration appends a state with the runes of the last one. */
  lemma {:induction false} FullRegister(tr: Trace, call: RegisterCall)
    ensures var full, after := Full(tr), Full(Next(tr, MRegister(call)));
            || after == full
            || (|after| == |full| + 1 && full <= after && full != []
                && after[|full|].runeBalance == full[|full| - 1].runeBalance)
    ensures var w, after := tr.world, Process(tr.world, MRegister(call));
            after.status == w.status && after.game == w.game
  {
    if ExecuteRegister(tr.world, call).world != tr.world {
      PreparedState(tr.world, call);
    }
  }

  lemma {:induction false} MintRegister(tr: Trace, call: RegisterCall)
    requires MintInv(tr)
    ensures MintInv(Next(tr, MRegister(call)))
  {
    hide Process, Full, Premine;
    FullRegister(tr, call);
  }

  lemma {:induction false} MintRollback(tr: Trace, txid: Txid)
    requires MintInv(tr)
    ensures MintInv(Next(tr, MRollback(txid)))
  {
    hide RollbackTx, Restored, Undoable, Premine, SumCookies;
    FullRollback(tr, txid);
    if RollbackTx(tr.world, txid).world != tr.world {
      RollbackEffect(tr.world, txid);
    }
  }

  lemma {:induction false} MintNewBlock(tr: Trace, b: Block)
    requires LedgerInv(tr) && MintInv(tr)
    ensures MintInv(Next(tr, MNewBlock(b)))
  {
    hide NewBlock, Premine, LedgerInv, NextLog;
    LedgerNewBlock(tr, b);
    NewBlockFrame(tr.world, b);
  }

  /** A successful mint records the premine, as recomputed, in the last state and only there. */
  lemma {:induction false} MintRecords(tr: Trace, utxo: Utxo)
    requires LedgerInv(tr) && MintInv(tr)
    requires UpdateRuneInfo(tr.world, utxo).reply.Ok?
    ensures var next := Next(tr, MUpdateRuneInfo(utxo));
            && Full(tr) != [] && |Full(next)| == |Full(tr)|
            && next.past.mint == Some(|Full(tr)| - 1)
            && MintedFrom(next, |Full(tr)| - 1)
            && Premine(next.world.game.claimed) == utxo.maybeRune.value.value
  {
    hide Balanced, Premine;
    FullMint(tr, utxo);
    var full, after := Full(tr), Full(Next(tr, MUpdateRuneInfo(utxo)));
    assert after[|full| - 1] == Next(tr, MUpdateRuneInfo(utxo)).world.states[|tr.world.states| - 1];
  }

  lemma {:induction false} MintStep(tr: Trace, m: Message)
    requires LedgerInv(tr) && MintInv(tr)
    ensures MintInv(Next(tr, m))
  {
    hide Balanced, Premine;
    match m
    case MRegister(call) => MintRegister(tr, call);
    case MRollback(txid) => MintRollback(tr, txid);
    case MNewBlock(b) => MintNewBlock(tr, b);
    case MUpdateRuneInfo(utxo) =>
      if UpdateRuneInfo(tr.world, utxo).reply.Ok? {
        MintRecords(tr, utxo);
      }
    case MClaim(caller, nanos) => ClaimFrame(tr.world, caller, nanos);
    case MInitBtcUtxo(utxo) =>
      if tr.world.status.Initialize? {
        assert Full(Next(tr, m)) == Full(tr) + [PoolState(None, 0, utxo, None, 0, Init)];
      }
    case MInitKey(_) =>
    case MEndGame =>
  }

  lemma {:induction false} MintRun(tr: Trace, ms: seq<Message>)
    requires LedgerInv(tr) && MintInv(tr)
    ensures MintInv(Run(tr, ms))
    decreases |ms|
  {
    hide Next, LedgerInv, MintInv;
    if ms != [] {
      MintStep(tr, ms[0]);
      LedgerStep(tr, ms[0]);
      MintRun(Next(tr, ms[0]), ms[1..]);
    }
  }

  lemma {:induction false} MintReachable(registerFee: uint64, coolingDown: uint64, perClaim: uint128, ms: seq<Message>)
    ensures MintInv(Run(Start(registerFee, coolingDown, perClaim), ms))
  {
    hide Next, LedgerInv;
    StartHolds(registerFee, coolingDown, perClaim);
    MintRun(Start(registerFee, coolingDown, perClaim), ms);
  }

  // ----- after the mint -----

  /** The full chain is longer than `k` now and after each of the messages: no rollback pops state `k`. */
  ghost predicate StaysAbove(tr: Trace, ms: seq<Message>, k: nat)
    decreases |ms|
  {
    k < |Full(tr)| && (ms != [] ==> StaysAbove(Next(tr, ms[0]), ms[1..], k))
  }

  /** After the mint nothing mints again, and only a rollback that pops the minted state forgets it. */
  lemma {:induction false} MintStays(tr: Trace, m: Message)
    requires LedgerInv(tr) && MintInv(tr) && tr.world.status.RunesMinted?
    ensures var next := Next(tr, m);
            && next.world.status.RunesMinted?
            && next.world.game == tr.world.game
            && next.past.mint == match tr.past.mint
                                 case None => None
                                 case Some(k) => if |Full(next)| <= k then None else Some(k)
  {
    hide Balanced;
    FrozenStep(tr, m);
    FullStep(tr, m);
    match m
    case MRegister(call) => FullRegister(tr, call);
    case MRollback(txid) =>
      if RollbackTx(tr.world, txid).world != tr.world {
        RollbackEffect(tr.world, txid);
      }
    case MNewBlock(b) => NewBlockFrame(tr.world, b);
    case _ =>
  }

  lemma {:induction false} MintLasts(tr: Trace, ms: seq<Message>, k: nat)
    requires LedgerInv(tr) && MintInv(tr) && tr.world.status.RunesMinted?
    requires tr.past.mint == None || tr.past.mint == Some(k)
    ensures var now := Run(tr, ms);
            && now.world.status.RunesMinted? && now.world.game == tr.world.game
            && now.past.mint == if tr.past.mint.Some? && StaysAbove(tr, ms, k) then Some(k) else None
    decreases |ms|
  {
    if ms != [] {
      hide Next, LedgerInv;
      var next := Next(tr, ms[0]);
      MintStays(tr, ms[0]);
      MintStep(tr, ms[0]);
      LedgerStep(tr, ms[0]);
      MintLasts(next, ms[1..], k);
    }
  }

  /** After a successful mint in a reachable state, the premine recorded stays the recomputed one over any run:
      the states before the minted one carry no runes, it and all later ones carry exactly the premine. This
      lasts until a rollback pops the minted state. From then on no state ever carries runes again, although
      the status stays. */
  lemma {:induction false} PremineRecorded(tr: Trace, utxo: Utxo, ms: seq<Message>)
    requires LedgerInv(tr) && MintInv(tr)
    requires UpdateRuneInfo(tr.world, utxo).reply.Ok?
    ensures var minted, k := Next(tr, MUpdateRuneInfo(utxo)), |Full(tr)| - 1;
            var now := Run(minted, ms);
            && now.world.status.RunesMinted?
            && Premine(now.world.game.claimed) == utxo.maybeRune.value.value
            && k >= 0
            && if StaysAbove(minted, ms, k) then MintedFrom(now, k) else NoRunes(Full(now))
  {
    hide Next, LedgerInv, Premine, NoRunes;
    var minted, k := Next(tr, MUpdateRuneInfo(utxo)), |Full(tr)| - 1;
    MintRecords(tr, utxo);
    LedgerStep(tr, MUpdateRuneInfo(utxo));
    MintLasts(minted, ms, k);
    MintRun(minted, ms);
  }

  /** After any run, the premine covers all gamers together exactly while its product fits 128 bits, and then a
      fifth is left for liquidity; the states carry it from the minted one on, and none before. */
  lemma {:induction false} PremineSolvency(registerFee: uint64, coolingDown: uint64, perClaim: uint128,
                                           ms: seq<Message>)
    ensures var tr := Run(Start(registerFee, coolingDown, perClaim), ms);
            var w := tr.world;
            && (forall i | 0 <= i < |Full(tr)| ::
                  Full(tr)[i].runeBalance
                  == if tr.past.mint.None? || i < tr.past.mint.value then 0 else Premine(w.game.claimed))
            && SumCookies(w.gamers) <= w.game.claimed
            && (w.game.claimed * 120 < U128_MOD <==> w.game.claimed <= Premine(w.game.claimed))
            && (w.game.claimed * 120 < U128_MOD ==> QueryAddLiquidityInfo(w).runes == w.game.claimed / 5)
  {
    hide Next, LedgerInv, SumCookies, Premine, QueryAddLiquidityInfo;
    var start := Start(registerFee, coolingDown, perClaim);
    StartHolds(registerFee, coolingDown, perClaim);
    MintReachable(registerFee, coolingDown, perClaim, ms);
    CookieRun(start, ms);
    PremineCovers(Run(start, ms).world.game.claimed);
    if Run(start, ms).world.game.claimed * 120 < U128_MOD {
      FifthForLiquidity(Run(start, ms).world);
    }
  }

  lemma {:induction false} FifthForLiquidity(w: World)
    requires w.game.claimed * 120 < U128_MOD
    ensures QueryAddLiquidityInfo(w).runes == w.game.claimed / 5
  {
    hide Premine, WrapMul64;
    PremineCovers(w.game.claimed);
  }
}
