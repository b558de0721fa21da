/** The pool chain, the gamers, the nonce and the satoshis agree in every reachable state, and so does the
    life cycle of the game. */
module Ledger {
  import opened Types
  import opened GameRules
  import opened PoolChain
  import opened BlockWindow
  import opened Messages
  import opened History

  /** The satoshis the pool was last initialized with. */
  function Seed(full: seq<PoolState>, inits: nat): int {
    if 0 < inits <= |full| then full[inits - 1].utxo.sats else 0
  }

  /** First the initial states, then registrations that each add one to the nonce and the fee to the
      balance. */
  ghost predicate Shape(full: seq<PoolState>, inits: nat, fee: int) {
    && inits <= |full|
    && (inits == 0 ==> full == [])
    && (forall i | 0 <= i < inits :: full[i].userAction.Init? && full[i].id.None? && full[i].nonce == 0)
    && (forall i | inits <= i < |full| ::
          && full[i].userAction.Register?
          && full[i].id.Some?
          && full[i].nonce == i - inits + 1
          && full[i].utxo.sats == full[i - 1].utxo.sats + fee)
  }

  /** The members are the addresses registered after the initial states, each of them once. */
  ghost predicate Roster(full: seq<PoolState>, inits: nat, members: set<Address>)
    decreases |full|
  {
    if |full| <= inits then members == {}
    else
      var n := |full| - 1;
      var last := full[n].userAction;
      last.Register? && last.address in members && Roster(full[..n], inits, members - {last.address})
  }

  ghost predicate Balanced(full: seq<PoolState>, inits: nat, fee: int, members: set<Address>) {
    Shape(full, inits, fee) && Roster(full, inits, members)
  }

  /** Where the game is in its life and what that implies. */
  ghost predicate LifeCycle(w: World) {
    && (w.status.Initialize? ==>
          && w.gamers == map[]
          && (w.status.initKey <==> w.address.Some?)
          && (w.status.initBtc <==> w.states != [])
          && !(w.status.initKey && w.status.initBtc))
    && (!w.status.Initialize? ==> w.address.Some? && w.states != [])
    && (w.status.Initialize? || w.status.Play? || w.status.Ended? || w.status.RunesMinted?)
    && (w.game.isEnd <==> !w.status.Initialize? && !w.status.Play?)
    && (w.key.Some? <==> w.address.Some?)
  }

  ghost predicate LedgerInv(tr: Trace) {
    && Balanced(Full(tr), tr.past.inits, tr.world.game.registerFee, tr.world.gamers.Keys)
    && (tr.past.archive != [] ==> tr.world.states != [])
    && LifeCycle(tr.world)
  }

  // ----- one state more, one state less -----

  lemma {:induction false} LastBalance(full: seq<PoolState>, inits: nat, fee: int)
    requires Shape(full, inits, fee) && full != []
    ensures full[|full| - 1].nonce == |full| - inits
    ensures full[|full| - 1].utxo.sats == Seed(full, inits) + fee * (|full| - inits)
    decreases |full|
  {
    var n := |full| - 1;
    if |full| > inits {
      assert Shape(full[..n], inits, fee);
      LastBalance(full[..n], inits, fee);
      assert Seed(full[..n], inits) == Seed(full, inits);
      assert fee * (|full| - inits) == fee * (n - inits) + fee;
    }
  }

  /** The roster counts every registration of the chain once. */
  lemma {:induction false} RosterMeaning(full: seq<PoolState>, inits: nat, members: set<Address>)
    requires inits <= |full| && Roster(full, inits, members)
    requires forall i | 0 <= i < inits :: full[i].userAction.Init?
    ensures members == Members(full)
    ensures |members| == |full| - inits
    decreases |full|
  {
    if |full| > inits {
      var n := |full| - 1;
      var a := full[n].userAction.address;
      hide Members;
      RosterMeaning(full[..n], inits, members - {a});
      SplitLast(full);
      assert members == members - {a} + {a};
    }
  }

  /** No address is registered twice. */
  lemma {:induction false} RosterDistinct(full: seq<PoolState>, inits: nat, members: set<Address>, i: nat, j: nat)
    requires inits <= i < j < |full| && Roster(full, inits, members)
    ensures full[i].userAction.Register? && full[j].userAction.Register?
    ensures full[i].userAction.address != full[j].userAction.address
    decreases |full|
  {
    var n := |full| - 1;
    var fewer := members - {full[n].userAction.address};
    if j < n {
      RosterDistinct(full[..n], inits, fewer, i, j);
    } else {
      RosterHas(full[..n], inits, fewer, i);
    }
  }

  lemma {:induction false} RosterHas(full: seq<PoolState>, inits: nat, members: set<Address>, i: nat)
    requires inits <= i < |full| && Roster(full, inits, members)
    ensures full[i].userAction.Register? && full[i].userAction.address in members
    decreases |full|
  {
    var n := |full| - 1;
    if i < n {
      RosterHas(full[..n], inits, members - {full[n].userAction.address}, i);
    }
  }

  lemma {:induction false} BalancedPush(full: seq<PoolState>, inits: nat, fee: int, members: set<Address>, s: PoolState)
    requires Balanced(full, inits, fee, members) && full != []
    requires s.userAction.Register? && s.userAction.address !in members && s.id.Some?
    requires s.nonce == full[|full| - 1].nonce + 1
    requires s.utxo.sats == full[|full| - 1].utxo.sats + fee
    ensures Balanced(full + [s], inits, fee, members + {s.userAction.address})
  {
    var longer := full + [s];
    LastBalance(full, inits, fee);
    assert longer[..|full|] == full;
    assert members + {s.userAction.address} - {s.userAction.address} == members;
  }

  lemma {:induction false} BalancedCut(full: seq<PoolState>, inits: nat, fee: int, members: set<Address>, k: nat)
    requires Balanced(full, inits, fee, members) && inits <= k <= |full|
    ensures k == 0 ==> full == []
    ensures Balanced(full[..k], inits, fee, members - Members(full[k..]))
    decreases |full|
  {
    if k == |full| {
      assert full[..k] == full;
      assert members - Members(full[k..]) == members;
    } else {
      var n := |full| - 1;
      var rest := members - {full[n].userAction.address};
      assert Shape(full[..n], inits, fee);
      BalancedCut(full[..n], inits, fee, rest, k);
      assert full[..n][..k] == full[..k];
      assert full[..n][k..] == full[k..][..n - k];
      SplitLast(full[k..]);
      assert members - Members(full[k..]) == rest - Members(full[..n][k..]);
    }
  }

  /** Nothing in the balance depends on rune balances. */
  lemma {:induction false} BalancedRunes(full: seq<PoolState>, inits: nat, fee: int, members: set<Address>,
                                         rune: uint128)
    requires Balanced(full, inits, fee, members) && full != []
    ensures var n := |full| - 1;
            Balanced(full[..n] + [full[n].(runeBalance := rune)], inits, fee, members)
  {
    var n := |full| - 1;
    var minted := full[..n] + [full[n].(runeBalance := rune)];
    assert minted[..n] == full[..n];
  }

  /** No withdrawal ever enters a balanced chain, so undoing its end removes exactly the registered gamers. */
  lemma {:induction false} RestoredIsRemoval(gamers: Gamers, suffix: seq<PoolState>)
    requires forall i | 0 <= i < |suffix| :: suffix[i].userAction.Register?
    ensures Restored(gamers, suffix) == gamers - Members(suffix)
    ensures Undoable(suffix, gamers)
  {
  }

  // ----- every message keeps the ledger -----

  lemma {:induction false} LedgerInitBtc(tr: Trace, utxo: Utxo)
    requires LedgerInv(tr)
    ensures LedgerInv(Next(tr, MInitBtcUtxo(utxo)))
  {
    hide InitKey, ExecuteRegister, Claim, EndGame, UpdateRuneInfo, NewBlock, RollbackTx, Balanced;
    var w := tr.world;
    if w.status.Initialize? {
      var first := PoolState(None, 0, utxo, None, 0, Init);
      assert w.gamers.Keys == {};
      BalancedInit(Full(tr), tr.past.inits, w.game.registerFee, first);
      assert Full(Next(tr, MInitBtcUtxo(utxo))) == Full(tr) + [first];
    }
  }

  /** One more initial state while nobody is registered. */
  lemma {:induction false} BalancedInit(full: seq<PoolState>, inits: nat, fee: int, first: PoolState)
    requires Balanced(full, inits, fee, {})
    requires first.userAction.Init? && first.id.None? && first.nonce == 0
    ensures Balanced(full + [first], inits + 1, fee, {})
  {
    assert |full| == inits;
  }

  /** What a validated registration appends. */
  lemma {:induction false} PreparedState(w: World, call: RegisterCall)
    requires PrepareRegister(w, call).Ok?
    ensures w.states != [] && w.address == Some(call.intention.poolAddress) && call.initiator !in w.gamers
    ensures var last := w.states[|w.states| - 1];
            var (s, consumed) := PrepareRegister(w, call).value;
            && consumed == last.utxo
            && call.intention.poolUtxoSpend != []
            && last.utxo.outpoint == call.intention.poolUtxoSpend[|call.intention.poolUtxoSpend| - 1]
            && s.id == Some(call.txid)
            && s.nonce == last.nonce + 1 == call.intention.nonce + 1
            && s.utxo.sats == last.utxo.sats + w.game.registerFee
            && s.runeBalance == last.runeBalance
            && s.userAction == Register(call.initiator)
  {
  }

  /** A registration is accepted exactly when the pool's address, the gamers, the coins, the nonce and the
      outputs all fit and neither the satoshis nor the nonce overflow. */
  lemma {:induction false} RegistrationAccepted(w: World, call: RegisterCall)
    ensures PrepareRegister(w, call).Ok? <==>
              var intent := call.intention;
              && call.psbtDecodes && call.parsed.Some?
              && w.address == Some(intent.poolAddress)
              && call.initiator !in w.gamers
              && (exists from :: intent.inputCoins == [InputCoin(from, CoinBalance(BTC, w.game.registerFee))])
              && intent.outputCoins == []
              && intent.poolUtxoSpend != [] && intent.poolUtxoReceive != []
              && w.states != []
              && var last := w.states[|w.states| - 1];
              && last.nonce == intent.nonce && last.nonce + 1 < U64_MOD
              && last.utxo.outpoint == intent.poolUtxoSpend[|intent.poolUtxoSpend| - 1]
              && last.utxo.sats + w.game.registerFee < U64_MOD
  {
    var coins, paid := call.intention.inputCoins, CoinBalance(BTC, w.game.registerFee);
    if |coins| == 1 && coins[0].coin == paid {
      assert coins == [InputCoin(coins[0].from, paid)];
    }
  }

  lemma {:induction false} LedgerRegister(tr: Trace, call: RegisterCall)
    requires LedgerInv(tr)
    ensures LedgerInv(Next(tr, MRegister(call)))
  {
    hide InitKey, InitBtcUtxo, Claim, EndGame, UpdateRuneInfo, NewBlock, RollbackTx;
    var w := tr.world;
    if ExecuteRegister(w, call).world != w {
      PreparedState(w, call);
      var s := PrepareRegister(w, call).value.0;
      var after := Next(tr, MRegister(call));
      BalancedPush(Full(tr), tr.past.inits, w.game.registerFee, w.gamers.Keys, s);
      assert Full(after) == Full(tr) + [s];
      assert after.world.gamers.Keys == w.gamers.Keys + {call.initiator};
    }
  }

  lemma {:induction false} LedgerClaim(tr: Trace, caller: Principal, nanos: uint64)
    requires LedgerInv(tr)
    ensures LedgerInv(Next(tr, MClaim(caller, nanos)))
  {
    hide InitKey, InitBtcUtxo, ExecuteRegister, EndGame, UpdateRuneInfo, NewBlock, RollbackTx;
    ClaimFrame(tr.world, caller, nanos);
    var after := Next(tr, MClaim(caller, nanos));
    assert Full(after) == Full(tr);
    assert tr.world.gamers == map[] ==> after.world.gamers.Keys == {};
  }

  lemma {:induction false} LedgerUpdateRuneInfo(tr: Trace, utxo: Utxo)
    requires LedgerInv(tr)
    ensures LedgerInv(Next(tr, MUpdateRuneInfo(utxo)))
  {
    hide InitKey, InitBtcUtxo, ExecuteRegister, Claim, EndGame, NewBlock, RollbackTx;
    var w := tr.world;
    var after := Next(tr, MUpdateRuneInfo(utxo));
    if after.world != w {
      var full := Full(tr);
      BalancedRunes(full, tr.past.inits, w.game.registerFee, w.gamers.Keys, utxo.maybeRune.value.value);
      assert Full(after) == full[..|full| - 1] + [full[|full| - 1].(runeBalance := utxo.maybeRune.value.value)];
    }
  }

  lemma {:induction false} LedgerNewBlock(tr: Trace, b: Block)
    requires LedgerInv(tr)
    ensures LedgerInv(Next(tr, MNewBlock(b)))
    ensures Full(Next(tr, MNewBlock(b))) == Full(tr)
  {
    hide InitKey, InitBtcUtxo, ExecuteRegister, Claim, EndGame, UpdateRuneInfo, RollbackTx, NewBlock, NextLog, Balanced;
    NewBlockFrame(tr.world, b);
    assert Full(Next(tr, MNewBlock(b))) == Full(tr);
  }

  lemma {:induction false} LedgerRollback(tr: Trace, txid: Txid)
    requires LedgerInv(tr)
    ensures LedgerInv(Next(tr, MRollback(txid)))
  {
    hide InitKey, InitBtcUtxo, ExecuteRegister, Claim, EndGame, UpdateRuneInfo, NewBlock, RollbackTx;
    hide Restored, Undoable, Members, SumCookies, Roster;
    var w := tr.world;
    var after := Next(tr, MRollback(txid));
    if after.world != w {
      RollbackEffect(w, txid);
      var p, full := Position(w.states, txid), Full(tr);
      var k := |tr.past.archive| + p;
      assert full[k] == w.states[p] && full[k..] == w.states[p..];
      BalancedCut(full, tr.past.inits, w.game.registerFee, w.gamers.Keys, k);
      assert forall i | 0 <= i < |w.states| - p :: full[k..][i] == full[k + i];
      RestoredIsRemoval(w.gamers, w.states[p..]);
      assert Full(after) == full[..k];
    }
  }

  lemma {:induction false} LedgerStep(tr: Trace, m: Message)
    requires LedgerInv(tr)
    ensures LedgerInv(Next(tr, m))
  {
    hide NewBlock, RollbackTx, ExecuteRegister, UpdateRuneInfo, Balanced;
    match m
    case MInitBtcUtxo(utxo) => LedgerInitBtc(tr, utxo);
    case MRegister(call) => LedgerRegister(tr, call);
    case MClaim(caller, nanos) => LedgerClaim(tr, caller, nanos);
    case MUpdateRuneInfo(utxo) => LedgerUpdateRuneInfo(tr, utxo);
    case MNewBlock(b) => LedgerNewBlock(tr, b);
    case MRollback(txid) => LedgerRollback(tr, txid);
    case MInitKey(_) => assert Full(Next(tr, m)) == Full(tr);
    case MEndGame => assert Full(Next(tr, m)) == Full(tr);
  }

  lemma {:induction false} LedgerRun(tr: Trace, ms: seq<Message>)
    requires LedgerInv(tr)
    ensures LedgerInv(Run(tr, ms))
    decreases |ms|
  {
    if ms != [] {
      LedgerStep(tr, ms[0]);
      LedgerRun(Next(tr, ms[0]), ms[1..]);
    }
  }

  lemma {:induction false} LedgerReachable(registerFee: uint64, coolingDown: uint64, perClaim: uint128,
                                           ms: seq<Message>)
    ensures LedgerInv(Run(Start(registerFee, coolingDown, perClaim), ms))
  {
    LedgerRun(Start(registerFee, coolingDown, perClaim), ms);
  }

  lemma {:induction false} SettingsStay(w: World, m: Message)
    ensures var game := Process(w, m).game;
            game == w.game.(isEnd := game.isEnd, claimed := game.claimed)
  {
    hide AcceptBlock, Admit, RollbackEach, PrepareRegister, CommitRegister;
    match m
    case MNewBlock(b) => NewBlockFrame(w, b);
    case MRollback(txid) =>
      if RollbackTx(w, txid).world != w {
        RollbackEffect(w, txid);
      }
    case MClaim(caller, nanos) => ClaimFrame(w, caller, nanos);
    case MRegister(call) => RegisterFrame(w, call);
    case _ =>
  }

  lemma {:induction false} FeeNeverChanges(tr: Trace, ms: seq<Message>)
    ensures Run(tr, ms).world.game.registerFee == tr.world.game.registerFee
    ensures Run(tr, ms).world.game.perClaim == tr.world.game.perClaim
    ensures Run(tr, ms).world.game.coolingDown == tr.world.game.coolingDown
    decreases |ms|
  {
    hide Process, Remember;
    if ms != [] {
      SettingsStay(tr.world, ms[0]);
      FeeNeverChanges(Next(tr, ms[0]), ms[1..]);
    }
  }

  lemma FeesFit(sats: uint64, seed: nat, fee: uint64, count: nat)
    requires sats == seed + fee * count && count < U64_MOD
    ensures WrapMul64(fee, count % U64_MOD) == fee * count <= sats
  {
  }

  /** After any run from the start, the nonce counts the gamers and the satoshis are the seed plus one fee per
      gamer; so the liquidity query's product is exact and never exceeds what the pool holds. */
  lemma {:induction false} Conservation(registerFee: uint64, coolingDown: uint64, perClaim: uint128, ms: seq<Message>)
    ensures var tr := Run(Start(registerFee, coolingDown, perClaim), ms);
            var w := tr.world;
            w.states != [] ==>
              var last := w.states[|w.states| - 1];
              && last.nonce == |w.gamers|
              && last.utxo.sats == Seed(Full(tr), tr.past.inits) + registerFee * |w.gamers|
              && QueryAddLiquidityInfo(w).btc == registerFee * |w.gamers| <= last.utxo.sats
  {
    hide Next, Roster, LifeCycle;
    var start := Start(registerFee, coolingDown, perClaim);
    var tr := Run(start, ms);
    LedgerReachable(registerFee, coolingDown, perClaim, ms);
    FeeNeverChanges(start, ms);
    var w := tr.world;
    if w.states != [] {
      LastBalance(Full(tr), tr.past.inits, registerFee);
      RosterMeaning(Full(tr), tr.past.inits, w.gamers.Keys);
      FeesFit(Full(tr)[|Full(tr)| - 1].utxo.sats, Seed(Full(tr), tr.past.inits), registerFee, |w.gamers|);
    }
  }

  /** The shape of the chain after any run, from its first state to its last: every registration is of a gamer;
      it follows a state, held or finalized away, to which it adds one nonce and one fee; so a chain that starts
      with a registration has been finalized to there. Initial states come first and no address is registered
      twice, finalized states included. */
  lemma {:induction false} ChainShape(registerFee: uint64, coolingDown: uint64, perClaim: uint128, ms: seq<Message>,
                                      j: nat)
    requires j < |Run(Start(registerFee, coolingDown, perClaim), ms).world.states|
    ensures var tr := Run(Start(registerFee, coolingDown, perClaim), ms);
            var states, full, n := tr.world.states, Full(tr), |tr.past.archive| + j;
            && (states[j].userAction.Register? ==>
                  && states[j].userAction.address in tr.world.gamers
                  && n > 0
                  && states[j].nonce == full[n - 1].nonce + 1
                  && states[j].utxo.sats == full[n - 1].utxo.sats + registerFee
                  && forall i | 0 <= i < n :: full[i].userAction != states[j].userAction)
            && (states[j].userAction.Init? ==> forall i | 0 <= i < n :: full[i].userAction.Init?)
            && (states[0].userAction.Register? ==> tr.past.archive != [])
  {
    hide Next, LifeCycle;
    LedgerReachable(registerFee, coolingDown, perClaim, ms);
    FeeNeverChanges(Start(registerFee, coolingDown, perClaim), ms);
    var tr := Run(Start(registerFee, coolingDown, perClaim), ms);
    assert Full(tr)[|tr.past.archive|] == tr.world.states[0];
    ShapeOfFull(tr, |tr.past.archive| + j);
  }

  lemma {:induction false} ShapeOfFull(tr: Trace, n: nat)
    requires LedgerInv(tr) && n < |Full(tr)|
    ensures var full := Full(tr);
            && (full[n].userAction.Register? ==>
                  && full[n].userAction.address in tr.world.gamers
                  && n > 0
                  && full[n].nonce == full[n - 1].nonce + 1
                  && full[n].utxo.sats == full[n - 1].utxo.sats + tr.world.game.registerFee
                  && forall i | 0 <= i < n :: full[i].userAction != full[n].userAction)
            && (full[n].userAction.Init? ==> forall i | 0 <= i < n :: full[i].userAction.Init?)
  {
    hide LifeCycle, Roster;
    var full, inits := Full(tr), tr.past.inits;
    if inits <= n {
      RosterHas(full, inits, tr.world.gamers.Keys, n);
      forall i | inits <= i < n
        ensures full[i].userAction != full[n].userAction
      {
        RosterDistinct(full, inits, tr.world.gamers.Keys, i, n);
      }
      if n == inits {
        LastBalance(full[..n], inits, tr.world.game.registerFee);
      }
    }
  }
}
