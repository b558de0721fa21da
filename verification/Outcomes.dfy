/** The outcome of every message in every reachable state: when it succeeds, what it then changes, and how it
    is refused otherwise. */
module Outcomes {
  import opened Types
  import opened GameRules
  import opened PoolChain
  import opened BlockWindow
  import opened Messages
  import opened History
  import opened Ledger
  import opened Cookies
  import opened Refinement
  import opened Inverse

  // ----- setting up -----

  /** Initialization is over exactly when there is an address and a state, in whichever order they came. */
  lemma {:induction false} StartedExactly(tr: Trace)
    requires LedgerInv(tr)
    ensures tr.world.status.Initialize? <==> tr.world.address.None? || tr.world.states == []
    ensures tr.world.status.Play? <==> tr.world.address.Some? && tr.world.states != [] && !tr.world.game.isEnd
  {
  }

  /** Asking for the address never traps. It is set by the first successful fetch and never again, and the game
      starts with it if the pool is seeded already. */
  lemma {:induction false} InitKeyOutcome(tr: Trace, fetched: Option<(string, Address)>)
    requires LedgerInv(tr)
    ensures var w, d := tr.world, InitKey(tr.world, fetched);
            if w.address.Some? then d == Delivery(w, Ok(w.address.value))
            else if fetched.None? then d == Delivery(w, Err(ChainKeyError))
            else d == Delivery(w.(key := Some(fetched.value.0), address := Some(fetched.value.1),
                                  status := if w.states != [] then Play else Initialize(true, false)),
                               Ok(fetched.value.1))
  {
    hide Balanced;
    StartedExactly(tr);
  }

  /** The pool can be seeded until there is an address and a state; each seed goes on top, and the game starts
      with it if the address is set already. */
  lemma {:induction false} InitBtcOutcome(tr: Trace, utxo: Utxo)
    requires LedgerInv(tr)
    ensures var w, d := tr.world, InitBtcUtxo(tr.world, utxo);
            if w.address.None? || w.states == [] then
              d == Delivery(w.(states := w.states + [PoolState(None, 0, utxo, None, 0, Init)],
                               status := if w.address.Some? then Play else Initialize(false, true)),
                            Ok(()))
            else d == Delivery(w, Trap)
  {
    hide Balanced;
    StartedExactly(tr);
  }

  // ----- registering -----

  /** A test that a registration has to pass, and the error that it gets if this is the first one it fails. */
  datatype Check = Check(holds: bool, error: Error)

  /** The tests of a registration, in order. */
  function Checks(w: World, call: RegisterCall): seq<Check> {
    var intent := call.intention;
    [ Check(call.psbtDecodes, Text("invalid psbt")),
      Check(w.address.Some?, Text("Exchange address not init")),
      Check(w.address == Some(intent.poolAddress), Text("address not match")),
      Check(call.initiator !in w.gamers, GamerAlreadyExist(call.initiator)),
      Check(|intent.inputCoins| == 1 && intent.inputCoins[0].coin == CoinBalance(BTC, w.game.registerFee)
            && intent.outputCoins == [], InvalidSignPsbtArgs(CoinsMismatch)),
      Check(w.states != [], LastStateNotFound)]
    + if w.states == [] then [] else ChecksOnLast(w.states[|w.states| - 1], w.game.registerFee, call)
  }

  function ChecksOnLast(last: PoolState, fee: uint64, call: RegisterCall): seq<Check> {
    var spend, receive := call.intention.poolUtxoSpend, call.intention.poolUtxoReceive;
    [ Check(call.intention.nonce == last.nonce, PoolStateExpired(last.nonce)),
      Check(spend != [], InvalidSignPsbtArgs(SpendEmpty)),
      Check(spend != [] && spend[|spend| - 1] == last.utxo.outpoint, InvalidSignPsbtArgs(SpendMismatch)),
      Check(receive != [], InvalidSignPsbtArgs(ReceiveMissing)),
      Check(last.utxo.sats + fee < U64_MOD, Overflow),
      Check(call.parsed.Some?, InvalidSignPsbtArgs(BadOutpoint)),
      Check(last.nonce + 1 < U64_MOD, Overflow),
      Check(call.signed, Text("sign failed")),
      Check(call.principal.Some?, Text("get_principal failed"))]
  }

  ghost predicate AllHold(checks: seq<Check>) {
    forall k | 0 <= k < |checks| :: checks[k].holds
  }

  /** The error belongs to the first test that fails. */
  ghost predicate FirstFailure(checks: seq<Check>, e: Error) {
    exists k :: 0 <= k < |checks| && !checks[k].holds && checks[k].error == e
                && forall j | 0 <= j < k :: checks[j].holds
  }

  /** What an accepted registration leaves: a new gamer without cookies, a state on top of the last one, a link
      from its principal while all other links stay, and a record of its transaction in the pool. */
  function Joined(w: World, call: RegisterCall): World
    requires w.states != [] && call.parsed.Some? && call.principal.Some? && w.address.Some?
    requires w.states[|w.states| - 1].utxo.sats + w.game.registerFee < U64_MOD
    requires w.states[|w.states| - 1].nonce + 1 < U64_MOD
  {
    var last := w.states[|w.states| - 1];
    var output := Utxo(call.parsed.value, None, last.utxo.sats + w.game.registerFee);
    w.(gamers := w.gamers[call.initiator := Gamer(call.initiator, 0, 0, false)],
       states := w.states + [PoolState(Some(call.txid), last.nonce + 1, output, last.runeUtxo, last.runeBalance,
                                       Register(call.initiator))],
       principals := w.principals[call.principal.value := call.initiator],
       records := w.records.(pending := w.records.pending[call.txid := TxRecord([w.address.value])]))
  }

  /** A registration that passes all tests joins, whatever was recorded of its transaction before; any other is
      refused with the error of the first test that it fails, and changes nothing. */
  lemma {:induction false} RegisterOutcome(w: World, call: RegisterCall)
    requires RecordInv(w)
    ensures var checks, d := Checks(w, call), ExecuteRegister(w, call);
            if AllHold(checks) then
              && w.states != [] && call.parsed.Some? && call.principal.Some? && w.address.Some?
              && w.states[|w.states| - 1].utxo.sats + w.game.registerFee < U64_MOD
              && w.states[|w.states| - 1].nonce + 1 < U64_MOD
              && d == Delivery(Joined(w, call), Ok(()))
            else d.world == w && d.reply.Err? && FirstFailure(checks, d.reply.error)
  {
    var checks := Checks(w, call);
    if AllHold(checks) {
      hide ExecuteRegister, Joined;
      AllChecksHold(w, call);
    } else {
      hide ExecuteRegister;
      var k := FirstOf(checks);
      FailedCheck(w, call, k);
    }
  }

  lemma {:induction false} FirstOf(checks: seq<Check>) returns (k: nat)
    requires !AllHold(checks)
    ensures k < |checks| && !checks[k].holds && forall j | 0 <= j < k :: checks[j].holds
  {
    k := 0;
    while checks[k].holds
      invariant k < |checks| && forall j | 0 <= j < k :: checks[j].holds
      decreases |checks| - k
    {
      k := k + 1;
    }
  }

  /** The tests one by one. */
  lemma {:induction false} CheckList(w: World, call: RegisterCall)
    ensures var checks, intent := Checks(w, call), call.intention;
            && |checks| == (if w.states == [] then 6 else 15)
            && checks[0] == Check(call.psbtDecodes, Text("invalid psbt"))
            && checks[1] == Check(w.address.Some?, Text("Exchange address not init"))
            && checks[2] == Check(w.address == Some(intent.poolAddress), Text("address not match"))
            && checks[3] == Check(call.initiator !in w.gamers, GamerAlreadyExist(call.initiator))
            && checks[4] == Check(|intent.inputCoins| == 1 && intent.outputCoins == []
                                  && intent.inputCoins[0].coin == CoinBalance(BTC, w.game.registerFee),
                                  InvalidSignPsbtArgs(CoinsMismatch))
            && checks[5] == Check(w.states != [], LastStateNotFound)
            && (w.states != [] ==>
                  forall k | 6 <= k < 15 ::
                    checks[k] == ChecksOnLast(w.states[|w.states| - 1], w.game.registerFee, call)[k - 6])
  {
  }

  lemma {:induction false} AllChecksHold(w: World, call: RegisterCall)
    requires RecordInv(w) && AllHold(Checks(w, call))
    ensures w.states != [] && call.parsed.Some? && call.principal.Some? && w.address.Some?
    ensures w.states[|w.states| - 1].utxo.sats + w.game.registerFee < U64_MOD
    ensures w.states[|w.states| - 1].nonce + 1 < U64_MOD
    ensures ExecuteRegister(w, call) == Delivery(Joined(w, call), Ok(()))
  {
    hide Checks, ExecuteRegister, Joined;
    var checks := Checks(w, call);
    CheckList(w, call);
    assert checks[0].holds && checks[1].holds && checks[2].holds && checks[3].holds && checks[4].holds;
    assert checks[5].holds;
    var last := ChecksOnLast(w.states[|w.states| - 1], w.game.registerFee, call);
    assert forall k | 0 <= k < 9 :: checks[k + 6] == last[k];
    assert last[0].holds && last[1].holds && last[2].holds && last[3].holds && last[4].holds;
    assert last[5].holds && last[6].holds && last[7].holds && last[8].holds;
    JoinsAfterChecks(w, call);
  }

  lemma {:induction false} JoinsAfterChecks(w: World, call: RegisterCall)
    requires RecordInv(w) && w.states != [] && call.parsed.Some? && call.principal.Some? && call.signed
    requires var last, intent := w.states[|w.states| - 1], call.intention;
             && call.psbtDecodes && w.address == Some(intent.poolAddress) && call.initiator !in w.gamers
             && |intent.inputCoins| == 1 && intent.outputCoins == []
             && intent.inputCoins[0].coin == CoinBalance(BTC, w.game.registerFee)
             && intent.nonce == last.nonce && last.nonce + 1 < U64_MOD && last.utxo.sats + w.game.registerFee < U64_MOD
             && intent.poolUtxoSpend != [] && intent.poolUtxoReceive != []
             && intent.poolUtxoSpend[|intent.poolUtxoSpend| - 1] == last.utxo.outpoint
    ensures ExecuteRegister(w, call) == Delivery(Joined(w, call), Ok(()))
  {
    var pools := if call.txid in w.records.pending then w.records.pending[call.txid].pools else [];
    assert AddPool(TxRecord(pools), w.address.value) == TxRecord([w.address.value]);
  }

  lemma {:induction false} FailedCheck(w: World, call: RegisterCall, k: nat)
    requires var checks := Checks(w, call);
             k < |checks| && !checks[k].holds && forall j | 0 <= j < k :: checks[j].holds
    ensures ExecuteRegister(w, call) == Delivery(w, Err(Checks(w, call)[k].error))
  {
    hide Checks;
    var checks := Checks(w, call);
    CheckList(w, call);
    if k < 6 {
      EarlyRefusal(w, call, k);
    } else {
      var last := ChecksOnLast(w.states[|w.states| - 1], w.game.registerFee, call);
      assert forall j | 0 <= j < 9 :: checks[j + 6] == last[j];
      LateRefusal(w, call, k - 6);
    }
  }

  lemma {:induction false} EarlyRefusal(w: World, call: RegisterCall, k: nat)
    requires var checks := Checks(w, call);
             k < 6 && !checks[k].holds && forall j | 0 <= j < k :: checks[j].holds
    ensures ExecuteRegister(w, call) == Delivery(w, Err(Checks(w, call)[k].error))
  {
    hide Checks, ChecksOnLast;
    var checks := Checks(w, call);
    CheckList(w, call);
    assert k > 0 ==> checks[0].holds;
    assert k > 1 ==> checks[1].holds;
    assert k > 2 ==> checks[2].holds;
    assert k > 3 ==> checks[3].holds;
    assert k > 4 ==> checks[4].holds;
  }

  lemma {:induction false} LateRefusal(w: World, call: RegisterCall, k: nat)
    requires w.states != [] && k < 9
    requires var last := ChecksOnLast(w.states[|w.states| - 1], w.game.registerFee, call);
             && !last[k].holds && (forall j | 0 <= j < k :: last[j].holds)
    requires var checks := Checks(w, call); forall j | 0 <= j < 6 :: checks[j].holds
    ensures ExecuteRegister(w, call)
         == Delivery(w, Err(ChecksOnLast(w.states[|w.states| - 1], w.game.registerFee, call)[k].error))
  {
    hide Checks;
    var checks, last := Checks(w, call), ChecksOnLast(w.states[|w.states| - 1], w.game.registerFee, call);
    CheckList(w, call);
    assert checks[0].holds && checks[1].holds && checks[2].holds && checks[3].holds && checks[4].holds;
    assert k > 0 ==> last[0].holds;
    assert k > 1 ==> last[1].holds;
    assert k > 2 ==> last[2].holds;
    assert k > 3 ==> last[3].holds;
    assert k > 4 ==> last[4].holds;
    assert k > 5 ==> last[5].holds;
    assert k > 6 ==> last[6].holds;
    assert k > 7 ==> last[7].holds;
  }

  // ----- playing -----

  /** In a reachable state the cooldown sum of a gamer fits the word. */
  lemma {:induction false} CooldownFits(tr: Trace, a: Address)
    requires CookieInv(tr) && a in tr.world.gamers
    ensures tr.world.gamers[a].lastClickTime + tr.world.game.coolingDown < U64_MOD
  {
    var g, w := tr.world.gamers[a], tr.world;
    var n: nat :| Earned(g, w.game.coolingDown, w.game.perClaim, n);
    if n > 0 {
      assert n * (w.game.coolingDown + 1) == (n - 1) * (w.game.coolingDown + 1) + w.game.coolingDown + 1;
    }
  }

  /** A claim succeeds exactly if its caller is linked to a gamer, the game has not ended, more than the cooldown
      has passed since the gamer's last claim, and the total does not overflow. It then adds the claim amount to
      the gamer and the total, and changes nothing else. Every refusal changes nothing at all. */
  lemma {:induction false} ClaimOutcome(tr: Trace, caller: Principal, nanos: uint64)
    requires CookieInv(tr)
    ensures var w, d, now := tr.world, Claim(tr.world, caller, nanos), nanos / 1_000_000_000;
            if caller !in w.principals then d == Delivery(w, Err(GamerNotFound(caller)))
            else
              var a := w.principals[caller];
              if w.game.isEnd then d == Delivery(w, Err(GameEnd))
              else if a !in w.gamers then d == Delivery(w, Err(GamerNotFound(a)))
              else
                var g, ready := w.gamers[a], w.gamers[a].lastClickTime + w.game.coolingDown;
                if now <= ready then ready < U64_MOD && d == Delivery(w, Err(GamerCoolingDown(a, ready)))
                else if w.game.claimed + w.game.perClaim >= U128_MOD then d == Delivery(w, Err(Overflow))
                else
                  && g.cookies + w.game.perClaim < U128_MOD
                  && d == Delivery(w.(game := w.game.(claimed := w.game.claimed + w.game.perClaim),
                                      gamers := w.gamers[a := Gamer(g.address, g.cookies + w.game.perClaim, now,
                                                                    g.isWithdrawn)]),
                                   Ok(g.cookies + w.game.perClaim))
  {
    hide CookieInv;
    var w := tr.world;
    if caller in w.principals && w.principals[caller] in w.gamers {
      CooldownFits(tr, w.principals[caller]);
      HeldWithinTotal(tr, w.principals[caller]);
    }
  }

  lemma {:induction false} HeldWithinTotal(tr: Trace, a: Address)
    requires CookieInv(tr) && a in tr.world.gamers
    ensures tr.world.gamers[a].cookies <= tr.world.game.claimed
  {
    hide SumCookies;
    SumBounds(tr.world.gamers, a);
  }

  /** The game can be ended exactly while it is played, with or without gamers. */
  lemma {:induction false} EndGameOutcome(tr: Trace)
    requires LedgerInv(tr)
    ensures var w, d := tr.world, EndGame(tr.world);
            if w.address.Some? && w.states != [] && !w.game.isEnd then
              d == Delivery(w.(game := w.game.(isEnd := true), status := Ended), Ok(()))
            else d == Delivery(w, Trap)
  {
    hide Balanced;
    StartedExactly(tr);
  }

  /** A mint is recorded exactly if it brings runes, the game has ended and nothing was recorded yet, and the runes
      are the premine; there always is a state then. It sets the rune and the runes of the last state, and the
      status that forbids another. */
  lemma {:induction false} MintOutcome(tr: Trace, utxo: Utxo)
    requires LedgerInv(tr)
    ensures var w, d, n := tr.world, UpdateRuneInfo(tr.world, utxo), |tr.world.states| - 1;
            if utxo.maybeRune.Some? && w.status == Ended && utxo.maybeRune.value.value == Premine(w.game.claimed) then
              && w.states != []
              && d == Delivery(w.(runeId := Some(utxo.maybeRune.value.id), status := RunesMinted,
                                  states := w.states[n := w.states[n].(runeBalance := Premine(w.game.claimed))]),
                               Ok(()))
            else d == Delivery(w, Trap)
  {
    hide Balanced, Premine;
  }

  /** What is left for liquidity, wrapped when the premine has overflowed below the total. */
  lemma {:induction false} LiquidityExact(w: World)
    ensures var runes := QueryAddLiquidityInfo(w).runes;
            runes == Premine(w.game.claimed) - w.game.claimed
                     + if Premine(w.game.claimed) < w.game.claimed then U128_MOD else 0
  {
    hide Premine, WrapMul64;
  }

  // ----- blocks and rollbacks -----

  /** A tracked transaction is rolled back exactly if its state is in the chain and not the first one. Its state
      and all later ones go, and with them their gamers; nothing else changes. Without an address the message is
      refused, and in all other cases it traps. */
  lemma {:induction false} RollbackOutcome(tr: Trace, t: Txid)
    requires LedgerInv(tr) && RecordInv(tr.world)
    ensures var w, d, p := tr.world, RollbackTx(tr.world, t), Position(tr.world.states, t);
            if w.address.None? then d == Delivery(w, Err(Text("pool address not init")))
            else if (t in w.records.pending || t in w.records.confirmed) && 0 < p < |w.states| then
              d == Delivery(w.(states := w.states[..p], gamers := w.gamers - Members(w.states[p..])), Ok(()))
            else d == Delivery(w, Trap)
  {
    var w, p := tr.world, Position(tr.world.states, t);
    if w.address.Some? && (t in w.records.pending || t in w.records.confirmed) {
      hide RollbackTx, Unwind, LedgerInv, RecordInv, Members, Restored, Undoable, Position;
      TrackedRollback(w, t);
      if 0 < p < |w.states| {
        var k := |tr.past.archive| + p;
        assert Full(tr)[k] == w.states[p] && Full(tr)[k..] == w.states[p..];
        RegistersAbove(tr, k);
        RestoredIsRemoval(w.gamers, w.states[p..]);
        UnwindClosedForm(w.states, w.gamers, p);
      }
    }
  }

  /** A block fits the chain of blocks if it starts it, extends its tip, or is at one of the last 64 heights of the
      chain and in the window. */
  predicate Fits(log: ChainLog, height: uint32) {
    || log.canon == []
    || height == log.Tip() + 1
    || (log.Tip() - 64 < height <= log.Tip() && Held(log, height))
  }

  /** A block that does not fit is refused without effect: as unrecoverable if it is too far from the tip, as not
      found if its height has left the window. A block that fits is admitted; without an address it is stored and
      the message refused, otherwise it is answered Ok or traps without effect. */
  lemma {:induction false} BlockReply(tr: Trace, b: Block)
    requires BlockInv(tr)
    ensures var w, log, d := tr.world, tr.past.log, NewBlock(tr.world, b);
            if !Fits(log, b.height) then
              d == Delivery(w, Err(if b.height > log.Tip() + 1 || b.height <= log.Tip() - 64
                                   then Text("Unrecoverable reorg detected") else BlockNotFound(b.height)))
            else
              && Admit(w, b).Ok?
              && (w.address.None? ==> d.reply == Err(Text("pool address not init")) && b.height in d.world.blocks
                                      && d.world.blocks[b.height] == b)
              && (w.address.Some? ==> d.reply == Ok(()) || d == Delivery(w, Trap))
  {
    hide Window, Txids, Unconfirm, CutAt, DetectReorg, RevertBlocks, Confirm, DeepTxids, FinalizeAll, Prune;
    DetectMatches(tr.past.log, b);
    AdmittedStores(tr, b);
    if Admit(tr.world, b).Ok? {
      AdmitFrame(tr.world, b);
    }
    SweepNeverErrs(tr.world, b);
  }

  lemma {:induction false} SweepNeverErrs(w: World, b: Block)
    ensures Admit(w, b).Ok? && w.address.Some? ==> NewBlock(w, b).reply == Ok(()) || NewBlock(w, b) == Delivery(w, Trap)
  {
    hide DetectReorg, RevertBlocks, Confirm, DeepTxids, FinalizeAll, Prune;
    if Admit(w, b).Ok? {
      AdmitFrame(w, b);
    }
  }

  // ----- records -----

  /** Every record lists the pool, and every confirmed one is also kept as unconfirmed. */
  ghost predicate Remembered(w: World) {
    RecordInv(w) && w.records.confirmed.Keys <= w.records.pending.Keys
  }

  /** A block that is stored forgets no record. The tracked transactions confirmed then are those it lists, and those
      confirmed before that no block it replaces lists. */
  lemma {:induction false} RecordsAfterBlock(tr: Trace, b: Block)
    requires BlockInv(tr) && Remembered(tr.world) && Admit(tr.world, b).Ok? && !NewBlock(tr.world, b).reply.Trap?
    ensures var w, log, records := tr.world, tr.past.log, NewBlock(tr.world, b).world.records;
            var reverted := if Classify(log, b).Recoverable? then Txids(log.canon[b.height - log.base..]) else {};
            && records.pending == w.records.pending
            && (forall t :: t in records.confirmed <==>
                  t in w.records.pending && (t in b.txids || (t in w.records.confirmed && t !in reverted)))
            && forall t | t in records.confirmed :: records.confirmed[t] == w.records.pending[t]
  {
    hide NewBlock, Admit, Window, Txids, CutAt;
    AdmittedStores(tr, b);
    NewBlockStores(tr.world, b);
    var before, reverted := tr.world.records, if Classify(tr.past.log, b).Recoverable?
                            then Txids(tr.past.log.canon[b.height - tr.past.log.base..]) else {};
    UnconfirmNone(before);
    UnconfirmForgetsNothing(tr.world, reverted);
    var records := Confirm(Unconfirm(before, reverted), AsSet(b.txids));
    assert NewBlock(tr.world, b).world.records == records;
    assert records.pending == before.pending;
  }

  lemma {:induction false} UnconfirmForgetsNothing(w: World, reverted: set<Txid>)
    requires Remembered(w)
    ensures Unconfirm(w.records, reverted).pending == w.records.pending
  {
    forall t | t in w.records.confirmed
      ensures t in w.records.pending && w.records.confirmed[t] == w.records.pending[t]
    {
    }
  }

  lemma {:induction false} RememberedBlock(w: World, b: Block)
    requires Remembered(w)
    ensures Remembered(NewBlock(w, b).world)
  {
    hide NewBlock, Admit, RecordInv;
    RecordsNewBlock(w, b);
    NewBlockStores(w, b);
    if Admit(w, b).Ok? {
      AdmittedRemembered(w, b);
    }
  }

  lemma {:induction false} AdmittedRemembered(w: World, b: Block)
    requires Remembered(w) && Admit(w, b).Ok?
    ensures var records := Admit(w, b).value.records; records.confirmed.Keys <= records.pending.Keys
  {
    hide DetectReorg, WithoutRange, RangeTxids, RecordInv;
  }

  lemma {:induction false} RememberedStep(w: World, m: Message)
    requires Remembered(w)
    ensures Remembered(Process(w, m))
  {
    hide Process, RecordInv;
    RecordStep(w, m);
    if m.MNewBlock? {
      RememberedBlock(w, m.block);
      ProcessBlock(w, m.block);
    } else {
      RecordsStay(w, m);
    }
  }

  lemma {:induction false} ProcessBlock(w: World, b: Block)
    ensures Process(w, MNewBlock(b)) == NewBlock(w, b).world
  {
    hide NewBlock;
  }

  lemma {:induction false} RememberedRun(tr: Trace, ms: seq<Message>)
    requires Remembered(tr.world)
    ensures Remembered(Run(tr, ms).world)
    decreases |ms|
  {
    hide Process, Remembered, Remember;
    if ms != [] {
      RememberedStep(tr.world, ms[0]);
      RememberedRun(Next(tr, ms[0]), ms[1..]);
    }
  }

  /** All that the outcomes rely on holds after any run from the start; the block part needs genuine blocks. */
  lemma {:induction false} OutcomesApply(registerFee: uint64, coolingDown: uint64, perClaim: uint128, ms: seq<Message>)
    ensures var start := Start(registerFee, coolingDown, perClaim);
            var tr := Run(start, ms);
            && LedgerInv(tr) && CookieInv(tr) && Remembered(tr.world)
            && (GenuineRun(start, ms) ==> BlockInv(tr))
  {
    hide Next, LedgerInv, CookieInv, RecordInv, BlockInv, GenuineRun;
    var start := Start(registerFee, coolingDown, perClaim);
    StartHolds(registerFee, coolingDown, perClaim);
    StartRemembers(registerFee, coolingDown, perClaim);
    LedgerRun(start, ms);
    CookieRun(start, ms);
    RememberedRun(start, ms);
    if GenuineRun(start, ms) {
      BlockInvRun(start, ms);
    }
  }

  lemma {:induction false} StartRemembers(registerFee: uint64, coolingDown: uint64, perClaim: uint128)
    ensures Remembered(Start(registerFee, coolingDown, perClaim).world)
    ensures BlockInv(Start(registerFee, coolingDown, perClaim))
  {
    assert Window(Start(registerFee, coolingDown, perClaim).past.log) == map[];
  }
}
