/** Cookies are conserved, earned no faster than the cooldown allows, and frozen after the end. */
module Cookies {
  import opened Types
  import opened GameRules
  import opened PoolChain
  import opened Messages
  import opened History
  import opened Ledger

  /** The last second a 64-bit nanosecond clock can show. */
  const LAST_SECOND := 18446744073

  /** `n` claims explain a gamer's cookies, and `n` full cooldowns fit before the last of them. */
  ghost predicate Earned(g: Gamer, coolingDown: nat, perClaim: nat, n: nat) {
    && g.cookies == n * perClaim
    && n * (coolingDown + 1) <= g.lastClickTime <= LAST_SECOND
    && (n == 0 ==> g.lastClickTime == 0)
  }

  ghost predicate Explained(g: Gamer, coolingDown: nat, perClaim: nat) {
    exists n: nat :: Earned(g, coolingDown, perClaim, n)
  }

  ghost predicate CookieInv(tr: Trace) {
    var w := tr.world;
    && w.game.claimed == SumCookies(w.gamers) + tr.past.forfeited
    && forall a | a in w.gamers :: Explained(w.gamers[a], w.game.coolingDown, w.game.perClaim)
  }

  /** The cooldown sum never wraps: a gamer who claimed before proves the cooldown small. */
  lemma {:induction false} ClaimEarns(g: Gamer, coolingDown: uint64, perClaim: uint128, nanos: uint64, n: nat)
    requires Earned(g, coolingDown, perClaim, n)
    requires Seconds(nanos) > WrapAdd64(g.lastClickTime, coolingDown)
    ensures WrapAdd64(g.lastClickTime, coolingDown) == g.lastClickTime + coolingDown
    ensures forall cookies: uint128 | cookies == g.cookies + perClaim ::
              Earned(g.(cookies := cookies, lastClickTime := Seconds(nanos)), coolingDown, perClaim, n + 1)
  {
    if n > 0 {
      assert n * (coolingDown + 1) == (n - 1) * (coolingDown + 1) + (coolingDown + 1);
    }
    assert (n + 1) * (coolingDown + 1) == n * (coolingDown + 1) + coolingDown + 1;
    assert (n + 1) * perClaim == n * perClaim + perClaim;
  }

  /** Raising the total never fails after the check on it: a gamer holds at most the total. So an error reply
      to a claim leaves every store as it was. */
  lemma {:induction false} FailedClaimChangesNothing(tr: Trace, caller: Principal, nanos: uint64)
    requires CookieInv(tr)
    ensures !Claim(tr.world, caller, nanos).reply.Ok? ==> Claim(tr.world, caller, nanos).world == tr.world
  {
    var w := tr.world;
    if caller in w.principals && w.principals[caller] in w.gamers {
      SumBounds(w.gamers, w.principals[caller]);
    }
  }

  lemma {:induction false} CookieClaim(tr: Trace, caller: Principal, nanos: uint64)
    requires CookieInv(tr)
    ensures CookieInv(Next(tr, MClaim(caller, nanos)))
  {
    hide InitKey, InitBtcUtxo, ExecuteRegister, EndGame, UpdateRuneInfo, NewBlock, RollbackTx;
    var w := tr.world;
    FailedClaimChangesNothing(tr, caller, nanos);
    if Claim(w, caller, nanos).reply.Ok? {
      var a := w.principals[caller];
      var after := Next(tr, MClaim(caller, nanos)).world;
      var n: nat :| Earned(w.gamers[a], w.game.coolingDown, w.game.perClaim, n);
      ClaimEarns(w.gamers[a], w.game.coolingDown, w.game.perClaim, nanos, n);
      assert Earned(after.gamers[a], w.game.coolingDown, w.game.perClaim, n + 1);
      SumUpdate(w.gamers, a, after.gamers[a]);
    }
  }

  lemma {:induction false} CookieRegister(tr: Trace, call: RegisterCall)
    requires CookieInv(tr)
    ensures CookieInv(Next(tr, MRegister(call)))
  {
    hide InitKey, InitBtcUtxo, Claim, EndGame, UpdateRuneInfo, NewBlock, RollbackTx, SumCookies;
    var w := tr.world;
    if ExecuteRegister(w, call).world != w {
      PreparedState(w, call);
      SumUpdate(w.gamers, call.initiator, NewGamer(call.initiator));
      assert Earned(NewGamer(call.initiator), w.game.coolingDown, w.game.perClaim, 0);
    }
  }

  lemma {:induction false} NobodyDeparts(gamers: Gamers)
    ensures SumCookies(Departed(gamers, gamers.Keys)) == 0
  {
    assert Departed(gamers, gamers.Keys) == map[];
  }

  lemma {:induction false} CookieRollback(tr: Trace, txid: Txid)
    requires CookieInv(tr) && LedgerInv(tr)
    ensures CookieInv(Next(tr, MRollback(txid)))
  {
    hide InitKey, InitBtcUtxo, ExecuteRegister, Claim, EndGame, UpdateRuneInfo, NewBlock, SumCookies;
    var w := tr.world;
    if RollbackTx(w, txid).world != w {
      RollbackEffect(w, txid);
      RolledBackGamers(tr, txid);
      SumSplit(w.gamers, Members(w.states[Position(w.states, txid)..]));
    } else {
      NobodyDeparts(w.gamers);
    }
  }

  /** In a reachable state a rollback removes gamers and changes none of the others. */
  lemma {:induction false} RolledBackGamers(tr: Trace, txid: Txid)
    requires LedgerInv(tr) && RollbackTx(tr.world, txid).world != tr.world
    ensures RollbackTx(tr.world, txid).world.gamers
         == tr.world.gamers - Members(tr.world.states[Position(tr.world.states, txid)..])
  {
    var w := tr.world;
    RollbackEffect(w, txid);
    var p, full := Position(w.states, txid), Full(tr);
    var k := |tr.past.archive| + p;
    assert full[k] == w.states[p] && full[k..] == w.states[p..];
    assert forall i | 0 <= i < |w.states| - p :: full[k..][i] == full[k + i];
    RestoredIsRemoval(w.gamers, w.states[p..]);
  }

  lemma {:induction false} CookieStep(tr: Trace, m: Message)
    requires CookieInv(tr) && LedgerInv(tr)
    ensures CookieInv(Next(tr, m))
  {
    match m
    case MRegister(call) => CookieRegister(tr, call);
    case MClaim(caller, nanos) => CookieClaim(tr, caller, nanos);
    case MRollback(txid) => CookieRollback(tr, txid);
    case MNewBlock(b) => NewBlockFrame(tr.world, b);
    case _ =>
  }

  lemma {:induction false} StartHolds(registerFee: uint64, coolingDown: uint64, perClaim: uint128)
    ensures var start := Start(registerFee, coolingDown, perClaim);
            LedgerInv(start) && CookieInv(start)
  {
  }

  lemma {:induction false} CookieRun(tr: Trace, ms: seq<Message>)
    requires CookieInv(tr) && LedgerInv(tr)
    ensures CookieInv(Run(tr, ms))
    decreases |ms|
  {
    if ms != [] {
      CookieStep(tr, ms[0]);
      LedgerStep(tr, ms[0]);
      CookieRun(Next(tr, ms[0]), ms[1..]);
    }
  }

  /** After any run from the start, the cookies ever claimed are those the gamers hold plus those that
      gamers held when they were rolled back, and a failing claim changes nothing. */
  lemma {:induction false} CookieConservation(registerFee: uint64, coolingDown: uint64, perClaim: uint128,
                                              ms: seq<Message>, caller: Principal, nanos: uint64)
    ensures var tr := Run(Start(registerFee, coolingDown, perClaim), ms);
            && tr.world.game.claimed == SumCookies(tr.world.gamers) + tr.past.forfeited
            && (!Claim(tr.world, caller, nanos).reply.Ok? ==> Claim(tr.world, caller, nanos).world == tr.world)
  {
    CookieRun(Start(registerFee, coolingDown, perClaim), ms);
    FailedClaimChangesNothing(Run(Start(registerFee, coolingDown, perClaim), ms), caller, nanos);
  }

  lemma {:induction false} EarnedRate(g: Gamer, coolingDown: nat, perClaim: nat, n: nat)
    requires Earned(g, coolingDown, perClaim, n)
    ensures g.cookies * (coolingDown + 1) <= perClaim * g.lastClickTime
  {
    var spent := n * (coolingDown + 1);
    assert n * perClaim * (coolingDown + 1) == perClaim * spent;
    assert perClaim * spent <= perClaim * g.lastClickTime;
  }

  /** After any run, every gamer holds a whole number of claims and no more of them than cooldowns have passed;
      no assumption on the cooldown is needed. */
  lemma {:induction false} RateBound(registerFee: uint64, coolingDown: uint64, perClaim: uint128,
                                     ms: seq<Message>, a: Address)
    requires a in Run(Start(registerFee, coolingDown, perClaim), ms).world.gamers
    ensures var g := Run(Start(registerFee, coolingDown, perClaim), ms).world.gamers[a];
            && g.cookies * (coolingDown + 1) <= perClaim * g.lastClickTime
            && exists n: nat :: g.cookies == n * perClaim
  {
    var start := Start(registerFee, coolingDown, perClaim);
    CookieRun(start, ms);
    FeeNeverChanges(start, ms);
    var g := Run(start, ms).world.gamers[a];
    var n: nat :| Earned(g, coolingDown, perClaim, n);
    EarnedRate(g, coolingDown, perClaim, n);
  }

  // ----- after the end -----

  /** `a` is a gamer now and after each of the messages. */
  ghost predicate Survives(tr: Trace, ms: seq<Message>, a: Address)
    decreases |ms|
  {
    a in tr.world.gamers && (ms != [] ==> Survives(Next(tr, ms[0]), ms[1..], a))
  }

  lemma {:induction false} FrozenStep(tr: Trace, m: Message)
    requires LedgerInv(tr) && tr.world.game.isEnd
    ensures var w, after := tr.world, Next(tr, m).world;
            && after.game == w.game
            && forall a | a in w.gamers && a in after.gamers :: after.gamers[a] == w.gamers[a]
  {
    match m
    case MRegister(call) =>
      if ExecuteRegister(tr.world, call).world != tr.world {
        PreparedState(tr.world, call);
      }
    case MNewBlock(b) => NewBlockFrame(tr.world, b);
    case MRollback(txid) =>
      if RollbackTx(tr.world, txid).world != tr.world {
        RollbackEffect(tr.world, txid);
        RolledBackGamers(tr, txid);
      }
    case _ =>
  }

  /** Once the game has ended, the total and every surviving gamer stay as they are, whatever follows. */
  lemma {:induction false} FrozenAfterEnd(tr: Trace, ms: seq<Message>, a: Address)
    requires LedgerInv(tr) && tr.world.game.isEnd
    ensures Run(tr, ms).world.game == tr.world.game
    ensures Survives(tr, ms, a) ==>
              a in Run(tr, ms).world.gamers && Run(tr, ms).world.gamers[a] == tr.world.gamers[a]
    decreases |ms|
  {
    if ms != [] {
      var next := Next(tr, ms[0]);
      FrozenStep(tr, ms[0]);
      LedgerStep(tr, ms[0]);
      FrozenAfterEnd(next, ms[1..], a);
      assert Survives(tr, ms, a) ==> Survives(next, ms[1..], a) && a in next.world.gamers;
    }
  }
}
