/** Where stored values come from: links from the registrations of their principals, the seed from the last
    message that set it. */
module Provenance {
  import opened Types
  import opened PoolChain
  import opened Messages
  import opened History
  import opened Ledger
  import opened Finality
  import opened Inverse
  import opened Outcomes

  // ----- links -----

  /** The address that a principal registered last in a run, if it did. */
  ghost function LastJoined(tr: Trace, ms: seq<Message>, p: Principal): Option<Address>
    decreases |ms|
  {
    if ms == [] then None
    else
      var later := LastJoined(Next(tr, ms[0]), ms[1..], p);
      if later.Some? then later
      else if ms[0].MRegister? && ms[0].call.principal == Some(p)
              && ExecuteRegister(tr.world, ms[0].call).reply.Ok? then Some(ms[0].call.initiator)
      else None
  }

  /** Only an accepted registration changes links, and only its own principal's. */
  lemma {:induction false} LinksStep(w: World, m: Message)
    requires RecordInv(w)
    ensures Process(w, m).principals
         == if m.MRegister? && ExecuteRegister(w, m.call).reply.Ok? && m.call.principal.Some?
            then w.principals[m.call.principal.value := m.call.initiator] else w.principals
    ensures m.MRegister? && ExecuteRegister(w, m.call).reply.Ok? ==> m.call.principal.Some?
  {
    hide NewBlock, RollbackTx, ExecuteRegister, RecordInv, Checks;
    match m
    case MNewBlock(b) => NewBlockFrame(w, b);
    case MRollback(txid) =>
      if RollbackTx(w, txid).world != w {
        RollbackEffect(w, txid);
      }
    case MClaim(caller, nanos) => ClaimFrame(w, caller, nanos);
    case MRegister(call) => RegisterOutcome(w, call);
    case _ =>
  }

  /** Over any run a link says what its principal registered last, or what it said before. */
  lemma {:induction false} LinksAreRegistrations(tr: Trace, ms: seq<Message>, p: Principal)
    requires RecordInv(tr.world)
    ensures var links, joined := Run(tr, ms).world.principals, LastJoined(tr, ms, p);
            && (p in links <==> joined.Some? || p in tr.world.principals)
            && (p in links ==> links[p] == if joined.Some? then joined.value else tr.world.principals[p])
    decreases |ms|
  {
    hide Process, RecordInv, Remember, ExecuteRegister;
    if ms != [] {
      LinksStep(tr.world, ms[0]);
      RecordStep(tr.world, ms[0]);
      LinksAreRegistrations(Next(tr, ms[0]), ms[1..], p);
    }
  }

  /** Every gamer is linked from some principal, so that it can claim. */
  ghost predicate AllLinked(w: World) {
    forall a | a in w.gamers :: exists p :: p in w.principals && w.principals[p] == a
  }

  /** A registration does not take the principal of another gamer. */
  predicate OwnPrincipal(w: World, m: Message) {
    m.MRegister? && m.call.principal.Some? && m.call.principal.value in w.principals ==>
      w.principals[m.call.principal.value] !in w.gamers
  }

  ghost predicate OwnPrincipals(tr: Trace, ms: seq<Message>)
    decreases |ms|
  {
    ms != [] ==> OwnPrincipal(tr.world, ms[0]) && OwnPrincipals(Next(tr, ms[0]), ms[1..])
  }

  lemma {:induction false} AllLinkedStep(tr: Trace, m: Message)
    requires LedgerInv(tr) && RecordInv(tr.world) && AllLinked(tr.world) && OwnPrincipal(tr.world, m)
    ensures AllLinked(Process(tr.world, m))
  {
    hide Process, LedgerInv, RecordInv, ExecuteRegister;
    var w, after := tr.world, Process(tr.world, m);
    LinksStep(w, m);
    GamersStep(tr, m);
    forall a | a in after.gamers
      ensures exists p :: p in after.principals && after.principals[p] == a
    {
      if a in w.gamers {
        var p :| p in w.principals && w.principals[p] == a;
        assert p in after.principals && after.principals[p] == a;
      } else {
        assert after.principals[m.call.principal.value] == a;
      }
    }
  }

  /** Only an accepted registration adds a gamer, and only its own. */
  lemma {:induction false} GamersStep(tr: Trace, m: Message)
    requires LedgerInv(tr) && RecordInv(tr.world)
    ensures forall a | a in Process(tr.world, m).gamers ::
              a in tr.world.gamers
              || (m.MRegister? && ExecuteRegister(tr.world, m.call).reply.Ok? && a == m.call.initiator)
  {
    hide NewBlock, RollbackTx, ExecuteRegister, LedgerInv, RecordInv, Checks;
    var w := tr.world;
    match m
    case MNewBlock(b) => NewBlockFrame(w, b);
    case MRollback(txid) => RollbackOutcome(tr, txid);
    case MClaim(caller, nanos) => ClaimFrame(w, caller, nanos);
    case MRegister(call) => RegisterOutcome(w, call);
    case _ =>
  }

  /** While nobody registers with the principal of another gamer, no gamer is ever locked out of claiming. */
  lemma {:induction false} NobodyLockedOut(tr: Trace, ms: seq<Message>)
    requires LedgerInv(tr) && RecordInv(tr.world) && AllLinked(tr.world) && OwnPrincipals(tr, ms)
    ensures AllLinked(Run(tr, ms).world)
    decreases |ms|
  {
    hide Process, LedgerInv, RecordInv, AllLinked, Remember, OwnPrincipal;
    if ms != [] {
      AllLinkedStep(tr, ms[0]);
      LedgerStep(tr, ms[0]);
      RecordStep(tr.world, ms[0]);
      NobodyLockedOut(Next(tr, ms[0]), ms[1..]);
    }
  }

  // ----- the seed -----

  /** The output that the last accepted seeding of a run brought, if there was one. */
  ghost function LastSeeded(tr: Trace, ms: seq<Message>): Option<Utxo>
    decreases |ms|
  {
    if ms == [] then None
    else
      var later := LastSeeded(Next(tr, ms[0]), ms[1..]);
      if later.Some? then later
      else if ms[0].MInitBtcUtxo? && InitBtcUtxo(tr.world, ms[0].utxo).reply.Ok? then Some(ms[0].utxo)
      else None
  }

  /** The output of the last initial state, held or finalized away. */
  ghost function SeedOutput(tr: Trace): Option<Utxo> {
    if 0 < tr.past.inits <= |Full(tr)| then Some(Full(tr)[tr.past.inits - 1].utxo) else None
  }

  lemma {:induction false} SeedStep(tr: Trace, m: Message)
    requires LedgerInv(tr)
    ensures SeedOutput(Next(tr, m))
         == if m.MInitBtcUtxo? && InitBtcUtxo(tr.world, m.utxo).reply.Ok? then Some(m.utxo) else SeedOutput(tr)
  {
    LedgerStep(tr, m);
    if m.MInitBtcUtxo? {
      SeededNow(tr, m.utxo);
    } else {
      hide Process, Roster, LifeCycle;
      FullStep(tr, m);
      var full, after, k := Full(tr), Full(Next(tr, m)), tr.past.inits - 1;
      assert Next(tr, m).past.inits == tr.past.inits;
      if m.MUpdateRuneInfo? && 0 <= k {
        assert after[k].(runeBalance := 0).utxo == full[k].(runeBalance := 0).utxo;
      }
    }
  }

  lemma {:induction false} SeededNow(tr: Trace, utxo: Utxo)
    requires LedgerInv(tr) && LedgerInv(Next(tr, MInitBtcUtxo(utxo)))
    ensures SeedOutput(Next(tr, MInitBtcUtxo(utxo)))
         == if InitBtcUtxo(tr.world, utxo).reply.Ok? then Some(utxo) else SeedOutput(tr)
  {
    hide InitBtcUtxo, Roster;
    InitBtcOutcome(tr, utxo);
    StartedExactly(tr);
    var next := Next(tr, MInitBtcUtxo(utxo));
    if InitBtcUtxo(tr.world, utxo).reply.Ok? {
      NoRegistrationYet(tr);
      var first := PoolState(None, 0, utxo, None, 0, Init);
      assert Full(next) == Full(tr) + [first];
    }
  }

  lemma {:induction false} NoRegistrationYet(tr: Trace)
    requires LedgerInv(tr) && tr.world.status.Initialize?
    ensures |Full(tr)| == tr.past.inits
  {
    assert tr.world.gamers.Keys == {};
  }

  lemma {:induction false} SeedRun(tr: Trace, ms: seq<Message>)
    requires LedgerInv(tr)
    ensures LedgerInv(Run(tr, ms))
    ensures SeedOutput(Run(tr, ms)) == if LastSeeded(tr, ms).Some? then LastSeeded(tr, ms) else SeedOutput(tr)
    decreases |ms|
  {
    hide Next, LedgerInv, SeedOutput, InitBtcUtxo;
    if ms != [] {
      SeedStep(tr, ms[0]);
      LedgerStep(tr, ms[0]);
      SeedRun(Next(tr, ms[0]), ms[1..]);
    }
  }

  /** After any run from the start there are states only if the pool was seeded, and the balance is the satoshis of
      the output that seeded it last plus one fee per gamer. */
  lemma {:induction false} SeedIsLastMessage(registerFee: uint64, coolingDown: uint64, perClaim: uint128,
                                             ms: seq<Message>)
    ensures var start := Start(registerFee, coolingDown, perClaim);
            var w, seeded := Run(start, ms).world, LastSeeded(start, ms);
            w.states != [] ==>
              seeded.Some? && w.states[|w.states| - 1].utxo.sats == seeded.value.sats + registerFee * |w.gamers|
  {
    hide Next, Roster, LifeCycle, Process;
    var start := Start(registerFee, coolingDown, perClaim);
    Conservation(registerFee, coolingDown, perClaim, ms);
    StartSeedless(registerFee, coolingDown, perClaim);
    SeedRun(start, ms);
  }

  lemma {:induction false} StartSeedless(registerFee: uint64, coolingDown: uint64, perClaim: uint128)
    ensures var start := Start(registerFee, coolingDown, perClaim); LedgerInv(start) && SeedOutput(start) == None
  {
  }
}
