/** A registration validates, awaits, and commits without validating again: when that is harmless. */
module Stability {
  import opened Types
  import opened GameRules
  import opened PoolChain
  import opened Messages
  import opened History
  import opened Ledger
  import opened Cookies
  import opened Finality
  import opened Mint
  import opened Inverse

  /** What validation reads. */
  ghost predicate SameForValidation(before: World, after: World) {
    && before.address == after.address
    && before.game.registerFee == after.game.registerFee
    && before.gamers.Keys == after.gamers.Keys
    && LastState(before.states) == LastState(after.states)
  }

  lemma {:induction false} SameValidation(before: World, after: World, call: RegisterCall)
    requires SameForValidation(before, after)
    ensures PrepareRegister(before, call) == PrepareRegister(after, call)
  {
  }

  /** The messages that never touch what validation reads, in a state where validation can succeed. */
  predicate Harmless(m: Message) {
    !m.MRegister? && !m.MRollback? && !m.MUpdateRuneInfo?
  }

  lemma {:induction false} HarmlessStep(tr: Trace, m: Message)
    requires LedgerInv(tr) && tr.world.address.Some? && tr.world.states != []
    requires Harmless(m)
    ensures SameForValidation(tr.world, Process(tr.world, m))
  {
    hide AcceptBlock, Admit, Balanced;
    match m
    case MNewBlock(b) => NewBlockFrame(tr.world, b);
    case MClaim(caller, nanos) => ClaimFrame(tr.world, caller, nanos);
    case _ =>
  }

  ghost predicate HarmlessRun(ms: seq<Message>) {
    forall i | 0 <= i < |ms| :: Harmless(ms[i])
  }

  lemma {:induction false} HarmlessMessages(tr: Trace, ms: seq<Message>)
    requires LedgerInv(tr) && tr.world.address.Some? && tr.world.states != []
    requires HarmlessRun(ms)
    ensures SameForValidation(tr.world, Run(tr, ms).world)
    decreases |ms|
  {
    if ms != [] {
      hide Process, LedgerInv, Remember;
      HarmlessStep(tr, ms[0]);
      LedgerStep(tr, ms[0]);
      HarmlessMessages(Next(tr, ms[0]), ms[1..]);
    }
  }

  /** The message after the last await of a registration that was validated earlier. */
  function CommitLater(w: World, call: RegisterCall, validated: PoolState): World {
    if call.signed && call.principal.Some? then CommitRegister(w, call, call.principal.value, validated) else w
  }

  /** If only claims, blocks, the end of the game and repeated initialization come between, a successful
      validation still gives the same new state and consumed output, and committing the earlier result is the
      same as registering in one step. */
  lemma {:induction false} ValidationIsStable(tr: Trace, ms: seq<Message>, call: RegisterCall)
    requires LedgerInv(tr) && HarmlessRun(ms)
    requires PrepareRegister(tr.world, call).Ok?
    ensures var now := Run(tr, ms).world;
            && PrepareRegister(now, call) == PrepareRegister(tr.world, call)
            && CommitLater(now, call, PrepareRegister(tr.world, call).value.0) == ExecuteRegister(now, call).world
  {
    hide Process, LedgerInv, Next, SameForValidation;
    PreparedState(tr.world, call);
    HarmlessMessages(tr, ms);
    SameValidation(tr.world, Run(tr, ms).world, call);
  }

  // ----- with a mint in between -----

  /** Nothing registers or is rolled back. */
  predicate Quiet(m: Message) {
    !m.MRegister? && !m.MRollback?
  }

  ghost predicate QuietRun(ms: seq<Message>) {
    forall i | 0 <= i < |ms| :: Quiet(ms[i])
  }

  /** What validation reads, up to the runes of the last state, which it copies. */
  ghost predicate SameButRunes(before: World, after: World) {
    && before.address == after.address
    && before.game.registerFee == after.game.registerFee
    && before.gamers.Keys == after.gamers.Keys
    && before.states != [] && after.states != []
    && var last := before.states[|before.states| - 1];
    && after.states[|after.states| - 1].(runeBalance := 0) == last.(runeBalance := 0)
  }

  lemma {:induction false} ValidatedButRunes(before: World, after: World, call: RegisterCall)
    requires SameButRunes(before, after) && PrepareRegister(before, call).Ok?
    ensures var (s, consumed) := PrepareRegister(before, call).value;
            var runes := after.states[|after.states| - 1].runeBalance;
            PrepareRegister(after, call) == Ok((s.(runeBalance := runes), consumed))
  {
    var last, now := before.states[|before.states| - 1], after.states[|after.states| - 1];
    assert now == last.(runeBalance := now.runeBalance);
  }

  lemma {:induction false} QuietStep(tr: Trace, m: Message)
    requires LedgerInv(tr) && tr.world.address.Some? && tr.world.states != [] && Quiet(m)
    ensures SameButRunes(tr.world, Process(tr.world, m))
  {
    hide LedgerInv, NewBlock;
    if Harmless(m) {
      HarmlessStep(tr, m);
    }
  }

  lemma {:induction false} QuietMessages(tr: Trace, ms: seq<Message>)
    requires LedgerInv(tr) && tr.world.address.Some? && tr.world.states != [] && QuietRun(ms)
    ensures SameButRunes(tr.world, Run(tr, ms).world)
    decreases |ms|
  {
    if ms != [] {
      hide Process, LedgerInv, Remember;
      QuietStep(tr, ms[0]);
      LedgerStep(tr, ms[0]);
      QuietMessages(Next(tr, ms[0]), ms[1..]);
    }
  }

  /** Whether the mint is among the messages, and where it is remembered. */
  lemma {:induction false} QuietMint(tr: Trace, ms: seq<Message>)
    requires LedgerInv(tr) && MintInv(tr) && QuietRun(ms)
    ensures LedgerInv(Run(tr, ms)) && MintInv(Run(tr, ms))
    ensures var now := Run(tr, ms);
            if tr.world.status.RunesMinted? then
              now.world.status.RunesMinted? && now.world.game == tr.world.game && now.past.mint == tr.past.mint
            else now.past.mint.Some? <==> now.world.status.RunesMinted?
    decreases |ms|
  {
    if ms != [] {
      hide Process, LedgerInv, MintInv, Remember;
      LedgerStep(tr, ms[0]);
      MintStep(tr, ms[0]);
      QuietMintStep(tr, ms[0]);
      QuietMint(Next(tr, ms[0]), ms[1..]);
    } else {
      MintNeedsStatus(tr);
    }
  }

  lemma {:induction false} MintNeedsStatus(tr: Trace)
    requires MintInv(tr)
    ensures tr.past.mint.Some? ==> tr.world.status.RunesMinted?
  {
  }

  lemma {:induction false} QuietMintStep(tr: Trace, m: Message)
    requires LedgerInv(tr) && MintInv(tr) && Quiet(m)
    ensures var next := Next(tr, m);
            if tr.world.status.RunesMinted? then
              next.world.status.RunesMinted? && next.world.game == tr.world.game && next.past.mint == tr.past.mint
            else next.past.mint.Some? <==> next.world.status.RunesMinted?
  {
    hide NewBlock, LedgerInv;
    MintNeedsStatus(tr);
    if tr.world.status.RunesMinted? {
      MintStays(tr, m);
      FullStep(tr, m);
      MintPlaced(tr);
    } else {
      match m
      case MNewBlock(b) => NewBlockFrame(tr.world, b);
      case MClaim(caller, nanos) => ClaimFrame(tr.world, caller, nanos);
      case _ =>
    }
  }

  lemma {:induction false} MintPlaced(tr: Trace)
    requires MintInv(tr)
    ensures tr.past.mint.Some? ==> tr.past.mint.value < |Full(tr)|
  {
  }

  /** The runes of the last state. */
  lemma {:induction false} LastRunes(tr: Trace)
    requires MintInv(tr) && tr.world.states != []
    ensures tr.world.states[|tr.world.states| - 1].runeBalance
         == if tr.past.mint.Some? then Premine(tr.world.game.claimed) else 0
  {
    hide Premine;
    assert Full(tr)[|Full(tr)| - 1] == tr.world.states[|tr.world.states| - 1];
  }

  /** Let any messages but registrations and rollbacks come between a validation and its commit. Committing the
      earlier result is the same as registering in one step now, exactly if the runes of the last state are what
      they were: exactly if no premine other than zero was recorded in between. */
  lemma {:induction false} LateCommitExact(tr: Trace, ms: seq<Message>, call: RegisterCall)
    requires LedgerInv(tr) && MintInv(tr) && QuietRun(ms)
    requires PrepareRegister(tr.world, call).Ok? && call.signed && call.principal.Some?
    ensures var w, now, s := tr.world, Run(tr, ms).world, PrepareRegister(tr.world, call).value.0;
            var same := CommitLater(now, call, s) == ExecuteRegister(now, call).world;
            && w.states != [] && now.states != []
            && (same <==> now.states[|now.states| - 1].runeBalance == w.states[|w.states| - 1].runeBalance)
            && (same <==> (!w.status.RunesMinted? && now.status.RunesMinted? ==> Premine(now.game.claimed) == 0))
  {
    hide Process, LedgerInv, MintInv, Next, Premine;
    PreparedState(tr.world, call);
    QuietMessages(tr, ms);
    QuietMint(tr, ms);
    var w, now := tr.world, Run(tr, ms).world;
    var s := PrepareRegister(w, call).value.0;
    ValidatedButRunes(w, now, call);
    CommitsAlike(now, call, s, s.(runeBalance := now.states[|now.states| - 1].runeBalance));
    LastRunes(tr);
    LastRunes(Run(tr, ms));
    MintNeedsStatus(tr);
  }

  lemma {:induction false} CommitsAlike(w: World, call: RegisterCall, s: PoolState, t: PoolState)
    requires call.principal.Some?
    ensures CommitRegister(w, call, call.principal.value, s) == CommitRegister(w, call, call.principal.value, t)
            <==> s == t
  {
    if s != t {
      assert (w.states + [s])[|w.states|] != (w.states + [t])[|w.states|];
    }
  }

  /** A commit across the mint leaves a last state without runes, which breaks the record of the premine unless
      that is zero. */
  lemma {:induction false} MintDuringRegistration(tr: Trace, ms: seq<Message>, call: RegisterCall)
    requires LedgerInv(tr) && MintInv(tr) && QuietRun(ms)
    requires PrepareRegister(tr.world, call).Ok? && call.signed && call.principal.Some?
    requires !tr.world.status.RunesMinted? && Run(tr, ms).world.status.RunesMinted?
    ensures var now := Run(tr, ms);
            var after := Trace(CommitLater(now.world, call, PrepareRegister(tr.world, call).value.0), now.past);
            && after.world.states[|after.world.states| - 1].runeBalance == 0
            && (MintInv(after) <==> Premine(now.world.game.claimed) == 0)
  {
    hide LedgerInv, Premine, Next, PrepareRegister;
    PreparedState(tr.world, call);
    QuietMint(tr, ms);
    LastRunes(tr);
    MintNeedsStatus(tr);
    var now, s := Run(tr, ms), PrepareRegister(tr.world, call).value.0;
    var after := Trace(CommitLater(now.world, call, s), now.past);
    assert Full(after) == Full(now) + [s];
    AppendedRune(now, after, s);
  }

  lemma {:induction false} AppendedRune(minted: Trace, after: Trace, s: PoolState)
    requires minted.past.mint.Some? && MintInv(minted) && s.runeBalance == 0
    requires after.past == minted.past && Full(after) == Full(minted) + [s]
    requires after.world.status == minted.world.status && after.world.game == minted.world.game
    ensures MintInv(after) <==> Premine(minted.world.game.claimed) == 0
  {
    hide Premine, Full;
    assert Full(after)[|Full(minted)|] == s;
  }

  /** All that holds of every reachable state. */
  lemma {:induction false} Reachable(registerFee: uint64, coolingDown: uint64, perClaim: uint128, ms: seq<Message>)
    ensures var tr := Run(Start(registerFee, coolingDown, perClaim), ms);
            LedgerInv(tr) && CookieInv(tr) && MintInv(tr) && RecordInv(tr.world)
  {
    hide Next, LedgerInv, CookieInv, MintInv;
    var start := Start(registerFee, coolingDown, perClaim);
    StartHolds(registerFee, coolingDown, perClaim);
    MintReachable(registerFee, coolingDown, perClaim, ms);
    LedgerRun(start, ms);
    CookieRun(start, ms);
    RecordRun(start, ms);
  }

  lemma {:induction false} RecordRun(tr: Trace, ms: seq<Message>)
    requires RecordInv(tr.world)
    ensures RecordInv(Run(tr, ms).world)
    decreases |ms|
  {
    hide Process, RecordInv, Remember;
    if ms != [] {
      RecordStep(tr.world, ms[0]);
      RecordRun(Next(tr, ms[0]), ms[1..]);
    }
  }
}
