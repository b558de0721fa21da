/** The chain of pool states (src/state.rs) as functions on values. */
module PoolChain {
  import opened Types
  import opened GameRules

  datatype UserAction = Init | Register(address: Address) | Withdraw(address: Address)

  datatype PoolState = PoolState(
    id: Option<Txid>,
    nonce: uint64,
    utxo: Utxo,
    runeUtxo: Option<Utxo>,
    runeBalance: uint128,
    userAction: UserAction)

  datatype GameStatus =
    | Initialize(initKey: bool, initBtc: bool)
    | Play
    | Ended
    | RunesMinted
    | LiquidityAdded
    | Withdrawable
  {
    // Each transition is None where the source panics.

    function FinishInitKey(): Option<GameStatus> {
      if !Initialize? then None
      else if initBtc then Some(Play)
      else Some(Initialize(true, false))
    }

    function FinishInitBtc(): Option<GameStatus> {
      if !Initialize? then None
      else if initKey then Some(Play)
      else Some(Initialize(false, true))
    }

    function End(): Option<GameStatus> {
      if Play? then Some(Ended) else None
    }

    function RuneMinted(): Option<GameStatus> {
      if Ended? then Some(RunesMinted) else None
    }
  }

  function LastState(states: seq<PoolState>): Result<PoolState> {
    if states == [] then Err(LastStateNotFound) else Ok(states[|states| - 1])
  }

  /** The index of the first state that `txid` produced, or the length when there is none. */
  function Position(states: seq<PoolState>, txid: Txid): (p: nat)
    ensures p <= |states|
    ensures p < |states| ==> states[p].id == Some(txid)
    ensures forall i | 0 <= i < p :: states[i].id != Some(txid)
  {
    if states == [] then 0
    else if states[0].id == Some(txid) then 0
    else 1 + Position(states[1..], txid)
  }

  // ----- registering -----

  datatype Intention = Intention(
    poolAddress: Address,
    nonce: uint64,
    poolUtxoSpend: seq<string>,
    poolUtxoReceive: seq<string>,
    inputCoins: seq<InputCoin>,
    outputCoins: seq<OutputCoin>)

  /** A registration's new pool state and the pool output it consumes. `parsed` is the outpoint that
      parsing the last received output yields, if it parses. */
  function ValidateRegister(registered: set<Address>, fee: uint64, states: seq<PoolState>, txid: Txid,
                            initiator: Address, intent: Intention, parsed: Option<string>)
    : Result<(PoolState, Utxo)>
  {
    if initiator in registered then Err(GamerAlreadyExist(initiator))
    else if !(|intent.inputCoins| == 1 && intent.outputCoins == []
              && intent.inputCoins[0].coin == CoinBalance(BTC, fee)) then
      Err(InvalidSignPsbtArgs(CoinsMismatch))
    else match LastState(states)
      case Err(e) => Err(e)
      case Trap => Trap
      case Ok(last) =>
        if last.nonce != intent.nonce then Err(PoolStateExpired(last.nonce))
        else if intent.poolUtxoSpend == [] then Err(InvalidSignPsbtArgs(SpendEmpty))
        else if last.utxo.outpoint != intent.poolUtxoSpend[|intent.poolUtxoSpend| - 1] then
          Err(InvalidSignPsbtArgs(SpendMismatch))
        else if intent.poolUtxoReceive == [] then Err(InvalidSignPsbtArgs(ReceiveMissing))
        else match CheckedAdd64(last.utxo.sats, fee)
          case None => Err(Overflow)
          case Some(sats) =>
            if parsed.None? then Err(InvalidSignPsbtArgs(BadOutpoint))
            else match CheckedAdd64(last.nonce, 1)
              case None => Err(Overflow)
              case Some(nonce) =>
                Ok((PoolState(Some(txid), nonce, Utxo(parsed.value, None, sats), last.runeUtxo,
                              last.runeBalance, Register(initiator)),
                    last.utxo))
  }

  // ----- finalizing -----

  function RotateLeft<T>(s: seq<T>, k: nat): seq<T>
    requires k <= |s|
  {
    s[k..] + s[..k]
  }

  function Truncate<T>(s: seq<T>, len: nat): seq<T> {
    if len < |s| then s[..len] else s
  }

  /** Finalizing a transaction drops every state before the one it produced. */
  function FinalizeChain(states: seq<PoolState>, txid: Txid): Result<seq<PoolState>> {
    var p := Position(states, txid);
    if p == |states| then Err(InvalidState("txid not found")) else Ok(states[p..])
  }

  /** Finalizes a list of transactions in order; the first failure is an unwrap on an error. */
  function FinalizeAll(states: seq<PoolState>, txids: seq<Txid>): Result<seq<PoolState>>
    decreases |txids|
  {
    if txids == [] then Ok(states)
    else match FinalizeChain(states, txids[0])
      case Err(_) => Trap
      case Trap => Trap
      case Ok(rest) => FinalizeAll(rest, txids[1..])
  }

  ghost predicate DistinctIds(states: seq<PoolState>) {
    forall i, j | 0 <= i < j < |states| && states[i].id.Some? :: states[i].id != states[j].id
  }

  /** The listed transactions all have a state in the chain, in the chain's own order. */
  ghost predicate FollowsChain(states: seq<PoolState>, txids: seq<Txid>) {
    && (forall i | 0 <= i < |txids| :: Position(states, txids[i]) < |states|)
    && (forall i, j | 0 <= i < j < |txids| :: Position(states, txids[i]) <= Position(states, txids[j]))
  }

  lemma {:induction false} PositionUnique(states: seq<PoolState>, txid: Txid, i: nat)
    requires DistinctIds(states) && i < |states| && states[i].id == Some(txid)
    ensures Position(states, txid) == i
  {
    var p := Position(states, txid);
    assert p <= i && states[p].id == Some(txid);
  }

  /** Where a transaction is found once a prefix is gone. */
  lemma {:induction false} PositionInSuffix(states: seq<PoolState>, txid: Txid, k: nat)
    requires DistinctIds(states) && k <= |states|
    ensures DistinctIds(states[k..])
    ensures Position(states[k..], txid) < |states[k..]|
            <==> k <= Position(states, txid) < |states|
    ensures k <= Position(states, txid) ==> Position(states[k..], txid) == Position(states, txid) - k
  {
    hide Position;
    var suffix := states[k..];
    var q, p := Position(suffix, txid), Position(states, txid);
    if q < |suffix| {
      assert suffix[q] == states[k + q];
      PositionUnique(states, txid, k + q);
    }
    if k <= p < |states| {
      assert suffix[p - k] == states[p];
      PositionUnique(suffix, txid, p - k);
    }
  }

  /** Positions in a list's own order, before and after the first of them is finalized. */
  lemma {:induction false} FollowsTail(states: seq<PoolState>, txids: seq<Txid>)
    requires DistinctIds(states) && txids != []
    requires Position(states, txids[0]) < |states|
    ensures FollowsChain(states, txids) <==> FollowsChain(states[Position(states, txids[0])..], txids[1..])
  {
    var p := Position(states, txids[0]);
    var rest, tail := states[p..], txids[1..];
    forall i | 0 <= i < |tail|
      ensures tail[i] == txids[i + 1]
      ensures Position(rest, tail[i]) < |rest| <==> p <= Position(states, tail[i]) < |states|
      ensures p <= Position(states, tail[i]) ==> Position(rest, tail[i]) == Position(states, tail[i]) - p
    {
      PositionInSuffix(states, tail[i], p);
    }
    if FollowsChain(rest, tail) {
      forall i, j | 0 <= i < j < |txids|
        ensures Position(states, txids[i]) <= Position(states, txids[j]) < |states|
      {
        assert txids[j] == tail[j - 1];
        if i > 0 {
          assert txids[i] == tail[i - 1];
        }
      }
    }
    if FollowsChain(states, txids) {
      forall i | 0 <= i < |tail|
        ensures Position(rest, tail[i]) < |rest|
      {
        assert Position(states, txids[0]) <= Position(states, txids[i + 1]);
      }
      forall i, j | 0 <= i < j < |tail|
        ensures Position(rest, tail[i]) <= Position(rest, tail[j])
      {
        assert Position(states, txids[i + 1]) <= Position(states, txids[j + 1]);
      }
    }
  }

  lemma {:induction false} FollowsFirst(states: seq<PoolState>, txids: seq<Txid>)
    requires FollowsChain(states, txids) && txids != []
    ensures Position(states, txids[0]) <= Position(states, txids[|txids| - 1]) < |states|
  {
  }

  lemma {:induction false} FinalizeAllStep(states: seq<PoolState>, txids: seq<Txid>)
    requires txids != []
    ensures var p := Position(states, txids[0]);
            FinalizeAll(states, txids) == if p < |states| then FinalizeAll(states[p..], txids[1..]) else Trap
  {
    hide Position;
  }

  lemma {:induction false} FollowsNone(states: seq<PoolState>)
    ensures FollowsChain(states, []) && FinalizeAll(states, []) == Ok(states)
  {
  }

  lemma {:induction false} FollowsUntilMissing(states: seq<PoolState>, txids: seq<Txid>)
    requires txids != [] && FollowsChain(states, txids)
    ensures Position(states, txids[0]) < |states|
  {
    hide Position;
  }

  /** The sweep succeeds exactly when the list follows the chain, and then it equals one drop:
      what stays is the suffix from the last listed transaction on. */
  lemma {:induction false} SweepIsOneDrop(states: seq<PoolState>, txids: seq<Txid>)
    requires DistinctIds(states)
    ensures !FinalizeAll(states, txids).Err?
    ensures FinalizeAll(states, txids).Ok? <==> FollowsChain(states, txids)
    ensures FinalizeAll(states, txids).Ok? ==>
              FinalizeAll(states, txids).value
              == if txids == [] then states else states[Position(states, txids[|txids| - 1])..]
    decreases |txids|
  {
    hide FinalizeAll, Position, DistinctIds, FollowsChain;
    if txids == [] {
      FollowsNone(states);
    } else {
      var p, tail := Position(states, txids[0]), txids[1..];
      FinalizeAllStep(states, txids);
      if p < |states| {
        PositionInSuffix(states, txids[0], p);
        FollowsTail(states, txids);
        SweepIsOneDrop(states[p..], tail);
        if tail != [] && FollowsChain(states, txids) {
          FollowsFirst(states, txids);
          SuffixOfSuffix(states, txids[|txids| - 1], p);
        }
      } else if FollowsChain(states, txids) {
        FollowsUntilMissing(states, txids);
      }
    }
  }

  lemma {:induction false} SuffixOfSuffix(states: seq<PoolState>, t: Txid, p: nat)
    requires DistinctIds(states) && p <= Position(states, t) < |states|
    ensures Position(states[p..], t) <= |states[p..]|
    ensures states[p..][Position(states[p..], t)..] == states[Position(states, t)..]
  {
    hide DistinctIds, Position;
    PositionInSuffix(states, t, p);
  }

  /** A successful sweep leaves a non-empty suffix, whatever the ids are. */
  lemma {:induction false} SweepLeavesSuffix(states: seq<PoolState>, txids: seq<Txid>)
    requires FinalizeAll(states, txids).Ok?
    ensures var left := FinalizeAll(states, txids).value;
            && |left| <= |states|
            && left == states[|states| - |left|..]
            && (states != [] ==> left != [])
            && (txids != [] ==> left != [] && left[0].id == Some(txids[|txids| - 1]))
    decreases |txids|
  {
    if txids != [] {
      var p := Position(states, txids[0]);
      var rest, left := states[p..], FinalizeAll(states, txids).value;
      assert left == FinalizeAll(rest, txids[1..]).value;
      hide FinalizeAll, Position;
      SweepLeavesSuffix(rest, txids[1..]);
      assert rest[|rest| - |left|..] == states[|states| - |left|..];
    }
  }

  /** Finalizing goes to the first state that the transaction produced, and fails exactly if there is none. */
  lemma {:induction false} FinalizeGoesToFirst(states: seq<PoolState>, txid: Txid)
    ensures forall p | 0 <= p < |states| && states[p].id == Some(txid)
                       && (forall i | 0 <= i < p :: states[i].id != Some(txid)) ::
              FinalizeChain(states, txid) == Ok(states[p..])
    ensures (forall i | 0 <= i < |states| :: states[i].id != Some(txid)) <==>
              FinalizeChain(states, txid) == Err(InvalidState("txid not found"))
  {
    hide Position;
    var q := Position(states, txid);
    forall p | 0 <= p < |states| && states[p].id == Some(txid)
               && (forall i | 0 <= i < p :: states[i].id != Some(txid))
      ensures p == q
    {
      assert q <= p;
    }
  }

  /** Finalizing keeps the last state and never empties the chain; finalizing again changes
      nothing; and finalizing an earlier transaction first makes no difference. */
  lemma {:induction false} FinalizeLaws(states: seq<PoolState>, t1: Txid, t2: Txid)
    requires DistinctIds(states)
    requires Position(states, t1) <= Position(states, t2) < |states|
    ensures var left := FinalizeChain(states, t1);
            && left.Ok? && left.value != []
            && LastState(left.value) == LastState(states)
            && FinalizeChain(left.value, t1) == left
            && FinalizeChain(left.value, t2) == FinalizeChain(states, t2)
  {
    hide DistinctIds, Position;
    var p, q := Position(states, t1), Position(states, t2);
    PositionInSuffix(states, t1, p);
    PositionInSuffix(states, t2, p);
    assert states[p..][0..] == states[p..];
    assert states[p..][q - p..] == states[q..];
  }

  /** In-place rotation and truncation by the position found is the suffix drop. */
  lemma RotateTruncateIsDrop<T>(s: seq<T>, k: nat)
    requires k <= |s|
    ensures Truncate(RotateLeft(s, k), |s| - k) == s[k..]
  {
  }

  // ----- rolling back -----

  datatype UnwindResult = UnwindResult(states: seq<PoolState>, gamers: Gamers, reply: Result<()>)

  /** Pops states until `keep` are left, undoing each popped action. */
  function Unwind(states: seq<PoolState>, gamers: Gamers, keep: nat): UnwindResult
    decreases |states|
  {
    if |states| <= keep then UnwindResult(states, gamers, Ok(()))
    else
      var rest := states[..|states| - 1];
      match states[|states| - 1].userAction
      case Init => UnwindResult(rest, gamers, Err(InvalidState("Should not rollback init action")))
      case Register(a) => Unwind(rest, gamers - {a}, keep)
      case Withdraw(a) =>
        if a in gamers then Unwind(rest, gamers[a := gamers[a].(isWithdrawn := false)], keep)
        else UnwindResult(rest, gamers, Trap)
  }

  function RollbackChain(states: seq<PoolState>, gamers: Gamers, txid: Txid): UnwindResult {
    var p := Position(states, txid);
    if p == |states| then UnwindResult(states, gamers, Err(InvalidState("txid not found")))
    else if p == 0 then UnwindResult(states, gamers, Err(InvalidState("Should not rollback index 0 state")))
    else Unwind(states, gamers, p)
  }

  /** The addresses registered by a run of states. */
  function Members(states: seq<PoolState>): set<Address> {
    set i | 0 <= i < |states| && states[i].userAction.Register? :: states[i].userAction.address
  }

  /** The addresses that withdrew in a run of states. */
  function Withdrawers(states: seq<PoolState>): set<Address> {
    set i | 0 <= i < |states| && states[i].userAction.Withdraw? :: states[i].userAction.address
  }

  /** A run of states that can be undone: no initial state, and whoever withdrew is a gamer that the
      states after the withdrawal did not register. */
  ghost predicate Undoable(suffix: seq<PoolState>, gamers: Gamers) {
    forall i | 0 <= i < |suffix| ::
      && !suffix[i].userAction.Init?
      && (suffix[i].userAction.Withdraw? ==>
            && suffix[i].userAction.address in gamers
            && suffix[i].userAction.address !in Members(suffix[i..]))
  }

  /** The gamers once a run of states is undone: the registered ones are gone, those that withdrew
      are marked as not withdrawn, all others are as they were. */
  function Restored(gamers: Gamers, suffix: seq<PoolState>): Gamers {
    map a | a in gamers && a !in Members(suffix) ::
      if a in Withdrawers(suffix) then gamers[a].(isWithdrawn := false) else gamers[a]
  }

  lemma {:induction false} SplitLast(states: seq<PoolState>)
    requires states != []
    ensures var n := |states| - 1; var last := states[n].userAction;
            && Members(states) == Members(states[..n]) + (if last.Register? then {last.address} else {})
            && Withdrawers(states) == Withdrawers(states[..n]) + (if last.Withdraw? then {last.address} else {})
  {
    var n := |states| - 1;
    assert forall i | 0 <= i < n :: states[..n][i] == states[i];
    assert states == states[..n] + [states[n]];
  }

  /** Dropping the last state of an undoable run, after undoing it, leaves an undoable run. */
  lemma {:induction false} UndoableStep(suffix: seq<PoolState>, gamers: Gamers, undone: Gamers)
    requires suffix != []
    requires var last := suffix[|suffix| - 1].userAction;
             undone.Keys == if last.Register? then gamers.Keys - {last.address} else gamers.Keys
    ensures var n := |suffix| - 1; var last := suffix[n].userAction;
            Undoable(suffix, gamers)
            <==> !last.Init? && (last.Withdraw? ==> last.address in gamers) && Undoable(suffix[..n], undone)
  {
    var n := |suffix| - 1;
    var front, last := suffix[..n], suffix[n].userAction;
    forall i | 0 <= i < n
      ensures front[i] == suffix[i]
      ensures Members(suffix[i..]) == Members(front[i..]) + (if last.Register? then {last.address} else {})
    {
      SplitLast(suffix[i..]);
      assert suffix[i..][..n - i] == front[i..];
    }
    assert Members(suffix[n..]) == (if last.Register? then {last.address} else {}) by {
      SplitLast(suffix[n..]);
    }
  }

  /** The gamers once the last action of a run is undone. */
  function UndoneLast(suffix: seq<PoolState>, gamers: Gamers): Gamers
    requires suffix != []
  {
    match suffix[|suffix| - 1].userAction
    case Init => gamers
    case Register(a) => gamers - {a}
    case Withdraw(a) => if a in gamers then gamers[a := gamers[a].(isWithdrawn := false)] else gamers
  }

  lemma {:induction false} RestoredStep(suffix: seq<PoolState>, gamers: Gamers)
    requires suffix != [] && Undoable(suffix, gamers)
    ensures Restored(gamers, suffix) == Restored(UndoneLast(suffix, gamers), suffix[..|suffix| - 1])
  {
    var n := |suffix| - 1;
    var last := suffix[n].userAction;
    SplitLast(suffix);
    assert suffix[n..] == [suffix[n]];
    if last.Withdraw? && last.address in Members(suffix[..n]) {
      RegisteredFirst(suffix, gamers);
    }
  }

  /** A gamer that withdraws last may have been registered in the same run: it is gone either way. */
  lemma {:induction false} RegisteredFirst(suffix: seq<PoolState>, gamers: Gamers)
    requires suffix != [] && suffix[|suffix| - 1].userAction.Withdraw?
    requires suffix[|suffix| - 1].userAction.address in Members(suffix[..|suffix| - 1])
    ensures suffix[|suffix| - 1].userAction.address !in Restored(gamers, suffix)
  {
    SplitLast(suffix);
  }

  /** Unwinding succeeds exactly on an undoable run; it then restores the kept prefix and the gamers
      in one stroke, and otherwise the message traps. */
  lemma {:induction false} UnwindClosedForm(states: seq<PoolState>, gamers: Gamers, keep: nat)
    requires keep <= |states|
    ensures var r := Unwind(states, gamers, keep);
            && (r.reply.Ok? <==> Undoable(states[keep..], gamers))
            && (r.reply.Ok? ==> r.states == states[..keep] && r.gamers == Restored(gamers, states[keep..]))
    decreases |states|
  {
    var suffix := states[keep..];
    if |states| == keep {
      assert Restored(gamers, suffix) == gamers;
    } else {
      hide Restored, Undoable, Members, Withdrawers;
      var n := |states| - 1;
      var rest, last := states[..n], states[n].userAction;
      assert rest[keep..] == suffix[..|suffix| - 1] && suffix[|suffix| - 1] == states[n];
      assert rest[..keep] == states[..keep];
      var undone := UndoneLast(suffix, gamers);
      assert undone.Keys == if last.Register? then gamers.Keys - {last.address} else gamers.Keys;
      UndoableStep(suffix, gamers, undone);
      UnwindClosedForm(rest, undone, keep);
      if Undoable(suffix, gamers) {
        RestoredStep(suffix, gamers);
      }
    }
  }

  /** Undoing a withdrawal gives back the gamers it found. */
  lemma {:induction false} WithdrawalUndone(states: seq<PoolState>, s: PoolState, gamers: Gamers)
    requires s.userAction.Withdraw? && s.userAction.address in gamers
    requires !gamers[s.userAction.address].isWithdrawn
    ensures var a := s.userAction.address;
            var r := Unwind(states + [s], gamers[a := gamers[a].(isWithdrawn := true)], |states|);
            r.reply.Ok? && r.states == states && r.gamers == gamers
  {
    var a := s.userAction.address;
    assert (states + [s])[..|states|] == states;
    assert Unwind(states, gamers, |states|).reply.Ok?;
    assert gamers[a := gamers[a].(isWithdrawn := true)][a := gamers[a]] == gamers;
  }

  /** A chain with withdrawals, of which a prefix may be finalized away: initial states first, nobody registered
      twice, everybody registered before withdrawing, and the gamers are those registered. */
  ghost predicate WellFormed(full: seq<PoolState>, inits: nat, gamers: Gamers) {
    && inits <= |full|
    && (forall i | 0 <= i < |full| :: full[i].userAction.Init? <==> i < inits)
    && (forall i, j | 0 <= i < j < |full| && full[i].userAction.Register? :: full[i].userAction != full[j].userAction)
    && (forall j | 0 <= j < |full| && full[j].userAction.Withdraw? ::
          exists i :: 0 <= i < j && full[i].userAction == Register(full[j].userAction.address))
    && gamers.Keys == Members(full)
  }

  lemma {:induction false} WellFormedUndoable(full: seq<PoolState>, inits: nat, gamers: Gamers, keep: nat)
    requires WellFormed(full, inits, gamers) && inits <= keep <= |full|
    ensures Undoable(full[keep..], gamers)
  {
    var suffix := full[keep..];
    forall j | 0 <= j < |suffix| && suffix[j].userAction.Withdraw?
      ensures suffix[j].userAction.address in gamers && suffix[j].userAction.address !in Members(suffix[j..])
    {
      var a := full[keep + j].userAction.address;
      var i :| 0 <= i < keep + j && full[i].userAction == Register(a);
      assert full[i].userAction.address in Members(full);
      forall l | 0 <= l < |suffix[j..]|
        ensures suffix[j..][l].userAction != Register(a)
      {
        assert suffix[j..][l] == full[keep + j + l];
      }
    }
  }

  /** Unwinding a well-formed chain never misses a gamer and never pops an initial state. It leaves a well-formed
      chain; the gamers registered in the popped states are gone, those who withdrew in them are marked as not
      withdrawn, and all others are as they were. */
  lemma {:induction false} WellFormedUnwinds(full: seq<PoolState>, inits: nat, gamers: Gamers, dropped: nat, keep: nat)
    requires WellFormed(full, inits, gamers)
    requires inits <= keep <= |full| && dropped <= keep
    ensures var r := Unwind(full[dropped..], gamers, keep - dropped);
            && r.reply.Ok? && r.states == full[dropped..keep]
            && WellFormed(full[..keep], inits, r.gamers)
            && forall a | a in r.gamers ::
                 a in gamers
                 && r.gamers[a] == if a in Withdrawers(full[keep..]) then gamers[a].(isWithdrawn := false)
                                   else gamers[a]
  {
    WellFormedUndoable(full, inits, gamers, keep);
    UnwindClosedForm(full[dropped..], gamers, keep - dropped);
    assert full[dropped..][keep - dropped..] == full[keep..];
    forall a
      ensures a in Members(full[..keep]) <==> a in Members(full) && a !in Members(full[keep..])
    {
      MembersApart(full, keep, a);
    }
    forall j | 0 <= j < keep && full[j].userAction.Withdraw?
      ensures exists i :: 0 <= i < j && full[..keep][i].userAction == Register(full[j].userAction.address)
    {
      var i :| 0 <= i < j && full[i].userAction == Register(full[j].userAction.address);
      assert full[..keep][i] == full[i];
    }
  }

  lemma {:induction false} MembersApart(full: seq<PoolState>, keep: nat, a: Address)
    requires keep <= |full|
    requires forall i, j | 0 <= i < j < |full| && full[i].userAction.Register? ::
               full[i].userAction != full[j].userAction
    ensures a in Members(full[..keep]) <==> a in Members(full) && a !in Members(full[keep..])
  {
    var below, above := full[..keep], full[keep..];
    if a in Members(below) {
      var i :| 0 <= i < keep && below[i].userAction == Register(a);
      assert full[i].userAction.address in Members(full);
      forall j | 0 <= j < |above|
        ensures above[j].userAction != Register(a)
      {
        assert above[j] == full[keep + j];
      }
    }
    if a in Members(full) {
      var i :| 0 <= i < |full| && full[i].userAction == Register(a);
      if i < keep {
        assert below[i].userAction.address in Members(below);
      } else {
        assert above[i - keep].userAction.address in Members(above);
      }
    }
  }
}
