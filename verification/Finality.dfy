/** What is finalized stays: states, gamers and confirmed records; and when finalizing succeeds. */
module Finality {
  import opened Types
  import opened PoolChain
  import opened BlockWindow
  import opened Messages
  import opened History
  import opened Ledger
  import opened Cookies
  import opened Refinement

  // ----- the committed states -----

  /** How many states are beyond rollback: those dropped by finalizing and the first one left. */
  function CommittedLength(tr: Trace): nat {
    |tr.past.archive| + if tr.world.states == [] then 0 else 1
  }

  /** The states beyond rollback. */
  function Committed(tr: Trace): seq<PoolState> {
    Full(tr)[..CommittedLength(tr)]
  }

  /** The same states in the same order, then possibly more; only rune balances may differ. */
  ghost predicate Continues(before: seq<PoolState>, after: seq<PoolState>) {
    && |before| <= |after|
    && forall i | 0 <= i < |before| ::
         after[i].(runeBalance := 0) == before[i].(runeBalance := 0)
  }

  /** How any message changes the full chain: it grows at its end, its last state is minted, or it is cut
      behind the committed states; finalizing moves only the boundary. */
  lemma {:induction false} FullStep(tr: Trace, m: Message)
    requires LedgerInv(tr)
    ensures var full, after := Full(tr), Full(Next(tr, m));
            && |tr.past.archive| <= |Next(tr, m).past.archive|
            && (m.MNewBlock? ==> after == full)
            && (!m.MNewBlock? ==> Next(tr, m).past.archive == tr.past.archive)
            && (m.MRollback? ==> CommittedLength(tr) <= |after| <= |full| && after == full[..|after|])
            && (m.MUpdateRuneInfo? ==>
                  && |after| == |full|
                  && forall i | 0 <= i < |full| ::
                       && (i < |full| - 1 ==> after[i] == full[i])
                       && after[i].(runeBalance := 0) == full[i].(runeBalance := 0))
            && (!m.MRollback? && !m.MUpdateRuneInfo? ==> full <= after)
            && (tr.world.states != [] ==> Next(tr, m).world.states != [])
  {
    hide Balanced, LifeCycle, AcceptBlock, Admit, RollbackEach, PrepareRegister;
    match m
    case MNewBlock(b) => LedgerNewBlock(tr, b); NewBlockFrame(tr.world, b);
    case MRollback(txid) => FullRollback(tr, txid);
    case MUpdateRuneInfo(utxo) => FullMint(tr, utxo);
    case MClaim(caller, nanos) => ClaimFrame(tr.world, caller, nanos);
    case _ =>
  }

  lemma {:induction false} FullRollback(tr: Trace, txid: Txid)
    ensures var full, after := Full(tr), Full(Next(tr, MRollback(txid)));
            && CommittedLength(tr) <= |after| <= |full|
            && after == full[..|after|]
            && (tr.world.states != [] ==> Next(tr, MRollback(txid)).world.states != [])
    ensures RollbackTx(tr.world, txid).world != tr.world ==>
              && 0 < Position(tr.world.states, txid) < |tr.world.states|
              && |Full(Next(tr, MRollback(txid)))| == |tr.past.archive| + Position(tr.world.states, txid)
  {
    hide RollbackTx, Restored, Undoable;
    if RollbackTx(tr.world, txid).world != tr.world {
      RollbackEffect(tr.world, txid);
    }
  }

  lemma {:induction false} FullMint(tr: Trace, utxo: Utxo)
    ensures var full, after := Full(tr), Full(Next(tr, MUpdateRuneInfo(utxo)));
            && |after| == |full|
            && (forall i | 0 <= i < |full| ::
                  && (i < |full| - 1 ==> after[i] == full[i])
                  && after[i].(runeBalance := 0) == full[i].(runeBalance := 0))
            && (tr.world.states != [] ==> Next(tr, MUpdateRuneInfo(utxo)).world.states != [])
  {
  }

  lemma {:induction false} CommittedStep(tr: Trace, m: Message)
    requires LedgerInv(tr)
    ensures Continues(Committed(tr), Committed(Next(tr, m)))
  {
    hide Next, Balanced, LifeCycle;
    FullStep(tr, m);
    LedgerStep(tr, m);
  }

  lemma {:induction false} ContinuesOn(first: seq<PoolState>, second: seq<PoolState>, third: seq<PoolState>)
    requires Continues(first, second) && Continues(second, third)
    ensures Continues(first, third)
  {
    forall i | 0 <= i < |first|
      ensures third[i].(runeBalance := 0) == first[i].(runeBalance := 0)
    {
      assert second[i].(runeBalance := 0) == first[i].(runeBalance := 0);
    }
  }

  /** A gamer registered by a committed state keeps its entry over any message, with no fewer cookies. */
  lemma {:induction false} CommittedGamerStep(tr: Trace, m: Message, a: Address)
    requires LedgerInv(tr) && a in Members(Committed(tr))
    ensures a in tr.world.gamers && a in Next(tr, m).world.gamers
    ensures Next(tr, m).world.gamers[a].cookies >= tr.world.gamers[a].cookies
    ensures a in Members(Committed(Next(tr, m)))
  {
    hide AcceptBlock, Admit, RollbackEach, PrepareRegister, Roster;
    var next := Next(tr, m);
    LedgerStep(tr, m);
    CommittedStep(tr, m);
    MembersContinue(Committed(tr), Committed(next), a);
    CommittedAreGamers(tr, a);
    CommittedAreGamers(next, a);
    match m
    case MRollback(txid) =>
      if RollbackTx(tr.world, txid).world != tr.world {
        RolledBackGamers(tr, txid);
      }
    case MNewBlock(b) => NewBlockFrame(tr.world, b);
    case MRegister(call) =>
      if ExecuteRegister(tr.world, call).world != tr.world {
        PreparedState(tr.world, call);
      }
    case _ =>
  }

  lemma {:induction false} MembersContinue(before: seq<PoolState>, after: seq<PoolState>, a: Address)
    requires Continues(before, after) && a in Members(before)
    ensures a in Members(after)
  {
    var i :| 0 <= i < |before| && before[i].userAction.Register? && before[i].userAction.address == a;
    assert after[i].(runeBalance := 0).userAction == before[i].(runeBalance := 0).userAction;
  }

  lemma {:induction false} CommittedAreGamers(tr: Trace, a: Address)
    requires LedgerInv(tr) && a in Members(Committed(tr))
    ensures a in tr.world.gamers
  {
    RosterMeaning(Full(tr), tr.past.inits, tr.world.gamers.Keys);
    var committed := Committed(tr);
    var i :| 0 <= i < |committed| && committed[i].userAction.Register? && committed[i].userAction.address == a;
    assert Full(tr)[i] == committed[i];
  }

  /** Over any run the committed states are only ever continued: whatever finalizing passed, and the state it
      stopped at, is never taken back; and every gamer they registered stays, with no fewer cookies. */
  lemma {:induction false} FinalityOfStates(tr: Trace, ms: seq<Message>, a: Address)
    requires LedgerInv(tr)
    ensures Continues(Committed(tr), Committed(Run(tr, ms)))
    ensures a in Members(Committed(tr)) ==>
              && a in tr.world.gamers && a in Run(tr, ms).world.gamers
              && Run(tr, ms).world.gamers[a].cookies >= tr.world.gamers[a].cookies
    decreases |ms|
  {
    hide Next, Continues, Committed, LedgerInv;
    if ms == [] {
      StaysPut(tr);
      if a in Members(Committed(tr)) {
        CommittedAreGamers(tr, a);
      }
    } else {
      var next := Next(tr, ms[0]);
      LedgerStep(tr, ms[0]);
      CommittedStep(tr, ms[0]);
      FinalityOfStates(next, ms[1..], a);
      ContinuesOn(Committed(tr), Committed(next), Committed(Run(next, ms[1..])));
      if a in Members(Committed(tr)) {
        CommittedGamerStep(tr, ms[0], a);
      }
    }
  }

  lemma {:induction false} StaysPut(tr: Trace)
    ensures Continues(Committed(tr), Committed(tr))
  {
  }

  // ----- the sealed records -----

  /** How many blocks of the chain are below the window. */
  function Pruned(log: ChainLog): int {
    if log.canon == [] then 0 else Floor(log) - log.base
  }

  /** The confirmed transactions of the blocks below the window. */
  function Sealed(tr: Trace): set<Txid>
    requires LogInv(tr.past.log)
  {
    set t | t in tr.world.records.confirmed && t in Txids(tr.past.log.canon[..Pruned(tr.past.log)])
  }

  /** No transaction is in two blocks of the chain. */
  ghost predicate Unrepeated(canon: seq<Block>) {
    forall i, j | 0 <= i < j < |canon| :: AsSet(canon[i].txids) !! AsSet(canon[j].txids)
  }

  ghost predicate UnrepeatedRun(tr: Trace, ms: seq<Message>)
    decreases |ms|
  {
    && Unrepeated(tr.past.log.canon)
    && (ms != [] ==> UnrepeatedRun(Next(tr, ms[0]), ms[1..]))
  }

  lemma {:induction false} ApartFromSuffix(canon: seq<Block>, n: nat, k: nat, t: Txid)
    requires Unrepeated(canon) && n <= k <= |canon| && t in Txids(canon[..n])
    ensures t !in Txids(canon[k..])
  {
    var i :| 0 <= i < |canon[..n]| && t in canon[..n][i].txids;
    assert t in AsSet(canon[i].txids);
    forall j | 0 <= j < |canon[k..]|
      ensures t !in canon[k..][j].txids
    {
      assert AsSet(canon[i].txids) !! AsSet(canon[k + j].txids);
    }
  }

  /** The pruned part of the chain never changes; it only gets longer. */
  lemma {:induction false} PrunedStays(log: ChainLog, b: Block, height: uint32)
    requires LogInv(log) && HeightInRange(b.height)
    requires var v := Classify(log, b); v.Extends? || v.Duplicate? || v.Recoverable?
    ensures var extended := Extend(log, b);
            && Pruned(log) <= |extended.canon| && 0 <= Pruned(log) <= |log.canon|
            && (log.canon != [] ==> Pruned(log) <= b.height - log.base)
            && extended.canon[..Pruned(log)] == log.canon[..Pruned(log)]
            && Pruned(log) <= Pruned(extended)
            && Pruned(log) <= Pruned(if height > log.peak then extended.(peak := height) else extended)
  {
    var i := b.height - log.base;
    if log.canon != [] {
      assert Pruned(log) <= i;
    }
  }

  lemma {:induction false} SealedNewBlock(tr: Trace, b: Block)
    requires BlockInv(tr) && Genuine(tr.world, b) && Unrepeated(tr.past.log.canon)
    ensures BlockInv(Next(tr, MNewBlock(b)))
    ensures Sealed(tr) <= Sealed(Next(tr, MNewBlock(b)))
  {
    hide Next, Unrepeated, Genuine, Sealed;
    BlockInvNewBlock(tr, b);
    forall t | t in Sealed(tr)
      ensures t in Sealed(Next(tr, MNewBlock(b)))
    {
      StaysSealed(tr, b, t);
    }
  }

  lemma {:induction false} SealedWhen(tr: Trace, t: Txid)
    requires LogInv(tr.past.log) && 0 <= Pruned(tr.past.log) <= |tr.past.log.canon|
    requires t in tr.world.records.confirmed && t in Txids(tr.past.log.canon[..Pruned(tr.past.log)])
    ensures t in Sealed(tr)
  {
  }

  lemma {:induction false} PrunedWithin(log: ChainLog)
    requires LogInv(log)
    ensures 0 <= Pruned(log) <= |log.canon|
  {
  }

  lemma {:induction false} StaysSealed(tr: Trace, b: Block, t: Txid)
    requires BlockInv(tr) && Genuine(tr.world, b) && Unrepeated(tr.past.log.canon) && t in Sealed(tr)
    ensures BlockInv(Next(tr, MNewBlock(b)))
    ensures t in Sealed(Next(tr, MNewBlock(b)))
  {
    hide Next, NewBlock, Admit, Window, Unrepeated, CutAt, Txids, Confirm, Unconfirm, LogInv, Extend, Pruned;
    var next, log, w := Next(tr, MNewBlock(b)), tr.past.log, tr.world;
    BlockDelivered(tr, b);
    ExtendKeepsPeak(log, b);
    BlockInvNewBlock(tr, b);
    AdmittedStores(tr, b);
    NewBlockStores(w, b);
    if Admit(w, b).Ok? && !NewBlock(w, b).reply.Trap? {
      PrunedStays(log, b, b.height);
      var n := Pruned(log);
      if Classify(log, b).Recoverable? {
        ApartFromSuffix(log.canon, n, b.height - log.base, t);
        StillConfirmed(w.records, Txids(log.canon[b.height - log.base..]), AsSet(b.txids), t);
      } else {
        StillConfirmed(w.records, {}, AsSet(b.txids), t);
        UnconfirmNone(w.records);
      }
      assert t in next.world.records.confirmed;
      PrunedWithin(next.past.log);
      TxidsOfPrefix(next.past.log.canon, n, Pruned(next.past.log), t);
    }
  }

  lemma {:induction false} StillConfirmed(records: Records, reverted: set<Txid>, txids: set<Txid>, t: Txid)
    requires t in records.confirmed && t !in reverted
    ensures t in Confirm(Unconfirm(records, reverted), txids).confirmed
  {
  }

  lemma {:induction false} TxidsOfPrefix(canon: seq<Block>, n: nat, k: nat, t: Txid)
    requires n <= k <= |canon| && t in Txids(canon[..n])
    ensures t in Txids(canon[..k])
  {
    var i :| 0 <= i < |canon[..n]| && t in canon[..n][i].txids;
    assert t in canon[..k][i].txids;
  }

  /** If no transaction is ever in two blocks of the chain, no accepted reorganization, nor anything else, takes
      back the confirmation of a transaction whose block is below the window. */
  lemma {:induction false} FinalityOfRecords(tr: Trace, ms: seq<Message>)
    requires BlockInv(tr) && GenuineRun(tr, ms) && UnrepeatedRun(tr, ms)
    ensures BlockInv(Run(tr, ms))
    ensures Sealed(tr) <= Sealed(Run(tr, ms))
    decreases |ms|
  {
    if ms != [] {
      hide Process, BlockInv, Genuine, Unrepeated, Sealed;
      BlockInvStep(tr, ms[0]);
      SealedStep(tr, ms[0]);
      FinalityOfRecords(Next(tr, ms[0]), ms[1..]);
    }
  }

  lemma {:induction false} SealedStep(tr: Trace, m: Message)
    requires BlockInv(tr) && Unrepeated(tr.past.log.canon)
    requires m.MNewBlock? ==> Genuine(tr.world, m.block)
    ensures BlockInv(Next(tr, m)) && Sealed(tr) <= Sealed(Next(tr, m))
  {
    hide Process, Genuine, Unrepeated;
    if m.MNewBlock? {
      SealedNewBlock(tr, m.block);
    } else {
      BlockInvStep(tr, m);
      RecordsStay(tr.world, m);
      assert Next(tr, m).past.log == tr.past.log;
    }
  }
}
