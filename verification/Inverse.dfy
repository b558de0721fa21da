/** Rolling a registration back undoes everything since, whatever happened in between. */
module Inverse {
  import opened Types
  import opened PoolChain
  import opened BlockWindow
  import opened Messages
  import opened History
  import opened Ledger
  import opened Finality

  // ----- every record lists the pool once -----

  ghost predicate Tracked(records: map<Txid, TxRecord>, address: Option<Address>) {
    forall t | t in records :: address.Some? && records[t].pools == [address.value]
  }

  ghost predicate RecordInv(w: World) {
    Tracked(w.records.pending, w.address) && Tracked(w.records.confirmed, w.address)
  }

  lemma {:induction false} RecordsAdmitted(w: World, b: Block)
    requires RecordInv(w) && Admit(w, b).Ok?
    ensures RecordInv(Admit(w, b).value)
    ensures w.records.pending.Keys <= Admit(w, b).value.records.pending.Keys
  {
    hide DetectReorg, WithoutRange, RangeTxids;
  }

  lemma {:induction false} RecordsNewBlock(w: World, b: Block)
    requires RecordInv(w)
    ensures RecordInv(NewBlock(w, b).world)
    ensures w.records.pending.Keys <= NewBlock(w, b).world.records.pending.Keys
  {
    hide NewBlock, Admit;
    NewBlockStores(w, b);
    NewBlockFrame(w, b);
    if Admit(w, b).Ok? {
      RecordsAdmitted(w, b);
      AdmitFrame(w, b);
    }
  }

  lemma {:induction false} RecordStep(w: World, m: Message)
    requires RecordInv(w)
    ensures RecordInv(Process(w, m))
    ensures w.records.pending.Keys <= Process(w, m).records.pending.Keys
  {
    hide NewBlock, RollbackTx, ValidateRegister;
    match m
    case MNewBlock(b) => RecordsNewBlock(w, b);
    case MRollback(txid) =>
      if RollbackTx(w, txid).world != w {
        RollbackEffect(w, txid);
      }
    case MClaim(caller, nanos) => ClaimFrame(w, caller, nanos);
    case _ =>
  }

  // ----- what stays behind a registration -----

  /** The full chain still starts with `prior`, then comes the state of `t`, which no later state repeats. */
  ghost predicate Stacked(full: seq<PoolState>, prior: seq<PoolState>, t: Txid) {
    && |full| > |prior|
    && full[..|prior|] == prior
    && full[|prior|].id == Some(t)
    && forall i | |prior| < i < |full| :: full[i].id != Some(t)
  }

  /** The message neither registers `t` again nor rolls back `t` or anything before it. */
  ghost predicate KeepsBelow(m: Message, prior: seq<PoolState>, t: Txid) {
    && (m.MRegister? ==> m.call.txid != t)
    && (m.MRollback? ==> m.txid != t && forall i | 0 <= i < |prior| :: prior[i].id != Some(m.txid))
  }

  lemma {:induction false} AppendedByMessage(w: World, m: Message)
    ensures m.MRegister? && Process(w, m).states != w.states ==>
              && |Process(w, m).states| == |w.states| + 1
              && Process(w, m).states[|w.states|].id == Some(m.call.txid)
    ensures m.MInitBtcUtxo? && Process(w, m).states != w.states ==>
              && |Process(w, m).states| == |w.states| + 1
              && Process(w, m).states[|w.states|].id == None
    ensures m.MInitKey? || m.MClaim? || m.MEndGame? ==> Process(w, m).states == w.states
  {
    hide NewBlock, RollbackTx;
    match m
    case MClaim(caller, nanos) => ClaimFrame(w, caller, nanos);
    case MRegister(call) =>
      if ExecuteRegister(w, call).world != w {
        PreparedState(w, call);
      }
    case _ =>
  }

  lemma {:induction false} StackedStep(tr: Trace, m: Message, prior: seq<PoolState>, t: Txid)
    requires LedgerInv(tr) && Stacked(Full(tr), prior, t) && KeepsBelow(m, prior, t)
    ensures Stacked(Full(Next(tr, m)), prior, t)
  {
    hide Process, LedgerInv;
    var full, after := Full(tr), Full(Next(tr, m));
    FullStep(tr, m);
    AppendedByMessage(tr.world, m);
    if m.MRollback? {
      StackedRollback(tr, m.txid, prior, t);
    } else if m.MUpdateRuneInfo? {
      StackedMint(full, after, prior, t);
    } else if !m.MNewBlock? {
      assert full <= after;
    }
  }

  lemma {:induction false} StackedRollback(tr: Trace, txid: Txid, prior: seq<PoolState>, t: Txid)
    requires Stacked(Full(tr), prior, t) && KeepsBelow(MRollback(txid), prior, t)
    ensures Stacked(Full(Next(tr, MRollback(txid))), prior, t)
  {
    hide RollbackTx;
    FullRollback(tr, txid);
    if RollbackTx(tr.world, txid).world != tr.world {
      var full, k := Full(tr), |Full(Next(tr, MRollback(txid)))|;
      assert full[k] == tr.world.states[Position(tr.world.states, txid)];
      assert forall i | 0 <= i < |prior| :: full[i] == prior[i];
    }
  }

  lemma {:induction false} StackedMint(full: seq<PoolState>, after: seq<PoolState>, prior: seq<PoolState>, t: Txid)
    requires Stacked(full, prior, t) && |after| == |full|
    requires forall i | 0 <= i < |full| ::
               && (i < |full| - 1 ==> after[i] == full[i])
               && after[i].(runeBalance := 0) == full[i].(runeBalance := 0)
    ensures Stacked(after, prior, t)
  {
    forall i | 0 <= i < |full|
      ensures after[i].id == full[i].id
    {
      assert after[i].(runeBalance := 0).id == full[i].(runeBalance := 0).id;
    }
  }

  ghost predicate KeepsBelowRun(ms: seq<Message>, prior: seq<PoolState>, t: Txid) {
    forall i | 0 <= i < |ms| :: KeepsBelow(ms[i], prior, t)
  }

  lemma {:induction false} StackedRun(tr: Trace, ms: seq<Message>, prior: seq<PoolState>, t: Txid)
    requires LedgerInv(tr) && RecordInv(tr.world) && Stacked(Full(tr), prior, t) && KeepsBelowRun(ms, prior, t)
    ensures LedgerInv(Run(tr, ms)) && RecordInv(Run(tr, ms).world) && Stacked(Full(Run(tr, ms)), prior, t)
    ensures tr.world.records.pending.Keys <= Run(tr, ms).world.records.pending.Keys
    decreases |ms|
  {
    hide Process, LedgerInv, RecordInv, Stacked, Remember;
    if ms != [] {
      StackedStep(tr, ms[0], prior, t);
      LedgerStep(tr, ms[0]);
      RecordStep(tr.world, ms[0]);
      StackedRun(Next(tr, ms[0]), ms[1..], prior, t);
    }
  }

  /** A rollback of a tracked transaction of the pool is one rollback of its chain. */
  lemma {:induction false} TrackedRollback(w: World, t: Txid)
    requires RecordInv(w) && (t in w.records.pending || t in w.records.confirmed)
    ensures var once, d := RollbackChain(w.states, w.gamers, t), RollbackTx(w, t);
            if once.reply.Ok? then d.reply.Ok? && d.world == w.(states := once.states, gamers := once.gamers)
            else d == Delivery(w, Trap)
  {
    hide RollbackChain;
    var record := if t in w.records.confirmed then w.records.confirmed[t] else w.records.pending[t];
    assert record.pools == [w.address.value];
    assert record.pools[1..] == [];
    var once := RollbackChain(w.states, w.gamers, t);
    assert RollbackEach(once.states, once.gamers, [], w.address.value, t).reply.Ok?;
  }

  /** Rolling back a state stacked on a prior chain gives back that chain, as far as it is not finalized. */
  lemma {:induction false} RollbackStacked(tr: Trace, prior: seq<PoolState>, t: Txid)
    requires LedgerInv(tr) && Stacked(Full(tr), prior, t)
    requires forall i | 0 <= i < |prior| :: prior[i].id != Some(t)
    ensures var w, dropped := tr.world, |tr.past.archive|;
            var once := RollbackChain(w.states, w.gamers, t);
            && (once.reply.Ok? <==> dropped < |prior|)
            && (once.reply.Ok? ==>
                  && once.states == prior[dropped..]
                  && once.gamers.Keys == Members(prior)
                  && forall a | a in once.gamers :: a in w.gamers && once.gamers[a] == w.gamers[a])
  {
    hide Unwind, Balanced, LifeCycle, Stacked;
    var w, full, dropped := tr.world, Full(tr), |tr.past.archive|;
    StackedPosition(tr, prior, t);
    if dropped < |prior| {
      var p := |prior| - dropped;
      UnwindClosedForm(w.states, w.gamers, p);
      StackedSplit(full, prior, t);
      assert w.states[p..] == full[|prior|..];
      RegistersAbove(tr, |prior|);
      RestoredIsRemoval(w.gamers, full[|prior|..]);
      MembersBelow(tr, |prior|);
      assert w.states[..p] == prior[dropped..];
    }
  }

  lemma {:induction false} StackedSplit(full: seq<PoolState>, prior: seq<PoolState>, t: Txid)
    requires Stacked(full, prior, t)
    ensures full[..|prior|] == prior && |prior| < |full| && full[|prior|].id == Some(t)
  {
  }

  /** Where a stacked state is found, if finalizing has not passed it. */
  lemma {:induction false} StackedPosition(tr: Trace, prior: seq<PoolState>, t: Txid)
    requires Stacked(Full(tr), prior, t)
    requires forall i | 0 <= i < |prior| :: prior[i].id != Some(t)
    ensures Position(tr.world.states, t)
         == if |tr.past.archive| <= |prior| then |prior| - |tr.past.archive| else |tr.world.states|
    ensures |tr.past.archive| <= |prior| ==> |prior| - |tr.past.archive| < |tr.world.states|
  {
    var w, full, dropped := tr.world, Full(tr), |tr.past.archive|;
    assert forall i | 0 <= i < |w.states| :: w.states[i] == full[dropped + i];
    assert forall i | 0 <= i < |prior| :: full[i] == prior[i];
    if dropped <= |prior| {
      assert w.states[|prior| - dropped].id == Some(t);
    }
  }

  lemma {:induction false} RegistersAbove(tr: Trace, k: nat)
    requires LedgerInv(tr) && k < |Full(tr)| && Full(tr)[k].id.Some?
    ensures forall i | 0 <= i < |Full(tr)[k..]| :: Full(tr)[k..][i].userAction.Register?
    ensures tr.past.inits <= k
  {
    hide Roster, LifeCycle;
  }

  lemma {:induction false} MembersBelow(tr: Trace, k: nat)
    requires LedgerInv(tr) && tr.past.inits <= k <= |Full(tr)|
    ensures (tr.world.gamers - Members(Full(tr)[k..])).Keys == Members(Full(tr)[..k])
  {
    hide LifeCycle, Members;
    var full := Full(tr);
    BalancedCut(full, tr.past.inits, tr.world.game.registerFee, tr.world.gamers.Keys, k);
    RosterMeaning(full[..k], tr.past.inits, tr.world.gamers.Keys - Members(full[k..]));
  }

  /** After a registration of a fresh `t`, let anything happen: claims, further registrations and their own
      rollbacks, blocks, the end, the mint. Rolling `t` back then succeeds exactly if finalizing has not reached
      it. The chain is the chain before the registration, less what was finalized meanwhile; the gamers are the
      gamers before it, each as it is now. If finalizing has reached `t`, the rollback traps. */
  lemma {:induction false} RollbackInvertsRun(tr: Trace, call: RegisterCall, ms: seq<Message>)
    requires LedgerInv(tr) && RecordInv(tr.world)
    requires ExecuteRegister(tr.world, call).reply.Ok?
    requires forall i | 0 <= i < |Full(tr)| :: Full(tr)[i].id != Some(call.txid)
    requires KeepsBelowRun(ms, Full(tr), call.txid)
    ensures var now := Run(Next(tr, MRegister(call)), ms);
            var d, finalized := RollbackTx(now.world, call.txid), |now.past.archive|;
            && (d.reply.Ok? <==> finalized < |Full(tr)|)
            && (!d.reply.Ok? ==> d == Delivery(now.world, Trap))
            && (d.reply.Ok? ==>
                  && d.world == now.world.(states := Full(tr)[finalized..], gamers := d.world.gamers)
                  && d.world.gamers.Keys == tr.world.gamers.Keys
                  && forall a | a in d.world.gamers ::
                       a in now.world.gamers && d.world.gamers[a] == now.world.gamers[a])
  {
    var next := Next(tr, MRegister(call));
    AfterRegister(tr, call);
    hide Next, Stacked, RollbackChain, RollbackTx, RecordInv, Balanced, LifeCycle;
    StackedRun(next, ms, Full(tr), call.txid);
    var now := Run(next, ms);
    TrackedRollback(now.world, call.txid);
    RollbackStacked(now, Full(tr), call.txid);
  }

  lemma {:induction false} AfterRegister(tr: Trace, call: RegisterCall)
    requires LedgerInv(tr) && RecordInv(tr.world)
    requires ExecuteRegister(tr.world, call).reply.Ok?
    ensures var next := Next(tr, MRegister(call));
            && LedgerInv(next) && RecordInv(next.world)
            && Stacked(Full(next), Full(tr), call.txid)
            && call.txid in next.world.records.pending
            && tr.world.gamers.Keys == Members(Full(tr))
  {
    hide Balanced, LifeCycle;
    var next := Next(tr, MRegister(call));
    LedgerStep(tr, MRegister(call));
    RecordStep(tr.world, MRegister(call));
    PreparedState(tr.world, call);
    var s := PrepareRegister(tr.world, call).value.0;
    assert Full(next) == Full(tr) + [s];
    GamersAreMembers(tr);
  }

  lemma {:induction false} GamersAreMembers(tr: Trace)
    requires LedgerInv(tr)
    ensures tr.world.gamers.Keys == Members(Full(tr))
  {
    RosterMeaning(Full(tr), tr.past.inits, tr.world.gamers.Keys);
  }
}
