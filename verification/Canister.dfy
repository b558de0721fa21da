/** The canister object (src/canister.rs): every message updates the stores in place and is proved to
    deliver what its transition function says. */
module Canister {
  import opened Types
  import opened GameRules
  import opened PoolChain
  import opened BlockWindow
  import opened Memory
  import opened State
  import R = Reorg
  import M = Messages

  // ----- lists finalized piecewise -----

  lemma {:induction false} FinalizeAllConcat(states: seq<PoolState>, first: seq<Txid>, second: seq<Txid>)
    ensures FinalizeAll(states, first + second)
         == if FinalizeAll(states, first).Ok? then FinalizeAll(FinalizeAll(states, first).value, second) else Trap
    decreases |first|
  {
    if first == [] {
      FinalizeNeverErrs(states, second);
      assert first + second == second;
    } else {
      var r := FinalizeChain(states, first[0]);
      assert (first + second)[1..] == first[1..] + second;
      if r.Ok? {
        FinalizeAllConcat(r.value, first[1..], second);
        FinalizeNeverErrs(r.value, first[1..]);
      }
    }
  }

  lemma {:induction false} FinalizeNeverErrs(states: seq<PoolState>, txids: seq<Txid>)
    ensures !FinalizeAll(states, txids).Err?
    decreases |txids|
  {
    if txids != [] {
      var r := FinalizeChain(states, txids[0]);
      if r.Ok? {
        FinalizeNeverErrs(r.value, txids[1..]);
      }
    }
  }

  /** The loop invariant of the sweep: what is done and what is left amount to the whole list. */
  ghost predicate SweptTo(before: seq<PoolState>, all: seq<Txid>, now: seq<PoolState>, left: seq<Txid>) {
    FinalizeAll(before, all) == FinalizeAll(now, left)
  }

  lemma {:induction false} SweepPiece(before: seq<PoolState>, all: seq<Txid>, now: seq<PoolState>,
                                      piece: seq<Txid>, left: seq<Txid>)
    requires SweptTo(before, all, now, piece + left)
    ensures FinalizeAll(now, piece).Ok? ==> SweptTo(before, all, FinalizeAll(now, piece).value, left)
    ensures !FinalizeAll(now, piece).Ok? ==> FinalizeAll(before, all) == Trap
  {
    FinalizeAllConcat(now, piece, left);
  }

  lemma {:induction false} ConfirmOne(records: Records, txid: Txid)
    ensures Confirm(records, {txid})
         == if txid !in records.pending then records
            else records.(confirmed := records.confirmed[txid := records.pending[txid]])
  {
    assert Confirm(records, {txid}).confirmed
        == if txid !in records.pending then records.confirmed
           else records.confirmed[txid := records.pending[txid]];
  }

  lemma {:induction false} ConfirmNext(records: Records, txids: seq<Txid>, i: nat)
    requires i < |txids|
    ensures Confirm(Confirm(records, AsSet(txids[..i])), {txids[i]}) == Confirm(records, AsSet(txids[..i + 1]))
  {
    ConfirmTwice(records, AsSet(txids[..i]), {txids[i]});
    assert AsSet(txids[..i]) + {txids[i]} == AsSet(txids[..i + 1]);
  }

  function KeySet(heights: seq<uint32>): set<uint32> {
    set h | h in heights
  }

  lemma {:induction false} PruneNone(blocks: Blocks)
    ensures forall heights: seq<uint32> :: blocks - KeySet(heights[..0]) == blocks
  {
  }

  lemma {:induction false} PruneNext(blocks: Blocks, heights: seq<uint32>, i: nat)
    requires i < |heights|
    ensures blocks - KeySet(heights[..i]) - {heights[i]} == blocks - KeySet(heights[..i + 1])
  {
    assert KeySet(heights[..i + 1]) == KeySet(heights[..i]) + {heights[i]};
  }

  lemma {:induction false} PruneDone(blocks: Blocks, heights: seq<uint32>, bound: uint32)
    requires heights == Ascending(KeysUpTo(blocks.Keys, bound))
    ensures blocks - KeySet(heights[..|heights|]) == Prune(blocks, bound)
  {
    assert heights[..|heights|] == heights;
    assert KeySet(heights) == KeysUpTo(blocks.Keys, bound);
  }

  class Canister {
    const es: ExchangeState
    const mem: Stores

    constructor (registerFee: uint64, coolingDown: uint64, perClaim: uint128)
      ensures fresh(es) && fresh(es.game) && fresh(mem)
      ensures View() == M.InitialWorld(registerFee, coolingDown, perClaim)
    {
      es := new ExchangeState(registerFee, coolingDown, perClaim);
      mem := new Stores();
    }

    function View(): M.World
      reads es, es.game, mem
    {
      M.World(es.key, es.address, es.runeId, es.game.View(), es.states, es.status,
              mem.gamers, mem.principals, mem.blocks, mem.records)
    }

    /** A trap discards every edit of its message. */
    method Discard(before: M.World)
      modifies es, es.game, mem
      ensures View() == before
    {
      es.key, es.address, es.runeId, es.states, es.status :=
        before.key, before.address, before.runeId, before.states, before.status;
      es.game.isEnd, es.game.registerFee, es.game.coolingDown :=
        before.game.isEnd, before.game.registerFee, before.game.coolingDown;
      es.game.perClaim, es.game.claimedCookies := before.game.perClaim, before.game.claimed;
      mem.gamers, mem.principals, mem.blocks, mem.records :=
        before.gamers, before.principals, before.blocks, before.records;
    }

    method InitKey(fetched: Option<(string, Address)>) returns (r: Result<Address>)
      modifies es
      ensures M.Delivery(View(), r) == M.InitKey(old(View()), fetched)
    {
      if es.address.Some? {
        return Ok(es.address.value);
      }
      if fetched.None? {
        return Err(ChainKeyError);
      }
      var status := es.status.FinishInitKey();
      if status.None? {
        return Trap;
      }
      es.key := Some(fetched.value.0);
      es.address := Some(fetched.value.1);
      es.status := status.value;
      return Ok(fetched.value.1);
    }

    method InitBtcUtxo(utxo: Utxo) returns (r: Result<()>)
      modifies es, es.game, mem
      ensures M.Delivery(View(), r) == M.InitBtcUtxo(old(View()), utxo)
    {
      var before := View();
      es.states := es.states + [PoolState(None, 0, utxo, None, 0, Init)];
      var status := es.status.FinishInitBtc();
      if status.None? {
        Discard(before);
        return Trap;
      }
      es.status := status.value;
      return Ok(());
    }

    /** Validates, has the PSBT signed, then registers, commits and tracks the transaction. */
    method ExecuteRegister(call: M.RegisterCall) returns (r: Result<()>)
      modifies es, mem
      ensures M.Delivery(View(), r) == M.ExecuteRegister(old(View()), call)
    {
      var prepared := M.PrepareRegister(View(), call);
      if prepared.Err? {
        return Err(prepared.error);
      } else if prepared.Trap? {
        return Trap;
      }
      if !call.signed {
        return Err(Text("sign failed"));
      }
      if call.principal.None? {
        return Err(Text("get_principal failed"));
      }
      es.game.RegisterNewGamer(mem, call.initiator);
      es.Commit(prepared.value.0);
      mem.principals := mem.principals[call.principal.value := call.initiator];
      var record := if call.txid in mem.records.pending then mem.records.pending[call.txid] else TxRecord([]);
      if call.intention.poolAddress !in record.pools {
        record := TxRecord(record.pools + [call.intention.poolAddress]);
      }
      mem.records := mem.records.(pending := mem.records.pending[call.txid := record]);
      return Ok(());
    }

    method Claim(caller: Principal, nanos: uint64) returns (r: Result<uint128>)
      modifies es.game, mem
      ensures M.Delivery(View(), r) == M.Claim(old(View()), caller, nanos)
    {
      if caller !in mem.principals {
        return Err(GamerNotFound(caller));
      }
      r := es.game.Claim(mem, mem.principals[caller], Seconds(nanos));
    }

    method EndGame() returns (r: Result<()>)
      modifies es, es.game, mem
      ensures M.Delivery(View(), r) == M.EndGame(old(View()))
    {
      var before := View();
      es.game.isEnd := true;
      var status := es.status.End();
      if status.None? {
        Discard(before);
        return Trap;
      }
      es.status := status.value;
      return Ok(());
    }

    /** Pops the last state, sets its rune balance and pushes it back. */
    method UpdateRuneInfo(premine: Utxo) returns (r: Result<()>)
      modifies es, es.game, mem
      ensures M.Delivery(View(), r) == M.UpdateRuneInfo(old(View()), premine)
    {
      var before := View();
      if premine.maybeRune.None? {
        return Trap;
      }
      es.runeId := Some(premine.maybeRune.value.id);
      if es.states == [] {
        Discard(before);
        return Trap;
      }
      var last := es.states[|es.states| - 1];
      es.states := es.states[..|es.states| - 1];
      last := last.(runeBalance := premine.maybeRune.value.value);
      if last.runeBalance != Premine(es.game.claimedCookies) {
        Discard(before);
        return Trap;
      }
      es.states := es.states + [last];
      var status := es.status.RuneMinted();
      if status.None? {
        Discard(before);
        return Trap;
      }
      es.status := status.value;
      return Ok(());
    }

    // ----- blocks -----

    /** Copies the unconfirmed record of every listed transaction to a confirmed one. */
    method ConfirmTxids(txids: seq<Txid>)
      modifies mem`records
      ensures mem.records == Confirm(old(mem.records), AsSet(txids))
    {
      ghost var records := mem.records;
      ConfirmNone(records);
      assert AsSet(txids[..0]) == {};
      for i := 0 to |txids|
        invariant mem.records == Confirm(records, AsSet(txids[..i]))
      {
        ConfirmNext(records, txids, i);
        ConfirmOne(mem.records, txids[i]);
        if txids[i] in mem.records.pending {
          var record := mem.records.pending[txids[i]];
          mem.records := mem.records.(confirmed := mem.records.confirmed[txids[i] := record]);
        }
      }
      assert txids[..|txids|] == txids;
    }

    /** Finalizes the transaction once for every listed pool that is this one. */
    method FinalizePools(pools: seq<Address>, pool: Address, txid: Txid) returns (ok: bool)
      modifies es`states
      ensures ok <==> FinalizeAll(old(es.states), PoolHits(pools, pool, txid)).Ok?
      ensures ok ==> es.states == FinalizeAll(old(es.states), PoolHits(pools, pool, txid)).value
    {
      ghost var states, all := es.states, PoolHits(pools, pool, txid);
      for i := 0 to |pools|
        invariant SweptTo(states, all, es.states, PoolHits(pools[i..], pool, txid))
      {
        assert pools[i..][1..] == pools[i + 1..];
        if pools[i] == pool {
          ghost var now := es.states;
          SweepPiece(states, all, now, [txid], PoolHits(pools[i + 1..], pool, txid));
          var r := es.Finalize(txid);
          assert FinalizeAll(now, [txid]) == if r.Ok? then Ok(es.states) else Trap;
          if !r.Ok? {
            return false;
          }
        } else {
          assert PoolHits(pools[i..], pool, txid) == [] + PoolHits(pools[i + 1..], pool, txid)
                                                  == PoolHits(pools[i + 1..], pool, txid);
        }
      }
      return true;
    }

    method FinalizeTxids(txids: seq<Txid>, pool: Address) returns (ok: bool)
      modifies es`states
      ensures ok <==> FinalizeAll(old(es.states), TxidHits(txids, mem.records, pool)).Ok?
      ensures ok ==> es.states == FinalizeAll(old(es.states), TxidHits(txids, mem.records, pool)).value
    {
      ghost var states, all := es.states, TxidHits(txids, mem.records, pool);
      for i := 0 to |txids|
        invariant SweptTo(states, all, es.states, TxidHits(txids[i..], mem.records, pool))
      {
        var txid := txids[i];
        ghost var now, left := es.states, TxidHits(txids[i + 1..], mem.records, pool);
        assert txids[i..][1..] == txids[i + 1..];
        if txid in mem.records.confirmed {
          var pools := mem.records.confirmed[txid].pools;
          SweepPiece(states, all, now, PoolHits(pools, pool, txid), left);
          var done := FinalizePools(pools, pool, txid);
          if !done {
            return false;
          }
        } else {
          assert TxidHits(txids[i..], mem.records, pool) == [] + left == left;
        }
      }
      return true;
    }

    /** Goes through the held blocks in height order up to the bound. */
    method FinalizeDeepBlocks(pool: Address, bound: uint32) returns (ok: bool)
      modifies es`states
      ensures var deep := DeepTxids(mem.blocks, mem.records, pool, bound);
              && (ok <==> FinalizeAll(old(es.states), deep).Ok?)
              && (ok ==> es.states == FinalizeAll(old(es.states), deep).value)
    {
      ghost var states, all := es.states, DeepTxids(mem.blocks, mem.records, pool, bound);
      var heights := TakeWhileUpTo(Ascending(mem.blocks.Keys), bound);
      TakeWhileIsFilter(mem.blocks.Keys, bound);
      for i := 0 to |heights|
        invariant SweptTo(states, all, es.states, BlockHits(mem.blocks, heights[i..], mem.records, pool))
      {
        var txids := mem.blocks[heights[i]].txids;
        assert heights[i..][1..] == heights[i + 1..];
        SweepPiece(states, all, es.states, TxidHits(txids, mem.records, pool),
                   BlockHits(mem.blocks, heights[i + 1..], mem.records, pool));
        var done := FinalizeTxids(txids, pool);
        if !done {
          return false;
        }
      }
      return true;
    }

    /** Collects the heights up to the bound, then removes them one by one. */
    method PruneBlocks(bound: uint32)
      modifies mem`blocks
      ensures mem.blocks == Prune(old(mem.blocks), bound)
    {
      hide Prune, KeySet, TakeWhileUpTo, Ascending, KeysUpTo;
      ghost var blocks := mem.blocks;
      PruneNone(blocks);
      var heights := TakeWhileUpTo(Ascending(mem.blocks.Keys), bound);
      TakeWhileIsFilter(mem.blocks.Keys, bound);
      for i := 0 to |heights|
        invariant mem.blocks == blocks - KeySet(heights[..i])
      {
        PruneNext(blocks, heights, i);
        mem.blocks := mem.blocks - {heights[i]};
      }
      PruneDone(blocks, heights, bound);
    }

    /** Stores a classified block, confirms, finalizes and prunes. */
    method AcceptBlock(b: Block) returns (r: Result<()>)
      modifies es, mem
      ensures var spec := M.AcceptBlock(old(View()), b);
              if spec.reply.Trap? then r == Trap else M.Delivery(View(), r) == spec
    {
      mem.blocks := mem.blocks[b.height := b];
      ConfirmTxids(b.txids);
      var bound := ConfirmedHeight(b.height);
      if es.address.None? {
        return Err(Text("pool address not init"));
      }
      var finalized := FinalizeDeepBlocks(es.address.value, bound);
      if !finalized {
        return Trap;
      }
      PruneBlocks(bound);
      return Ok(());
    }

    method NewBlock(b: Block) returns (r: Result<()>)
      modifies es, es.game, mem
      ensures M.Delivery(View(), r) == M.NewBlock(old(View()), b)
    {
      var before := View();
      match DetectReorg(mem.blocks, b) {
        case Unrecoverable =>
          return Err(Text("Unrecoverable reorg detected"));
        case NotFound(height) =>
          return Err(BlockNotFound(height));
        case Extends =>
        case Duplicate =>
        case Recoverable(height, depth) =>
          var reverted := R.HandleReorg(mem, height, depth);
          if reverted.Trap? {
            Discard(before);
            return Trap;
          }
      }
      assert M.Admit(before, b) == Ok(View());
      r := AcceptBlock(b);
      if r.Trap? {
        Discard(before);
      }
    }

    /** Rolls the pool back once for every listed pool that is this one. */
    method RollbackPools(pools: seq<Address>, pool: Address, txid: Txid) returns (r: Result<()>)
      modifies es`states, mem`gamers
      ensures var spec := M.RollbackEach(old(es.states), old(mem.gamers), pools, pool, txid);
              if spec.reply.Ok? then UnwindResult(es.states, mem.gamers, r) == spec else r == Trap
    {
      for i := 0 to |pools|
        invariant M.RollbackEach(es.states, mem.gamers, pools[i..], pool, txid)
               == M.RollbackEach(old(es.states), old(mem.gamers), pools, pool, txid)
      {
        assert pools[i..][1..] == pools[i + 1..];
        if pools[i] == pool {
          var done := es.Rollback(mem, txid);
          if !done.Ok? {
            return Trap;
          }
        }
      }
      return Ok(());
    }

    method RollbackTx(txid: Txid) returns (r: Result<()>)
      modifies es, es.game, mem
      ensures M.Delivery(View(), r) == M.RollbackTx(old(View()), txid)
    {
      var before := View();
      if es.address.None? {
        return Err(Text("pool address not init"));
      }
      if txid !in mem.records.confirmed && txid !in mem.records.pending {
        return Trap;
      }
      var record := if txid in mem.records.confirmed then mem.records.confirmed[txid] else mem.records.pending[txid];
      var rolled := RollbackPools(record.pools, es.address.value, txid);
      if rolled.Trap? {
        Discard(before);
        return Trap;
      }
      return Ok(());
    }

    /** Any message: the stores move as the transition function says. */
    method Process(m: M.Message)
      modifies es, es.game, mem
      ensures View() == M.Process(old(View()), m)
    {
      match m
      case MInitKey(fetched) => var _ := InitKey(fetched);
      case MInitBtcUtxo(utxo) => var _ := InitBtcUtxo(utxo);
      case MRegister(call) => var _ := ExecuteRegister(call);
      case MClaim(caller, nanos) => var _ := Claim(caller, nanos);
      case MEndGame => var _ := EndGame();
      case MUpdateRuneInfo(premine) => var _ := UpdateRuneInfo(premine);
      case MNewBlock(block) => var _ := NewBlock(block);
      case MRollback(txid) => var _ := RollbackTx(txid);
    }
  }
}
