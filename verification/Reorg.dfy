/** Reverting blocks in place (src/reorg.rs). */
module Reorg {
  import opened Types
  import opened BlockWindow
  import opened Memory

  lemma {:induction false} UnconfirmOne(records: Records, txid: Txid)
    ensures Unconfirm(records, {txid})
         == if txid !in records.confirmed then records
            else Records(records.pending[txid := records.confirmed[txid]], records.confirmed - {txid})
  {
    if txid !in records.confirmed {
      assert Unconfirm(records, {txid}).pending == records.pending;
      assert Unconfirm(records, {txid}).confirmed == records.confirmed;
    } else {
      assert Unconfirm(records, {txid}).pending == records.pending[txid := records.confirmed[txid]];
    }
  }

  lemma {:induction false} UnconfirmNext(records: Records, txids: seq<Txid>, i: nat)
    requires i < |txids|
    ensures Unconfirm(Unconfirm(records, AsSet(txids[..i])), {txids[i]}) == Unconfirm(records, AsSet(txids[..i + 1]))
  {
    UnconfirmTwice(records, AsSet(txids[..i]), {txids[i]});
    assert AsSet(txids[..i]) + {txids[i]} == AsSet(txids[..i + 1]);
  }

  /** Moves the confirmed records of the listed transactions back to unconfirmed. */
  method UnconfirmTxids(mem: Stores, txids: seq<Txid>)
    modifies mem`records
    ensures mem.records == Unconfirm(old(mem.records), AsSet(txids))
  {
    ghost var records := mem.records;
    UnconfirmNone(records);
    assert AsSet(txids[..0]) == {};
    for i := 0 to |txids|
      invariant mem.records == Unconfirm(records, AsSet(txids[..i]))
    {
      var txid := txids[i];
      UnconfirmNext(records, txids, i);
      UnconfirmOne(mem.records, txid);
      if txid in mem.records.confirmed {
        var record := mem.records.confirmed[txid];
        mem.records := mem.records.(confirmed := mem.records.confirmed - {txid});
        mem.records := mem.records.(pending := mem.records.pending[txid := record]);
      }
    }
    assert txids[..|txids|] == txids;
  }

  /** What is reverted once the blocks above `h` are. */
  ghost predicate RevertedAbove(before: ReorgResult, after: ReorgResult, h: int, height: int) {
    && (forall i: uint32 | h < i <= height :: i in before.blocks)
    && after.blocks == WithoutRange(before.blocks, h + 1, height)
    && after.records == Unconfirm(before.records, RangeTxids(before.blocks, h + 1, height))
  }

  lemma {:induction false} EmptyRange(blocks: Blocks, lo: int, hi: int)
    requires lo > hi
    ensures RangeTxids(blocks, lo, hi) == {}
    ensures WithoutRange(blocks, lo, hi) == blocks
  {
  }

  lemma {:induction false} RevertNone(before: ReorgResult, h: int, height: int)
    requires height <= h
    ensures RevertedAbove(before, before, h, height)
  {
    EmptyRange(before.blocks, h + 1, height);
    UnconfirmNone(before.records);
  }

  lemma {:induction false} RevertNext(before: ReorgResult, now: ReorgResult, h: uint32, height: int)
    requires RevertedAbove(before, now, h, height) && h <= height
    ensures h in now.blocks <==> h in before.blocks
    ensures h in before.blocks ==>
              && now.blocks[h] == before.blocks[h]
              && RevertedAbove(before,
                               ReorgResult(now.blocks - {h}, Unconfirm(now.records, AsSet(now.blocks[h].txids))),
                               h - 1, height)
  {
    var blocks := before.blocks;
    if h in blocks {
      UnconfirmTwice(before.records, RangeTxids(blocks, h + 1, height), AsSet(blocks[h].txids));
      assert RangeTxids(blocks, h, height) == RangeTxids(blocks, h + 1, height) + AsSet(blocks[h].txids);
      assert WithoutRange(blocks, h, height) == now.blocks - {h};
    }
  }

  lemma {:induction false} RevertDone(before: ReorgResult, after: ReorgResult, height: uint32, depth: uint32, h: int)
    requires var lo := WrapAdd32(WrapSub32(height, depth), 1);
             h == if lo <= height then lo - 1 else height
    requires RevertedAbove(before, after, h, height)
    ensures RevertBlocks(before.blocks, before.records, height, depth) == Ok(after)
  {
    var lo := WrapAdd32(WrapSub32(height, depth), 1);
    if lo > height {
      EmptyRange(before.blocks, lo, height);
      EmptyRange(before.blocks, height + 1, height);
    }
  }

  /** Goes down from `height` over `depth` blocks; a missing block is a failed unwrap. */
  method HandleReorg(mem: Stores, height: uint32, depth: uint32) returns (r: Result<()>)
    modifies mem`blocks, mem`records
    ensures match RevertBlocks(old(mem.blocks), old(mem.records), height, depth)
            case Ok(reverted) => r == Ok(()) && mem.blocks == reverted.blocks && mem.records == reverted.records
            case Err(_) => false
            case Trap => r == Trap
  {
    hide RevertedAbove, RevertBlocks, Unconfirm, AsSet;
    ghost var before := ReorgResult(mem.blocks, mem.records);
    var lo := WrapAdd32(WrapSub32(height, depth), 1);
    var h: int := height;
    RevertNone(before, h, height);
    while h >= lo
      invariant if lo <= height then lo - 1 <= h <= height else h == height
      invariant RevertedAbove(before, ReorgResult(mem.blocks, mem.records), h, height)
    {
      RevertNext(before, ReorgResult(mem.blocks, mem.records), h, height);
      if h !in mem.blocks {
        RevertMissing(before.blocks, before.records, height, depth, h);
        return Trap;
      }
      var block := mem.blocks[h];
      UnconfirmTxids(mem, block.txids);
      mem.blocks := mem.blocks - {h};
      h := h - 1;
    }
    RevertDone(before, ReorgResult(mem.blocks, mem.records), height, depth, h);
    return Ok(());
  }
}
