/** The held blocks and transaction records (src/reorg.rs and the block part of src/canister.rs)
    as functions on values. */
module BlockWindow {
  import opened Types

  datatype Network = Regtest | Testnet | Testnet4 | Bitcoin | Signet

  datatype Block = Block(height: uint32, hash: string, timestamp: uint64, txids: seq<Txid>)

  /** The pools a transaction touches. */
  datatype TxRecord = TxRecord(pools: seq<Address>)

  type Blocks = map<uint32, Block>

  /** Records are keyed by transaction and by whether it is confirmed; here, one map for either. */
  datatype Records = Records(pending: map<Txid, TxRecord>, confirmed: map<Txid, TxRecord>)

  function MaxRecoverableReorgDepth(network: Network): uint32 {
    match network
    case Regtest => 6
    case Testnet => 64
    case Testnet4 => 64
    case Bitcoin => 6
    case Signet => 6
  }

  const DEPTH: uint32 := MaxRecoverableReorgDepth(Testnet4)

  // ----- ordered keys -----

  predicate IsMin(keys: set<uint32>, k: uint32) {
    k in keys && forall j | j in keys :: k <= j
  }

  predicate IsMax(keys: set<uint32>, k: uint32) {
    k in keys && forall j | j in keys :: j <= k
  }

  lemma {:induction false} MinExists(keys: set<uint32>)
    requires keys != {}
    ensures exists k :: IsMin(keys, k)
    decreases |keys|
  {
    var k :| k in keys;
    if keys == {k} {
      assert IsMin(keys, k);
    } else {
      MinExists(keys - {k});
      var j :| IsMin(keys - {k}, j);
      assert forall i | i in keys :: i == k || i in keys - {k};
      assert IsMin(keys, if k <= j then k else j);
    }
  }

  lemma {:induction false} MaxExists(keys: set<uint32>)
    requires keys != {}
    ensures exists k :: IsMax(keys, k)
    decreases |keys|
  {
    var k :| k in keys;
    if keys == {k} {
      assert IsMax(keys, k);
    } else {
      MaxExists(keys - {k});
      var j :| IsMax(keys - {k}, j);
      assert forall i | i in keys :: i == k || i in keys - {k};
      assert IsMax(keys, if k <= j then j else k);
    }
  }

  function MaxKey(keys: set<uint32>): (k: uint32)
    requires keys != {}
    ensures IsMax(keys, k)
  {
    MaxExists(keys);
    var k :| IsMax(keys, k);
    k
  }

  ghost predicate Increasing(s: seq<uint32>) {
    forall i, j | 0 <= i < j < |s| :: s[i] < s[j]
  }

  lemma {:induction false} AscendingStep(keys: set<uint32>, k: uint32, rest: seq<uint32>)
    requires IsMin(keys, k)
    requires forall j :: j in rest <==> j in keys - {k}
    requires Increasing(rest)
    ensures forall j :: j in [k] + rest <==> j in keys
    ensures Increasing([k] + rest)
  {
    forall j | 0 <= j < |rest|
      ensures k < rest[j]
    {
      assert rest[j] in rest;
    }
  }

  /** The keys of an ordered map, in iteration order. */
  function Ascending(keys: set<uint32>): (s: seq<uint32>)
    ensures forall k :: k in s <==> k in keys
    ensures Increasing(s)
    decreases |keys|
  {
    if keys == {} then []
    else
      MinExists(keys);
      var k :| IsMin(keys, k);
      var rest := Ascending(keys - {k});
      AscendingStep(keys, k, rest);
      [k] + rest
  }

  function TakeWhileUpTo(s: seq<uint32>, bound: uint32): (taken: seq<uint32>)
    ensures taken <= s
  {
    if s == [] || s[0] > bound then [] else [s[0]] + TakeWhileUpTo(s[1..], bound)
  }

  function KeysUpTo(keys: set<uint32>, bound: uint32): set<uint32> {
    set k | k in keys && k <= bound
  }

  lemma {:induction false} IncreasingUnique(s: seq<uint32>, t: seq<uint32>)
    requires Increasing(s) && Increasing(t)
    requires forall k :: k in s <==> k in t
    ensures s == t
  {
    assert s != [] ==> s[0] in t;
    assert t != [] ==> t[0] in s;
    if s != [] {
      assert s[0] == t[0];
      forall k
        ensures k in s[1..] <==> k in s && k != s[0]
        ensures k in t[1..] <==> k in t && k != t[0]
      {
      }
      IncreasingUnique(s[1..], t[1..]);
    }
  }

  lemma {:induction false} TakenIff(s: seq<uint32>, bound: uint32, k: uint32)
    requires Increasing(s)
    ensures k in TakeWhileUpTo(s, bound) <==> k in s && k <= bound
    decreases |s|
  {
    if s != [] {
      var rest := s[1..];
      assert s == [s[0]] + rest;
      assert k in rest ==> s[0] < k;
      TakenIff(rest, bound, k);
    }
  }

  lemma {:induction false} TakenIncreasing(s: seq<uint32>, bound: uint32)
    requires Increasing(s)
    ensures Increasing(TakeWhileUpTo(s, bound))
  {
    var taken := TakeWhileUpTo(s, bound);
    assert taken == s[..|taken|];
  }

  /** Cutting the ordered keys at the first one above the bound is filtering by the bound. */
  lemma {:induction false} TakeWhileIsFilter(keys: set<uint32>, bound: uint32)
    ensures TakeWhileUpTo(Ascending(keys), bound) == Ascending(KeysUpTo(keys, bound))
  {
    hide Increasing, TakeWhileUpTo;
    var s := Ascending(keys);
    TakenIncreasing(s, bound);
    forall k: uint32
      ensures k in TakeWhileUpTo(s, bound) <==> k in Ascending(KeysUpTo(keys, bound))
    {
      TakenIff(s, bound, k);
    }
    IncreasingUnique(TakeWhileUpTo(s, bound), Ascending(KeysUpTo(keys, bound)));
  }

  // ----- classifying a block -----

  datatype Verdict =
    | Extends
    | Duplicate
    | Unrecoverable
    | NotFound(missing: uint32)
    | Recoverable(height: uint32, depth: uint32)

  function DetectReorg(blocks: Blocks, b: Block): Verdict {
    if blocks == map[] then Extends
    else
      var current := blocks[MaxKey(blocks.Keys)];
      var next := WrapAdd32(current.height, 1);
      if b.height == next then Extends
      else if b.height > next then Unrecoverable
      else
        var depth := WrapAdd32(WrapSub32(current.height, b.height), 1);
        if depth > DEPTH then Unrecoverable
        else if b.height !in blocks then NotFound(b.height)
        else if blocks[b.height].hash == b.hash then Duplicate
        else Recoverable(current.height, depth)
  }

  // ----- confirming and un-confirming -----

  /** Every listed transaction with an unconfirmed record gets a confirmed copy of it. */
  function Confirm(records: Records, txids: set<Txid>): Records {
    records.(confirmed := records.confirmed
                          + map t | t in txids && t in records.pending :: records.pending[t])
  }

  /** Every listed transaction with a confirmed record has it moved back to unconfirmed. */
  function Unconfirm(records: Records, txids: set<Txid>): Records {
    Records(records.pending + (map t | t in txids && t in records.confirmed :: records.confirmed[t]),
            records.confirmed - txids)
  }

  function AsSet(txids: seq<Txid>): set<Txid> {
    set t | t in txids
  }

  /** The transactions of the held blocks from height `lo` to `hi`. */
  function RangeTxids(blocks: Blocks, lo: int, hi: int): set<Txid> {
    set h, t | h in blocks && lo <= h <= hi && t in blocks[h].txids :: t
  }

  function WithoutRange(blocks: Blocks, lo: int, hi: int): Blocks {
    map h | h in blocks && !(lo <= h <= hi) :: blocks[h]
  }

  datatype ReorgResult = ReorgResult(blocks: Blocks, records: Records)

  /** Un-confirms and removes the `depth` blocks up to `height`; a missing one is a failed unwrap. */
  function RevertBlocks(blocks: Blocks, records: Records, height: uint32, depth: uint32): Result<ReorgResult> {
    var lo := WrapAdd32(WrapSub32(height, depth), 1);
    if forall h: uint32 | lo <= h <= height :: h in blocks then
      Ok(ReorgResult(WithoutRange(blocks, lo, height), Unconfirm(records, RangeTxids(blocks, lo, height))))
    else Trap
  }

  lemma {:induction false} RevertMissing(blocks: Blocks, records: Records, height: uint32, depth: uint32, h: uint32)
    requires WrapAdd32(WrapSub32(height, depth), 1) <= h <= height && h !in blocks
    ensures RevertBlocks(blocks, records, height, depth) == Trap
  {
  }

  // ----- finalization bound -----

  /** The height from which downwards blocks are beyond reorg risk, on 32-bit words. */
  function ConfirmedHeight(height: uint32): uint32 {
    WrapAdd32(WrapSub32(height, DEPTH), 1)
  }

  function Prune(blocks: Blocks, bound: uint32): Blocks {
    map h | h in blocks && h > bound :: blocks[h]
  }

  /** The transactions to finalize, once for every time the pool is listed in the record. */
  function PoolHits(pools: seq<Address>, pool: Address, txid: Txid): seq<Txid> {
    if pools == [] then []
    else (if pools[0] == pool then [txid] else []) + PoolHits(pools[1..], pool, txid)
  }

  function TxidHits(txids: seq<Txid>, records: Records, pool: Address): seq<Txid> {
    if txids == [] then []
    else
      (if txids[0] in records.confirmed then PoolHits(records.confirmed[txids[0]].pools, pool, txids[0]) else [])
      + TxidHits(txids[1..], records, pool)
  }

  function BlockHits(blocks: Blocks, heights: seq<uint32>, records: Records, pool: Address): seq<Txid>
    requires forall h | h in heights :: h in blocks
  {
    if heights == [] then []
    else TxidHits(blocks[heights[0]].txids, records, pool) + BlockHits(blocks, heights[1..], records, pool)
  }

  /** The pool's confirmed transactions in the blocks up to the bound, in height and in-block order. */
  function DeepTxids(blocks: Blocks, records: Records, pool: Address, bound: uint32): seq<Txid> {
    BlockHits(blocks, Ascending(KeysUpTo(blocks.Keys, bound)), records, pool)
  }

  lemma {:induction false} PoolHitsOnly(pools: seq<Address>, pool: Address, txid: Txid)
    ensures forall t | t in PoolHits(pools, pool, txid) :: t == txid && pool in pools
    ensures pools == [pool] ==> PoolHits(pools, pool, txid) == [txid]
  {
    if pools != [] {
      PoolHitsOnly(pools[1..], pool, txid);
    }
  }

  lemma {:induction false} TxidHitsConfirmed(txids: seq<Txid>, records: Records, pool: Address)
    ensures forall t | t in TxidHits(txids, records, pool) :: t in txids && t in records.confirmed
  {
    if txids != [] {
      TxidHitsConfirmed(txids[1..], records, pool);
      if txids[0] in records.confirmed {
        PoolHitsOnly(records.confirmed[txids[0]].pools, pool, txids[0]);
      }
    }
  }

  /** Whatever the sweep finalizes is confirmed and sits in a block it goes through. */
  lemma {:induction false} BlockHitsConfirmed(blocks: Blocks, heights: seq<uint32>, records: Records, pool: Address)
    requires forall h | h in heights :: h in blocks
    ensures forall t | t in BlockHits(blocks, heights, records, pool) ::
              t in records.confirmed && exists h :: h in heights && t in blocks[h].txids
  {
    if heights != [] {
      TxidHitsConfirmed(blocks[heights[0]].txids, records, pool);
      BlockHitsConfirmed(blocks, heights[1..], records, pool);
      forall t | t in BlockHits(blocks, heights, records, pool)
        ensures t in records.confirmed && exists h :: h in heights && t in blocks[h].txids
      {
        if t in TxidHits(blocks[heights[0]].txids, records, pool) {
          assert heights[0] in heights;
        } else {
          var h :| h in heights[1..] && t in blocks[h].txids;
          assert h in heights;
        }
      }
    }
  }

  lemma {:induction false} ListedHits(txids: seq<Txid>, records: Records, pool: Address, t: Txid)
    requires t in txids && t in records.confirmed && records.confirmed[t].pools == [pool]
    ensures t in TxidHits(txids, records, pool)
  {
    if txids[0] == t {
      PoolHitsOnly(records.confirmed[t].pools, pool, t);
    } else {
      ListedHits(txids[1..], records, pool, t);
    }
  }

  lemma {:induction false} ListedBlockHits(blocks: Blocks, heights: seq<uint32>, records: Records, pool: Address,
                                           h: uint32, t: Txid)
    requires forall k | k in heights :: k in blocks
    requires h in heights && t in blocks[h].txids && t in records.confirmed && records.confirmed[t].pools == [pool]
    ensures t in BlockHits(blocks, heights, records, pool)
  {
    hide TxidHits;
    if heights[0] == h {
      ListedHits(blocks[h].txids, records, pool, t);
    } else {
      ListedBlockHits(blocks, heights[1..], records, pool, h, t);
    }
  }

  /** Whatever is confirmed for the pool in a block up to the bound is finalized by the sweep. */
  lemma {:induction false} ListedIsDeep(blocks: Blocks, records: Records, pool: Address, bound: uint32, h: uint32,
                                        t: Txid)
    requires h in blocks && h <= bound && t in blocks[h].txids
    requires t in records.confirmed && records.confirmed[t].pools == [pool]
    ensures t in DeepTxids(blocks, records, pool, bound)
  {
    hide BlockHits;
    ListedBlockHits(blocks, Ascending(KeysUpTo(blocks.Keys, bound)), records, pool, h, t);
  }

  lemma {:induction false} DeepIsListed(blocks: Blocks, records: Records, pool: Address, bound: uint32, t: Txid)
    requires t in DeepTxids(blocks, records, pool, bound)
    ensures t in records.confirmed
    ensures exists h :: h in blocks && h <= bound && t in blocks[h].txids
  {
    hide BlockHits;
    BlockHitsConfirmed(blocks, Ascending(KeysUpTo(blocks.Keys, bound)), records, pool);
  }

  // ----- laws of confirmation -----

  lemma {:induction false} ConfirmTwice(records: Records, first: set<Txid>, second: set<Txid>)
    ensures Confirm(Confirm(records, first), second) == Confirm(records, first + second)
  {
    assert Confirm(Confirm(records, first), second).confirmed == Confirm(records, first + second).confirmed;
  }

  lemma {:induction false} UnconfirmTwice(records: Records, first: set<Txid>, second: set<Txid>)
    ensures Unconfirm(Unconfirm(records, first), second) == Unconfirm(records, first + second)
  {
    var twice, both := Unconfirm(Unconfirm(records, first), second), Unconfirm(records, first + second);
    assert twice.confirmed == both.confirmed;
    assert twice.pending.Keys == both.pending.Keys;
    assert twice.pending == both.pending;
  }

  lemma {:induction false} ConfirmNone(records: Records)
    ensures Confirm(records, {}) == records
  {
    assert Confirm(records, {}).confirmed == records.confirmed;
  }

  lemma {:induction false} UnconfirmNone(records: Records)
    ensures Unconfirm(records, {}) == records
  {
    assert Unconfirm(records, {}).pending == records.pending;
    assert Unconfirm(records, {}).confirmed == records.confirmed;
  }

  ghost predicate NoneConfirmed(records: Records, txids: set<Txid>) {
    txids !! records.confirmed.Keys
  }

  /** Un-confirming undoes confirming exactly when none of the transactions was confirmed before. */
  lemma {:induction false} UnconfirmInvertsConfirm(records: Records, txids: set<Txid>)
    ensures Unconfirm(Confirm(records, txids), txids) == records <==> NoneConfirmed(records, txids)
  {
    var back := Unconfirm(Confirm(records, txids), txids);
    if NoneConfirmed(records, txids) {
      assert back.pending == records.pending;
      assert back.confirmed == records.confirmed;
    } else {
      var t :| t in txids && t in records.confirmed;
      assert t !in back.confirmed;
    }
  }
}
