/** The pool chain and the block chain stay aligned while Bitcoin orders the pool's transactions as the pool
    does, and then no block message traps. */
module Alignment {
  import opened Types
  import opened PoolChain
  import opened BlockWindow
  import opened Messages
  import opened History
  import opened Ledger
  import opened Refinement
  import opened Finality
  import opened Inverse
  import opened Sweep

  // ----- listings -----

  /** The transactions of a chain of blocks, in order. */
  function Listing(canon: seq<Block>): seq<Txid> {
    if canon == [] then [] else canon[0].txids + Listing(canon[1..])
  }

  /** Where a transaction is first listed, or the length when it is not. */
  function Place(listing: seq<Txid>, t: Txid): (p: nat)
    ensures p <= |listing|
    ensures p < |listing| <==> t in listing
    ensures p < |listing| ==> listing[p] == t
  {
    if listing == [] then 0
    else if listing[0] == t then 0
    else 1 + Place(listing[1..], t)
  }

  ghost predicate NoRepeats(listing: seq<Txid>) {
    forall i, j | 0 <= i < j < |listing| :: listing[i] != listing[j]
  }

  lemma {:induction false} ListingConcat(left: seq<Block>, right: seq<Block>)
    ensures Listing(left + right) == Listing(left) + Listing(right)
    decreases |left|
  {
    if left == [] {
      assert left + right == right;
    } else {
      ListingConcat(left[1..], right);
      assert (left + right)[1..] == left[1..] + right;
    }
  }

  lemma {:induction false} ListingTxids(canon: seq<Block>, t: Txid)
    ensures t in Listing(canon) <==> t in Txids(canon)
  {
    if canon != [] {
      ListingTxids(canon[1..], t);
      assert canon == canon[..1] + canon[1..];
      TxidsConcat(canon[..1], canon[1..]);
      assert t in canon[0].txids ==> t in canon[..1][0].txids;
    }
  }

  lemma {:induction false} PlaceConcat(left: seq<Txid>, right: seq<Txid>, t: Txid)
    ensures Place(left + right, t) == if t in left then Place(left, t) else |left| + Place(right, t)
    decreases |left|
  {
    if left == [] {
      assert left + right == right;
    } else {
      PlaceConcat(left[1..], right, t);
      assert (left + right)[1..] == left[1..] + right;
    }
  }

  lemma {:induction false} ListingPrefix(canon: seq<Block>, n: nat, k: nat)
    requires n <= k <= |canon|
    ensures Listing(canon[..n]) <= Listing(canon[..k])
  {
    assert canon[..k] == canon[..n] + canon[n..k];
    ListingConcat(canon[..n], canon[n..k]);
  }

  /** A listing without repetitions lists nothing both before and from a block on. */
  lemma {:induction false} ListedOnce(canon: seq<Block>, n: nat, lo: nat, hi: nat, t: Txid)
    requires NoRepeats(Listing(canon)) && n <= lo <= hi <= |canon|
    requires t in Listing(canon[..n])
    ensures t !in Listing(canon[lo..hi])
  {
    var before, middle, after := Listing(canon[..lo]), Listing(canon[lo..hi]), Listing(canon[hi..]);
    SplitListing(canon, lo, hi);
    ListingPrefix(canon, n, lo);
    if t in middle {
      NotBefore(before, middle, after, t);
    }
  }

  lemma {:induction false} NotBefore(before: seq<Txid>, middle: seq<Txid>, after: seq<Txid>, t: Txid)
    requires NoRepeats(before + middle + after) && t in middle
    ensures t !in before
  {
    var all, j := before + middle + after, Place(middle, t);
    assert all[|before| + j] == t;
    forall i | 0 <= i < |before|
      ensures before[i] != t
    {
      assert all[i] == before[i];
    }
  }

  lemma {:induction false} SplitListing(canon: seq<Block>, lo: nat, hi: nat)
    requires lo <= hi <= |canon|
    ensures Listing(canon) == Listing(canon[..lo]) + Listing(canon[lo..hi]) + Listing(canon[hi..])
    ensures Listing(canon[..hi]) == Listing(canon[..lo]) + Listing(canon[lo..hi])
  {
    assert canon[..lo] + canon[lo..hi] == canon[..hi];
    assert canon[..hi] + canon[hi..] == canon;
    ListingConcat(canon[..lo], canon[lo..hi]);
    ListingConcat(canon[..hi], canon[hi..]);
  }

  // ----- what the sweep goes through -----

  function Range(lo: uint32, hi: int): (s: seq<uint32>)
    requires hi < U32_MOD - 1
    ensures forall k: uint32 :: k in s <==> lo <= k <= hi
    ensures Increasing(s)
    ensures s == [] <==> lo > hi
    decreases hi - lo
  {
    if lo > hi then []
    else
      var rest := Range(lo + 1, hi);
      assert forall i | 0 <= i < |rest| :: rest[i] in rest;
      [lo] + rest
  }

  lemma {:induction false} FirstHits(txids: seq<Txid>, records: Records, pool: Address)
    requires txids != []
    ensures var t := txids[0];
            TxidHits(txids, records, pool)
            == (if t in records.confirmed then PoolHits(records.confirmed[t].pools, pool, t) else [])
               + TxidHits(txids[1..], records, pool)
  {
  }

  lemma {:induction false} TxidHitsConcat(left: seq<Txid>, right: seq<Txid>, records: Records, pool: Address)
    ensures TxidHits(left + right, records, pool) == TxidHits(left, records, pool) + TxidHits(right, records, pool)
    decreases |left|
  {
    if left == [] {
      assert left + right == right;
      NoHits(records, pool);
    } else {
      hide TxidHits;
      TxidHitsConcat(left[1..], right, records, pool);
      FirstHits(left, records, pool);
      FirstHits(left + right, records, pool);
      assert (left + right)[1..] == left[1..] + right;
    }
  }

  lemma {:induction false} FirstBlockHits(blocks: Blocks, heights: seq<uint32>, records: Records, pool: Address)
    requires heights != [] && forall h | h in heights :: h in blocks
    ensures BlockHits(blocks, heights, records, pool)
         == TxidHits(blocks[heights[0]].txids, records, pool) + BlockHits(blocks, heights[1..], records, pool)
  {
  }

  lemma {:induction false} NoBlockHits(blocks: Blocks, records: Records, pool: Address)
    ensures BlockHits(blocks, [], records, pool) == []
  {
  }

  lemma {:induction false} RangeHits(log: ChainLog, lo: uint32, hi: int, records: Records, pool: Address)
    requires LogInv(log) && log.canon != []
    requires Floor(log) <= lo <= hi + 1 && hi <= log.Tip()
    ensures BlockHits(Window(log), Range(lo, hi), records, pool)
         == TxidHits(Listing(log.canon[lo - log.base..hi + 1 - log.base]), records, pool)
    decreases hi - lo
  {
    hide TxidHits, Window, Listing, BlockHits, Range;
    var segment := log.canon[lo - log.base..hi + 1 - log.base];
    if lo <= hi {
      RangeHits(log, lo + 1, hi, records, pool);
      assert segment[1..] == log.canon[lo + 1 - log.base..hi + 1 - log.base];
      assert Held(log, lo) && Window(log)[lo] == segment[0];
      TxidHitsConcat(segment[0].txids, Listing(segment[1..]), records, pool);
      ListingFirst(segment);
      RangeFirst(lo, hi);
      FirstBlockHits(Window(log), Range(lo, hi), records, pool);
    } else {
      assert segment == [] && Range(lo, hi) == [];
      NoBlockHits(Window(log), records, pool);
      NoneListed();
      NoHits(records, pool);
    }
  }

  lemma {:induction false} ListingFirst(canon: seq<Block>)
    requires canon != []
    ensures Listing(canon) == canon[0].txids + Listing(canon[1..])
  {
  }

  lemma {:induction false} RangeFirst(lo: uint32, hi: int)
    requires lo <= hi < U32_MOD - 1
    ensures Range(lo, hi)[0] == lo && Range(lo, hi)[1..] == Range(lo + 1, hi)
  {
  }

  lemma {:induction false} NoHits(records: Records, pool: Address)
    ensures TxidHits([], records, pool) == []
  {
  }

  /** The blocks of the chain that a sweep up to a bound goes through. */
  function Swept(log: ChainLog, bound: int): seq<Block>
    requires LogInv(log) && log.canon != [] && bound <= log.Tip()
  {
    if bound < Floor(log) then [] else log.canon[Floor(log) - log.base..bound + 1 - log.base]
  }

  lemma {:induction false} HeldUpTo(log: ChainLog, bound: uint32)
    requires LogInv(log) && log.canon != [] && Floor(log) <= bound <= log.Tip()
    ensures Ascending(KeysUpTo(Window(log).Keys, bound)) == Range(Floor(log), bound)
  {
    hide Increasing;
    var heights, lo := Ascending(KeysUpTo(Window(log).Keys, bound)), Floor(log);
    forall k: uint32
      ensures k in heights <==> k in Range(lo, bound)
    {
      assert k in heights <==> k in Window(log) && k <= bound;
      assert k in Window(log) <==> Held(log, k);
      assert lo <= k ==> log.base <= k by {
        FloorAboveBase(log);
      }
    }
    IncreasingUnique(heights, Range(lo, bound));
  }

  lemma {:induction false} FloorAboveBase(log: ChainLog)
    ensures log.base <= Floor(log)
  {
  }

  lemma {:induction false} SweptHits(log: ChainLog, bound: uint32, records: Records, pool: Address)
    requires LogInv(log) && log.canon != [] && bound <= log.Tip()
    ensures DeepTxids(Window(log), records, pool, bound) == TxidHits(Listing(Swept(log, bound)), records, pool)
  {
    hide TxidHits, BlockHits, DeepTxids, Listing, Increasing, Window, LogInv, Floor;
    if bound < Floor(log) {
      NothingDeepAt(log, bound, records, pool);
      NoneListed();
      NoHits(records, pool);
    } else {
      FloorAboveBase(log);
      HeldUpTo(log, bound);
      RangeHits(log, Floor(log), bound, records, pool);
      DeepAreBlockHits(Window(log), records, pool, bound);
    }
  }

  lemma {:induction false} DeepAreBlockHits(blocks: Blocks, records: Records, pool: Address, bound: uint32)
    ensures DeepTxids(blocks, records, pool, bound)
         == BlockHits(blocks, Ascending(KeysUpTo(blocks.Keys, bound)), records, pool)
  {
  }

  lemma {:induction false} NothingDeepAt(log: ChainLog, bound: uint32, records: Records, pool: Address)
    requires bound < Floor(log)
    ensures DeepTxids(Window(log), records, pool, bound) == []
  {
    assert KeysUpTo(Window(log).Keys, bound) == {};
  }

  /** The hits are listed, in the order of the listing. */
  ghost predicate InOrder(hits: seq<Txid>, listing: seq<Txid>) {
    && (forall i | 0 <= i < |hits| :: hits[i] in listing)
    && forall i, j | 0 <= i < j < |hits| :: Place(listing, hits[i]) <= Place(listing, hits[j])
  }

  lemma {:induction false} InOrderBehind(t: Txid, hits: seq<Txid>, tail: seq<Txid>)
    requires InOrder(hits, tail) && t !in tail
    ensures InOrder(hits, [t] + tail) && InOrder([t] + hits, [t] + tail)
  {
    var listing := [t] + tail;
    assert listing[1..] == tail;
    forall i | 0 <= i < |hits|
      ensures Place(listing, hits[i]) == 1 + Place(tail, hits[i])
    {
      assert hits[i] in tail;
    }
  }

  lemma {:induction false} HitsInOrder(listing: seq<Txid>, records: Records, pool: Address)
    requires NoRepeats(listing) && Tracked(records.confirmed, Some(pool))
    ensures InOrder(TxidHits(listing, records, pool), listing)
    decreases |listing|
  {
    if listing == [] {
      NoHits(records, pool);
    } else {
      hide TxidHits, Tracked, InOrder;
      var tail := listing[1..];
      HitsFirst(listing, records, pool);
      HitsInOrder(tail, records, pool);
      assert listing[0] !in tail && listing == [listing[0]] + tail;
      InOrderBehind(listing[0], TxidHits(tail, records, pool), tail);
    }
  }

  lemma {:induction false} HitsFirst(listing: seq<Txid>, records: Records, pool: Address)
    requires listing != [] && Tracked(records.confirmed, Some(pool))
    ensures TxidHits(listing, records, pool)
         == (if listing[0] in records.confirmed then [listing[0]] else []) + TxidHits(listing[1..], records, pool)
  {
    if listing[0] in records.confirmed {
      PoolHitsOnly(records.confirmed[listing[0]].pools, pool, listing[0]);
    }
  }

  // ----- aligned chains -----

  ghost predicate HasState(states: seq<PoolState>, t: Txid) {
    exists n :: 0 <= n < |states| && states[n].id == Some(t)
  }

  /** What is listed is listed behind everything it builds on. */
  ghost predicate ListedInOrder(states: seq<PoolState>, listing: seq<Txid>) {
    forall p, q | 0 <= p < q < |states| && states[p].id.Some? && states[q].id.Some? ::
      Place(listing, states[p].id.value) <= Place(listing, states[q].id.value)
  }

  /** The full pool chain and the chain of blocks agree: transactions are distinct in either and in the same
      order in both, the confirmed ones have states, and those of dropped states are below the window. */
  ghost predicate InStep(full: seq<PoolState>, dropped: nat, canon: seq<Block>, pruned: int, confirmed: set<Txid>) {
    && dropped <= |full| && 0 <= pruned <= |canon|
    && DistinctIds(full)
    && NoRepeats(Listing(canon))
    && ListedInOrder(full, Listing(canon))
    && (forall t | t in confirmed :: HasState(full, t))
    && (forall n | 0 <= n < dropped && full[n].id.Some? :: full[n].id.value in Listing(canon[..pruned]))
  }

  ghost predicate Aligned(tr: Trace) {
    && LedgerInv(tr) && BlockInv(tr) && RecordInv(tr.world)
    && InStep(Full(tr), |tr.past.archive|, tr.past.log.canon, Pruned(tr.past.log), tr.world.records.confirmed.Keys)
  }

  // ----- the environment -----

  /** What Bitcoin and the orchestrator are relied on for. Blocks are genuine; a chain lists no transaction
      twice, none that was rolled back, and each of the pool's behind those it builds on. A registration brings
      a new transaction. No rollback takes back a state whose transaction is on the chain. */
  ghost predicate Orderly(tr: Trace, m: Message) {
    var w, full, log := tr.world, Full(tr), tr.past.log;
    match m
    case MNewBlock(b) =>
      && Genuine(w, b)
      && (Admit(w, b).Ok? ==>
            && NoRepeats(Listing(Extend(log, b).canon))
            && ListedInOrder(full, Listing(Extend(log, b).canon))
            && forall t | t in b.txids && t in w.records.pending :: HasState(full, t))
    case MRegister(call) => !HasState(full, call.txid) && call.txid !in Listing(log.canon)
    case MRollback(txid) =>
      forall n | Position(w.states, txid) <= n < |w.states| && w.states[n].id.Some? ::
        w.states[n].id.value !in Listing(log.canon)
    case _ => true
  }

  ghost predicate OrderlyRun(tr: Trace, ms: seq<Message>)
    decreases |ms|
  {
    ms != [] ==> Orderly(tr, ms[0]) && OrderlyRun(Next(tr, ms[0]), ms[1..])
  }

  lemma {:induction false} OrderlyConcat(tr: Trace, first: seq<Message>, second: seq<Message>)
    requires OrderlyRun(tr, first) && OrderlyRun(Run(tr, first), second)
    ensures OrderlyRun(tr, first + second)
    decreases |first|
  {
    hide Next, Orderly;
    if first == [] {
      assert first + second == second;
    } else {
      assert (first + second)[1..] == first[1..] + second;
      OrderlyConcat(Next(tr, first[0]), first[1..], second);
    }
  }

  // ----- a sweep over aligned chains succeeds -----

  /** A list of held states' transactions in the order of the listing follows the chain. */
  lemma {:induction false} InOrderFollows(states: seq<PoolState>, listing: seq<Txid>, hits: seq<Txid>)
    requires DistinctIds(states) && ListedInOrder(states, listing)
    requires InOrder(hits, listing)
    requires forall i | 0 <= i < |hits| :: HasState(states, hits[i])
    ensures FollowsChain(states, hits)
  {
    hide DistinctIds, Place;
    forall i | 0 <= i < |hits|
      ensures Position(states, hits[i]) < |states|
    {
    }
    forall i, j | 0 <= i < j < |hits|
      ensures Position(states, hits[i]) <= Position(states, hits[j])
    {
      BuiltOn(states, listing, hits[j], hits[i]);
      if Place(listing, hits[i]) == Place(listing, hits[j]) {
        SamePlace(listing, hits[i], hits[j]);
      }
    }
  }

  lemma {:induction false} BuiltOn(states: seq<PoolState>, listing: seq<Txid>, s: Txid, t: Txid)
    requires ListedInOrder(states, listing)
    ensures Position(states, s) < Position(states, t) < |states| ==> Place(listing, s) <= Place(listing, t)
  {
    hide Place, Position;
  }

  lemma {:induction false} SamePlace(listing: seq<Txid>, s: Txid, t: Txid)
    requires s in listing && t in listing && Place(listing, s) == Place(listing, t)
    ensures s == t
  {
  }

  /** What was swept is listed, in the order of the whole chain, behind everything below the window. */
  lemma {:induction false} SweptInOrder(log: ChainLog, bound: uint32, records: Records, pool: Address)
    requires LogInv(log) && log.canon != [] && bound <= log.Tip()
    requires NoRepeats(Listing(log.canon)) && Tracked(records.confirmed, Some(pool))
    ensures var deep, listing := DeepTxids(Window(log), records, pool, bound), Listing(log.canon);
            && InOrder(deep, listing)
            && forall t | t in deep :: t in Listing(Swept(log, bound)) && t in records.confirmed
  {
    hide DeepTxids, TxidHits, Window, Tracked, Listing, InOrder, NoRepeats, LogInv, Floor;
    SweptHits(log, bound, records, pool);
    TxidHitsConfirmed(Listing(Swept(log, bound)), records, pool);
    if bound >= Floor(log) {
      FloorAboveBase(log);
      var lo, hi := Floor(log) - log.base, bound + 1 - log.base;
      var before, swept, after := Listing(log.canon[..lo]), Listing(Swept(log, bound)), Listing(log.canon[hi..]);
      SplitListing(log.canon, lo, hi);
      PartUnrepeated(before, swept, after);
      HitsInOrder(swept, records, pool);
      InOrderMiddle(TxidHits(swept, records, pool), before, swept, after);
    } else {
      NoneListed();
      NoHits(records, pool);
      NoneInOrder(Listing(log.canon));
    }
  }

  lemma {:induction false} NoneInOrder(listing: seq<Txid>)
    ensures InOrder([], listing)
  {
  }

  lemma {:induction false} InOrderMiddle(hits: seq<Txid>, before: seq<Txid>, middle: seq<Txid>, after: seq<Txid>)
    requires NoRepeats(before + middle + after) && InOrder(hits, middle)
    ensures InOrder(hits, before + middle + after)
  {
    hide NoRepeats, Place;
    forall i | 0 <= i < |hits|
      ensures Place(before + middle + after, hits[i]) == |before| + Place(middle, hits[i])
    {
      PlaceInMiddle(before, middle, after, hits[i]);
    }
  }

  lemma {:induction false} PartUnrepeated(before: seq<Txid>, middle: seq<Txid>, after: seq<Txid>)
    requires NoRepeats(before + middle + after)
    ensures NoRepeats(middle)
  {
    var all := before + middle + after;
    forall i, j | 0 <= i < j < |middle|
      ensures middle[i] != middle[j]
    {
      assert all[|before| + i] == middle[i] && all[|before| + j] == middle[j];
    }
  }

  lemma {:induction false} PlaceInMiddle(before: seq<Txid>, middle: seq<Txid>, after: seq<Txid>, t: Txid)
    requires NoRepeats(before + middle + after) && t in middle
    ensures Place(before + middle + after, t) == |before| + Place(middle, t)
  {
    PlaceConcat(before + middle, after, t);
    PlaceConcat(before, middle, t);
    NotBefore(before, middle, after, t);
  }

  /** The confirmed transactions once a block is stored: those before, and tracked ones that it lists. */
  lemma {:induction false} StoredConfirmed(tr: Trace, b: Block, t: Txid)
    requires Aligned(tr) && Orderly(tr, MNewBlock(b)) && Admit(tr.world, b).Ok?
    requires t in Confirm(Admit(tr.world, b).value.records, AsSet(b.txids)).confirmed
    ensures HasState(Full(tr), t)
  {
    hide Admit, HasState, LedgerInv, LogInv, Window, Txids, NoRepeats, ListedInOrder, CutAt;
    AdmittedStores(tr, b);
  }

  /** A confirmed transaction that is listed in the window has its state in the chain still. */
  lemma {:induction false} StateHeld(full: seq<PoolState>, archive: seq<PoolState>, states: seq<PoolState>,
                                     below: seq<Txid>, t: Txid)
    requires full == archive + states && HasState(full, t) && t !in below
    requires forall n | 0 <= n < |archive| && full[n].id.Some? :: full[n].id.value in below
    ensures HasState(states, t)
  {
    var n :| 0 <= n < |full| && full[n].id == Some(t);
    assert n >= |archive| && states[n - |archive|] == full[n];
  }

  lemma {:induction false} SuffixInStep(archive: seq<PoolState>, states: seq<PoolState>, listing: seq<Txid>)
    requires DistinctIds(archive + states) && ListedInOrder(archive + states, listing)
    ensures DistinctIds(states) && ListedInOrder(states, listing)
  {
    var full, d := archive + states, |archive|;
    forall i, j | 0 <= i < j < |states|
      ensures states[i] == full[d + i] && states[j] == full[d + j]
      ensures states[i].id.Some? ==> full[d + i].id != full[d + j].id
    {
    }
    forall p, q | 0 <= p < q < |states| && states[p].id.Some? && states[q].id.Some?
      ensures Place(listing, states[p].id.value) <= Place(listing, states[q].id.value)
    {
      assert states[p] == full[d + p] && states[q] == full[d + q];
    }
  }

  /** The deep transactions of an admitted block follow the chain, and all are listed up to the bound. */
  lemma {:induction false} DeepFollows(tr: Trace, b: Block)
    requires Aligned(tr) && Orderly(tr, MNewBlock(b)) && Admit(tr.world, b).Ok? && tr.world.address.Some?
    ensures var w, log := tr.world, Extend(tr.past.log, b);
            var deep := DeepAfter(Admit(w, b).value, b, w.address.value);
            && LogInv(log) && log.canon != [] && b.height <= log.Tip()
            && FollowsChain(w.states, deep)
            && forall t | t in deep :: t in Listing(Swept(log, b.height - 63))
  {
    hide Admit, Confirm, DeepTxids, HasState, LedgerInv, Window, Txids, NoRepeats, ListedInOrder, CutAt, Extend, LogInv;
    var w, log := tr.world, Extend(tr.past.log, b);
    AdmittedBlocks(tr, b);
    ConfirmedHeightExact(b.height);
    var records := Confirm(Admit(w, b).value.records, AsSet(b.txids));
    StoredTracked(tr, b);
    SweptInOrder(log, ConfirmedHeight(b.height), records, w.address.value);
    SuffixInStep(tr.past.archive, w.states, Listing(log.canon));
    var deep := DeepAfter(Admit(w, b).value, b, w.address.value);
    forall i | 0 <= i < |deep|
      ensures HasState(w.states, deep[i])
    {
      StoredConfirmed(tr, b, deep[i]);
      SweptAboveDropped(tr, b, deep[i]);
      StateHeld(Full(tr), tr.past.archive, w.states, Listing(tr.past.log.canon[..Pruned(tr.past.log)]), deep[i]);
    }
    InOrderFollows(w.states, Listing(log.canon), deep);
  }

  lemma {:induction false} StoredTracked(tr: Trace, b: Block)
    requires RecordInv(tr.world) && tr.world.address.Some? && Admit(tr.world, b).Ok?
    ensures Tracked(Confirm(Admit(tr.world, b).value.records, AsSet(b.txids)).confirmed, tr.world.address)
  {
    hide Admit;
    RecordsAdmitted(tr.world, b);
    AdmitFrame(tr.world, b);
  }

  lemma {:induction false} SweptBelow(log: ChainLog, height: uint32, t: Txid)
    requires LogInv(log) && log.canon != [] && height <= log.Tip() && t in Listing(Swept(log, height - 63))
    ensures Floor(log) <= height - 63
    ensures log.base <= Floor(log) && Pruned(log) == Floor(log) - log.base
    ensures t in Listing(log.canon[Floor(log) - log.base..height - 62 - log.base])
  {
    hide Listing, LogInv;
    NoneListed();
  }

  lemma {:induction false} SweptAboveDropped(tr: Trace, b: Block, t: Txid)
    requires BlockInv(tr) && Genuine(tr.world, b) && Admit(tr.world, b).Ok?
    requires NoRepeats(Listing(Extend(tr.past.log, b).canon))
    requires var log := Extend(tr.past.log, b);
             LogInv(log) && log.canon != [] && b.height <= log.Tip() && t in Listing(Swept(log, b.height - 63))
    ensures 0 <= Pruned(tr.past.log) <= |tr.past.log.canon|
    ensures t !in Listing(tr.past.log.canon[..Pruned(tr.past.log)])
  {
    hide Admit, Window, Txids, CutAt, Extend, NoRepeats, Listing, LogInv, Pruned, Floor, Swept, Classify;
    var log, n := Extend(tr.past.log, b), Pruned(tr.past.log);
    AdmittedStores(tr, b);
    PrunedStays(tr.past.log, b, b.height);
    SweptBelow(log, b.height, t);
    if t in Listing(log.canon[..n]) {
      ListedOnce(log.canon, n, Floor(log) - log.base, b.height - 62 - log.base, t);
    }
  }

  lemma {:induction false} NoneListed()
    ensures Listing([]) == []
  {
  }

  // ----- every orderly message keeps the chains aligned -----

  /** A state that is appended brings no transaction or one that is neither in the chain nor listed. */
  lemma {:induction false} InStepPush(full: seq<PoolState>, s: PoolState, dropped: nat, canon: seq<Block>, pruned: int,
                                      confirmed: set<Txid>)
    requires InStep(full, dropped, canon, pruned, confirmed)
    requires s.id.Some? ==> !HasState(full, s.id.value) && s.id.value !in Listing(canon)
    ensures InStep(full + [s], dropped, canon, pruned, confirmed)
  {
    hide Listing, NoRepeats;
    var longer := full + [s];
    forall t | t in confirmed
      ensures HasState(longer, t)
    {
      var n :| 0 <= n < |full| && full[n].id == Some(t);
      assert longer[n] == full[n];
    }
  }

  /** Cutting off states whose transactions are not listed. */
  lemma {:induction false} InStepCut(full: seq<PoolState>, k: nat, dropped: nat, canon: seq<Block>, pruned: int,
                                     confirmed: set<Txid>)
    requires InStep(full, dropped, canon, pruned, confirmed) && dropped <= k <= |full|
    requires forall t | t in confirmed :: t in Listing(canon)
    requires forall n | k <= n < |full| && full[n].id.Some? :: full[n].id.value !in Listing(canon)
    ensures InStep(full[..k], dropped, canon, pruned, confirmed)
  {
    hide Listing, NoRepeats;
    forall t | t in confirmed
      ensures HasState(full[..k], t)
    {
      var n :| 0 <= n < |full| && full[n].id == Some(t);
      assert full[..k][n] == full[n];
    }
  }

  lemma {:induction false} InStepRelabelled(full: seq<PoolState>, after: seq<PoolState>, dropped: nat,
                                            canon: seq<Block>, pruned: int, confirmed: set<Txid>)
    requires InStep(full, dropped, canon, pruned, confirmed)
    requires |after| == |full| && forall n | 0 <= n < |full| :: after[n].id == full[n].id
    ensures InStep(after, dropped, canon, pruned, confirmed)
  {
    hide Listing, NoRepeats;
    forall t | t in confirmed
      ensures HasState(after, t)
    {
      var n :| 0 <= n < |full| && full[n].id == Some(t);
      assert after[n].id == Some(t);
    }
  }

  /** The sweep drops only states before the one of its last transaction. */
  lemma {:induction false} DroppedBeforeLast(w: World, b: Block, n: nat)
    requires DistinctIds(w.states) && Admit(w, b).Ok? && n < |Gone(w.states, NewBlock(w, b).world.states)|
    ensures NewBlock(w, b).reply.Ok? && w.address.Some?
    ensures var deep := DeepAfter(Admit(w, b).value, b, w.address.value);
            deep != [] && n < Position(w.states, deep[|deep| - 1]) < |w.states|
  {
    hide Admit, NewBlock, DeepAfter, DistinctIds, Position, FollowsChain;
    assert Gone(w.states, w.states) == [];
    StatesKept(w, b);
    NewBlockReplies(w, b);
    BlockOutcome(w, b);
    FollowsFirst(w.states, DeepAfter(Admit(w, b).value, b, w.address.value));
  }

  /** The sweep drops states whose transactions are all listed below the window that the block leaves. */
  lemma {:induction false} DroppedAreSwept(tr: Trace, b: Block, n: nat)
    requires Aligned(tr) && Orderly(tr, MNewBlock(b)) && Admit(tr.world, b).Ok?
    requires n < |Gone(tr.world.states, NewBlock(tr.world, b).world.states)| && tr.world.states[n].id.Some?
    ensures var log := Extend(tr.past.log, b);
            && NewBlock(tr.world, b).reply.Ok?
            && LogInv(log) && log.canon != [] && b.height <= log.Tip() && Floor(log) <= b.height - 63
            && tr.world.states[n].id.value in Listing(log.canon[..b.height - 62 - log.base])
  {
    hide Admit, NewBlock, DeepAfter, HasState, LedgerInv, BlockInv, RecordInv, NoRepeats, Extend, LogInv, Listing,
         DistinctIds, ListedInOrder, Genuine, Swept, Place, Position, FollowsChain, Floor, Gone, Pruned;
    var w, log := tr.world, Extend(tr.past.log, b);
    SuffixInStep(tr.past.archive, w.states, Listing(log.canon));
    DroppedBeforeLast(w, b, n);
    DeepFollows(tr, b);
    var deep := DeepAfter(Admit(w, b).value, b, w.address.value);
    var s, t := w.states[n].id.value, deep[|deep| - 1];
    assert t in deep;
    PositionUnique(w.states, s, n);
    BuiltOn(w.states, Listing(log.canon), s, t);
    SweptBelow(log, b.height, t);
    ListedBelow(log.canon, Floor(log) - log.base, b.height - 62 - log.base, s, t);
  }

  lemma {:induction false} StatesKept(w: World, b: Block)
    ensures !NewBlock(w, b).reply.Ok? ==> NewBlock(w, b).world.states == w.states
  {
    hide DetectReorg, RevertBlocks, FinalizeAll, DeepTxids, Confirm, Prune;
  }

  lemma {:induction false} ListedBelow(canon: seq<Block>, lo: nat, hi: nat, s: Txid, t: Txid)
    requires lo <= hi <= |canon| && t in Listing(canon[lo..hi])
    requires Place(Listing(canon), s) <= Place(Listing(canon), t)
    ensures s in Listing(canon[..hi])
  {
    hide Listing, Place;
    SplitListing(canon, lo, hi);
    var below, above := Listing(canon[..hi]), Listing(canon[hi..]);
    PlaceConcat(below, above, s);
    PlaceConcat(below, above, t);
  }

  /** An orderly block never traps: if it is admitted while the address is set, it is answered Ok. */
  lemma {:induction false} OrderlyReplies(tr: Trace, b: Block)
    requires Aligned(tr) && Orderly(tr, MNewBlock(b))
    ensures !NewBlock(tr.world, b).reply.Trap?
    ensures NewBlock(tr.world, b).reply.Ok? <==> Admit(tr.world, b).Ok? && tr.world.address.Some?
  {
    hide Admit, DeepAfter, HasState, LedgerInv, LogInv, RecordInv, NoRepeats, Extend, Listing, DistinctIds,
         ListedInOrder, FollowsChain, CutAt, Unconfirm, Window, Txids, Swept, Confirm, FinalizeAll, DeepTxids;
    AdmittedStores(tr, b);
    if Admit(tr.world, b).Ok? {
      AdmitFrame(tr.world, b);
      if tr.world.address.Some? {
        DeepFollows(tr, b);
        SuffixInStep(tr.past.archive, tr.world.states, Listing(Extend(tr.past.log, b).canon));
        BlockOutcome(tr.world, b);
      }
    }
  }

  lemma {:induction false} PrunedBelow(log: ChainLog, height: uint32)
    requires LogInv(log) && log.canon != [] && height <= log.Tip() && Floor(log) <= height - 63
    ensures var raised := if height > log.peak then log.(peak := height) else log;
            height - 62 - log.base <= Pruned(raised)
  {
    hide LogInv;
  }

  /** The states dropped so far and by this block are below the window that the block leaves. */
  lemma {:induction false} DroppedStayBelow(tr: Trace, b: Block, n: nat)
    requires Aligned(tr) && Orderly(tr, MNewBlock(b)) && Admit(tr.world, b).Ok?
    requires var next := Next(tr, MNewBlock(b));
             && BlockInv(next) && Full(next) == Full(tr)
             && n < |next.past.archive| && Full(next)[n].id.Some?
    ensures var log := Next(tr, MNewBlock(b)).past.log;
            && 0 <= Pruned(log) <= |log.canon|
            && Full(tr)[n].id.value in Listing(log.canon[..Pruned(log)])
  {
    hide Next, Admit, NewBlock, HasState, LedgerInv, RecordInv, NoRepeats, Extend, Listing, DistinctIds, ListedInOrder,
         CutAt, Unconfirm, Window, Txids, Confirm, LogInv, Pruned;
    var w, log, next := tr.world, tr.past.log, Next(tr, MNewBlock(b));
    var n0, id := |tr.past.archive|, Full(tr)[n].id.value;
    AdmittedStores(tr, b);
    BlockDelivered(tr, b);
    OrderlyReplies(tr, b);
    PrunedStays(log, b, b.height);
    ExtendKeepsPeak(log, b);
    PrunedWithin(next.past.log);
    if n < n0 {
      ListingPrefix(next.past.log.canon, Pruned(log), Pruned(next.past.log));
    } else {
      assert w.states[n - n0].id.value == id;
      DroppedAreSwept(tr, b, n - n0);
      PrunedBelow(Extend(log, b), b.height);
      ListingPrefix(next.past.log.canon, b.height - 62 - next.past.log.base, Pruned(next.past.log));
    }
  }

  lemma {:induction false} AlignedNewBlock(tr: Trace, b: Block)
    requires Aligned(tr) && Orderly(tr, MNewBlock(b))
    ensures Aligned(Next(tr, MNewBlock(b)))
  {
    hide NewBlock, Admit, HasState, LedgerInv, RecordInv, NoRepeats, Extend, Listing, DistinctIds, ListedInOrder,
         Confirm, Window, Txids, LogInv;
    var w, next := tr.world, Next(tr, MNewBlock(b));
    LedgerNewBlock(tr, b);
    BlockInvNewBlock(tr, b);
    RecordsNewBlock(w, b);
    OrderlyReplies(tr, b);
    NewBlockStores(w, b);
    StatesKept(w, b);
    if Admit(w, b).Ok? {
      forall t | t in next.world.records.confirmed
        ensures HasState(Full(tr), t)
      {
        StoredConfirmed(tr, b, t);
      }
      PrunedWithin(next.past.log);
      forall n | 0 <= n < |next.past.archive| && Full(tr)[n].id.Some?
        ensures Full(tr)[n].id.value in Listing(next.past.log.canon[..Pruned(next.past.log)])
      {
        DroppedStayBelow(tr, b, n);
      }
    } else {
      assert Gone(w.states, w.states) == [];
    }
  }

  lemma {:induction false} AlignedRollback(tr: Trace, txid: Txid)
    requires Aligned(tr) && Orderly(tr, MRollback(txid))
    ensures InStep(Full(Next(tr, MRollback(txid))), |tr.past.archive|, tr.past.log.canon, Pruned(tr.past.log),
                   tr.world.records.confirmed.Keys)
  {
    hide LedgerInv, RecordInv, RollbackTx, InStep, Listing, Txids, LogInv, Window;
    FullRollback(tr, txid);
    var full, k := Full(tr), |Full(Next(tr, MRollback(txid)))|;
    if RollbackTx(tr.world, txid).world != tr.world {
      forall t | t in tr.world.records.confirmed
        ensures t in Listing(tr.past.log.canon)
      {
        ListingTxids(tr.past.log.canon, t);
      }
      forall n | k <= n < |full| && full[n].id.Some?
        ensures full[n].id.value !in Listing(tr.past.log.canon)
      {
        assert full[n] == tr.world.states[n - |tr.past.archive|];
      }
      InStepCut(full, k, |tr.past.archive|, tr.past.log.canon, Pruned(tr.past.log), tr.world.records.confirmed.Keys);
    } else {
      assert full[..k] == full;
    }
  }

  lemma {:induction false} AlignedOther(tr: Trace, m: Message)
    requires Aligned(tr) && Orderly(tr, m) && !m.MNewBlock?
    ensures InStep(Full(Next(tr, m)), |tr.past.archive|, tr.past.log.canon, Pruned(tr.past.log),
                   tr.world.records.confirmed.Keys)
  {
    hide LedgerInv, RecordInv, BlockInv, Process, InStep, Listing;
    var full, after := Full(tr), Full(Next(tr, m));
    FullStep(tr, m);
    AppendedByMessage(tr.world, m);
    if m.MRollback? {
      AlignedRollback(tr, m.txid);
    } else if m.MUpdateRuneInfo? {
      forall n | 0 <= n < |full|
        ensures after[n].id == full[n].id
      {
        assert after[n].(runeBalance := 0).id == full[n].(runeBalance := 0).id;
      }
      InStepRelabelled(full, after, |tr.past.archive|, tr.past.log.canon, Pruned(tr.past.log),
                       tr.world.records.confirmed.Keys);
    } else if after != full {
      var s := after[|full|];
      assert after == full + [s];
      InStepPush(full, s, |tr.past.archive|, tr.past.log.canon, Pruned(tr.past.log),
                 tr.world.records.confirmed.Keys);
    }
  }

  lemma {:induction false} AlignedStep(tr: Trace, m: Message)
    requires Aligned(tr) && Orderly(tr, m)
    ensures Aligned(Next(tr, m))
  {
    hide LedgerInv, RecordInv, BlockInv, Process, InStep, Orderly;
    if m.MNewBlock? {
      AlignedNewBlock(tr, m.block);
    } else {
      LedgerStep(tr, m);
      BlockInvStep(tr, m);
      RecordStep(tr.world, m);
      RecordsStay(tr.world, m);
      FullStep(tr, m);
      AlignedOther(tr, m);
    }
  }

  // ----- runs -----

  /** Every block message of a run that is admitted while the address is set is answered Ok, and none traps. */
  ghost predicate NoBlockTraps(tr: Trace, ms: seq<Message>)
    decreases |ms|
  {
    ms != [] ==>
      && (ms[0].MNewBlock? ==>
            var w, b := tr.world, ms[0].block;
            && !NewBlock(w, b).reply.Trap?
            && (NewBlock(w, b).reply.Ok? <==> Admit(w, b).Ok? && w.address.Some?))
      && NoBlockTraps(Next(tr, ms[0]), ms[1..])
  }

  lemma {:induction false} OrderlyFrom(tr: Trace, ms: seq<Message>)
    requires Aligned(tr) && OrderlyRun(tr, ms)
    ensures Aligned(Run(tr, ms)) && NoBlockTraps(tr, ms)
    decreases |ms|
  {
    hide Next, NewBlock, Admit, Aligned, Orderly;
    if ms != [] {
      if ms[0].MNewBlock? {
        OrderlyReplies(tr, ms[0].block);
      }
      AlignedStep(tr, ms[0]);
      OrderlyFrom(Next(tr, ms[0]), ms[1..]);
    }
  }

  lemma {:induction false} StartAligned(registerFee: uint64, coolingDown: uint64, perClaim: uint128)
    ensures Aligned(Start(registerFee, coolingDown, perClaim))
  {
    var start := Start(registerFee, coolingDown, perClaim);
    hide Window, Txids;
    assert Window(start.past.log) == map[];
    assert LedgerInv(start) && RecordInv(start.world);
  }

  /** While Bitcoin lists the pool's transactions in the order of its chain and nothing listed is rolled back,
      the unwraps in the sweep never fail: over any such run from the start no block message traps, whatever
      reorganizations, rollbacks and duplicates it contains. */
  lemma {:induction false} OrderlyRunsNeverTrap(registerFee: uint64, coolingDown: uint64, perClaim: uint128,
                                                ms: seq<Message>)
    requires OrderlyRun(Start(registerFee, coolingDown, perClaim), ms)
    ensures NoBlockTraps(Start(registerFee, coolingDown, perClaim), ms)
    ensures Aligned(Run(Start(registerFee, coolingDown, perClaim), ms))
  {
    hide Next, NewBlock, Aligned, Orderly;
    StartAligned(registerFee, coolingDown, perClaim);
    OrderlyFrom(Start(registerFee, coolingDown, perClaim), ms);
  }
}
