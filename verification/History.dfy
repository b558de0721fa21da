/** Runs of messages, with a ghost memory of what the stores forget. */
module History {
  import opened Types
  import opened GameRules
  import opened PoolChain
  import opened BlockWindow
  import opened Messages

  /** The unbounded chain of accepted blocks: `canon[i]` has height `base + i`; `peak` is the greatest height
      ever accepted with an Ok reply, -1 before. */
  datatype ChainLog = ChainLog(base: int, canon: seq<Block>, peak: int)
  {
    function Tip(): int { base + |canon| - 1 }
  }

  /** What the stores forget: the pool states dropped by finalizing, the number of initial states pushed, the
      cookies that rolled-back gamers held, the place in the full chain where the premine was recorded, as long
      as no rollback pops it, and every block ever accepted. */
  datatype Past = Past(archive: seq<PoolState>, inits: nat, forfeited: nat, mint: Option<nat>, log: ChainLog)

  datatype Trace = Trace(world: World, past: Past)

  ghost function Start(registerFee: uint64, coolingDown: uint64, perClaim: uint128): Trace {
    Trace(InitialWorld(registerFee, coolingDown, perClaim), Past([], 0, 0, None, ChainLog(0, [], -1)))
  }

  /** The prefix that `after` no longer has. */
  function Gone(before: seq<PoolState>, after: seq<PoolState>): seq<PoolState> {
    if |after| <= |before| then before[..|before| - |after|] else []
  }

  /** Appends a block, or replaces the chain from its height on; a block already there changes nothing. */
  function Extend(log: ChainLog, b: Block): ChainLog {
    if log.canon == [] then ChainLog(b.height, [b], log.peak)
    else
      var i := b.height - log.base;
      if 0 <= i < |log.canon| && log.canon[i].hash == b.hash then log
      else if 0 <= i <= |log.canon| then log.(canon := log.canon[..i] + [b])
      else log
  }

  /** The log after a block message with the given reply; only classified blocks are logged. */
  function NextLog(log: ChainLog, b: Block, admitted: bool, reply: Result<()>): ChainLog {
    if !admitted || reply.Trap? then log
    else
      var extended := Extend(log, b);
      if reply.Ok? && b.height > log.peak then extended.(peak := b.height) else extended
  }

  ghost function Remember(past: Past, w: World, m: Message): Past {
    var after := Process(w, m);
    match m
    case MInitBtcUtxo(_) => if |after.states| > |w.states| then past.(inits := past.inits + 1) else past
    case MNewBlock(b) =>
      past.(archive := past.archive + Gone(w.states, after.states),
            log := NextLog(past.log, b, Admit(w, b).Ok?, NewBlock(w, b).reply))
    case MRollback(_) =>
      past.(forfeited := past.forfeited + SumCookies(Departed(w.gamers, after.gamers.Keys)),
            mint := if past.mint.Some? && |past.archive| + |after.states| <= past.mint.value then None else past.mint)
    case MUpdateRuneInfo(utxo) =>
      if UpdateRuneInfo(w, utxo).reply.Ok? then past.(mint := Some(|past.archive| + |w.states| - 1)) else past
    case _ => past
  }

  ghost function Next(tr: Trace, m: Message): Trace {
    Trace(Process(tr.world, m), Remember(tr.past, tr.world, m))
  }

  ghost function Run(tr: Trace, ms: seq<Message>): Trace
    decreases |ms|
  {
    if ms == [] then tr else Run(Next(tr, ms[0]), ms[1..])
  }

  lemma {:induction false} RunSplit(tr: Trace, ms: seq<Message>, k: nat)
    requires k <= |ms|
    ensures Run(tr, ms) == Run(Run(tr, ms[..k]), ms[k..])
    decreases k
  {
    hide Next;
    if k > 0 {
      RunSplit(Next(tr, ms[0]), ms[1..], k - 1);
      assert ms[..k][1..] == ms[1..][..k - 1] && ms[k..] == ms[1..][k - 1..];
    } else {
      assert ms[k..] == ms;
    }
  }

  lemma {:induction false} RunConcat(tr: Trace, first: seq<Message>, second: seq<Message>)
    ensures Run(tr, first + second) == Run(Run(tr, first), second)
  {
    hide Run;
    RunSplit(tr, first + second, |first|);
    assert (first + second)[..|first|] == first && (first + second)[|first|..] == second;
  }

  /** Every pool state since the start that was not rolled back. */
  function Full(tr: Trace): seq<PoolState> {
    tr.past.archive + tr.world.states
  }

  lemma {:induction false} BlockDelivered(tr: Trace, b: Block)
    ensures var w, d, next := tr.world, NewBlock(tr.world, b), Next(tr, MNewBlock(b));
            && next.world == d.world
            && next.past.log == NextLog(tr.past.log, b, Admit(w, b).Ok?, d.reply)
  {
    hide NewBlock, NextLog, Admit;
  }

  // ----- what a rollback does at most -----

  lemma {:induction false} PositionInPrefix(states: seq<PoolState>, txid: Txid, k: nat)
    requires k <= Position(states, txid)
    ensures Position(states[..k], txid) == k
  {
    var p := Position(states[..k], txid);
    assert forall i | 0 <= i < k :: states[..k][i] == states[i];
  }

  /** However often the pool is listed, a successful rollback happens at most once. */
  lemma {:induction false} RollbackAtMostOnce(states: seq<PoolState>, gamers: Gamers, pools: seq<Address>,
                                              pool: Address, txid: Txid)
    ensures var r := RollbackEach(states, gamers, pools, pool, txid);
            r.reply.Ok? ==>
              if pool !in pools then r.states == states && r.gamers == gamers
              else
                var once := RollbackChain(states, gamers, txid);
                once.reply.Ok? && r.states == once.states && r.gamers == once.gamers
    decreases |pools|
  {
    if pools != [] {
      if pools[0] != pool {
        RollbackAtMostOnce(states, gamers, pools[1..], pool, txid);
      } else {
        var r := RollbackChain(states, gamers, txid);
        if r.reply.Ok? {
          var p := Position(states, txid);
          UnwindClosedForm(states, gamers, p);
          PositionInPrefix(states, txid, p);
          RollbackAtMostOnce(r.states, r.gamers, pools[1..], pool, txid);
          assert RollbackChain(r.states, r.gamers, txid).reply.Err?;
        }
      }
    }
  }

  /** A rollback message that changes anything keeps a non-empty prefix of the chain and restores the
      gamers behind it. */
  lemma {:induction false} RollbackEffect(w: World, txid: Txid)
    requires RollbackTx(w, txid).world != w
    ensures var after := RollbackTx(w, txid).world; var p := Position(w.states, txid);
            && 0 < p < |w.states|
            && Undoable(w.states[p..], w.gamers)
            && after == w.(states := w.states[..p], gamers := Restored(w.gamers, w.states[p..]))
  {
    var record := if txid in w.records.confirmed then w.records.confirmed[txid] else w.records.pending[txid];
    RollbackAtMostOnce(w.states, w.gamers, record.pools, w.address.value, txid);
    UnwindClosedForm(w.states, w.gamers, Position(w.states, txid));
  }
}
