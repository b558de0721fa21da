/** The canister's messages (src/canister.rs) as functions from the stores before to the stores after. */
module Messages {
  import opened Types
  import opened GameRules
  import opened PoolChain
  import opened BlockWindow

  /** Everything the canister stores. */
  datatype World = World(
    key: Option<string>,
    address: Option<Address>,
    runeId: Option<CoinId>,
    game: GameData,
    states: seq<PoolState>,
    status: GameStatus,
    gamers: Gamers,
    principals: map<Principal, Address>,
    blocks: Blocks,
    records: Records)

  /** The stores and the reply once a message is processed. */
  datatype Delivery<+T> = Delivery(world: World, reply: Result<T>)

  function InitialWorld(registerFee: uint64, coolingDown: uint64, perClaim: uint128): World {
    World(None, None, None, GameData(false, registerFee, coolingDown, perClaim, 0), [],
          Initialize(false, false), map[], map[], map[], Records(map[], map[]))
  }

  // ----- setting up -----

  /** `fetched` is the key and address that the management canister yields, if it does. */
  function InitKey(w: World, fetched: Option<(string, Address)>): Delivery<Address> {
    if w.address.Some? then Delivery(w, Ok(w.address.value))
    else match fetched
      case None => Delivery(w, Err(ChainKeyError))
      case Some((key, address)) =>
        match w.status.FinishInitKey()
        case None => Delivery(w, Trap)
        case Some(status) =>
          Delivery(w.(key := Some(key), address := Some(address), status := status), Ok(address))
  }

  function InitBtcUtxo(w: World, utxo: Utxo): Delivery<()> {
    match w.status.FinishInitBtc()
    case None => Delivery(w, Trap)
    case Some(status) =>
      Delivery(w.(states := w.states + [PoolState(None, 0, utxo, None, 0, Init)], status := status), Ok(()))
  }

  // ----- registering -----

  /** A register transaction, with what the calls to foreign code yield: whether the PSBT decodes, what
      the received outpoint parses to, whether signing succeeds and the initiator's principal. */
  datatype RegisterCall = RegisterCall(
    txid: Txid,
    initiator: Address,
    intention: Intention,
    psbtDecodes: bool,
    parsed: Option<string>,
    signed: bool,
    principal: Option<Principal>)

  /** The part of a registration before its first await: it only reads. */
  function PrepareRegister(w: World, call: RegisterCall): Result<(PoolState, Utxo)> {
    if !call.psbtDecodes then Err(Text("invalid psbt"))
    else if w.address.None? then Err(Text("Exchange address not init"))
    else if w.address.value != call.intention.poolAddress then Err(Text("address not match"))
    else ValidateRegister(w.gamers.Keys, w.game.registerFee, w.states, call.txid, call.initiator,
                          call.intention, call.parsed)
  }

  function AddPool(record: TxRecord, pool: Address): TxRecord {
    if pool in record.pools then record else TxRecord(record.pools + [pool])
  }

  function Track(records: Records, txid: Txid, pool: Address): Records {
    var record := if txid in records.pending then records.pending[txid] else TxRecord([]);
    records.(pending := records.pending[txid := AddPool(record, pool)])
  }

  /** The part of a registration after its last await. */
  function CommitRegister(w: World, call: RegisterCall, principal: Principal, newState: PoolState): World {
    w.(gamers := w.gamers[call.initiator := NewGamer(call.initiator)],
       states := w.states + [newState],
       principals := w.principals[principal := call.initiator],
       records := Track(w.records, call.txid, call.intention.poolAddress))
  }

  /** A registration as one step. */
  function ExecuteRegister(w: World, call: RegisterCall): Delivery<()> {
    match PrepareRegister(w, call)
    case Err(e) => Delivery(w, Err(e))
    case Trap => Delivery(w, Trap)
    case Ok((newState, _)) =>
      if !call.signed then Delivery(w, Err(Text("sign failed")))
      else if call.principal.None? then Delivery(w, Err(Text("get_principal failed")))
      else Delivery(CommitRegister(w, call, call.principal.value, newState), Ok(()))
  }

  // ----- playing -----

  function Claim(w: World, caller: Principal, nanos: uint64): Delivery<uint128> {
    if caller !in w.principals then Delivery(w, Err(GamerNotFound(caller)))
    else
      var r := ClaimCookies(w.game, w.gamers, w.principals[caller], Seconds(nanos));
      Delivery(w.(game := r.game, gamers := r.gamers), r.reply)
  }

  function EndGame(w: World): Delivery<()> {
    match w.status.End()
    case None => Delivery(w, Trap)
    case Some(status) => Delivery(w.(game := w.game.(isEnd := true), status := status), Ok(()))
  }

  /** Records the minted premine in the last state; every missing piece is a panic. */
  function UpdateRuneInfo(w: World, utxo: Utxo): Delivery<()> {
    if utxo.maybeRune.None? || w.states == [] then Delivery(w, Trap)
    else
      var n := |w.states| - 1;
      var rune := utxo.maybeRune.value;
      if rune.value != Premine(w.game.claimed) then Delivery(w, Trap)
      else match w.status.RuneMinted()
        case None => Delivery(w, Trap)
        case Some(status) =>
          Delivery(w.(runeId := Some(rune.id),
                      states := w.states[..n] + [w.states[n].(runeBalance := rune.value)],
                      status := status), Ok(()))
  }

  datatype LiquidityInfo = LiquidityInfo(btc: uint64, runes: uint128)

  function QueryAddLiquidityInfo(w: World): LiquidityInfo {
    LiquidityInfo(WrapMul64(w.game.registerFee, |w.gamers| % U64_MOD),
                  WrapSub128(Premine(w.game.claimed), w.game.claimed))
  }

  // ----- blocks -----

  /** Stores a classified block, confirms its transactions, finalizes the deep ones and prunes. A missing
      pool address is an error reply only after the block is stored. */
  function AcceptBlock(w: World, b: Block): Delivery<()> {
    var stored := w.(blocks := w.blocks[b.height := b], records := Confirm(w.records, AsSet(b.txids)));
    match w.address
    case None => Delivery(stored, Err(Text("pool address not init")))
    case Some(pool) =>
      var bound := ConfirmedHeight(b.height);
      match FinalizeAll(w.states, DeepTxids(stored.blocks, stored.records, pool, bound))
      case Ok(states) => Delivery(stored.(states := states, blocks := Prune(stored.blocks, bound)), Ok(()))
      case Err(_) => Delivery(w, Trap)
      case Trap => Delivery(w, Trap)
  }

  /** The stores once a block is classified and the blocks it replaces, if any, are reverted. */
  function Admit(w: World, b: Block): Result<World> {
    match DetectReorg(w.blocks, b)
    case Unrecoverable => Err(Text("Unrecoverable reorg detected"))
    case NotFound(height) => Err(BlockNotFound(height))
    case Extends => Ok(w)
    case Duplicate => Ok(w)
    case Recoverable(height, depth) =>
      match RevertBlocks(w.blocks, w.records, height, depth)
      case Err(e) => Err(e)
      case Trap => Trap
      case Ok(r) => Ok(w.(blocks := r.blocks, records := r.records))
  }

  function NewBlock(w: World, b: Block): Delivery<()> {
    match Admit(w, b)
    case Err(e) => Delivery(w, Err(e))
    case Trap => Delivery(w, Trap)
    case Ok(admitted) =>
      var d := AcceptBlock(admitted, b);
      if d.reply.Trap? then Delivery(w, Trap) else d
  }

  /** Rolls the chain back once for every time the pool is listed; a failure is an unwrap on an error. */
  function RollbackEach(states: seq<PoolState>, gamers: Gamers, pools: seq<Address>, pool: Address, txid: Txid)
    : UnwindResult
    decreases |pools|
  {
    if pools == [] then UnwindResult(states, gamers, Ok(()))
    else if pools[0] != pool then RollbackEach(states, gamers, pools[1..], pool, txid)
    else
      var r := RollbackChain(states, gamers, txid);
      if !r.reply.Ok? then UnwindResult(states, gamers, Trap)
      else RollbackEach(r.states, r.gamers, pools[1..], pool, txid)
  }

  function RollbackTx(w: World, txid: Txid): Delivery<()> {
    match w.address
    case None => Delivery(w, Err(Text("pool address not init")))
    case Some(pool) =>
      if txid !in w.records.confirmed && txid !in w.records.pending then Delivery(w, Trap)
      else
        var record := if txid in w.records.confirmed then w.records.confirmed[txid] else w.records.pending[txid];
        var r := RollbackEach(w.states, w.gamers, record.pools, pool, txid);
        if r.reply.Ok? then Delivery(w.(states := r.states, gamers := r.gamers), Ok(()))
        else Delivery(w, Trap)
  }

  // ----- any message -----

  datatype Message =
    | MInitKey(fetched: Option<(string, Address)>)
    | MInitBtcUtxo(utxo: Utxo)
    | MRegister(call: RegisterCall)
    | MClaim(caller: Principal, nanos: uint64)
    | MEndGame
    | MUpdateRuneInfo(premine: Utxo)
    | MNewBlock(block: Block)
    | MRollback(txid: Txid)

  function Process(w: World, m: Message): World {
    match m
    case MInitKey(fetched) => InitKey(w, fetched).world
    case MInitBtcUtxo(utxo) => InitBtcUtxo(w, utxo).world
    case MRegister(call) => ExecuteRegister(w, call).world
    case MClaim(caller, nanos) => Claim(w, caller, nanos).world
    case MEndGame => EndGame(w).world
    case MUpdateRuneInfo(utxo) => UpdateRuneInfo(w, utxo).world
    case MNewBlock(block) => NewBlock(w, block).world
    case MRollback(txid) => RollbackTx(w, txid).world
  }

  // ----- what each message leaves alone -----

  /** `after` differs from `before` in blocks, records and at most a proper prefix of the chain. */
  ghost predicate OnlyBlocksMoved(before: World, after: World) {
    && after == before.(states := after.states, blocks := after.blocks, records := after.records)
    && |after.states| <= |before.states|
    && after.states == before.states[|before.states| - |after.states|..]
    && (before.states != [] ==> after.states != [])
  }

  lemma {:induction false} AcceptBlockFrame(w: World, b: Block)
    ensures OnlyBlocksMoved(w, AcceptBlock(w, b).world)
  {
    hide FinalizeAll, DeepTxids, Confirm, Prune;
    var blocks, records := w.blocks[b.height := b], Confirm(w.records, AsSet(b.txids));
    if w.address.Some? {
      var deep := DeepTxids(blocks, records, w.address.value, ConfirmedHeight(b.height));
      if FinalizeAll(w.states, deep).Ok? {
        SweepLeavesSuffix(w.states, deep);
      }
    }
  }

  lemma {:induction false} NothingMoved(w: World)
    ensures OnlyBlocksMoved(w, w)
  {
  }

  lemma {:induction false} AdmitFrame(w: World, b: Block)
    requires Admit(w, b).Ok?
    ensures var after := Admit(w, b).value; after == w.(blocks := after.blocks, records := after.records)
  {
    hide DetectReorg, RevertBlocks;
  }

  lemma {:induction false} MovedOnward(before: World, middle: World, after: World)
    requires middle == before.(blocks := middle.blocks, records := middle.records)
    requires OnlyBlocksMoved(middle, after)
    ensures OnlyBlocksMoved(before, after)
  {
  }

  /** A block message touches only the pool chain, the blocks and the records; the chain loses at most a
      proper prefix. A trap changes nothing. */
  lemma {:induction false} NewBlockFrame(w: World, b: Block)
    ensures OnlyBlocksMoved(w, NewBlock(w, b).world)
    ensures NewBlock(w, b).reply.Trap? ==> NewBlock(w, b).world == w
  {
    hide Admit, AcceptBlock, OnlyBlocksMoved;
    var admitted := Admit(w, b);
    NothingMoved(w);
    if admitted.Ok? {
      AdmitFrame(w, b);
      AcceptBlockFrame(admitted.value, b);
      MovedOnward(w, admitted.value, AcceptBlock(admitted.value, b).world);
    }
  }

  lemma {:induction false} AdmitReverted(w: World, b: Block, height: uint32, depth: uint32, r: ReorgResult)
    requires DetectReorg(w.blocks, b) == Recoverable(height, depth)
    requires RevertBlocks(w.blocks, w.records, height, depth) == Ok(r)
    ensures Admit(w, b) == Ok(w.(blocks := r.blocks, records := r.records))
  {
  }

  /** The blocks and records after a block message, by its reply. */
  lemma {:induction false} NewBlockStores(w: World, b: Block)
    ensures var d := NewBlock(w, b);
            if Admit(w, b).Ok? && !d.reply.Trap? then
              var admitted := Admit(w, b).value;
              var blocks := admitted.blocks[b.height := b];
              && d.world.records == Confirm(admitted.records, AsSet(b.txids))
              && d.world.blocks == if d.reply.Ok? then Prune(blocks, ConfirmedHeight(b.height)) else blocks
            else d.world == w && !d.reply.Ok?
  {
  }

  /** An Ok reply needs an admitted block and an address; an admitted block without an address is stored all
      the same, but never finalizes. */
  lemma {:induction false} NewBlockReplies(w: World, b: Block)
    ensures var d := NewBlock(w, b);
            && (d.reply.Ok? ==> Admit(w, b).Ok? && w.address.Some?)
            && (d.reply.Err? && Admit(w, b).Ok? ==> w.address.None?)
  {
  }

  lemma {:induction false} RegisterFrame(w: World, call: RegisterCall)
    ensures ExecuteRegister(w, call).world.game == w.game
    ensures ExecuteRegister(w, call).world.address == w.address
  {
    hide PrepareRegister, Track;
  }

  /** A claim keeps the set of gamers; an error reply changes the game at most. */
  lemma {:induction false} ClaimFrame(w: World, caller: Principal, nanos: uint64)
    ensures var after := Claim(w, caller, nanos).world;
            && after == w.(game := w.game.(claimed := after.game.claimed), gamers := after.gamers)
            && after.gamers.Keys == w.gamers.Keys
            && (forall a | a in w.gamers && (caller !in w.principals || a != w.principals[caller]) ::
                  after.gamers[a] == w.gamers[a])
  {
  }
}
