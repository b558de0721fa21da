/** The exchange state object (src/state.rs): the pool chain is appended to, cut and popped in place. */
module State {
  import opened Types
  import opened GameRules
  import opened PoolChain
  import opened Memory
  import opened GameObject

  class ExchangeState {
    var key: Option<string>
    var address: Option<Address>
    var runeId: Option<CoinId>
    const game: Game
    var states: seq<PoolState>
    var status: GameStatus

    constructor (registerFee: uint64, coolingDown: uint64, perClaim: uint128)
      ensures fresh(game) && game.View() == GameData(false, registerFee, coolingDown, perClaim, 0)
      ensures key.None? && address.None? && runeId.None? && states == [] && status == Initialize(false, false)
    {
      key, address, runeId := None, None, None;
      game := new Game(registerFee, coolingDown, perClaim);
      states := [];
      status := Initialize(false, false);
    }

    method Commit(state: PoolState)
      modifies this`states
      ensures states == old(states) + [state]
    {
      states := states + [state];
    }

    /** Rotates the finalized state to the front and truncates what it passed. */
    method Finalize(txid: Txid) returns (r: Result<()>)
      modifies this`states
      ensures match FinalizeChain(old(states), txid)
              case Ok(left) => r == Ok(()) && states == left
              case Err(e) => r == Err(e) && states == old(states)
              case Trap => false
    {
      var idx := Position(states, txid);
      if idx == |states| {
        return Err(InvalidState("txid not found"));
      }
      if idx == 0 {
        return Ok(());
      }
      RotateTruncateIsDrop(states, idx);
      states := RotateLeft(states, idx);
      states := Truncate(states, |states| - idx);
      return Ok(());
    }

    /** Pops states down to the transaction's own, undoing each in the stored gamers. */
    method Rollback(mem: Stores, txid: Txid) returns (r: Result<()>)
      modifies this`states, mem`gamers
      ensures UnwindResult(states, mem.gamers, r) == RollbackChain(old(states), old(mem.gamers), txid)
    {
      var idx := Position(states, txid);
      if idx == |states| {
        return Err(InvalidState("txid not found"));
      }
      if idx == 0 {
        return Err(InvalidState("Should not rollback index 0 state"));
      }
      while |states| > idx
        invariant Unwind(states, mem.gamers, idx) == Unwind(old(states), old(mem.gamers), idx)
        decreases |states|
      {
        var state := states[|states| - 1];
        states := states[..|states| - 1];
        match state.userAction
        case Init =>
          return Err(InvalidState("Should not rollback init action"));
        case Register(address) =>
          mem.gamers := mem.gamers - {address};
        case Withdraw(address) =>
          if address !in mem.gamers {
            return Trap;
          }
          var gamer := mem.gamers[address].(isWithdrawn := false);
          mem.gamers := mem.gamers[address := gamer];
      }
      return Ok(());
    }
  }
}
