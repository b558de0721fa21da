/** The game object (src/game/game.rs): its methods update its fields and the stored gamers. */
module GameObject {
  import opened Types
  import opened GameRules
  import opened Memory

  class Game {
    var isEnd: bool
    var registerFee: uint64
    var coolingDown: uint64
    var perClaim: uint128
    var claimedCookies: uint128

    constructor (registerFee: uint64, coolingDown: uint64, perClaim: uint128)
      ensures View() == GameData(false, registerFee, coolingDown, perClaim, 0)
    {
      this.isEnd := false;
      this.registerFee := registerFee;
      this.coolingDown := coolingDown;
      this.perClaim := perClaim;
      this.claimedCookies := 0;
    }

    function View(): GameData
      reads this
    {
      GameData(isEnd, registerFee, coolingDown, perClaim, claimedCookies)
    }

    method RegisterNewGamer(mem: Stores, id: Address)
      modifies mem`gamers
      ensures mem.gamers == old(mem.gamers)[id := NewGamer(id)]
    {
      mem.gamers := mem.gamers[id := NewGamer(id)];
    }

    /** A claim works on a copy of the gamer; the copy is stored only at the end. */
    method Claim(mem: Stores, id: Address, now: uint64) returns (r: Result<uint128>)
      modifies this`claimedCookies, mem`gamers
      ensures ClaimResult(View(), mem.gamers, r) == ClaimCookies(old(View()), old(mem.gamers), id, now)
    {
      var able := AbleClaim(View(), mem.gamers, id, now);
      if able.Err? {
        return Err(able.error);
      }
      var gamer := mem.gamers[id];
      var total := CheckedAdd128(claimedCookies, perClaim);
      if total.None? {
        return Err(Overflow);
      }
      claimedCookies := total.value;
      var cookies := CheckedAdd128(gamer.cookies, perClaim);
      if cookies.None? {
        return Err(Overflow);
      }
      gamer := gamer.(cookies := cookies.value, lastClickTime := now);
      mem.gamers := mem.gamers[id := gamer];
      return Ok(gamer.cookies);
    }

    /** Marks a gamer as paid out, once and only after the end. */
    method Withdraw(mem: Stores, id: Address) returns (r: Result<uint128>)
      modifies mem`gamers
      ensures r.Ok? <==> id in old(mem.gamers) && isEnd && !old(mem.gamers)[id].isWithdrawn
      ensures r.Ok? ==> r.value == old(mem.gamers)[id].cookies
                        && mem.gamers == old(mem.gamers)[id := old(mem.gamers)[id].(isWithdrawn := true)]
      ensures !r.Ok? ==> mem.gamers == old(mem.gamers)
      ensures !r.Ok? ==>
                r == Err(if id !in old(mem.gamers) then GamerNotFound(id)
                         else if !isEnd then GameNotEnd
                         else GamerWithdrawRepeatedly(id))
    {
      if id !in mem.gamers {
        return Err(GamerNotFound(id));
      }
      var gamer := mem.gamers[id];
      if isEnd {
        if !gamer.isWithdrawn {
          mem.gamers := mem.gamers[id := gamer.(isWithdrawn := true)];
          return Ok(gamer.cookies);
        } else {
          return Err(GamerWithdrawRepeatedly(id));
        }
      } else {
        return Err(GameNotEnd);
      }
    }
  }
}
