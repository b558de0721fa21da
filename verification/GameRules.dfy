/** The cookie game (src/game/game.rs, src/game/gamer.rs, src/utils.rs) as functions on values. */
module GameRules {
  import opened Types

  datatype Gamer = Gamer(address: Address, cookies: uint128, lastClickTime: uint64, isWithdrawn: bool)

  type Gamers = map<Address, Gamer>

  datatype GameData = GameData(
    isEnd: bool,
    registerFee: uint64,
    coolingDown: uint64,
    perClaim: uint128,
    claimed: uint128)

  function NewGamer(address: Address): Gamer {
    Gamer(address, 0, 0, false)
  }

  /** Canister time is in nanoseconds; the game counts seconds. */
  function Seconds(nanos: uint64): uint64 {
    nanos / 1_000_000_000
  }

  function AbleClaim(game: GameData, gamers: Gamers, id: Address, now: uint64): Result<()> {
    if game.isEnd then Err(GameEnd)
    else if id !in gamers then Err(GamerNotFound(id))
    else
      var ready := WrapAdd64(gamers[id].lastClickTime, game.coolingDown);
      if now > ready then Ok(()) else Err(GamerCoolingDown(id, ready))
  }

  /** What a claim leaves behind: the game, the gamers and the reply. */
  datatype ClaimResult = ClaimResult(game: GameData, gamers: Gamers, reply: Result<uint128>)

  /** A claim; the total is raised before the gamer's own addition is checked. */
  function ClaimCookies(game: GameData, gamers: Gamers, id: Address, now: uint64): ClaimResult {
    match AbleClaim(game, gamers, id, now)
    case Err(e) => ClaimResult(game, gamers, Err(e))
    case Trap => ClaimResult(game, gamers, Trap)
    case Ok(_) =>
      if id !in gamers then ClaimResult(game, gamers, Err(GamerNotFound(id)))
      else match CheckedAdd128(game.claimed, game.perClaim)
        case None => ClaimResult(game, gamers, Err(Overflow))
        case Some(total) =>
          var raised := game.(claimed := total);
          match CheckedAdd128(gamers[id].cookies, game.perClaim)
          case None => ClaimResult(raised, gamers, Err(Overflow))
          case Some(cookies) =>
            ClaimResult(raised, gamers[id := gamers[id].(cookies := cookies, lastClickTime := now)], Ok(cookies))
  }

  /** The premine etched for a total of claimed cookies: 120/100 of it, on 128-bit words. */
  function Premine(claimed: uint128): uint128 {
    WrapMul128(claimed, 120) / 100
  }

  /** What the premine is on 128-bit words: 120 cookies' worth, less whole words, and a hundredth of the rest. */
  lemma {:induction false} PremineExact(claimed: uint128) returns (words: nat, cut: nat)
    ensures cut < 100 && 100 * Premine(claimed) + cut < U128_MOD
    ensures 100 * Premine(claimed) + cut + words * U128_MOD == 120 * claimed
  {
    var left := claimed * 120 % U128_MOD;
    words, cut := claimed * 120 / U128_MOD, left % 100;
    assert 100 * Premine(claimed) + cut == left;
  }

  /** The premine covers the claimed cookies exactly while the product fits the word,
      and it then exceeds them by one fifth. */
  lemma PremineCovers(claimed: uint128)
    ensures Premine(claimed) >= claimed <==> claimed * 120 < U128_MOD
    ensures claimed * 120 < U128_MOD ==> Premine(claimed) - claimed == claimed / 5
  {
    if claimed * 120 >= U128_MOD {
      var k := claimed * 120 / U128_MOD;
      assert WrapMul128(claimed, 120) == claimed * 120 - k * U128_MOD;
    }
  }

  // ----- the sum of the live gamers' cookies -----

  ghost function SumCookies(gamers: Gamers): nat
    decreases |gamers|
  {
    if gamers == map[] then 0
    else
      var a :| a in gamers;
      gamers[a].cookies + SumCookies(gamers - {a})
  }

  lemma {:induction false} SumRemove(gamers: Gamers, a: Address)
    requires a in gamers
    ensures SumCookies(gamers) == gamers[a].cookies + SumCookies(gamers - {a})
    decreases |gamers|
  {
    var b :| b in gamers && SumCookies(gamers) == gamers[b].cookies + SumCookies(gamers - {b});
    if a != b {
      SumRemove(gamers - {b}, a);
      SumRemove(gamers - {a}, b);
      assert gamers - {a} - {b} == gamers - {b} - {a};
    }
  }

  lemma SumUpdate(gamers: Gamers, a: Address, g: Gamer)
    ensures SumCookies(gamers[a := g])
         == SumCookies(gamers) + g.cookies - (if a in gamers then gamers[a].cookies else 0)
  {
    var updated := gamers[a := g];
    SumRemove(updated, a);
    if a in gamers {
      SumRemove(gamers, a);
      assert updated - {a} == gamers - {a};
    } else {
      assert updated - {a} == gamers;
    }
  }

  /** The part of `gamers` that is absent from `kept`. */
  function Departed(gamers: Gamers, kept: set<Address>): Gamers {
    map a | a in gamers && a !in kept :: gamers[a]
  }

  lemma {:induction false} SumSplit(gamers: Gamers, gone: set<Address>)
    ensures SumCookies(gamers) == SumCookies(gamers - gone) + SumCookies(Departed(gamers, (gamers - gone).Keys))
    decreases |gone|
  {
    if gone == {} {
      assert gamers - gone == gamers;
      assert Departed(gamers, gamers.Keys) == map[];
    } else {
      var a :| a in gone;
      var rest := gone - {a};
      SumSplit(gamers, rest);
      if a in gamers {
        SumRemove(gamers - rest, a);
        assert gamers - rest - {a} == gamers - gone;
        var out := Departed(gamers, (gamers - gone).Keys);
        SumRemove(out, a);
        assert out - {a} == Departed(gamers, (gamers - rest).Keys);
      } else {
        assert gamers - rest == gamers - gone;
      }
    }
  }

  lemma SumBounds(gamers: Gamers, a: Address)
    requires a in gamers
    ensures gamers[a].cookies <= SumCookies(gamers)
  {
    SumRemove(gamers, a);
  }
}
