/** Values shared by every part of the canister: fixed-width integers, coins, replies and errors. */
module Types {

  const U32_MOD := 0x1_0000_0000
  const U64_MOD := 0x1_0000_0000_0000_0000
  const U128_MOD := 0x1_0000_0000_0000_0000_0000_0000_0000_0000

  type uint32 = x: int | 0 <= x < U32_MOD
  type uint64 = x: int | 0 <= x < U64_MOD
  type uint128 = x: int | 0 <= x < U128_MOD

  datatype Option<+T> = None | Some(value: T)

  /** A message either replies with a value, replies with an error (its edits stay), or traps
      (a panic or a failed unwrap; the edits of the whole message are discarded). */
  datatype Result<+T> = Ok(value: T) | Err(error: Error) | Trap

  type Address = string
  type Principal = string
  type CoinId = string

  datatype Txid = Txid(hex: string)

  const BTC: CoinId := "0:0"

  datatype CoinBalance = CoinBalance(id: CoinId, value: uint128)
  datatype InputCoin = InputCoin(from: Address, coin: CoinBalance)
  datatype OutputCoin = OutputCoin(to: Address, coin: CoinBalance)

  /** An unspent output; its outpoint is an opaque string. */
  datatype Utxo = Utxo(outpoint: string, maybeRune: Option<CoinBalance>, sats: uint64)

  datatype SignPsbtFault = CoinsMismatch | SpendEmpty | SpendMismatch | ReceiveMissing | BadOutpoint

  datatype Error =
    | Overflow
    | ChainKeyError
    | LastStateNotFound
    | GameEnd
    | GameNotEnd
    | GamerAlreadyExist(address: Address)
    | GamerNotFound(who: string)
    | GamerWithdrawRepeatedly(address: Address)
    | GamerCoolingDown(address: Address, next: uint64)
    | InvalidSignPsbtArgs(fault: SignPsbtFault)
    | PoolStateExpired(nonce: uint64)
    | InvalidState(reason: string)
    | BlockNotFound(height: uint32)
    | Text(message: string)

  // Unchecked arithmetic of a release build wraps around.

  function WrapAdd32(a: uint32, b: uint32): uint32 { (a + b) % U32_MOD }

  function WrapSub32(a: uint32, b: uint32): uint32 { (a - b) % U32_MOD }

  function WrapAdd64(a: uint64, b: uint64): uint64 { (a + b) % U64_MOD }

  function WrapMul64(a: uint64, b: uint64): uint64 { (a * b) % U64_MOD }

  function WrapMul128(a: uint128, b: uint128): uint128 { (a * b) % U128_MOD }

  function WrapSub128(a: uint128, b: uint128): uint128 { (a - b) % U128_MOD }

  function CheckedAdd64(a: uint64, b: uint64): Option<uint64> {
    if a + b < U64_MOD then Some(a + b) else None
  }

  function CheckedAdd128(a: uint128, b: uint128): Option<uint128> {
    if a + b < U128_MOD then Some(a + b) else None
  }
}
