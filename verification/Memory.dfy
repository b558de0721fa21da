/** The canister's stable maps (src/memory.rs). */
module Memory {
  import opened Types
  import opened GameRules
  import opened BlockWindow

  class Stores {
    var gamers: Gamers
    var principals: map<Principal, Address>
    var blocks: Blocks
    var records: Records

    constructor ()
      ensures gamers == map[] && principals == map[] && blocks == map[] && records == Records(map[], map[])
    {
      gamers, principals, blocks, records := map[], map[], map[], Records(map[], map[]);
    }
  }
}
