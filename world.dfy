/**
  The mutable objects the item commands and NPCs act on. Only the fields the
  modelled code reads or writes are given; `Player` is not part of the
  source shown, so its fields are those the item commands use. `Weight`
  is a given value: the item commands read it and never change it.
*/
module World {
  import opened Dictionaries
  import opened Items

  class Player {
    var Location: string
    var Inventory: Dict
    var Gold: int
    var Weight: int
    var MaxWeight: int
    var MaxInventory: int
  }

  /** One exit of a room: its direction word, the room it leads to, and whether it is open. */
  datatype Exit = Exit(direction: string, leadsTo: string, isOpen: bool)

  class Room {
    var Key: string
    var Area: string
    var Items: Dict
    var Exits: seq<Exit>
    /** The keys of the NPCs present (what `AddNpc`/`RemoveNpc` maintain). */
    var Npcs: set<string>
    /** Corpse key to the millisecond at which it decays. */
    var CorpseQueue: map<string, int>
  }

  class Area {
    var Key: string
    var RepopQueue: seq<string>
  }

  /** The key-value store, as the records it holds: item records by key, and
      the keys of the stored NPC records. */
  class Database {
    var items: map<string, Item>
    var npcs: set<string>
  }
}
