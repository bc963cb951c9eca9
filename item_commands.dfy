/**
  The item commands as they run: `drop`, `get`, `put`, `empty` and `fill`
  update the player's inventory, the room's floor and the stored item
  records in place. Each method is proved to leave exactly the state its
  specification in `Transfers` describes.

  `room` is the room the store holds under the player's location, or null
  when it holds none.
*/
module ItemCommands {
  import opened Options
  import opened Dictionaries
  import opened Items
  import opened Resolver
  import opened World
  import opened Ownership
  import opened Weights
  import opened Searches
  import opened Transfers

  /** The room as a frame: nothing when there is no room. */
  function RoomFrame(room: Room?): set<Room> {
    if room == null then {} else {room}
  }

  function FloorOf(room: Room?): Dict
    reads room
  {
    if room == null then [] else room.Items
  }

  /** The collections one command can touch. */
  function SceneOf(p: Player, room: Room?, db: Database): Scene
    reads p, room, db
  {
    Scene(p.Inventory, FloorOf(room), db.items)
  }

  /** The first key in `keys` whose record carries `kw` (the `foreach` of `put` and of the inner container scan). */
  method FindCarrying(keys: seq<string>, items: map<string, Item>, kw: string) returns (r: Option<string>)
    ensures r == FirstCarrying(keys, items, kw)
  {
    var i := 0;
    while i < |keys|
      invariant 0 <= i <= |keys|
      invariant forall j | 0 <= j < i :: !Carries(items, keys[j], kw)
    {
      var key := keys[i];
      if key in items && kw in items[key].keywords {
        FirstCarryingFrom(keys, i, items, kw);
        return Some(key);
      }
      i := i + 1;
    }
    return None;
  }

  /** The first key in `keys` naming a container that carries `kw`. */
  method FindBag(keys: seq<string>, items: map<string, Item>, kw: string) returns (r: Option<string>)
    ensures r == FirstBag(keys, items, kw)
  {
    var i := 0;
    while i < |keys|
      invariant 0 <= i <= |keys|
      invariant forall j | 0 <= j < i :: !IsBag(items, keys[j], kw)
    {
      var key := keys[i];
      if key in items && items[key].wearLocation == Container && kw in items[key].keywords {
        FirstBagFrom(keys, i, items, kw);
        return Some(key);
      }
      i := i + 1;
    }
    return None;
  }

  /**
    The container scan of `get <item> <container>`: every container carrying
    `kwC` is searched in turn for a record carrying `kwI`; `found` says
    whether any container carrying `kwC` was seen.
  */
  method FindHit(keys: seq<string>, items: map<string, Item>, kwC: string, kwI: string)
    returns (hit: Option<(string, string)>, found: bool)
    ensures hit == FirstHit(keys, items, kwC, kwI)
    ensures hit.None? ==> (found <==> FirstBag(keys, items, kwC).Some?)
  {
    found := false;
    var i := 0;
    while i < |keys|
      invariant 0 <= i <= |keys|
      invariant forall j | 0 <= j < i :: !IsHit(items, keys[j], kwC, kwI)
      invariant found <==> exists j | 0 <= j < i :: IsBag(items, keys[j], kwC)
    {
      var key := keys[i];
      if key in items && items[key].wearLocation == Container && kwC in items[key].keywords {
        found := true;
        var inner := FindCarrying(KeysOf(items[key].contained), items, kwI);
        if inner.Some? {
          FirstHitFrom(keys, i, items, kwC, kwI);
          return Some((key, inner.value)), found;
        }
      }
      i := i + 1;
    }
    hit := None;
  }

  // ------------------------------------------------------ one transfer each

  /** `room.RemoveItem(item)` then `Inventory.Add`. */
  method PickUpStep(p: Player, room: Room, db: Database, key: string, name: string)
    requires Ready(SceneOf(p, room, db)) && key in KeySet(room.Items)
    modifies p`Inventory, room`Items
    ensures SceneOf(p, room, db) == Transfer(old(SceneOf(p, room, db)), OnFloor, InInventory, key, name)
  {
    ghost var s := SceneOf(p, room, db);
    PickUpForm(s, key, name);
    var floor, inv := Remove(room.Items, key), Add(p.Inventory, key, name);
    ghost var t := Scene(inv, floor, s.items);
    assert t == Transfer(s, OnFloor, InInventory, key, name);
    room.Items, p.Inventory := floor, inv;
    assert SceneOf(p, room, db) == t;
  }

  /** `Inventory.Remove` then `room.AddItem`. */
  method DropStep(p: Player, room: Room, db: Database, key: string, name: string)
    requires Ready(SceneOf(p, room, db)) && key in KeySet(p.Inventory)
    modifies p`Inventory, room`Items
    ensures SceneOf(p, room, db) == Transfer(old(SceneOf(p, room, db)), InInventory, OnFloor, key, name)
  {
    ghost var s := SceneOf(p, room, db);
    DropForm(s, key, name);
    var inv, floor := Remove(p.Inventory, key), Add(room.Items, key, name);
    ghost var t := Scene(inv, floor, s.items);
    assert t == Transfer(s, InInventory, OnFloor, key, name);
    p.Inventory, room.Items := inv, floor;
    assert SceneOf(p, room, db) == t;
  }

  /** `container.ContainedItems.Remove` then `Inventory.Add`. */
  method TakeOutStep(p: Player, room: Room?, db: Database, c: string, key: string, name: string)
    requires Ready(SceneOf(p, room, db)) && c in db.items && key in KeySet(db.items[c].contained)
    modifies p`Inventory, db`items
    ensures SceneOf(p, room, db) == Transfer(old(SceneOf(p, room, db)), InContainer(c), InInventory, key, name)
  {
    ghost var s := SceneOf(p, room, db);
    TakeOutForm(s, c, key, name);
    var items, inv := db.items[c := db.items[c].(contained := Remove(db.items[c].contained, key))], Add(p.Inventory, key, name);
    ghost var t := Scene(inv, s.floor, items);
    assert t == Transfer(s, InContainer(c), InInventory, key, name);
    db.items, p.Inventory := items, inv;
    assert SceneOf(p, room, db) == t;
  }

  /** `Inventory.Remove` then `container.ContainedItems.Add`. */
  method PutInStep(p: Player, room: Room?, db: Database, c: string, key: string, name: string)
    requires Ready(SceneOf(p, room, db)) && c in db.items && key in KeySet(p.Inventory)
    modifies p`Inventory, db`items
    ensures SceneOf(p, room, db) == Transfer(old(SceneOf(p, room, db)), InInventory, InContainer(c), key, name)
  {
    ghost var s := SceneOf(p, room, db);
    PutInForm(s, c, key, name);
    var inv, items := Remove(p.Inventory, key), db.items[c := db.items[c].(contained := Add(db.items[c].contained, key, name))];
    ghost var t := Scene(inv, s.floor, items);
    assert t == Transfer(s, InInventory, InContainer(c), key, name);
    p.Inventory, db.items := inv, items;
    assert SceneOf(p, room, db) == t;
  }

  /** `container.ContainedItems.Remove` then `room.Items.Add`. */
  method TossStep(p: Player, room: Room, db: Database, c: string, key: string, name: string)
    requires Ready(SceneOf(p, room, db)) && c in db.items && key in KeySet(db.items[c].contained)
    modifies db`items, room`Items
    ensures SceneOf(p, room, db) == Transfer(old(SceneOf(p, room, db)), InContainer(c), OnFloor, key, name)
  {
    ghost var s := SceneOf(p, room, db);
    TossForm(s, c, key, name);
    var items, floor := db.items[c := db.items[c].(contained := Remove(db.items[c].contained, key))], Add(room.Items, key, name);
    ghost var t := Scene(s.inv, floor, items);
    assert t == Transfer(s, InContainer(c), OnFloor, key, name);
    db.items, room.Items := items, floor;
    assert SceneOf(p, room, db) == t;
  }

  /** `room.Items.Remove` then the indexer `container.ContainedItems[key] = name`. */
  method StowStep(p: Player, room: Room, db: Database, c: string, key: string, name: string)
    requires Ready(SceneOf(p, room, db)) && c in db.items && key in KeySet(room.Items)
    modifies db`items, room`Items
    ensures SceneOf(p, room, db) == Transfer(old(SceneOf(p, room, db)), OnFloor, InContainer(c), key, name)
  {
    ghost var s := SceneOf(p, room, db);
    StowForm(s, c, key, name);
    var floor, items := Remove(room.Items, key), db.items[c := db.items[c].(contained := Assign(db.items[c].contained, key, name))];
    ghost var t := Scene(s.inv, floor, items);
    assert t == Transfer(s, OnFloor, InContainer(c), key, name);
    room.Items, db.items := floor, items;
    assert SceneOf(p, room, db) == t;
  }

  // ------------------------------------------------------------ commands

  /** `drop <item>`. */
  method Drop(p: Player, room: Room?, db: Database, args: seq<string>) returns (reply: Reply)
    requires Ready(SceneOf(p, room, db))
    modifies p`Inventory, RoomFrame(room)`Items
    ensures (SceneOf(p, room, db), reply) == Transfers.Drop(old(SceneOf(p, room, db)), args, room != null)
  {
    ghost var s0 := SceneOf(p, room, db);
    if |args| == 0 {
      return Crashed;
    }
    var found := FindInventoryItem(p.Inventory, db.items, args[0]);
    match found
    case Overflow => return Crashed;
    case NotFound => return NoItem;
    case Found(item) =>
      ResolveIsNthMatch(s0.inv, s0.items, args[0]);
      if room != null {
        DropStep(p, room, db, item.key, item.name);
        reply := Done;
      } else {
        p.Inventory := Remove(p.Inventory, item.key);
        reply := Silent;
      }
  }

  /** `get all`: the floor is walked through a snapshot of its keys. */
  method GetAllItems(p: Player, room: Room, db: Database) returns (reply: Reply)
    requires Ready(SceneOf(p, room, db))
    modifies p`Inventory, room`Items
    ensures SceneOf(p, room, db) == GetAll(old(SceneOf(p, room, db)), old(p.MaxInventory), old(p.Weight), old(p.MaxWeight))
    ensures reply == if room.Items == [] then Done else AllYouCould
  {
    ghost var s0 := SceneOf(p, room, db);
    var maxInv, w, maxW := p.MaxInventory, p.Weight, p.MaxWeight;
    var keys := KeysOf(room.Items);
    var i := 0;
    while i < |keys|
      invariant 0 <= i <= |keys|
      invariant Ready(SceneOf(p, room, db)) && db.items == s0.items
      invariant room.Items == s0.floor[i..]
      invariant GetAll(SceneOf(p, room, db), maxInv, w, maxW) == GetAll(s0, maxInv, w, maxW)
      decreases |keys| - i
    {
      ghost var s := SceneOf(p, room, db);
      var key := keys[i];
      assert room.Items[0] == s0.floor[i] && key == room.Items[0].key;
      if key in db.items
        && |p.Inventory| + 1 < maxInv
        && w + db.items[key].weight < maxW
      {
        var item := db.items[key];
        assert HeadFits(s, maxInv, w, maxW);
        PickUpHead(s, maxInv, w, maxW);
        assert room.Items[0] in room.Items;
        assert s0.floor[i..][1..] == s0.floor[i + 1..];
        PickUpStep(p, room, db, item.key, item.name);
      } else {
        assert !HeadFits(s, maxInv, w, maxW);
        assert GetAll(s, maxInv, w, maxW) == s;
        assert SceneOf(p, room, db) == GetAll(s0, maxInv, w, maxW);
        return AllYouCould;
      }
      i := i + 1;
    }
    assert room.Items == [] && GetAll(SceneOf(p, room, db), maxInv, w, maxW) == SceneOf(p, room, db);
    assert SceneOf(p, room, db) == GetAll(s0, maxInv, w, maxW);
    reply := Done;
  }

  /** `get <keyword>`: only the first floor entry is looked at. */
  method GetOneItem(p: Player, room: Room, db: Database, kw: string) returns (reply: Reply)
    requires Ready(SceneOf(p, room, db))
    modifies p`Inventory, room`Items
    ensures (SceneOf(p, room, db), reply) == GetOne(old(SceneOf(p, room, db)), kw, p.MaxInventory, p.Weight, p.MaxWeight)
  {
    if room.Items == [] {
      return Silent;
    }
    var key := room.Items[0].key;
    if key in db.items
      && |p.Inventory| + 1 < p.MaxInventory
      && p.Weight + db.items[key].weight < p.MaxWeight
      && kw in db.items[key].keywords
    {
      var item := db.items[key];
      assert room.Items[0] in room.Items;
      PickUpStep(p, room, db, item.key, item.name);
      return Done;
    }
    return Refused;
  }

  /** `get <item> <container>`, with both arguments lower-cased by the caller. */
  method GetFromContainer(p: Player, room: Room?, db: Database, kwI: string, kwC: string) returns (reply: Reply)
    requires Ready(SceneOf(p, room, db))
    modifies p`Inventory, db`items
    ensures (SceneOf(p, room, db), reply) ==
      GetFrom(old(SceneOf(p, room, db)), kwI, kwC, p.MaxInventory, p.Weight, p.MaxWeight, room != null)
  {
    KeysOfKeySet(p.Inventory);
    var hit, found := FindHit(KeysOf(p.Inventory), db.items, kwC, kwI);
    if hit.Some? {
      reply := GetFromCarriedContainer(p, room, db, hit.value.0, hit.value.1);
      return;
    }
    if found || room == null {
      return GetWhat;
    }
    reply := GetFromFloorContainer(p, room, db, kwI, kwC);
  }

  /** The inventory half of `get <item> <container>`, once the container and the item are found. */
  method GetFromCarriedContainer(p: Player, room: Room?, db: Database, c: string, k: string) returns (reply: Reply)
    requires Ready(SceneOf(p, room, db)) && c in db.items && k in KeySet(db.items[c].contained) && k in db.items
    modifies p`Inventory, db`items
    ensures (SceneOf(p, room, db), reply) == GetFromCarried(old(SceneOf(p, room, db)), c, k, p.MaxInventory)
  {
    if |p.Inventory| + 1 < p.MaxInventory {
      var it := db.items[k];
      TakeOutStep(p, room, db, c, it.key, it.name);
      return Done;
    }
    return HandsFull;
  }

  /** The floor half of `get <item> <container>`. */
  method GetFromFloorContainer(p: Player, room: Room, db: Database, kwI: string, kwC: string) returns (reply: Reply)
    requires Ready(SceneOf(p, room, db))
    modifies p`Inventory, db`items
    ensures (SceneOf(p, room, db), reply) ==
      GetFromFloor(old(SceneOf(p, room, db)), kwI, kwC, p.MaxInventory, p.Weight, p.MaxWeight)
  {
    var hit, _ := FindHit(KeysOf(room.Items), db.items, kwC, kwI);
    if hit.None? {
      return NoContainer;
    }
    var (c, k) := hit.value;
    var it := db.items[k];
    if |p.Inventory| + 1 > p.MaxInventory {
      return HandsFull;
    } else if p.Weight + it.weight > p.MaxWeight {
      return TooHeavy;
    }
    TakeOutStep(p, room, db, c, it.key, it.name);
    return Done;
  }

  /** The `get` command. */
  method Get(p: Player, room: Room?, db: Database, args: seq<string>) returns (reply: Reply)
    requires Ready(SceneOf(p, room, db))
    modifies p`Inventory, RoomFrame(room)`Items, db`items
    ensures (SceneOf(p, room, db), reply) ==
      Transfers.Get(old(SceneOf(p, room, db)), args, p.MaxInventory, p.Weight, p.MaxWeight, room != null)
  {
    if |args| == 0 {
      return ShowSyntax;
    }
    if args[0] == "all" {
      if room == null {
        return Silent;
      }
      reply := GetAllItems(p, room, db);
      return;
    }
    if |args| == 1 {
      if room == null {
        return Silent;
      }
      reply := GetOneItem(p, room, db, args[0]);
      return;
    }
    reply := GetFromContainer(p, room, db, Lower(args[0]), Lower(args[1]));
  }

  /** `put <item> <container>`. */
  method Put(p: Player, room: Room?, db: Database, args: seq<string>) returns (reply: Reply)
    requires Ready(SceneOf(p, room, db))
    modifies db`items, p`Inventory
    ensures (SceneOf(p, room, db), reply) == Transfers.Put(old(SceneOf(p, room, db)), args, room != null)
  {
    if |args| < 2 {
      return ShowSyntax;
    }
    var argContainer := args[1];
    var argItem := args[0];
    var putItem := FindCarrying(KeysOf(p.Inventory), db.items, argItem);
    if putItem.None? {
      return NoItem;
    }
    var container := FindBag(KeysOf(p.Inventory), db.items, argContainer);
    if container.None? && room != null {
      container := FindBag(KeysOf(room.Items), db.items, argContainer);
    }
    if container.None? {
      return NoContainer;
    }
    KeysOfKeySet(p.Inventory);
    var it := db.items[putItem.value];
    PutInStep(p, room, db, container.value, it.key, it.name);
    return Done;
  }

  /** The loop of `empty`: every entry of a snapshot of the contents goes to the floor. */
  method EmptyInto(p: Player, room: Room, db: Database, c: string)
    requires Ready(SceneOf(p, room, db)) && c in db.items
    modifies db`items, room`Items
    ensures SceneOf(p, room, db) == EmptyAll(old(SceneOf(p, room, db)), c)
  {
    ghost var s0 := SceneOf(p, room, db);
    var contents := db.items[c].contained;
    var i := 0;
    while i < |contents|
      invariant 0 <= i <= |contents|
      invariant Ready(SceneOf(p, room, db)) && c in db.items
      invariant db.items[c].contained == contents[i..]
      invariant EmptyAll(SceneOf(p, room, db), c) == EmptyAll(s0, c)
      decreases |contents| - i
    {
      ghost var s := SceneOf(p, room, db);
      var e := contents[i];
      assert Bag(s, InContainer(c)) == contents[i..] && DistinctKeys(Bag(s, InContainer(c)));
      assert contents[i..][0] == e && e in contents[i..];
      RemoveHead(contents[i..]);
      assert contents[i..][1..] == contents[i + 1..];
      TossStep(p, room, db, c, e.key, e.name);
      i := i + 1;
    }
  }

  /** `empty <container>`. */
  method Empty(p: Player, room: Room?, db: Database, args: seq<string>) returns (reply: Reply)
    requires Ready(SceneOf(p, room, db))
    modifies db`items, RoomFrame(room)`Items
    ensures (SceneOf(p, room, db), reply) == Transfers.Empty(old(SceneOf(p, room, db)), args, room != null)
  {
    ghost var s0 := SceneOf(p, room, db);
    if |args| == 0 {
      return Crashed;
    }
    var found := FindInventoryItem(p.Inventory, db.items, args[0]);
    if found.Overflow? {
      return Crashed;
    } else if found.NotFound? {
      return NoContainer;
    }
    ResolveIsNthMatch(s0.inv, s0.items, args[0]);
    var c := found.item.key;
    if room == null {
      var contents := db.items[c].contained;
      if contents != [] {
        db.items := db.items[c := db.items[c].(contained := Remove(db.items[c].contained, contents[0].key))];
      }
      return Crashed;
    }
    EmptyInto(p, room, db, c);
    return Done;
  }

  /** The loop of `fill`, over a snapshot of the floor's keys. */
  method FillInto(p: Player, room: Room, db: Database, c: string) returns (reply: Reply)
    requires Ready(SceneOf(p, room, db)) && c in db.items
    modifies db`items, room`Items
    ensures OnFloorDistinct(old(SceneOf(p, room, db)), old(KeysOf(room.Items)))
    ensures (SceneOf(p, room, db), reply) == FillFrom(old(SceneOf(p, room, db)), c, old(KeysOf(room.Items)), p.Weight, p.MaxWeight)
  {
    ghost var s0 := SceneOf(p, room, db);
    FloorKeysDistinct(s0);
    var keys := KeysOf(room.Items);
    var i := 0;
    while i < |keys|
      invariant 0 <= i <= |keys|
      invariant Ready(SceneOf(p, room, db)) && c in db.items
      invariant OnFloorDistinct(SceneOf(p, room, db), keys[i..])
      invariant FillFrom(SceneOf(p, room, db), c, keys[i..], p.Weight, p.MaxWeight) == FillFrom(s0, c, keys, p.Weight, p.MaxWeight)
      decreases |keys| - i
    {
      ghost var s := SceneOf(p, room, db);
      var key := keys[i];
      assert keys[i..][0] == key && keys[i..][1..] == keys[i + 1..];
      if key in db.items {
        var roomItem := db.items[key];
        if p.Weight + roomItem.weight <= p.MaxWeight {
          StowStep(p, room, db, c, roomItem.key, roomItem.name);
        } else {
          return AllYouCould;
        }
      }
      i := i + 1;
    }
    return Done;
  }

  /** `fill <container>`. */
  method Fill(p: Player, room: Room?, db: Database, args: seq<string>) returns (reply: Reply)
    requires Ready(SceneOf(p, room, db))
    modifies db`items, RoomFrame(room)`Items
    ensures (SceneOf(p, room, db), reply) == Transfers.Fill(old(SceneOf(p, room, db)), args, p.Weight, p.MaxWeight, room != null)
  {
    ghost var s0 := SceneOf(p, room, db);
    if |args| == 0 {
      return Crashed;
    }
    var found := FindInventoryItem(p.Inventory, db.items, args[0]);
    if found.Overflow? {
      return Crashed;
    } else if found.NotFound? {
      return NoContainer;
    }
    ResolveIsNthMatch(s0.inv, s0.items, args[0]);
    if room == null {
      return Crashed;
    }
    reply := FillInto(p, room, db, found.item.key);
  }
}
