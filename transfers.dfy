/**
  What each item command does to the collections it touches, as a function
  of the scene before the command: `drop`, the three forms of `get`, `put`,
  `empty` and `fill`. Each is stated under the ownership invariant and
  keeps it.
*/
module Transfers {
  import opened Options
  import opened Dictionaries
  import opened Items
  import opened Resolver
  import opened Ownership
  import opened Weights
  import opened Searches

  /** Which message a command writes to the player. */
  datatype Reply =
    | Silent       // nothing is written
    | ShowSyntax   // the command's syntax lines
    | NoSuchPlayer // "Who is ...?"
    | NotHere      // "... is not here."
    | TooPoor      // "You don't have that much..."
    | NoItem       // "Can't find item" / "Couldn't find"
    | NoContainer  // "Can't find container ..."
    | HandsFull    // "Your hands are too full."
    | TooHeavy     // "You can't carry that much weight."
    | Refused      // "You couldn't pick that up."
    | GetWhat      // "Get what from what?"
    | AllYouCould  // "You picked up all you could." / "You filled all you could..."
    | Done         // the command's success message
    | Crashed      // an exception leaves the command

  /** The scene every command starts from: ownership holds and records are filed under their keys. */
  ghost predicate Ready(s: Scene) {
    Owned(s) && StoreValid(s.items)
  }

  /**
    Move the held key `k` from `src` to `dst`, filed under the name `n`. The
    result is ready again, `k` is at `dst` only, no other key moves, and no
    record changes weight.
  */
  function Transfer(s: Scene, src: Place, dst: Place, k: string, n: string): (r: Scene)
    requires Ready(s) && IsPlace(s, src) && IsPlace(s, dst) && src != dst
    requires k in KeySet(Bag(s, src))
    ensures k !in KeySet(Bag(s, dst))
    ensures Ready(r) && r.items.Keys == s.items.Keys && SameWeights(s.items, r.items)
    ensures Bag(r, src) == Remove(Bag(s, src), k)
    ensures Bag(r, dst) == Add(Bag(s, dst), k, n)
    ensures !src.InContainer? && !dst.InContainer? ==> r.items == s.items
  {
    HeldOnce(s, src, k);
    MoveKeepsOwnership(s, src, dst, k, n);
    MoveKeepsWeights(s, src, dst, k, n);
    MoveBagAt(s, src, dst, k, n, src);
    MoveBagAt(s, src, dst, k, n, dst);
    Move(s, src, dst, k, n)
  }

  /** After a transfer `k` is held at `dst` only, and every other place and key is as before. */
  lemma TransferHolding(s: Scene, src: Place, dst: Place, k: string, n: string)
    requires Ready(s) && IsPlace(s, src) && IsPlace(s, dst) && src != dst
    requires k in KeySet(Bag(s, src))
    ensures var r := Transfer(s, src, dst, k, n);
      forall q | q != src && q != dst :: Bag(r, q) == Bag(s, q)
    ensures var r := Transfer(s, src, dst, k, n);
      forall q :: k in KeySet(Bag(r, q)) <==> q == dst
    ensures var r := Transfer(s, src, dst, k, n);
      forall q, x | x != k :: x in KeySet(Bag(r, q)) <==> x in KeySet(Bag(s, q))
  {
    MoveKeepsOwnership(s, src, dst, k, n);
    forall q | q != src && q != dst ensures Bag(Move(s, src, dst, k, n), q) == Bag(s, q) {
      MoveBagAt(s, src, dst, k, n, q);
    }
  }

  /** Remove `k` from `src` and file it nowhere. */
  function Discard(s: Scene, src: Place, k: string): (r: Scene)
    requires Ready(s) && IsPlace(s, src) && k in KeySet(Bag(s, src))
    ensures Ready(r) && Bag(r, src) == Remove(Bag(s, src), k)
    ensures forall q :: k !in KeySet(Bag(r, q))
  {
    DiscardLosesItem(s, src, k);
    WithBag(s, src, Remove(Bag(s, src), k))
  }

  // ------------------------------------------------ the directions used

  /** `drop`: inventory to floor. */
  lemma DropForm(s: Scene, k: string, n: string)
    requires Ready(s) && k in KeySet(s.inv)
    ensures k !in KeySet(s.floor)
    ensures Transfer(s, InInventory, OnFloor, k, n) == Scene(Remove(s.inv, k), Add(s.floor, k, n), s.items)
  {
    HeldOnce(s, InInventory, k);
    assert k !in KeySet(Bag(s, OnFloor));
  }

  /** `get`: floor to inventory. */
  lemma PickUpForm(s: Scene, k: string, n: string)
    requires Ready(s) && k in KeySet(s.floor)
    ensures k !in KeySet(s.inv)
    ensures Transfer(s, OnFloor, InInventory, k, n) == Scene(Add(s.inv, k, n), Remove(s.floor, k), s.items)
  {
    HeldOnce(s, OnFloor, k);
    assert k !in KeySet(Bag(s, InInventory));
  }

  /** `get ... <container>`: container contents to inventory. */
  lemma TakeOutForm(s: Scene, c: string, k: string, n: string)
    requires Ready(s) && c in s.items && k in KeySet(s.items[c].contained)
    ensures k !in KeySet(s.inv)
    ensures Transfer(s, InContainer(c), InInventory, k, n)
      == Scene(Add(s.inv, k, n), s.floor, s.items[c := s.items[c].(contained := Remove(s.items[c].contained, k))])
  {
    HeldOnce(s, InContainer(c), k);
    assert k !in KeySet(Bag(s, InInventory));
  }

  /** `put`: inventory to container contents. */
  lemma PutInForm(s: Scene, c: string, k: string, n: string)
    requires Ready(s) && c in s.items && k in KeySet(s.inv)
    ensures k !in KeySet(s.items[c].contained)
    ensures Transfer(s, InInventory, InContainer(c), k, n)
      == Scene(Remove(s.inv, k), s.floor, s.items[c := s.items[c].(contained := Add(s.items[c].contained, k, n))])
  {
    HeldOnce(s, InInventory, k);
    assert Bag(s, InContainer(c)) == s.items[c].contained;
  }

  /** `empty`: container contents to floor. */
  lemma TossForm(s: Scene, c: string, k: string, n: string)
    requires Ready(s) && c in s.items && k in KeySet(s.items[c].contained)
    ensures k !in KeySet(s.floor)
    ensures Transfer(s, InContainer(c), OnFloor, k, n)
      == Scene(s.inv, Add(s.floor, k, n), s.items[c := s.items[c].(contained := Remove(s.items[c].contained, k))])
  {
    HeldOnce(s, InContainer(c), k);
    assert k !in KeySet(Bag(s, OnFloor));
  }

  /** `fill`: floor to container contents. */
  lemma StowForm(s: Scene, c: string, k: string, n: string)
    requires Ready(s) && c in s.items && k in KeySet(s.floor)
    ensures k !in KeySet(s.items[c].contained)
    ensures Transfer(s, OnFloor, InContainer(c), k, n)
      == Scene(s.inv, Remove(s.floor, k), s.items[c := s.items[c].(contained := Add(s.items[c].contained, k, n))])
  {
    HeldOnce(s, OnFloor, k);
    assert Bag(s, InContainer(c)) == s.items[c].contained;
  }

  // ---------------------------------------------------------------- drop

  /**
    `drop <item>`: resolve the item in the inventory, take it out, and put
    it on the floor of the player's room; with no room it is lost.
  */
  function Drop(s: Scene, args: seq<string>, roomPresent: bool): (r: (Scene, Reply))
    requires Ready(s)
    ensures Ready(r.0)
    ensures r.1 != Done && r.1 != Silent ==> r.0 == s
  {
    if |args| == 0 then (s, Crashed)
    else
      match Resolve(s.inv, s.items, args[0])
      case Overflow => (s, Crashed)
      case NotFound => (s, NoItem)
      case Found(it) =>
        ResolveIsNthMatch(s.inv, s.items, args[0]);
        if roomPresent then (Transfer(s, InInventory, OnFloor, it.key, it.name), Done)
        else (Discard(s, InInventory, it.key), Silent)
  }

  // ---------------------------------------------------------------- get

  /**
    The test `get` applies before picking up record `k`, for a player whose
    `Weight` is `w`: both limits stay strictly above.
  */
  predicate Fits(s: Scene, k: string, maxInv: int, w: int, maxW: int)
    requires k in s.items
  {
    |s.inv| + 1 < maxInv && w + s.items[k].weight < maxW
  }

  /** The floor's first entry, if it names a record that fits. */
  predicate HeadFits(s: Scene, maxInv: int, w: int, maxW: int) {
    s.floor != [] && s.floor[0].key in s.items && Fits(s, s.floor[0].key, maxInv, w, maxW)
  }

  /**
    `get all`: walk the floor in order, moving each record to the inventory
    while it fits, and stop at the first entry that does not fit or has no
    record. The player's `Weight` `w` stays as it was throughout.
  */
  function GetAll(s: Scene, maxInv: int, w: int, maxW: int): (r: Scene)
    requires Ready(s)
    ensures Ready(r) && r.items == s.items
    decreases |s.floor|
  {
    if HeadFits(s, maxInv, w, maxW) then
      var k := s.floor[0].key;
      assert DistinctKeys(Bag(s, OnFloor));
      RemoveHead(s.floor);
      assert s.floor[0] in s.floor;
      GetAll(Transfer(s, OnFloor, InInventory, k, s.items[k].name), maxInv, w, maxW)
    else s
  }

  /** One pick-up from the head of the floor, in closed form. */
  lemma PickUpHead(s: Scene, maxInv: int, w: int, maxW: int)
    requires Ready(s) && HeadFits(s, maxInv, w, maxW)
    ensures var k := s.floor[0].key;
      Transfer(s, OnFloor, InInventory, k, s.items[k].name)
        == Scene(s.inv + [Entry(k, s.items[k].name)], s.floor[1..], s.items)
  {
    var k := s.floor[0].key;
    assert s.floor[0] in s.floor;
    assert DistinctKeys(Bag(s, OnFloor));
    RemoveHead(s.floor);
    PickUpForm(s, k, s.items[k].name);
  }

  /** `get <keyword>`: only the first floor entry is considered. */
  function GetOne(s: Scene, kw: string, maxInv: int, w: int, maxW: int): (r: (Scene, Reply))
    requires Ready(s)
    ensures Ready(r.0)
    ensures r.1 != Done ==> r.0 == s
  {
    if s.floor == [] then (s, Silent)
    else
      var k := s.floor[0].key;
      assert s.floor[0] in s.floor;
      if HeadFits(s, maxInv, w, maxW) && kw in s.items[k].keywords then
        (Transfer(s, OnFloor, InInventory, k, s.items[k].name), Done)
      else (s, Refused)
  }

  /**
    `get <item> <container>` with both keywords already lower-cased: first
    the inventory's containers carrying `kwC`, each searched for a record
    carrying `kwI`; only when no inventory container carries `kwC`, the
    floor's containers, with different limits.
  */
  function GetFrom(s: Scene, kwI: string, kwC: string, maxInv: int, w: int, maxW: int, roomPresent: bool): (r: (Scene, Reply))
    requires Ready(s)
    ensures Ready(r.0)
    ensures r.1 != Done ==> r.0 == s
  {
    var invKeys := KeysOf(s.inv);
    KeysOfKeySet(s.inv);
    match FirstHit(invKeys, s.items, kwC, kwI)
    case Some((c, k)) => GetFromCarried(s, c, k, maxInv)
    case None =>
      if FirstBag(invKeys, s.items, kwC).Some? || !roomPresent then (s, GetWhat)
      else GetFromFloor(s, kwI, kwC, maxInv, w, maxW)
  }

  /** Taking record `k` out of container `c` in the inventory: only the item count is checked. */
  function GetFromCarried(s: Scene, c: string, k: string, maxInv: int): (r: (Scene, Reply))
    requires Ready(s) && c in s.items && k in KeySet(s.items[c].contained) && k in s.items
    ensures Ready(r.0)
    ensures r.1 != Done ==> r.0 == s
  {
    if |s.inv| + 1 < maxInv then (Transfer(s, InContainer(c), InInventory, k, s.items[k].name), Done)
    else (s, HandsFull)
  }

  /** The floor half of `get <item> <container>`, with its own limits. */
  function GetFromFloor(s: Scene, kwI: string, kwC: string, maxInv: int, w: int, maxW: int): (r: (Scene, Reply))
    requires Ready(s)
    ensures Ready(r.0)
    ensures r.1 != Done ==> r.0 == s
  {
    match FirstHit(KeysOf(s.floor), s.items, kwC, kwI)
    case None => (s, NoContainer)
    case Some((c, k)) =>
      if |s.inv| + 1 > maxInv then (s, HandsFull)
      else if w + s.items[k].weight > maxW then (s, TooHeavy)
      else (Transfer(s, InContainer(c), InInventory, k, s.items[k].name), Done)
  }

  /**
    The `get` command: no argument shows the syntax, `all` takes everything
    that fits, one argument picks up from the floor, two take from a
    container.
  */
  function Get(s: Scene, args: seq<string>, maxInv: int, w: int, maxW: int, roomPresent: bool): (r: (Scene, Reply))
    requires Ready(s)
    ensures Ready(r.0)
  {
    if |args| == 0 then (s, ShowSyntax)
    else if args[0] == "all" then
      if !roomPresent then (s, Silent)
      else
        var t := GetAll(s, maxInv, w, maxW);
        (t, if t.floor == [] then Done else AllYouCould)
    else if |args| == 1 then
      if !roomPresent then (s, Silent) else GetOne(s, args[0], maxInv, w, maxW)
    else GetFrom(s, Lower(args[0]), Lower(args[1]), maxInv, w, maxW, roomPresent)
  }

  // ---------------------------------------------------------------- put

  /** The container `put` uses: the first in the inventory, else the first on the floor. */
  function PutTarget(s: Scene, kwC: string, roomPresent: bool): (c: Option<string>)
    ensures c.Some? ==> IsBag(s.items, c.value, kwC)
    ensures FirstBag(KeysOf(s.inv), s.items, kwC).Some? ==> c == FirstBag(KeysOf(s.inv), s.items, kwC)
    ensures FirstBag(KeysOf(s.inv), s.items, kwC).None? && roomPresent ==> c == FirstBag(KeysOf(s.floor), s.items, kwC)
    ensures c.None? <==>
      (forall i | 0 <= i < |KeysOf(s.inv)| :: !IsBag(s.items, KeysOf(s.inv)[i], kwC))
      && (roomPresent ==> forall i | 0 <= i < |KeysOf(s.floor)| :: !IsBag(s.items, KeysOf(s.floor)[i], kwC))
  {
    var inInv := FirstBag(KeysOf(s.inv), s.items, kwC);
    if inInv.Some? || !roomPresent then inInv else FirstBag(KeysOf(s.floor), s.items, kwC)
  }

  /**
    `put <item> <container>`: the first inventory record carrying the item
    keyword moves into the chosen container's contents. Nothing stops the
    container from being the item itself.
  */
  function Put(s: Scene, args: seq<string>, roomPresent: bool): (r: (Scene, Reply))
    requires Ready(s)
    ensures Ready(r.0)
    ensures r.1 != Done ==> r.0 == s
  {
    if |args| < 2 then (s, ShowSyntax)
    else
      KeysOfKeySet(s.inv);
      match FirstCarrying(KeysOf(s.inv), s.items, args[0])
      case None => (s, NoItem)
      case Some(k) =>
        match PutTarget(s, args[1], roomPresent)
        case None => (s, NoContainer)
        case Some(c) => (Transfer(s, InInventory, InContainer(c), k, s.items[k].name), Done)
  }

  // ---------------------------------------------------------------- empty

  /** Move every entry of container `c`, in order, to the floor. */
  function EmptyAll(s: Scene, c: string): (r: Scene)
    requires Ready(s) && c in s.items
    ensures Ready(r) && c in r.items
    decreases |s.items[c].contained|
  {
    var d := s.items[c].contained;
    if d == [] then s
    else
      assert Bag(s, InContainer(c)) == d && DistinctKeys(d);
      assert d[0] in d;
      RemoveHead(d);
      EmptyAll(Transfer(s, InContainer(c), OnFloor, d[0].key, d[0].name), c)
  }

  /**
    `empty <container>`: resolve the container like any inventory item, then
    toss its contents on the floor. Without a room the first entry is taken
    out before the floor is touched and the command fails.
  */
  function Empty(s: Scene, args: seq<string>, roomPresent: bool): (r: (Scene, Reply))
    requires Ready(s)
    ensures Ready(r.0)
  {
    if |args| == 0 then (s, Crashed)
    else
      match Resolve(s.inv, s.items, args[0])
      case Overflow => (s, Crashed)
      case NotFound => (s, NoContainer)
      case Found(it) =>
        ResolveIsNthMatch(s.inv, s.items, args[0]);
        var c := it.key;
        if roomPresent then (EmptyAll(s, c), Done)
        else if s.items[c].contained == [] then (s, Crashed)
        else
          assert s.items[c].contained[0] in s.items[c].contained;
          (Discard(s, InContainer(c), s.items[c].contained[0].key), Crashed)
  }

  // ---------------------------------------------------------------- fill

  /** The floor keys `keys` still to visit, all distinct and all on the floor. */
  ghost predicate OnFloorDistinct(s: Scene, keys: seq<string>) {
    && (forall i | 0 <= i < |keys| :: keys[i] in KeySet(s.floor))
    && (forall i, j | 0 <= i < j < |keys| :: keys[i] != keys[j])
  }

  /** A snapshot of the floor's keys lists each floor key once. */
  lemma FloorKeysDistinct(s: Scene)
    requires Ready(s)
    ensures OnFloorDistinct(s, KeysOf(s.floor))
  {
    KeysOfKeySet(s.floor);
    assert DistinctKeys(Bag(s, OnFloor));
  }

  /**
    The loop of `fill`: for each visited floor key with a record, move it
    into container `c` if the player's `Weight` `w` plus the record's stays
    within `maxW`, else stop. Keys without a record are skipped.
  */
  function FillFrom(s: Scene, c: string, keys: seq<string>, w: int, maxW: int): (r: (Scene, Reply))
    requires Ready(s) && c in s.items && OnFloorDistinct(s, keys)
    ensures Ready(r.0) && c in r.0.items
    ensures r.1 == Done || r.1 == AllYouCould
    decreases |keys|
  {
    if keys == [] then (s, Done)
    else
      var k := keys[0];
      if k !in s.items then FillFrom(s, c, keys[1..], w, maxW)
      else if w + s.items[k].weight <= maxW then
        StowKeepsRest(s, c, keys);
        FillFrom(Transfer(s, OnFloor, InContainer(c), k, s.items[k].name), c, keys[1..], w, maxW)
      else (s, AllYouCould)
  }

  /** After stowing the first visited key, the rest are still distinct floor keys. */
  lemma StowKeepsRest(s: Scene, c: string, keys: seq<string>)
    requires Ready(s) && c in s.items && OnFloorDistinct(s, keys) && keys != [] && keys[0] in s.items
    ensures OnFloorDistinct(Transfer(s, OnFloor, InContainer(c), keys[0], s.items[keys[0]].name), keys[1..])
  {
    var k := keys[0];
    var t := Transfer(s, OnFloor, InContainer(c), k, s.items[k].name);
    forall i | 0 <= i < |keys[1..]| ensures keys[1..][i] in KeySet(t.floor) {
      assert keys[1..][i] == keys[i + 1] && keys[i + 1] != k;
      assert keys[i + 1] in KeySet(Bag(s, OnFloor));
    }
  }

  /**
    `fill <container>`: resolve the container like any inventory item, then
    fill it from a snapshot of the floor. Without a room the command fails
    before anything moves.
  */
  function Fill(s: Scene, args: seq<string>, w: int, maxW: int, roomPresent: bool): (r: (Scene, Reply))
    requires Ready(s)
    ensures Ready(r.0)
  {
    if |args| == 0 then (s, Crashed)
    else
      match Resolve(s.inv, s.items, args[0])
      case Overflow => (s, Crashed)
      case NotFound => (s, NoContainer)
      case Found(it) =>
        ResolveIsNthMatch(s.inv, s.items, args[0]);
        if !roomPresent then (s, Crashed)
        else
          FloorKeysDistinct(s);
          FillFrom(s, it.key, KeysOf(s.floor), w, maxW)
  }
}
