/**
  The behaviour of a spawned NPC: whether it wanders, the choice between
  talking and walking, the two actions themselves, and death, which either
  leaves a corpse holding the NPC's belongings and queues a respawn, or (on
  shutdown) deletes those belongings. Random draws and clock readings are
  parameters: `now` and the last-action times are milliseconds.
*/
module NonPlayers {
  import opened Options
  import opened Dictionaries
  import opened Items
  import opened World

  /** An equipped slot: the key and name of the item worn there. */
  datatype WearSlot = WearSlot(key: string, name: string)

  // ------------------------------------------------------------ decisions

  /** `DoesWander`: the allowed rooms are set and there is more than one. */
  predicate Wanders(allowed: Option<seq<string>>) {
    allowed.Some? && |allowed.value| > 1
  }

  /** The NPC has phrases to say: they are set and there is at least one. */
  predicate Speaks(phrases: Option<seq<string>>) {
    phrases.Some? && |phrases.value| > 0
  }

  datatype Activity = Talking | Walking | Idling

  /**
    The dispatch of `TalkOrWalk`: `heads` is the draw `Random.Next(2) == 0`,
    consulted only when the NPC could do both.
  */
  function Choose(phrases: Option<seq<string>>, allowed: Option<seq<string>>, heads: bool): (a: Activity)
    ensures a == Talking <==> Speaks(phrases) && (heads || !Wanders(allowed))
    ensures a == Walking <==> Wanders(allowed) && !(heads && Speaks(phrases))
    ensures a == Idling <==> !Speaks(phrases) && !Wanders(allowed)
  {
    if Speaks(phrases) && Wanders(allowed) then (if heads then Talking else Walking)
    else if Speaks(phrases) then Talking
    else if Wanders(allowed) then Walking
    else Idling
  }

  /** The exits `Walk` may take: open, and leading to an allowed room, in the room's exit order. */
  function AllowedExits(exits: seq<Exit>, allowed: seq<string>): (r: seq<Exit>)
    ensures forall e :: e in r <==> e in exits && e.isOpen && e.leadsTo in allowed
    ensures |r| <= |exits|
  {
    if exits == [] then []
    else
      var rest := AllowedExits(exits[1..], allowed);
      assert forall e :: e in exits <==> e == exits[0] || e in exits[1..];
      if exits[0].isOpen && exits[0].leadsTo in allowed then [exits[0]] + rest else rest
  }

  // ------------------------------------------------------------ the corpse

  /** LINQ `Union`: the distinct elements of `a`, then those of `b` not already seen. */
  function Union<T(==,!new)>(a: seq<T>, b: seq<T>): (r: seq<T>)
    ensures forall x | x in r :: x in a || x in b
    ensures forall x | x in a :: x in r
    ensures forall x | x in b :: x in r
    ensures forall i, j | 0 <= i < j < |r| :: r[i] != r[j]
    ensures forall i, j | 0 <= i < j < |r| :: Before(a + b, r[i], r[j])
  {
    DistinctInOrder(a + b);
    Distinct(a + b)
  }

  /** The `(Key, Name)` pairs of the equipped slots. */
  function SlotPairs(eq: seq<WearSlot>): (ps: seq<Entry>)
    ensures |ps| == |eq|
    ensures forall i | 0 <= i < |eq| :: ps[i] == Entry(eq[i].key, eq[i].name)
  {
    seq(|eq|, i requires 0 <= i < |eq| => Entry(eq[i].key, eq[i].name))
  }

  function SlotKeys(eq: seq<WearSlot>): set<string> {
    set w | w in eq :: w.key
  }

  /** Assign each pair in turn with the indexer, as the corpse-building `foreach` does. */
  function AssignAll(d: Dict, ps: seq<Entry>): Dict
    decreases |ps|
  {
    if ps == [] then d else AssignAll(Assign(d, ps[0].key, ps[0].name), ps[1..])
  }

  /** Assigning pairs adds exactly their keys, and keeps keys distinct. */
  lemma {:induction false} AssignAllKeys(d: Dict, ps: seq<Entry>)
    ensures KeySet(AssignAll(d, ps)) == KeySet(d) + set p | p in ps :: p.key
    ensures DistinctKeys(d) ==> DistinctKeys(AssignAll(d, ps))
    decreases |ps|
  {
    if ps != [] {
      AssignAllKeys(Assign(d, ps[0].key, ps[0].name), ps[1..]);
      if DistinctKeys(d) {
        AssignDistinct(d, ps[0].key, ps[0].name);
      }
      assert forall p :: p in ps <==> p == ps[0] || p in ps[1..];
    }
  }

  /** A key every assigned pair files under the same name ends up with that name. */
  lemma {:induction false} AssignAllLookup(d: Dict, ps: seq<Entry>, k: string, n: string)
    requires Entry(k, n) in ps
    requires forall p | p in ps && p.key == k :: p.name == n
    ensures Lookup(AssignAll(d, ps), k) == Some(n)
    decreases |ps|
  {
    var d' := Assign(d, ps[0].key, ps[0].name);
    AssignLookup(d, ps[0].key, ps[0].name);
    if Entry(k, n) in ps[1..] {
      AssignAllLookup(d', ps[1..], k, n);
    } else {
      assert ps[0] == Entry(k, n);
      AssignAllKeep(d', ps[1..], k);
    }
  }

  /** Pairs with other keys leave the name under `k` alone. */
  lemma {:induction false} AssignAllKeep(d: Dict, ps: seq<Entry>, k: string)
    requires forall p | p in ps :: p.key != k
    ensures Lookup(AssignAll(d, ps), k) == Lookup(d, k)
    decreases |ps|
  {
    if ps != [] {
      AssignLookup(d, ps[0].key, ps[0].name);
      AssignAllKeep(Assign(d, ps[0].key, ps[0].name), ps[1..], k);
    }
  }

  /** Every equipped pair is the key and name of some slot. */
  lemma SlotPairsFromSlots(eq: seq<WearSlot>)
    ensures forall p | p in SlotPairs(eq) :: p.key in SlotKeys(eq) && WearSlot(p.key, p.name) in eq
  {
    forall p | p in SlotPairs(eq) ensures p.key in SlotKeys(eq) && WearSlot(p.key, p.name) in eq {
      var i :| 0 <= i < |eq| && SlotPairs(eq)[i] == p;
      assert eq[i] == WearSlot(p.key, p.name);
    }
  }

  /** What the corpse's `ContainedItems` ends as: the template's contents, then every belonging assigned in. */
  function CorpseContents(base: Dict, inv: Dict, eq: seq<WearSlot>): Dict {
    AssignAll(base, Union(inv, SlotPairs(eq)))
  }

  /** The corpse lists the template's contents, every inventory key and every equipped key, and nothing else. */
  lemma CorpseHoldsBelongings(base: Dict, inv: Dict, eq: seq<WearSlot>)
    ensures KeySet(CorpseContents(base, inv, eq)) == KeySet(base) + KeySet(inv) + SlotKeys(eq)
    ensures DistinctKeys(base) ==> DistinctKeys(CorpseContents(base, inv, eq))
  {
    var ps := Union(inv, SlotPairs(eq));
    AssignAllKeys(base, ps);
    UnionKeys(inv, eq);
  }

  /** The keys of the united pairs are the inventory's keys and the equipped keys. */
  lemma UnionKeys(inv: Dict, eq: seq<WearSlot>)
    ensures (set p | p in Union(inv, SlotPairs(eq)) :: p.key) == KeySet(inv) + SlotKeys(eq)
  {
    var ps := Union(inv, SlotPairs(eq));
    SlotPairsFromSlots(eq);
    forall x | x in SlotKeys(eq) ensures x in set p | p in ps :: p.key {
      var w :| w in eq && w.key == x;
      var i :| 0 <= i < |eq| && eq[i] == w;
      assert SlotPairs(eq)[i] in ps;
    }
  }

  /**
    An inventory entry whose key no equipped slot uses keeps its name in the
    corpse, and so does an equipped item whose key is not in the inventory
    and not worn under another name.
  */
  lemma CorpseNames(base: Dict, inv: Dict, eq: seq<WearSlot>)
    requires DistinctKeys(inv)
    ensures forall e | e in inv && e.key !in SlotKeys(eq) :: Lookup(CorpseContents(base, inv, eq), e.key) == Some(e.name)
    ensures forall w | w in eq && w.key !in KeySet(inv) && (forall v | v in eq && v.key == w.key :: v.name == w.name) ::
      Lookup(CorpseContents(base, inv, eq), w.key) == Some(w.name)
  {
    var ps := Union(inv, SlotPairs(eq));
    SlotPairsFromSlots(eq);
    forall e | e in inv && e.key !in SlotKeys(eq) ensures Lookup(AssignAll(base, ps), e.key) == Some(e.name) {
      forall p | p in ps && p.key == e.key ensures p.name == e.name {
        assert p in inv;
      }
      AssignAllLookup(base, ps, e.key, e.name);
    }
    forall w | w in eq && w.key !in KeySet(inv) && (forall v | v in eq && v.key == w.key :: v.name == w.name)
      ensures Lookup(AssignAll(base, ps), w.key) == Some(w.name) {
      var i :| 0 <= i < |eq| && eq[i] == w;
      assert SlotPairs(eq)[i] == Entry(w.key, w.name);
      forall p | p in ps && p.key == w.key ensures p.name == w.name {
        assert p !in inv;
      }
      AssignAllLookup(base, ps, w.key, w.name);
    }
  }

  /** The mapped corpse record: the template's fields under a fresh key, renamed for the NPC. */
  function Corpse(t: Template, key: string, npcName: string, inv: Dict, eq: seq<WearSlot>): (c: Item)
    ensures c.key == key && c.keywords == ["corpse", npcName]
    ensures c.name == "The corpse of " + npcName
    ensures c.description == "The corpse of " + Lower(npcName) + " is rotting away."
    ensures c.weight == t.weight && c.value == t.value && c.wearLocation == t.wearLocation
    ensures c.contained == CorpseContents(t.contained, inv, eq)
  {
    Item(key, "The corpse of " + npcName, "The corpse of " + Lower(npcName) + " is rotting away.",
      ["corpse", npcName], t.weight, t.value, t.wearLocation, CorpseContents(t.contained, inv, eq))
  }

  /** The loop of `Die(false)` that files every belonging into the corpse's contents. */
  method FillCorpse(base: Dict, pairs: seq<Entry>) returns (contents: Dict)
    ensures contents == AssignAll(base, pairs)
  {
    contents := base;
    for i := 0 to |pairs|
      invariant AssignAll(contents, pairs[i..]) == AssignAll(base, pairs)
    {
      assert pairs[i..][1..] == pairs[i + 1..];
      contents := Assign(contents, pairs[i].key, pairs[i].name);
    }
    assert pairs[|pairs|..] == [];
  }

  /** `FirstOrDefault(a => a.Key == key)` over the areas. */
  function FirstArea(areas: seq<Area>, key: string): (r: Option<Area>)
    reads areas`Key
    decreases |areas|
    ensures r.Some? ==> r.value in areas && r.value.Key == key
    ensures r.None? <==> forall i | 0 <= i < |areas| :: areas[i].Key != key
  {
    if areas == [] then None
    else if areas[0].Key == key then Some(areas[0])
    else FirstArea(areas[1..], key)
  }

  /** How `Walk` ended. */
  datatype WalkOutcome =
    | TooSoon          // the walk interval has not passed
    | NoRoom           // the NPC's room is missing: `room.Exits` fails
    | Stayed           // no allowed exit, or the draw said stay
    | Moved(exit: Exit)
    | Stranded(exit: Exit) // left its room, but the exit's room is missing

  /** How `Die` ended. */
  datatype DeathOutcome =
    | Died
    | NoCorpseTemplate // the store has no "corpse" template: the mapped corpse is null
    | NoFreshKey       // every drawn guid was taken
    | CorpseWithoutRoom // the NPC's room is missing
    | CorpseWithoutArea // no area has the room's area key

  /** No room's floor or corpse queue changed. */
  twostate predicate FloorsUnchanged(rooms: map<string, Room>)
    reads rooms.Values`Items, rooms.Values`CorpseQueue
  {
    forall r | r in rooms.Values :: r.Items == old(r.Items) && r.CorpseQueue == old(r.CorpseQueue)
  }

  /** No room's floor or corpse queue changed, except perhaps `here`'s. */
  twostate predicate OtherFloorsUnchanged(rooms: map<string, Room>, here: Room)
    reads rooms.Values`Items, rooms.Values`CorpseQueue
  {
    forall r | r in rooms.Values && r != here :: r.Items == old(r.Items) && r.CorpseQueue == old(r.CorpseQueue)
  }

  /** No area's respawn queue changed. */
  twostate predicate QueuesUnchanged(areas: seq<Area>)
    reads areas`RepopQueue
  {
    forall a | a in areas :: a.RepopQueue == old(a.RepopQueue)
  }

  /** No area's respawn queue changed, except perhaps `area`'s. */
  twostate predicate OtherQueuesUnchanged(areas: seq<Area>, area: Area)
    reads areas`RepopQueue
  {
    forall a | a in areas && a != area :: a.RepopQueue == old(a.RepopQueue)
  }

  /** No room's set of NPCs changed. */
  twostate predicate NpcsUnchanged(rooms: map<string, Room>)
    reads rooms.Values`Npcs
  {
    forall r | r in rooms.Values :: r.Npcs == old(r.Npcs)
  }

  /** Every room is filed under its own key. */
  predicate RoomsKeyed(rooms: map<string, Room>)
    reads rooms.Values`Key
  {
    forall k | k in rooms :: rooms[k].Key == k
  }

  class NonPlayer {
    var Key: string
    var Name: string
    var MobTemplateKey: string
    var Location: string
    var Phrases: Option<seq<string>>
    var MinimumTalkInterval: int
    var AllowedRooms: Option<seq<string>>
    var Inventory: Dict
    /** The values of `Equipped`, in enumeration order. */
    var Equipped: seq<WearSlot>
    var hp: int
    var lastTimeTalked: int
    var lastTimeWalked: int

    /**
      The default constructor, given the key drawn by `NewNpcKey`: both
      action clocks start at `now`; the other fields are unset.
    */
    constructor(key: string, now: int)
      ensures Key == key && lastTimeTalked == now && lastTimeWalked == now
      ensures Phrases.None? && AllowedRooms.None? && Inventory == [] && Equipped == []
    {
      Key := key;
      Name, MobTemplateKey, Location := "", "", "";
      Phrases, AllowedRooms := None, None;
      MinimumTalkInterval, hp := 0, 0;
      Inventory, Equipped := [], [];
      lastTimeTalked, lastTimeWalked := now, now;
    }

    predicate DoesWander()
      reads this
    {
      Wanders(AllowedRooms)
    }

    /**
      What `Talk` does: once the talk interval has passed the talk clock is
      reset, and a line is said exactly when the draw `speaks` succeeds, there
      are phrases and the NPC's room exists; the line is phrase `pick`.
    */
    twostate predicate Talked(now: int, speaks: bool, pick: nat, rooms: map<string, Room>, new said: Option<string>)
      reads this
    {
      var passed := now - old(lastTimeTalked) > MinimumTalkInterval;
      && lastTimeTalked == (if passed then now else old(lastTimeTalked))
      && (said.Some? <==> passed && speaks && Speaks(Phrases) && Location in rooms)
      && (said.Some? ==> said.value == Name + " says, \"" + Phrases.value[pick % |Phrases.value|] + "\"")
    }

    /**
      `Talk`: once the talk interval has passed, reset the talk clock and,
      if the probability draw `speaks` succeeds and there are phrases, say
      phrase `pick` (the draw `Random.Next(Phrases.Length)`) to the room.
      Returns the line said, if any.
    */
    method Talk(now: int, speaks: bool, pick: nat, rooms: map<string, Room>) returns (said: Option<string>)
      modifies this`lastTimeTalked
      ensures Talked(now, speaks, pick, rooms, said)
    {
      said := None;
      if now - lastTimeTalked > MinimumTalkInterval {
        lastTimeTalked := now;
        if speaks && Phrases.Some? && |Phrases.value| > 0 {
          var phrase := Phrases.value[pick % |Phrases.value|];
          if Location in rooms {
            said := Some(Name + " says, \"" + phrase + "\"");
          }
        }
      }
    }

    /**
      What `Walk` does, outcome by outcome. Exactly one case holds for any
      state, so the NPC moves (or is stranded) exactly when the interval has
      passed, its room exists, the draw `go` says move and the room has an
      allowed exit; the exit taken is then allowed exit number `pick` modulo
      their count. A move puts the NPC into the exit's room and takes it out
      of the old one (when that is another room); no other room changes.
    */
    twostate predicate Walked(now: int, walkInterval: int, go: bool, pick: nat, rooms: map<string, Room>,
                              outcome: WalkOutcome)
      requires AllowedRooms.Some?
      reads this, rooms.Values
    {
      var passed := now - old(lastTimeWalked) > walkInterval;
      var here := old(Location);
      && lastTimeWalked == (if passed then now else old(lastTimeWalked))
      && match outcome
         case TooSoon =>
           !passed && Location == here && NpcsUnchanged(rooms)
         case NoRoom =>
           passed && here !in rooms && Location == here && NpcsUnchanged(rooms)
         case Stayed =>
           && passed && here in rooms
           && (!go || |AllowedExits(old(rooms[here].Exits), AllowedRooms.value)| == 0)
           && Location == here && NpcsUnchanged(rooms)
         case Moved(exit) =>
           && passed && here in rooms && go
           && var exits := AllowedExits(old(rooms[here].Exits), AllowedRooms.value);
           && |exits| > 0 && exit == exits[pick % |exits|]
           && exit.leadsTo in rooms
           && Location == old(rooms[exit.leadsTo].Key)
           && rooms[exit.leadsTo].Npcs == old(rooms[exit.leadsTo].Npcs) + {Key}
           && (rooms[here] != rooms[exit.leadsTo] ==> rooms[here].Npcs == old(rooms[here].Npcs) - {Key})
           && forall r | r in rooms.Values && r != rooms[here] && r != rooms[exit.leadsTo] :: r.Npcs == old(r.Npcs)
         case Stranded(exit) =>
           && passed && here in rooms && go
           && var exits := AllowedExits(old(rooms[here].Exits), AllowedRooms.value);
           && |exits| > 0 && exit == exits[pick % |exits|]
           && exit.leadsTo !in rooms
           && Location == here
           && rooms[here].Npcs == old(rooms[here].Npcs) - {Key}
           && forall r | r in rooms.Values && r != rooms[here] :: r.Npcs == old(r.Npcs)
    }

    /** The NPC is listed in exactly one room: the room it is located at. */
    predicate InItsRoom(rooms: map<string, Room>)
      reads this`Key, this`Location, rooms.Values`Npcs
    {
      Location in rooms && forall r | r in rooms.Values :: Key in r.Npcs <==> r == rooms[Location]
    }

    /**
      `Walk`: once the walk interval has passed, reset the walk clock; if
      there is an allowed exit and the draw `go` (`NextDouble() < 0.5`)
      says move, take exit `pick` (the draw `Random.Next(count)`): leave the
      old room, join the exit's room and take its key as the location.
    */
    method Walk(now: int, walkInterval: int, go: bool, pick: nat, rooms: map<string, Room>) returns (outcome: WalkOutcome)
      requires AllowedRooms.Some?
      modifies this`lastTimeWalked, this`Location, rooms.Values`Npcs
      ensures Walked(now, walkInterval, go, pick, rooms, outcome)
      ensures old(RoomsKeyed(rooms)) && old(InItsRoom(rooms)) ==> (
        && (!outcome.Stranded? ==> InItsRoom(rooms))
        && (outcome.Stranded? ==> forall r | r in rooms.Values :: Key !in r.Npcs))
      ensures outcome.Moved? || outcome.Stranded? <==>
        && now - old(lastTimeWalked) > walkInterval && old(Location) in rooms && go
        && |AllowedExits(old(rooms[Location].Exits), AllowedRooms.value)| > 0
    {
      if now - lastTimeWalked <= walkInterval {
        return TooSoon;
      }
      lastTimeWalked := now;
      if Location !in rooms {
        return NoRoom;
      }
      var room := rooms[Location];
      var allowedExits := AllowedExits(room.Exits, AllowedRooms.value);
      if |allowedExits| == 0 || !go {
        return Stayed;
      }
      var exit := allowedExits[pick % |allowedExits|];
      room.Npcs := room.Npcs - {Key};
      if exit.leadsTo !in rooms {
        return Stranded(exit);
      }
      var newRoom := rooms[exit.leadsTo];
      newRoom.Npcs := newRoom.Npcs + {Key};
      Location := newRoom.Key;
      if old(RoomsKeyed(rooms)) && old(InItsRoom(rooms)) {
        forall r | r in rooms.Values ensures Key in r.Npcs <==> r == rooms[Location] {
          if r != room && r != newRoom {
            assert r.Npcs == old(r.Npcs);
          }
        }
      }
      return Moved(exit);
    }

    /**
      `TalkOrWalk`: pick the activity with `Choose` and perform it. The
      draws of `Talk` and `Walk` are passed through.
    */
    method TalkOrWalk(heads: bool, now: int, speaks: bool, phrasePick: nat,
                      walkInterval: int, go: bool, exitPick: nat, rooms: map<string, Room>)
      returns (done: Activity, said: Option<string>, walked: Option<WalkOutcome>)
      modifies this`lastTimeTalked, this`lastTimeWalked, this`Location, rooms.Values`Npcs
      ensures done == Choose(old(Phrases), old(AllowedRooms), heads)
      ensures done == Talking ==> Talked(now, speaks, phrasePick, rooms, said)
      ensures done == Walking <==> walked.Some?
      ensures done == Walking ==> AllowedRooms.Some? && Walked(now, walkInterval, go, exitPick, rooms, walked.value)
      ensures done != Talking ==> said.None? && lastTimeTalked == old(lastTimeTalked)
      ensures done != Walking ==> lastTimeWalked == old(lastTimeWalked) && Location == old(Location) && NpcsUnchanged(rooms)
    {
      done := Choose(Phrases, AllowedRooms, heads);
      said, walked := None, None;
      if done == Talking {
        said := Talk(now, speaks, phrasePick, rooms);
      } else if done == Walking {
        var w := Walk(now, walkInterval, go, exitPick, rooms);
        walked := Some(w);
      }
    }

    /**
      The first steps of `Die(false)`: no item record changes, and the corpse
      is built under the first fresh drawn guid exactly when the store has
      a "corpse" template and some drawn guid is fresh.
    */
    twostate predicate CorpseMade(templates: map<string, Template>, draws: seq<string>, db: Database,
                                  outcome: DeathOutcome, new corpse: Option<Item>)
      reads this`Name, this`Inventory, this`Equipped, db`items
    {
      && db.items == old(db.items)
      && (corpse.Some? <==> "corpse" in templates && FirstFresh(draws, old(db.items)).Some?)
      && (corpse.Some? ==>
            corpse.value == Corpse(templates["corpse"], FirstFresh(draws, old(db.items)).value, Name, Inventory, Equipped))
      && (outcome == NoCorpseTemplate <==> "corpse" !in templates)
      && (outcome == NoFreshKey <==> "corpse" in templates && FirstFresh(draws, old(db.items)).None?)
    }

    /**
      A built corpse is on the floor of the NPC's room, when that exists,
      with its decay time; no other room changes.
    */
    twostate predicate CorpseFiled(rooms: map<string, Room>, decaysAt: int, new corpse: Option<Item>)
      reads this`Location, rooms.Values`Items, rooms.Values`CorpseQueue
    {
      if corpse.Some? && Location in rooms then
        var room := rooms[Location];
        && room.Items == Assign(old(room.Items), corpse.value.key, corpse.value.name)
        && room.CorpseQueue == old(room.CorpseQueue)[corpse.value.key := decaysAt]
        && OtherFloorsUnchanged(rooms, room)
      else FloorsUnchanged(rooms)
    }

    /**
      After a built corpse: a missing room or area ends `Die` there; with
      both, the respawn is queued in the first area with the room's area key
      and the NPC's record is deleted. No other area changes.
    */
    twostate predicate CorpseSettled(rooms: map<string, Room>, areas: seq<Area>, db: Database,
                                     outcome: DeathOutcome, new corpse: Option<Item>)
      reads this`Location, this`Key, this`MobTemplateKey, db`npcs, rooms.Values`Area, areas`Key, areas`RepopQueue
    {
      && (outcome == CorpseWithoutRoom <==> corpse.Some? && Location !in rooms)
      && (outcome == CorpseWithoutArea <==>
            corpse.Some? && Location in rooms && FirstArea(areas, rooms[Location].Area).None?)
      && (outcome == Died <==>
            corpse.Some? && Location in rooms && FirstArea(areas, rooms[Location].Area).Some?)
      && db.npcs == (if outcome == Died then old(db.npcs) - {Key} else old(db.npcs))
      && if outcome == Died then
           var area := FirstArea(areas, rooms[Location].Area).value;
           area.RepopQueue == old(area.RepopQueue) + [MobTemplateKey] && OtherQueuesUnchanged(areas, area)
         else QueuesUnchanged(areas)
    }

    /** The `Hp` setter: store the value, and die (not on shutdown) when it is at most zero. */
    method SetHp(value: int, templates: map<string, Template>, draws: seq<string>, rooms: map<string, Room>,
                 areas: seq<Area>, decaysAt: int, db: Database)
      returns (death: Option<DeathOutcome>, corpse: Option<Item>)
      modifies this`hp, db`items, db`npcs, rooms.Values`Items, rooms.Values`CorpseQueue, areas`RepopQueue
      ensures hp == value
      ensures death.Some? <==> value <= 0
      ensures value <= 0 ==> CorpseMade(templates, draws, db, death.value, corpse)
      ensures value <= 0 ==> CorpseFiled(rooms, decaysAt, corpse)
      ensures value <= 0 ==> CorpseSettled(rooms, areas, db, death.value, corpse)
      ensures value > 0 ==> (
        && corpse.None? && db.npcs == old(db.npcs) && db.items == old(db.items)
        && FloorsUnchanged(rooms) && QueuesUnchanged(areas))
    {
      hp := value;
      death, corpse := None, None;
      if hp <= 0 {
        var d;
        d, corpse := Die(false, templates, draws, rooms, areas, decaysAt, db);
        death := Some(d);
      }
    }

    /**
      `Die`. On shutdown: delete the belongings' records and the NPC's own.
      Otherwise: map the "corpse" template to a record under a fresh key,
      fill it with the NPC's belongings, file it in the NPC's room with a
      decay time, queue this NPC's template for respawn in the room's area,
      and delete the NPC's record. A failure on the way keeps the changes
      made before it.
    */
    method Die(shutdown: bool, templates: map<string, Template>, draws: seq<string>, rooms: map<string, Room>,
               areas: seq<Area>, decaysAt: int, db: Database)
      returns (outcome: DeathOutcome, corpse: Option<Item>)
      modifies db`items, db`npcs, rooms.Values`Items, rooms.Values`CorpseQueue, areas`RepopQueue
      ensures shutdown ==> (
        && outcome == Died && corpse.None?
        && db.items == old(db.items) - (KeySet(Inventory) + SlotKeys(Equipped))
        && db.npcs == old(db.npcs) - {Key}
        && FloorsUnchanged(rooms) && QueuesUnchanged(areas))
      ensures !shutdown ==> CorpseMade(templates, draws, db, outcome, corpse)
      ensures !shutdown ==> CorpseFiled(rooms, decaysAt, corpse)
      ensures !shutdown ==> CorpseSettled(rooms, areas, db, outcome, corpse)
    {
      if shutdown {
        outcome, corpse := DieOnShutdown(rooms, areas, db);
        return;
      }
      outcome, corpse := LeaveCorpse(templates, draws, rooms, areas, decaysAt, db);
    }

    /** `Die(false)`: build the corpse and, when that succeeds, place it. */
    method LeaveCorpse(templates: map<string, Template>, draws: seq<string>, rooms: map<string, Room>,
                       areas: seq<Area>, decaysAt: int, db: Database)
      returns (outcome: DeathOutcome, corpse: Option<Item>)
      modifies db`npcs, rooms.Values`Items, rooms.Values`CorpseQueue, areas`RepopQueue
      ensures CorpseMade(templates, draws, db, outcome, corpse)
      ensures CorpseFiled(rooms, decaysAt, corpse)
      ensures CorpseSettled(rooms, areas, db, outcome, corpse)
    {
      outcome, corpse := MakeCorpse(templates, draws, db.items);
      if corpse.Some? {
        outcome := PlaceCorpse(corpse.value, rooms, areas, decaysAt, db);
      }
    }

    /** `Die(true)`: delete the belongings' records and the NPC's own; no room or area changes. */
    method DieOnShutdown(rooms: map<string, Room>, areas: seq<Area>, db: Database)
      returns (outcome: DeathOutcome, corpse: Option<Item>)
      modifies db`items, db`npcs
      ensures outcome == Died && corpse.None?
      ensures db.items == old(db.items) - (KeySet(Inventory) + SlotKeys(Equipped))
      ensures db.npcs == old(db.npcs) - {Key}
      ensures FloorsUnchanged(rooms) && QueuesUnchanged(areas)
    {
      DeleteBelongings(db);
      return Died, None;
    }

    /** The delete loops of `Die(true)`: every inventory and equipped item's record, then the NPC's own. */
    method DeleteBelongings(db: Database)
      modifies db`items, db`npcs
      ensures db.items == old(db.items) - (KeySet(Inventory) + SlotKeys(Equipped))
      ensures db.npcs == old(db.npcs) - {Key}
    {
      var keys := Union(KeysOf(Inventory), SlotKeyList(Equipped));
      DeleteItems(db, keys);
      KeysOfKeySet(Inventory);
      SlotKeyListKeys(Equipped);
      assert (set k | k in keys) == KeySet(Inventory) + SlotKeys(Equipped);
      db.npcs := db.npcs - {Key};
    }

    /** Map the "corpse" template to a record under a fresh key and fill it with the NPC's belongings. */
    method MakeCorpse(templates: map<string, Template>, draws: seq<string>, items: map<string, Item>)
      returns (outcome: DeathOutcome, corpse: Option<Item>)
      ensures outcome == NoCorpseTemplate <==> "corpse" !in templates
      ensures outcome == NoFreshKey <==> "corpse" in templates && FirstFresh(draws, items).None?
      ensures outcome == NoCorpseTemplate || outcome == NoFreshKey || outcome == Died
      ensures corpse.Some? <==> outcome == Died
      ensures corpse.Some? ==> (
        && "corpse" in templates && FirstFresh(draws, items).Some?
        && corpse.value == Corpse(templates["corpse"], FirstFresh(draws, items).value, Name, Inventory, Equipped)
        && corpse.value.key !in items)
    {
      if "corpse" !in templates {
        return NoCorpseTemplate, None;
      }
      var template := templates["corpse"];
      var key := NewItemKey(draws, items);
      if key.None? {
        return NoFreshKey, None;
      }
      var contents := FillCorpse(template.contained, Union(Inventory, SlotPairs(Equipped)));
      var c := Item(key.value, "The corpse of " + Name, "The corpse of " + Lower(Name) + " is rotting away.",
        ["corpse", Name], template.weight, template.value, template.wearLocation, contents);
      return Died, Some(c);
    }

    /**
      File the corpse in the NPC's room, queue the respawn in the room's
      area, and delete the NPC's record; stop at the first lookup that fails.
    */
    method PlaceCorpse(c: Item, rooms: map<string, Room>, areas: seq<Area>, decaysAt: int, db: Database)
      returns (outcome: DeathOutcome)
      modifies db`npcs, rooms.Values`Items, rooms.Values`CorpseQueue, areas`RepopQueue
      ensures outcome == CorpseWithoutRoom <==> Location !in rooms
      ensures outcome == CorpseWithoutArea <==> Location in rooms && FirstArea(areas, rooms[Location].Area).None?
      ensures outcome == Died <==> Location in rooms && FirstArea(areas, rooms[Location].Area).Some?
      ensures Location !in rooms ==> FloorsUnchanged(rooms)
      ensures Location in rooms ==> (
        && rooms[Location].Items == Assign(old(rooms[Location].Items), c.key, c.name)
        && rooms[Location].CorpseQueue == old(rooms[Location].CorpseQueue)[c.key := decaysAt]
        && OtherFloorsUnchanged(rooms, rooms[Location]))
      ensures outcome == Died ==> (
        var area := FirstArea(areas, rooms[Location].Area).value;
        area.RepopQueue == old(area.RepopQueue) + [MobTemplateKey] && OtherQueuesUnchanged(areas, area))
      ensures outcome != Died ==> QueuesUnchanged(areas)
      ensures db.npcs == (if outcome == Died then old(db.npcs) - {Key} else old(db.npcs))
    {
      if Location !in rooms {
        return CorpseWithoutRoom;
      }
      var room := rooms[Location];
      FileCorpse(room, c, decaysAt);
      assert OtherFloorsUnchanged(rooms, room);
      var queued := QueueOwnRespawn(areas, room.Area, db);
      outcome := if queued then Died else CorpseWithoutArea;
    }

    /**
      The end of `Die(false)`: find the first area with the key `areaKey`,
      queue this NPC's template there for respawn, and delete the NPC's
      record. Returns whether the area was found.
    */
    method QueueOwnRespawn(areas: seq<Area>, areaKey: string, db: Database) returns (queued: bool)
      modifies db`npcs, areas`RepopQueue
      ensures queued <==> FirstArea(areas, areaKey).Some?
      ensures queued ==> (
        var area := FirstArea(areas, areaKey).value;
        area.RepopQueue == old(area.RepopQueue) + [MobTemplateKey] && OtherQueuesUnchanged(areas, area))
      ensures !queued ==> QueuesUnchanged(areas)
      ensures db.npcs == (if queued then old(db.npcs) - {Key} else old(db.npcs))
    {
      var area := FindArea(areas, areaKey);
      if area.None? {
        return false;
      }
      QueueRespawn(area.value, MobTemplateKey);
      assert OtherQueuesUnchanged(areas, area.value);
      db.npcs := db.npcs - {Key};
      return true;
    }
  }

  /** Put the corpse on the room's floor under its name, with its decay time. */
  method FileCorpse(room: Room, c: Item, decaysAt: int)
    modifies room`Items, room`CorpseQueue
    ensures room.Items == Assign(old(room.Items), c.key, c.name)
    ensures room.CorpseQueue == old(room.CorpseQueue)[c.key := decaysAt]
  {
    room.Items := Assign(room.Items, c.key, c.name);
    room.CorpseQueue := room.CorpseQueue[c.key := decaysAt];
  }

  /** `area.RepopQueue.Add(key)`. */
  method QueueRespawn(area: Area, key: string)
    modifies area`RepopQueue
    ensures area.RepopQueue == old(area.RepopQueue) + [key]
  {
    area.RepopQueue := area.RepopQueue + [key];
  }

  /**
    The guid loop of the default constructor: draw guids (`draws`) until
    one names no stored NPC record.
  */
  method NewNpcKey(draws: seq<string>, stored: set<string>) returns (key: Option<string>)
    ensures key.Some? ==> key.value !in stored
    ensures key.Some? ==> exists i | 0 <= i < |draws| :: draws[i] == key.value && forall j | 0 <= j < i :: draws[j] in stored
    ensures key.None? <==> forall j | 0 <= j < |draws| :: draws[j] in stored
  {
    var i := 0;
    while i < |draws| && draws[i] in stored
      invariant 0 <= i <= |draws|
      invariant forall j | 0 <= j < i :: draws[j] in stored
    {
      i := i + 1;
    }
    if i < |draws| {
      return Some(draws[i]);
    }
    return None;
  }

  /** The keys of the equipped slots, in order. */
  function SlotKeyList(eq: seq<WearSlot>): (ks: seq<string>)
    ensures |ks| == |eq|
    ensures forall i | 0 <= i < |eq| :: ks[i] == eq[i].key
  {
    seq(|eq|, i requires 0 <= i < |eq| => eq[i].key)
  }

  lemma SlotKeyListKeys(eq: seq<WearSlot>)
    ensures forall x :: x in SlotKeyList(eq) <==> x in SlotKeys(eq)
  {
    forall x | x in SlotKeys(eq) ensures x in SlotKeyList(eq) {
      var w :| w in eq && w.key == x;
      var i :| 0 <= i < |eq| && eq[i] == w;
      assert SlotKeyList(eq)[i] == x;
    }
  }

  /** The delete loop of `Die(true)`: remove each listed key from the store. */
  method DeleteItems(db: Database, keys: seq<string>)
    modifies db`items
    ensures db.items == old(db.items) - set k | k in keys
  {
    for i := 0 to |keys|
      invariant db.items == old(db.items) - set k | k in keys[..i]
    {
      assert keys[..i + 1] == keys[..i] + [keys[i]];
      db.items := db.items - {keys[i]};
    }
    assert keys[..|keys|] == keys;
  }

  /** The area lookup of `Die`, walking the areas in order. */
  method FindArea(areas: seq<Area>, key: string) returns (r: Option<Area>)
    ensures r == FirstArea(areas, key)
  {
    var i := 0;
    while i < |areas|
      invariant 0 <= i <= |areas|
      invariant FirstArea(areas, key) == FirstArea(areas[i..], key)
    {
      assert areas[i..][1..] == areas[i + 1..];
      if areas[i].Key == key {
        return Some(areas[i]);
      }
      i := i + 1;
    }
    return None;
  }
}
