# FoxMud item commands, command throttle and NPCs in Dafny

FoxMud is a multi-user dungeon server. This project models four parts of it
and proves properties of the model:

- **Item commands** (`ItemCommand.cs`):
  - resolving `2.knife`-style tokens in a player's inventory;
  - the inventory listing;
  - `give` (items and coins), `drop`, the three forms of `get`, `put`, `empty` and `fill`.

  Items live in three kinds of collection: the player's inventory, the room's floor
  and a container's contents. Each is a `Dictionary<string, string>` from item key to
  item name. `drop`, `get`, `put`, `empty` and `fill` move items between them.
- **The playing state's throttle** (`PlayingState.cs`): a session runs one command;
  commands typed meanwhile wait in a queue; a timer re-arms the session after each
  command's tick length.
- **Items** (`Item.cs`):
  - the template key;
  - the fresh-guid loop of the item constructor;
  - `LookAt`;
  - the unimplemented `Equip`/`Unequip`.
- **Spawned NPCs** (`NonPlayer.cs`):
  - `DoesWander`;
  - the talk-or-walk choice, `Talk` and `Walk`;
  - the `Hp` setter;
  - `Die`: on shutdown it deletes the NPC's belongings; otherwise it builds a corpse
    holding them, files the corpse in the room and queues a respawn.

The model has two layers:

- **A value layer.** A `Scene` holds the inventory, the floor and the item records.
  Over scenes, the ownership invariant `Transfers.Ready` says:
  - every key is in at most one place;
  - keys are distinct within each collection;
  - every record is filed under its own key.

  Every command is a function from scene to scene, and each keeps `Ready`.
- **An imperative layer.** Classes `Player`, `Room`, `Area`, `Database`,
  `PlayingState` and `NonPlayer` hold the fields. Their methods update those fields
  in place. Each method is proved to produce exactly the state its value-level
  function describes.

Outside influences are parameters:

- the command lookup's result;
- random draws (a coin flip, a probability draw, an index);
- clock readings, in milliseconds;
- the sequence of guids the constructors would draw.

Choices the code makes, which the model keeps:

- Commands typed while the session is busy wait in a first-in first-out queue and
  all run, in order (`PlayingState.cs:22`, `:42`, `:55`).
- The capacity checks are exactly those written:
  - strict `<` for `get all`, `get <item>` and taking from a carried container;
  - "refuse when above" for taking from a container on the floor;
  - `<=` for `fill`.
- `fill` compares each item alone against the weight limit. The inventory does not
  change during `fill`, so the weight checked never grows.
- A player's `Weight` is a given field (`World.Player.Weight`). The item commands read
  it and never change it: each capacity check adds the candidate item's record weight
  to that given value.
- `PlayerItem.Key` (`Item.cs:46-49`) is the item's guid and never changes. In the
  model it is the immutable `Item.key` field, and `Ready` says every record is filed
  under its own key.

## Model

| member | source | states |
|---|---|---|
| Dictionaries.Remove | FoxMud/Game/Command/ItemCommand.cs:193 | `Dictionary.Remove(k)`: the key set loses `k`, every other entry stays, and an absent key changes nothing |
| Dictionaries.RemoveDistinct | FoxMud/Game/Command/ItemCommand.cs:193 | removing keeps keys distinct and drops exactly one entry for a present key |
| Dictionaries.RemoveKeepsOrder | FoxMud/Game/Command/ItemCommand.cs:193 | for a present key of a dictionary with distinct keys, `Remove` cuts out exactly that key's entry and leaves the entries before and after it in their order |
| Dictionaries.Add | FoxMud/Game/Command/ItemCommand.cs:158 | `Dictionary.Add(k, n)` on an absent key: `k` joins the key set with name `n`, every other lookup is unchanged, distinctness is kept |
| Dictionaries.Assign | FoxMud/Game/Command/ItemCommand.cs:550 | the indexer `d[k] = n`: the key set gains `k`; an absent key is appended at the end |
| Dictionaries.AssignLookup | FoxMud/Game/Command/ItemCommand.cs:550 | after `d[k] = n`, `k` looks up to `n` and every other key to what it did before |
| Dictionaries.AssignDistinct | FoxMud/Game/Command/ItemCommand.cs:550 | the indexer keeps keys distinct |
| Dictionaries.DistinctConcat | FoxMud/Game/Command/ItemCommand.cs:505 | a concatenation has distinct keys exactly when both parts do and they share no key |
| Dictionaries.KeysOfKeySet | FoxMud/Game/Command/ItemCommand.cs:31 | enumerating `Keys` yields exactly the key set |
| Items.TemplateKey | FoxMud/Game/Item/Item.cs:17-20 | the template key has no ASCII capital letter and equals the name up to ASCII letter case |
| Items.TemplateKeyIgnoresCase | FoxMud/Game/Item/Item.cs:17-20 | names differing only in case give the same key, and lower-casing a key again leaves it unchanged |
| Items.NewItemKey | FoxMud/Game/Item/Item.cs:83-97 | the guid loop returns the first drawn guid the store does not hold; no key exactly when every draw is taken |
| Items.GroupByNameCounts | FoxMud/Game/Command/ItemCommand.cs:74-81 | `GroupBy(name)`: group names are distinct, every entry's name has a group, each count is that name's number of entries and at least 1, the counts add up to the dictionary's size, and the groups come in the order in which their names first appear |
| Items.SumOverDistinct | FoxMud/Game/Command/ItemCommand.cs:74-81 | counting each distinct name of a list in the list adds up to the list's length |
| Items.DistinctInOrder | FoxMud/Game/Command/ItemCommand.cs:74-81 | LINQ's first-appearance order: of any two distinct elements, the one listed first occurs in the list before any occurrence of the other |
| Items.InventoryListing | FoxMud/Game/Command/ItemCommand.cs:61-85 | the `inventory` listing starts with its header; it shows the empty marker exactly when the inventory is empty, and otherwise exactly the counted lines of the name groups, one per group in `GroupByName` order |
| Items.LookAt | FoxMud/Game/Item/Item.cs:99-122 | the description comes first; a non-container shows nothing else; an empty container shows the empty marker; a non-empty container shows exactly the counted lines of its name groups |
| Items.LookAtCountsContents | FoxMud/Game/Item/Item.cs:111-120 | the counts `LookAt` prints for a container add up to its number of entries |
| Items.Equip | FoxMud/Game/Item/Item.cs:124-127 | always fails (not implemented) |
| Items.Unequip | FoxMud/Game/Item/Item.cs:129-132 | always fails (not implemented) |
| Resolver.MatchOrdinal | FoxMud/Game/Command/ItemCommand.cs:20-21 | `^((\d+)\.)`: a match is a prefix of one or more ASCII digits and a dot, with the digits as group 2; no match exactly when no all-digit prefix is followed by a dot |
| Resolver.BareKeywordOfPrefixed | FoxMud/Game/Command/ItemCommand.cs:26-28 | `2.knife` means keyword `knife` when the prefix text does not occur again |
| Resolver.ReplaceDeletesEveryOccurrence | FoxMud/Game/Command/ItemCommand.cs:28 | `Replace` deletes every occurrence of the prefix, not only the leading one: `1.x1.y` gives keyword `xy` |
| Resolver.RemoveAllAbsent | FoxMud/Game/Command/ItemCommand.cs:28 | `Replace` of an absent pattern leaves the string unchanged |
| Resolver.FindInventoryItem | FoxMud/Game/Command/ItemCommand.cs:14-48 | the method, with its regex step and counting loop, returns exactly `Resolve` |
| Resolver.NthMatch | FoxMud/Game/Command/ItemCommand.cs:31-45 | the counting loop finds the `ordinal`-th inventory record carrying the keyword, in key order, or nothing |
| Resolver.ResolveIsNthMatch | FoxMud/Game/Command/ItemCommand.cs:14-48 | an item is found exactly when the ordinal is between 1 and the number of matching records; a found item carries the bare keyword, is held in the inventory and is its own store record |
| Resolver.OrdinalZeroNeverMatches | FoxMud/Game/Command/ItemCommand.cs:24-45 | an ordinal of zero (`0.knife`) never finds an item |
| Resolver.SecondKnife | FoxMud/Game/Command/ItemCommand.cs:31-45 | with three knives, `2.knife` finds the second in inventory order |
| Resolver.FifthKnife | FoxMud/Game/Command/ItemCommand.cs:31-45 | with three knives, `5.knife` finds none |
| Coins.Wrap64 | FoxMud/Game/Command/ItemCommand.cs:134-136 | unchecked `long` arithmetic: the result is in range, congruent modulo 2^64, and unchanged when already in range |
| Coins.ParseInt64 | FoxMud/Game/Command/ItemCommand.cs:126 | `Convert.ToInt64` yields only values in the `long` range |
| Coins.DecimalValue | FoxMud/Game/Command/ItemCommand.cs:126 | a decimal numeral reads back as its value |
| Coins.ParseDecimal | FoxMud/Game/Command/ItemCommand.cs:126 | every `long` written in decimal, with `-` for negatives, parses back to itself |
| Coins.ParsePlus | FoxMud/Game/Command/ItemCommand.cs:126 | an explicit `+` sign is accepted |
| Coins.ParseRefusesWords | FoxMud/Game/Command/ItemCommand.cs:126 | the empty string, a bare `-` and a word are refused |
| Ownership.WithBag | FoxMud/Game/Command/ItemCommand.cs:463-464 | replacing one collection replaces that one only and keeps record keys |
| Ownership.HeldOnce | FoxMud/Game/Command/ItemCommand.cs:463-464 | under ownership, a key held in one place is held in no other |
| Ownership.MoveKeySetAt | FoxMud/Game/Command/ItemCommand.cs:463-464 | a remove-then-add move adds the key at the destination, removes it at the source, leaves other places alone and keeps keys distinct |
| Ownership.MoveKeepsOwnership | FoxMud/Game/Command/ItemCommand.cs:463-464 | moving a held key keeps ownership; afterwards the key is at the destination only, under the new name, and every other key stays where it was |
| Ownership.DiscardLosesItem | FoxMud/Game/Command/ItemCommand.cs:193-203 | removing a key without filing it keeps ownership, and the item is then held nowhere |
| Weights.MoveKeepsWeights | FoxMud/Game/Command/ItemCommand.cs:463-464 | moving entries never changes a record's weight |
| Searches.FirstCarrying | FoxMud/Game/Command/ItemCommand.cs:406-415 | the first key, in order, whose record carries the keyword: every key before it fails; none exactly when no key qualifies |
| Searches.FirstBag | FoxMud/Game/Command/ItemCommand.cs:424-434 | the first key, in order, naming a container carrying the keyword: every key before it fails; none exactly when no key qualifies |
| Searches.FirstHit | FoxMud/Game/Command/ItemCommand.cs:301-330 | the first container, in order, carrying the container keyword whose contents hold a record carrying the item keyword: every container before it fails; none exactly when there is none |
| Searches.FirstCarryingFrom | FoxMud/Game/Command/ItemCommand.cs:406-415 | skipping keys that do not qualify does not change the search's answer |
| Transfers.Transfer | FoxMud/Game/Command/ItemCommand.cs:463-464 | a move keeps ownership, record keys and weights; the source is `Remove(k)` and the destination `Add(k, n)` |
| Transfers.TransferHolding | FoxMud/Game/Command/ItemCommand.cs:463-464 | after a move the key is at the destination only, under its name, and every other key is where it was |
| Transfers.Discard | FoxMud/Game/Command/ItemCommand.cs:193-203 | taking a key out without filing it keeps ownership and leaves the key nowhere |
| Transfers.DropForm | FoxMud/Game/Command/ItemCommand.cs:193-200 | the inventory-to-floor move in closed form: only the inventory and the floor change |
| Transfers.PickUpForm | FoxMud/Game/Command/ItemCommand.cs:241-242 | the floor-to-inventory move in closed form: only the floor and the inventory change |
| Transfers.TakeOutForm | FoxMud/Game/Command/ItemCommand.cs:319-320 | the container-to-inventory move in closed form: only the container record and the inventory change |
| Transfers.PutInForm | FoxMud/Game/Command/ItemCommand.cs:463-464 | the inventory-to-container move in closed form |
| Transfers.TossForm | FoxMud/Game/Command/ItemCommand.cs:504-505 | the container-to-floor move in closed form |
| Transfers.StowForm | FoxMud/Game/Command/ItemCommand.cs:549-550 | the floor-to-container move in closed form |
| Transfers.Drop | FoxMud/Game/Command/ItemCommand.cs:182-204 | `drop` keeps ownership; every answer but a completed move or a room-less drop leaves the scene unchanged |
| Transfers.GetAll | FoxMud/Game/Command/ItemCommand.cs:228-258 | `get all` keeps ownership and never changes item records |
| Transfers.PickUpHead | FoxMud/Game/Command/ItemCommand.cs:234-243 | one pick-up from the head of the floor, in closed form |
| Transfers.GetOne | FoxMud/Game/Command/ItemCommand.cs:262-291 | `get <item>` keeps ownership and changes nothing unless it picks something up |
| Transfers.GetFrom | FoxMud/Game/Command/ItemCommand.cs:293-381 | `get <item> <container>` keeps ownership and changes nothing unless it takes something out |
| Transfers.GetFromCarried | FoxMud/Game/Command/ItemCommand.cs:313-327 | taking out of a carried container keeps ownership and changes nothing when refused |
| Transfers.GetFromFloor | FoxMud/Game/Command/ItemCommand.cs:333-379 | taking out of a container on the floor keeps ownership and changes nothing when refused |
| Transfers.Get | FoxMud/Game/Command/ItemCommand.cs:219-381 | the `get` dispatch keeps ownership |
| Transfers.PutTarget | FoxMud/Game/Command/ItemCommand.cs:423-454 | the container `put` picks carries the keyword; it is the first matching container of the inventory when there is one, and otherwise, with a room, the first of the floor; none exactly when neither place has one |
| Transfers.Put | FoxMud/Game/Command/ItemCommand.cs:394-476 | `put` keeps ownership and changes nothing unless it moves the item |
| Transfers.EmptyAll | FoxMud/Game/Command/ItemCommand.cs:502-506 | tossing every content entry to the floor keeps ownership |
| Transfers.Empty | FoxMud/Game/Command/ItemCommand.cs:487-512 | `empty` keeps ownership |
| Transfers.FloorKeysDistinct | FoxMud/Game/Command/ItemCommand.cs:539 | the `Keys.ToArray()` snapshot lists each floor key once |
| Transfers.StowKeepsRest | FoxMud/Game/Command/ItemCommand.cs:539-551 | after stowing the first snapshot key, the rest are still distinct floor keys |
| Transfers.FillFrom | FoxMud/Game/Command/ItemCommand.cs:539-558 | the `fill` loop keeps ownership and the container, and ends in either "filled" or "all you could"; which keys it stows and where it stops is `StashLaws.FillTakesPrefix` |
| Transfers.Fill | FoxMud/Game/Command/ItemCommand.cs:524-561 | `fill` keeps ownership |
| ItemCommands.FindCarrying | FoxMud/Game/Command/ItemCommand.cs:406-415 | the item loop of `put` returns `FirstCarrying` |
| ItemCommands.FindBag | FoxMud/Game/Command/ItemCommand.cs:424-452 | the container loops of `put` return `FirstBag` |
| ItemCommands.FindHit | FoxMud/Game/Command/ItemCommand.cs:301-330 | the nested container loops of `get <item> <container>` return `FirstHit`, and report whether any container matched |
| ItemCommands.PickUpStep | FoxMud/Game/Command/ItemCommand.cs:241-242 | `RemoveItem` then `Inventory.Add` changes the fields exactly as `Transfer` from floor to inventory |
| ItemCommands.DropStep | FoxMud/Game/Command/ItemCommand.cs:193-200 | `Inventory.Remove` then `AddItem` is `Transfer` from inventory to floor |
| ItemCommands.TakeOutStep | FoxMud/Game/Command/ItemCommand.cs:319-320 | is `Transfer` from the container to the inventory |
| ItemCommands.PutInStep | FoxMud/Game/Command/ItemCommand.cs:463-464 | is `Transfer` from the inventory to the container |
| ItemCommands.TossStep | FoxMud/Game/Command/ItemCommand.cs:504-505 | is `Transfer` from the container to the floor |
| ItemCommands.StowStep | FoxMud/Game/Command/ItemCommand.cs:549-550 | is `Transfer` from the floor to the container |
| ItemCommands.Drop | FoxMud/Game/Command/ItemCommand.cs:182-204 | the `drop` method leaves the player, room and store in the state, and gives the reply, of `Transfers.Drop` |
| ItemCommands.GetAllItems | FoxMud/Game/Command/ItemCommand.cs:228-258 | the `get all` loop over the key snapshot ends in the state `GetAll` describes; the reply says whether the floor was cleared |
| ItemCommands.GetOneItem | FoxMud/Game/Command/ItemCommand.cs:262-291 | the `get <item>` loop ends in `GetOne`'s state and reply |
| ItemCommands.GetFromContainer | FoxMud/Game/Command/ItemCommand.cs:293-381 | `get <item> <container>` ends in `GetFrom`'s state and reply |
| ItemCommands.GetFromCarriedContainer | FoxMud/Game/Command/ItemCommand.cs:313-327 | the inventory half ends in `GetFromCarried`'s state and reply |
| ItemCommands.GetFromFloorContainer | FoxMud/Game/Command/ItemCommand.cs:333-379 | the floor half ends in `GetFromFloor`'s state and reply |
| ItemCommands.Get | FoxMud/Game/Command/ItemCommand.cs:219-381 | the `get` command ends in `Transfers.Get`'s state and reply |
| ItemCommands.Put | FoxMud/Game/Command/ItemCommand.cs:394-476 | the `put` command ends in `Transfers.Put`'s state and reply |
| ItemCommands.EmptyInto | FoxMud/Game/Command/ItemCommand.cs:502-506 | the `empty` loop over the content snapshot ends in `EmptyAll`'s state |
| ItemCommands.Empty | FoxMud/Game/Command/ItemCommand.cs:487-512 | the `empty` command ends in `Transfers.Empty`'s state and reply |
| ItemCommands.FillInto | FoxMud/Game/Command/ItemCommand.cs:539-558 | the `fill` loop over the floor-key snapshot ends in `FillFrom`'s state and reply |
| ItemCommands.Fill | FoxMud/Game/Command/ItemCommand.cs:524-561 | the `fill` command ends in `Transfers.Fill`'s state and reply |
| Giving.RemoveFirst | FoxMud/Game/Command/ItemCommand.cs:102 | `List.Remove("coin")`: unchanged without a `coin`, otherwise one element shorter |
| Giving.RemoveFirstAt | FoxMud/Game/Command/ItemCommand.cs:102 | exactly the first occurrence is cut out |
| Giving.ParseGive | FoxMud/Game/Command/ItemCommand.cs:101-104 | a request exists exactly when two arguments remain once `coin` is removed; it is a gold request exactly when the second argument was `coin` |
| Giving.ParseGiveCoins | FoxMud/Game/Command/ItemCommand.cs:101-104 | `give 10 coin bob` asks for ten coins for bob |
| Giving.ParseGiveItem | FoxMud/Game/Command/ItemCommand.cs:101-104 | `give knife bob` asks for the knife for bob |
| Giving.ParseGiveNoTarget | FoxMud/Game/Command/ItemCommand.cs:101-104 | `give 10 coin` has no target |
| Giving.MoveGold | FoxMud/Game/Command/ItemCommand.cs:133-136 | inventories are untouched; to oneself the two purses are one; otherwise giver and target purses change by the amount with `long` wrap-around |
| Giving.MoveGoldToSelf | FoxMud/Game/Command/ItemCommand.cs:133-136 | giving gold to oneself changes nothing |
| Giving.MoveGoldConserves | FoxMud/Game/Command/ItemCommand.cs:133-136 | the total gold is conserved modulo 2^64; when neither purse leaves the `long` range, the giver loses and the target gains exactly the amount |
| Giving.MoveItem | FoxMud/Game/Command/ItemCommand.cs:149-158 | the giver loses the key; the target gains it under the item's name, or, when it already holds the key, `Add` throws after the removal and the item is lost |
| Giving.GiveTo | FoxMud/Game/Command/ItemCommand.cs:111-159 | "not here" exactly when the rooms differ; "too poor" exactly on a parsed gold amount above the purse; a refusal leaves the target alone; a gold request never changes inventories and an item request never changes purses |
| Giving.GiveItemMoves | FoxMud/Game/Command/ItemCommand.cs:138-159 | giving a resolved item to another player moves its key, and the two inventories stay distinct and disjoint |
| Giving.GiveGoldMoves | FoxMud/Game/Command/ItemCommand.cs:124-137 | between two players the amount moves exactly and completes while both purses stay in range |
| Giving.NegativeGiftTakes | FoxMud/Game/Command/ItemCommand.cs:126-136 | the code as written: `give -5 coin bob` by a penniless player takes five from bob |
| Giving.GiveToChecked | FoxMud/Game/Command/ItemCommand.cs:124-137 | the corrected check: a refusal leaves the target alone |
| Giving.CheckedGiftNeverTakes | FoxMud/Game/Command/ItemCommand.cs:124-137 | with the corrected check, giving gold never raises the giver's purse nor lowers the target's, and the total is conserved |
| Giving.Give | FoxMud/Game/Command/ItemCommand.cs:97-169 | the `give` method: a syntax reply or an unknown target changes no one; otherwise it changes giver and target as `GiveTo` says; no other player changes |
| Giving.GiveToPlayer | FoxMud/Game/Command/ItemCommand.cs:111-159 | once the target is found, the two players end as `GiveTo` says |
| Giving.GiveGold | FoxMud/Game/Command/ItemCommand.cs:124-137 | a bad amount gives the syntax reply; an amount above the purse is refused; otherwise both purses move by it |
| Giving.GiveItem | FoxMud/Game/Command/ItemCommand.cs:138-159 | an unresolved token changes nothing; otherwise the item moves as `MoveItem` says |
| GetLaws.GetAllTakesPrefix | FoxMud/Game/Command/ItemCommand.cs:234-252 | `get all` moves a prefix of the floor into the inventory, in order and under the records' names, and stops only where the next entry does not fit |
| GetLaws.GetAllWithinLimits | FoxMud/Game/Command/ItemCommand.cs:237-239 | after `get all`, either nothing changed or the item count stays strictly below `MaxInventory`; every newly held record, added to the given weight, stays strictly below `MaxWeight` |
| GetLaws.GetAllStopsAtHeavy | FoxMud/Game/Command/ItemCommand.cs:234-252 | with rocks of weight 1 and 100 and a limit of 50, the first is picked up and the second stays |
| GetLaws.GetAllKeepsGivenWeight | FoxMud/Game/Command/ItemCommand.cs:234-252 | two rocks of weight 30 both go in under a limit of 50: the weight checked is the given one, which picking up does not raise |
| GetLaws.FirstFloorItemDecides | FoxMud/Game/Command/ItemCommand.cs:268-287 | the code as written: a rock lying before a knife makes `get knife` fail |
| GetLaws.GetOneDecidedByHead | FoxMud/Game/Command/ItemCommand.cs:262-291 | for every scene: an empty floor gives no reply and no change; otherwise `get <item>` completes exactly when the first floor record carries the keyword and fits, and then moves exactly that record to the end of the inventory; any other answer is a refusal that changes nothing |
| GetLaws.GetOneChecked | FoxMud/Game/Command/ItemCommand.cs:262-291 | the corrected `get <item>` keeps ownership and changes nothing unless it picks up |
| GetLaws.GetOneCheckedFindsAnyMatch | FoxMud/Game/Command/ItemCommand.cs:262-291 | corrected form: when some floor record carries the keyword and all of them fit, one is picked up; what is picked up carries the keyword |
| GetLaws.CheckedFindsKnife | FoxMud/Game/Command/ItemCommand.cs:262-291 | the corrected form picks up the knife behind the rock |
| GetLaws.GetFromCarriedCountOnly | FoxMud/Game/Command/ItemCommand.cs:316-320 | taking from a carried container completes exactly when the count stays below `MaxInventory`; weight is not checked |
| GetLaws.GetFromFloorLimits | FoxMud/Game/Command/ItemCommand.cs:353-366 | taking from a container on the floor completes exactly when a matching record is found in a matching container, the count plus one is at most `MaxInventory` and the given weight plus the record's is at most `MaxWeight`; it then takes that record out of that container |
| GetLaws.TakeOutWithin | FoxMud/Game/Command/ItemCommand.cs:353-366 | a take-out within both limits leaves the inventory within them |
| GetLaws.HeavyFromCarriedSack | FoxMud/Game/Command/ItemCommand.cs:316-320 | a rock of weight 100 comes out of a carried sack under a weight limit of 50 and ends at the end of the inventory |
| StashLaws.DropMoves | FoxMud/Game/Command/ItemCommand.cs:185-203 | `drop` moves the resolved item from the inventory to the end of the floor; with no room the item is held nowhere |
| StashLaws.DropMissingChangesNothing | FoxMud/Game/Command/ItemCommand.cs:185-190 | an unresolved token changes nothing |
| StashLaws.PutMoves | FoxMud/Game/Command/ItemCommand.cs:394-466 | `put` completes exactly when two arguments are given, a carried record carries the item keyword and `PutTarget` finds a container; it then moves the first such record into that container; anything else changes nothing |
| StashLaws.PutBagInItself | FoxMud/Game/Command/ItemCommand.cs:406-464 | the code as written: `put bag bag` files the bag inside itself |
| StashLaws.PutChecked | FoxMud/Game/Command/ItemCommand.cs:394-476 | the corrected `put` refuses a container that is the item itself; it keeps ownership |
| StashLaws.PutInKeepsNoSelfContainment | FoxMud/Game/Command/ItemCommand.cs:463-464 | filing into a different container keeps every record out of its own contents |
| StashLaws.PutCheckedKeepsNoSelfContainment | FoxMud/Game/Command/ItemCommand.cs:394-476 | the corrected `put` never makes a record contain itself |
| StashLaws.EmptyAllResult | FoxMud/Game/Command/ItemCommand.cs:502-506 | `empty` appends the container's entries to the floor in order under their names, leaves the container empty and changes nothing else |
| StashLaws.TossHead | FoxMud/Game/Command/ItemCommand.cs:504-505 | one toss moves the first entry to the end of the floor and `empty` goes on from there |
| StashLaws.EmptyWithoutRoomLoses | FoxMud/Game/Command/ItemCommand.cs:499-505 | with no room, `empty` removes the first entry and fails before filing it: that item is held nowhere |
| StashLaws.StowShape | FoxMud/Game/Command/ItemCommand.cs:549-550 | one stow in closed form, keeping the inventory and weights |
| StashLaws.FillFromResult | FoxMud/Game/Command/ItemCommand.cs:539-558 | `fill` never changes the inventory, and completes exactly when every visited record is light enough on its own |
| StashLaws.FillFromStows | FoxMud/Game/Command/ItemCommand.cs:539-558 | `fill` only adds to the container and only takes from the floor; when it completes, every visited record is in the container and off the floor |
| StashLaws.FillStop | FoxMud/Game/Command/ItemCommand.cs:547-555 | where `fill` stops: every visited record before the index passes `Weight + weight <= MaxWeight`, and the record at the index, when there is one, fails it |
| StashLaws.FillTakesPrefix | FoxMud/Game/Command/ItemCommand.cs:539-558 | for any scene, `fill` stows exactly the visited keys with a record before `FillStop`, in order and under the records' names, at the container's end; the floor loses exactly those keys; the inventory and every other record are unchanged; the reply is "all you could" exactly when `FillStop` is before the end |
| StashLaws.FillLeavesRest | FoxMud/Game/Command/ItemCommand.cs:552-555 | the key `fill` stops at and every visited key after it stay on the floor |
| StashLaws.FillChecksEachItemAlone | FoxMud/Game/Command/ItemCommand.cs:547 | two stones of 30 both go in under a limit of 50 |
| Throttle.Try | FoxMud/Game/State/PlayingState.cs:34-63 | on a ready session the command runs, the session becomes busy and a timer is armed; on a busy session the command joins the end of the queue; the invariant is kept |
| Throttle.Fire | FoxMud/Game/State/PlayingState.cs:91-109 | a timer expiry keeps the invariant; with no timer nothing happens |
| Throttle.TryExecute | FoxMud/Game/State/PlayingState.cs:25-63 | an unrecognised command changes nothing; a recognised one goes through `Try` and is reported as run or queued |
| Throttle.Input | FoxMud/Game/State/PlayingState.cs:120-133 | blank input only rewrites the prompt; other input goes through `TryExecute`; the invariant is kept |
| Throttle.Enter | FoxMud/Game/State/PlayingState.cs:111-118 | entering the state behaves as typing `look` |
| Throttle.LookIsNotBlank | FoxMud/Game/State/PlayingState.cs:116 | `look` is not blank |
| Throttle.Pending | FoxMud/Game/State/PlayingState.cs:22-23 | the commands still to run are the queue plus the one a timer carries |
| Throttle.InputAppends | FoxMud/Game/State/PlayingState.cs:38-57 | a recognised command joins the end of the run-or-pending order: first in, first out |
| Throttle.FireRunsHead | FoxMud/Game/State/PlayingState.cs:91-109 | each expiry runs the first pending command and keeps the rest in order |
| Throttle.PlainRunsHead | FoxMud/Game/State/PlayingState.cs:99-109 | `makeReady` runs the queue head, if any |
| Throttle.CarriedRunsHead | FoxMud/Game/State/PlayingState.cs:91-96 | `nextCommand` runs the carried command |
| Throttle.PendingAllRun | FoxMud/Game/State/PlayingState.cs:50-109 | every pending command eventually runs, in arrival order, and none is dropped; one more expiry leaves the session ready with an empty queue |
| Throttle.ThreeQuickCommands | FoxMud/Game/State/PlayingState.cs:38-57 | three quick commands all run in order |
| Throttle.TryRaising | FoxMud/Game/State/PlayingState.cs:50-57 | the code as written when `Execute` may raise: without a raise it is `Try` |
| Throttle.StalledStaysStalled | FoxMud/Game/State/PlayingState.cs:38-57 | a busy session with no timer never runs another command |
| Throttle.RaiseStallsSession | FoxMud/Game/State/PlayingState.cs:50-57 | the code as written: a command that raises breaks the invariant and no later command ever runs |
| Throttle.ThrottleNeverStalls | FoxMud/Game/State/PlayingState.cs:34-109 | the corrected throttle arms the timer even on a raise: the invariant holds after any events, so pending commands always have a timer |
| Throttle.IsBlank | FoxMud/Game/State/PlayingState.cs:122 | the scan is `string.IsNullOrWhiteSpace` on a non-null string |
| Throttle.PlayingState.constructor | FoxMud/Game/State/PlayingState.cs:22-23 | a new state is ready, with an empty queue and no timer |
| Throttle.PlayingState.TryExecuteCommand | FoxMud/Game/State/PlayingState.cs:34-63 | the fields change as `Try` says |
| Throttle.PlayingState.SetTimeout | FoxMud/Game/State/PlayingState.cs:65-76 | arms a plain timer and changes nothing else |
| Throttle.PlayingState.SetTimeoutWith | FoxMud/Game/State/PlayingState.cs:78-89 | arms a timer carrying the command and changes nothing else |
| Throttle.PlayingState.MakeReady | FoxMud/Game/State/PlayingState.cs:99-109 | the fields change as `Fire` says |
| Throttle.PlayingState.NextCommand | FoxMud/Game/State/PlayingState.cs:91-96 | the fields change as `Fire` says |
| Throttle.PlayingState.TimerFires | FoxMud/Game/State/PlayingState.cs:74-87 | an expiry dispatched to its callback is `Fire` |
| Throttle.PlayingState.OnInput | FoxMud/Game/State/PlayingState.cs:120-133 | the fields and the echo are `Input`'s |
| Throttle.PlayingState.TryExecuteInput | FoxMud/Game/State/PlayingState.cs:25-32 | the fields and the echo are `TryExecute`'s |
| Throttle.PlayingState.OnStateEnter | FoxMud/Game/State/PlayingState.cs:111-118 | the fields and the echo are `Enter`'s |
| NonPlayers.Choose | FoxMud/Game/World/NonPlayer.cs:192-206 | talks exactly when it has phrases and either the coin says talk or it does not wander; walks exactly when it wanders and does not both have phrases and get the talk coin; idles exactly when it has neither |
| NonPlayers.AllowedExits | FoxMud/Game/World/NonPlayer.cs:241 | an exit is allowed exactly when it is the room's, open, and leads to an allowed room |
| NonPlayers.Union | FoxMud/Game/World/NonPlayer.cs:105-107 | LINQ `Union`: exactly the elements of both lists, without duplicates; of any two listed elements, the earlier occurs in `a + b` before any occurrence of the later |
| NonPlayers.AssignAllKeys | FoxMud/Game/World/NonPlayer.cs:105-110 | the indexer loop adds exactly the pairs' keys and keeps keys distinct |
| NonPlayers.AssignAllLookup | FoxMud/Game/World/NonPlayer.cs:105-110 | a key whose every assigned pair has the same name ends with that name |
| NonPlayers.AssignAllKeep | FoxMud/Game/World/NonPlayer.cs:105-110 | pairs with other keys leave a key's name alone |
| NonPlayers.CorpseHoldsBelongings | FoxMud/Game/World/NonPlayer.cs:102-110 | the corpse holds the template's contents, every inventory key and every equipped key, and nothing else, with distinct keys |
| NonPlayers.CorpseNames | FoxMud/Game/World/NonPlayer.cs:105-110 | an inventory item keeps its name in the corpse unless also equipped, and so does an equipped item not in the inventory |
| NonPlayers.Corpse | FoxMud/Game/World/NonPlayer.cs:104-114 | the corpse record is under the fresh key, named `The corpse of` the NPC, described with the lower-cased name, keyworded `corpse` and the name, with the template's weight, value and wear location, and holding `CorpseContents` |
| NonPlayers.FillCorpse | FoxMud/Game/World/NonPlayer.cs:105-110 | the loop builds exactly `AssignAll` |
| NonPlayers.FirstArea | FoxMud/Game/World/NonPlayer.cs:122 | `FirstOrDefault`: an area with the key, and none exactly when no area has it |
| NonPlayers.FindArea | FoxMud/Game/World/NonPlayer.cs:122 | the loop returns `FirstArea` |
| NonPlayers.NewNpcKey | FoxMud/Game/World/NonPlayer.cs:181-187 | the first drawn guid the store does not hold; none exactly when every draw is taken |
| NonPlayers.NonPlayer.constructor | FoxMud/Game/World/NonPlayer.cs:179-190 | both action clocks start now, under the given key |
| NonPlayers.NonPlayer.Talk | FoxMud/Game/World/NonPlayer.cs:208-230 | `Talked`: the talk clock resets exactly when the interval has passed; a line is said exactly when the interval passed, the draw succeeded, there are phrases and the room exists; it is the picked phrase in the `says` format |
| NonPlayers.NonPlayer.Walk | FoxMud/Game/World/NonPlayer.cs:232-258 | `Walked`, outcome by outcome: too soon changes nothing; otherwise the walk clock resets; a missing room fails; the NPC stays when the draw says stay or no exit is allowed; it moves (or is stranded) exactly when the interval passed, its room exists, the draw says go and an allowed exit exists; the exit is allowed exit `pick` modulo their count; a move adds the NPC to the new room and takes it out of the old one; an exit to a missing room leaves it in no room; no other room changes; with every room filed under its own key, a walk keeps the NPC listed in exactly the room it is located at (`InItsRoom`), and a stranded NPC is listed in none |
| NonPlayers.NonPlayer.TalkOrWalk | FoxMud/Game/World/NonPlayer.cs:192-206 | performs `Choose`'s activity with the whole effect `Talked` or `Walked` describes; the other activity's clock, the location and the rooms' NPCs stay as they were |
| NonPlayers.NonPlayer.SetHp | FoxMud/Game/World/NonPlayer.cs:84-96 | stores the value; at most zero it dies as `Die(false)` does (`CorpseMade`, `CorpseFiled`, `CorpseSettled`); above zero no record, floor or respawn queue changes |
| NonPlayers.NonPlayer.Die | FoxMud/Game/World/NonPlayer.cs:98-136 | on shutdown exactly the belongings' and the NPC's records are deleted and no room or area changes; otherwise no item record changes, the corpse is built exactly when a corpse template and a fresh drawn guid exist, it is filed in the NPC's room when that exists, and the respawn is queued and the NPC's record deleted exactly when an area has the room's area key; each failure keeps what came before it, and no other room or area changes |
| NonPlayers.NonPlayer.DieOnShutdown | FoxMud/Game/World/NonPlayer.cs:127-135 | `Die(true)`: exactly the belongings' records and the NPC's own are deleted, no corpse is built, and no room or area changes |
| NonPlayers.NonPlayer.DeleteBelongings | FoxMud/Game/World/NonPlayer.cs:129-135 | exactly the inventory and equipped records and the NPC's own are deleted |
| NonPlayers.NonPlayer.MakeCorpse | FoxMud/Game/World/NonPlayer.cs:103-114 | no corpse template or no fresh key fails, each exactly in its case; otherwise the corpse is the mapped record under the first fresh drawn key |
| NonPlayers.NonPlayer.PlaceCorpse | FoxMud/Game/World/NonPlayer.cs:116-135 | a missing room fails and changes nothing; otherwise the corpse is on that room's floor with its decay time and no other room changes; the respawn is queued and the NPC's record deleted exactly when an area has the room's area key; no other area changes |
| NonPlayers.NonPlayer.LeaveCorpse | FoxMud/Game/World/NonPlayer.cs:102-135 | `Die(false)`: the corpse is built as `CorpseMade` says, filed as `CorpseFiled` says, and the rest ends as `CorpseSettled` says |
| NonPlayers.NonPlayer.QueueOwnRespawn | FoxMud/Game/World/NonPlayer.cs:122-135 | finds the area exactly when one has the key; then the template joins the end of that area's respawn queue and the NPC's record is deleted; otherwise nothing changes; no other area changes |
| NonPlayers.FileCorpse | FoxMud/Game/World/NonPlayer.cs:118-119 | the corpse is on the floor under its name, with its decay time |
| NonPlayers.QueueRespawn | FoxMud/Game/World/NonPlayer.cs:125 | the template key joins the end of the area's respawn queue |
| NonPlayers.DeleteItems | FoxMud/Game/World/NonPlayer.cs:130-131 | the delete loop removes exactly the listed keys from the store |

## Left out

- Messages.
  - What the commands write to the player and broadcast to the room is a `Reply`
    or `Echo` tag, or (for `Talk`) the line said.
  - `WritePrompt`, `SendPlayers`, `Send`, direction words and the syntax help are not
    modelled.
- Persistence.
  - `Database.Save` is not modelled.
  - `Delete` is the removal of a key from the store.
  - `Die` returns the corpse record it built. The record is added to no store,
    since the code saves none.
- Timers and concurrency.
  - Timers are the armed-timer field plus the expiry event `Fire`.
  - Timer callbacks in FoxMud run on pool threads, and the model treats each
    callback as atomic.
  - Tick lengths are carried along but never count down.
- Randomness and time.
  - `Random.Next(2)` is a boolean.
  - `NextDouble() < TalkProbability` and `NextDouble() < 0.5` are booleans.
  - `Random.Next(n)` is any natural number taken modulo `n`, so the out-of-range
    `FirstOrDefault` of `Walk` cannot occur.
  - `DateTime.Now` is a millisecond count.
  - `Server.MobWalkInterval` is a parameter of `Walk`.
  - `Die` and the `Hp` setter take the corpse's decay time, `DateTime.Now` plus
    `Server.CorpseDecayTime`, as one parameter `decaysAt`.
- `Guid.NewGuid()`: the guids the loop would draw are a finite sequence. Running out
  of draws is the extra outcome `NoFreshKey`, which FoxMud cannot reach.
- AutoMapper (`Mapper.Map`): the mapped corpse copies the template's fields and
  contents.
- TemplateKey: `ToLower` is modelled by `Items.Lower`, which maps only the ASCII
  letters `A`-`Z`. .NET lower-cases by the culture's Unicode tables, which are out of
  scope, so a name such as `ÉPÉE` keeps its non-ASCII capitals in the model. The same
  `Lower` stands for the two other `ToLower` calls: the keywords of
  `get <item> <container>` (`ItemCommand.cs:298-299`) and the corpse's description
  (`NonPlayer.cs:113`, which lower-cases the description, not the name).
- MatchOrdinal: the model's `\d` is the ASCII digits `0`-`9`. .NET's `\d` also matches
  other Unicode decimal digits. On `٢.knife` the source matches the prefix and then
  `Convert.ToInt32` throws on the Arabic-Indic digit; the model finds no prefix and
  looks the whole token up as a keyword, which normally finds no item.
- Nulls.
  - `Phrases` and `AllowedRooms` may be null (`None`).
  - `Inventory`, `Equipped`, `Keywords` and `ContainedItems` are never null in the
    model.
  - Input is never null.
  - A container that is not a container is a record with empty contents.
- `Coins.ParseInt64`: `Convert.ToInt64` is modelled without leading and trailing
  whitespace. Arguments come from splitting the command line, so they hold none.
- `Gold` is a `long`, written out with wrap-around.
- Scenes with a key in two places. Every command requires `Ownership.Ready`,
  under which each item key is held in exactly one place: the inventory, the floor
  or one container. Only in a scene that breaks this could the `Dictionary.Add`
  calls of `get`, `put` and `empty` (`ItemCommand.cs:243`, `:278`, `:320`, `:366`,
  `:464`, `:505`) meet an existing key and throw, so that exception is not modelled.
  `give` (`ItemCommand.cs:158`) adds to another player's inventory, which `Ready`
  does not cover, and `Giving.MoveItem` models its throw.
- `MaxInventory` and `MaxWeight` are unbounded integers.
- The `Player`, `Room` and `CommandContext` classes and the command lookup are not
  part of this model. Their fields and results enter as parameters.
- Collection order.
  - `Dictionary` enumeration is insertion order, and `Add` always appends. In .NET,
    an entry added after a removal can take the freed slot, and so an earlier place
    in the enumeration.
  - `get all` enumerates `room.Items.Keys` while removing from it. Under .NET
    Framework the next step of the enumeration throws after the first removal; .NET
    Core 3.0 and later allow the removal. The model walks a snapshot of the keys, as
    `fill` and `empty` do. `get <item>` returns right after its one removal, so it
    is not affected.
- Throttle: the main throttle model (`Try`) assumes `Execute` returns. `TryRaising`
  models a raising `Execute`, and only for the stall finding below.
- `OnStateEnter` also sets `LoggedIn`, which is not modelled.
- `DoesWander` has no row above. It is the predicate `NonPlayers.Wanders`, used by
  `Choose`.
- `NonPlayers.NonPlayer.Walk` requires `AllowedRooms` to be set. It is only called
  when `DoesWander` holds.
- `PlayerItem`'s JSON constructors and the `MobTemplate` class are not modelled.

## Findings

| source | as written | input that shows it | evidently intended | confidence | as-written member | corrected member |
|---|---|---|---|---|---|---|
| FoxMud/Game/Command/ItemCommand.cs:268-287 | `get <item>` answers "couldn't pick that up" as soon as the first floor entry does not match | a rock lying before a knife on the floor, then `get knife` | search the whole floor for a record carrying the keyword | not executed | GetLaws.FirstFloorItemDecides | GetLaws.GetOneCheckedFindsAnyMatch |
| FoxMud/Game/Command/ItemCommand.cs:406-464 | `put` accepts the item itself as the container | a carried empty bag, then `put bag bag` | refuse to put a container inside itself | not executed | StashLaws.PutBagInItself | StashLaws.PutCheckedKeepsNoSelfContainment |
| FoxMud/Game/Command/ItemCommand.cs:126-136 | a negative amount passes the purse check and moves gold from the target to the giver | a giver with 0 gold, then `give -5 coin bob`, where bob has 10 | only a positive amount the giver has can be given | not executed | Giving.NegativeGiftTakes | Giving.CheckedGiftNeverTakes |
| FoxMud/Game/State/PlayingState.cs:50-57 | `ready` is cleared before `Execute`, and a command that raises leaves before any timer is armed | on a ready session, a command whose `Execute` raises, such as `drop` with no argument, where `Arguments[0]` is out of range | an error stops only the current command; the timer is armed anyway, as with a `finally` | not executed | Throttle.RaiseStallsSession | Throttle.ThrottleNeverStalls |

The corrected members feed the rest of the model as follows:

- `GetOneChecked`, `PutChecked` and `GiveToChecked` are the corrected definitions
  the laws above are proved about.
- `ReplayGuarded`, which uses `Try`, is the corrected throttle.
- The imperative commands model the code as written. The corrected forms sit beside
  them rather than replacing them.
