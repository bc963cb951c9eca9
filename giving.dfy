/**
  `give <item> <player>` and `give <number> coin <player>`: an item key moves
  from the giver's inventory to the target's, or gold moves from the
  giver's purse to the target's. Every exception inside the command is
  caught and answered with the syntax lines.
*/
module Giving {
  import opened Options
  import opened Dictionaries
  import opened Items
  import opened Resolver
  import opened Coins
  import opened World
  import opened Transfers

  /** What `give` can change about one player. */
  datatype Holder = Holder(inv: Dict, gold: int)

  /** The arguments once `coin` is taken out: what is given, and to whom. */
  datatype Request = Request(gold: bool, what: string, who: string)

  /** `List<string>.Remove(x)`: drop the first occurrence of `x`, if any. */
  function RemoveFirst(xs: seq<string>, x: string): (r: seq<string>)
    ensures x !in xs ==> r == xs
    ensures x in xs ==> |r| == |xs| - 1
  {
    if xs == [] then []
    else if xs[0] == x then xs[1..]
    else [xs[0]] + RemoveFirst(xs[1..], x)
  }

  /** At the first occurrence `i` of `x`, exactly that element is cut out. */
  lemma {:induction false} RemoveFirstAt(xs: seq<string>, x: string, i: nat)
    requires i < |xs| && xs[i] == x && x !in xs[..i]
    ensures RemoveFirst(xs, x) == xs[..i] + xs[i + 1..]
  {
    if i > 0 {
      assert xs[0] in xs[..i];
      assert xs[1..][..i - 1] == xs[1..i];
      assert xs[1..][i - 1 + 1..] == xs[i + 1..];
      RemoveFirstAt(xs[1..], x, i - 1);
      assert xs[..i] == [xs[0]] + xs[1..i];
    }
  }

  /**
    The argument handling of `give`: whether gold is meant is decided by the
    second argument; then the first `coin` anywhere is removed, and the
    first two remaining arguments name the thing and the target. Too few
    arguments raise an exception (`None`).
  */
  function ParseGive(args: seq<string>): (r: Option<Request>)
    ensures r.Some? ==> |args| >= 2 && (r.value.gold <==> args[1] == "coin")
    ensures r.Some? ==> [r.value.what, r.value.who] <= RemoveFirst(args, "coin")
    ensures r.None? <==> |args| < 2 || |RemoveFirst(args, "coin")| < 2
  {
    if |args| < 2 then None
    else
      var rest := RemoveFirst(args, "coin");
      if |rest| < 2 then None
      else Some(Request(args[1] == "coin", rest[0], rest[1]))
  }

  /** `give 10 coin bob` names ten coins and bob. */
  lemma ParseGiveCoins(n: string, who: string)
    requires n != "coin"
    ensures ParseGive([n, "coin", who]) == Some(Request(true, n, who))
  {
    assert RemoveFirst([n, "coin", who], "coin") == [n, who] by {
      assert [n, "coin", who][1..] == ["coin", who];
    }
  }

  /** `give knife bob` names the knife and bob. */
  lemma ParseGiveItem(item: string, who: string)
    requires item != "coin" && who != "coin"
    ensures ParseGive([item, who]) == Some(Request(false, item, who))
  {
    assert RemoveFirst([item, who], "coin") == [item, who] by {
      assert [item, who][1..] == [who];
      assert [who][1..] == [];
    }
  }

  /** `give 10 coin` has no target left once `coin` is removed. */
  lemma ParseGiveNoTarget(n: string)
    requires n != "coin"
    ensures ParseGive([n, "coin"]) == None
  {
    assert RemoveFirst([n, "coin"], "coin") == [n] by {
      assert [n, "coin"][1..] == ["coin"];
    }
  }

  /**
    Moving `amount` gold: `Player.Gold -= gold; target.Gold += gold`, both
    unchecked. When the target is the giver (`same`), the second update
    sees the first.
  */
  function MoveGold(me: Holder, them: Holder, same: bool, amount: int): (r: (Holder, Holder))
    requires same ==> them == me
    ensures r.0.inv == me.inv && r.1.inv == them.inv
    ensures same ==> r.0 == r.1
    ensures !same ==> r.0.gold == Wrap64(me.gold - amount) && r.1.gold == Wrap64(them.gold + amount)
  {
    var g := Wrap64(me.gold - amount);
    if same then
      var h := me.(gold := Wrap64(g + amount));
      (h, h)
    else (me.(gold := g), them.(gold := Wrap64(them.gold + amount)))
  }

  /** Giving gold to oneself changes nothing. */
  lemma MoveGoldToSelf(me: Holder, amount: int)
    requires InInt64(me.gold) && InInt64(amount)
    ensures MoveGold(me, me, true, amount) == (me, me)
  {
    var g := Wrap64(me.gold - amount);
    var x := g + amount;
    assert (x - me.gold) % Modulus64 == 0 by {
      assert x - me.gold == g - (me.gold - amount);
    }
    WrapCongruent(x, me.gold);
  }

  /** Two values in the `long` range that agree modulo 2^64 are equal. */
  lemma WrapCongruent(x: int, y: int)
    requires InInt64(y) && (x - y) % Modulus64 == 0
    ensures Wrap64(x) == y
  {
    var w := Wrap64(x);
    assert (w - y) % Modulus64 == 0 by {
      var a := (w - x) / Modulus64;
      var b := (x - y) / Modulus64;
      assert w - x == a * Modulus64 && x - y == b * Modulus64;
      assert w - y == (a + b) * Modulus64;
    }
    assert -Modulus64 < w - y < Modulus64;
  }

  /**
    Between two players, the gold total is kept modulo 2^64, and when
    neither purse leaves the `long` range, each purse changes by exactly
    the amount.
  */
  lemma MoveGoldConserves(me: Holder, them: Holder, amount: int)
    ensures var r := MoveGold(me, them, false, amount);
      (r.0.gold + r.1.gold - (me.gold + them.gold)) % Modulus64 == 0
    ensures InInt64(me.gold - amount) && InInt64(them.gold + amount) ==>
      var r := MoveGold(me, them, false, amount);
      r.0.gold == me.gold - amount && r.1.gold == them.gold + amount
  {
    var r := MoveGold(me, them, false, amount);
    var a := (r.0.gold - (me.gold - amount)) / Modulus64;
    var b := (r.1.gold - (them.gold + amount)) / Modulus64;
    assert r.0.gold + r.1.gold - (me.gold + them.gold) == (a + b) * Modulus64;
  }

  /**
    Handing over item `it`: it leaves the giver's inventory and is filed in
    the target's under its name. If the target already holds the key,
    `Dictionary.Add` throws after the giver has lost it.
  */
  function MoveItem(me: Holder, them: Holder, same: bool, it: Item): (r: (Holder, Holder, Reply))
    requires same ==> them == me
    ensures r.0.gold == me.gold && r.1.gold == them.gold
    ensures same ==> r.0 == r.1
    ensures KeySet(r.0.inv) == if same then KeySet(me.inv) + {it.key} else KeySet(me.inv) - {it.key}
    ensures !same && r.2 == Done ==> it.key !in KeySet(them.inv) && r.1.inv == them.inv + [Entry(it.key, it.name)]
    ensures !same && r.2 != Done ==> r.2 == ShowSyntax && r.1 == them && it.key in KeySet(them.inv)
  {
    var inv := Remove(me.inv, it.key);
    if same then
      var h := me.(inv := Add(inv, it.key, it.name));
      (h, h, Done)
    else if it.key in KeySet(them.inv) then (me.(inv := inv), them, ShowSyntax)
    else (me.(inv := inv), them.(inv := Add(them.inv, it.key, it.name)), Done)
  }

  /**
    `give` once the target is found: the giver's room must exist (else an
    exception) and be the target's location; then gold is parsed and
    checked against the giver's purse, or the item is resolved in the
    giver's inventory.
  */
  function GiveTo(me: Holder, them: Holder, same: bool, here: Option<string>, thereKey: string,
                  items: map<string, Item>, req: Request): (r: (Holder, Holder, Reply))
    requires same ==> them == me
    ensures same ==> r.0 == r.1
    ensures r.2 != Done ==> r.1 == them
    ensures r.2 != Done && r.2 != ShowSyntax ==> r.0 == me
    ensures r.2 == NotHere <==> here.Some? && thereKey != here.value
    ensures r.2 == TooPoor <==>
      && here.Some? && thereKey == here.value && req.gold
      && ParseInt64(req.what).Some? && me.gold < ParseInt64(req.what).value
    ensures r.0.inv != me.inv ==> !req.gold
    ensures r.0.gold != me.gold ==> req.gold
  {
    if here.None? then (me, them, ShowSyntax)
    else if thereKey != here.value then (me, them, NotHere)
    else if req.gold then
      match ParseInt64(req.what)
      case None => (me, them, ShowSyntax)
      case Some(amount) =>
        if me.gold < amount then (me, them, TooPoor)
        else
          var (a, b) := MoveGold(me, them, same, amount);
          (a, b, Done)
    else
      match Resolve(me.inv, items, req.what)
      case Overflow => (me, them, ShowSyntax)
      case NotFound => (me, them, NoItem)
      case Found(it) => MoveItem(me, them, same, it)
  }

  /**
    Giving an item another player: the key is in the giver's inventory and
    ends up in the target's under the record's name; inventories with
    distinct keys that shared no key still share none.
  */
  lemma GiveItemMoves(me: Holder, them: Holder, here: string, items: map<string, Item>, token: string, who: string)
    requires StoreValid(items) && DistinctKeys(me.inv) && DistinctKeys(them.inv)
    requires KeySet(me.inv) !! KeySet(them.inv)
    requires Resolve(me.inv, items, token).Found?
    ensures var it := Resolve(me.inv, items, token).item;
      var r := GiveTo(me, them, false, Some(here), here, items, Request(false, token, who));
      && r.2 == Done && it.key in KeySet(me.inv)
      && r.0.inv == Remove(me.inv, it.key) && Lookup(r.1.inv, it.key) == Some(it.name)
      && DistinctKeys(r.0.inv) && DistinctKeys(r.1.inv) && KeySet(r.0.inv) !! KeySet(r.1.inv)
  {
    var it := Resolve(me.inv, items, token).item;
    ResolveIsNthMatch(me.inv, items, token);
    RemoveDistinct(me.inv, it.key);
    AppendLookup(them.inv, Entry(it.key, it.name));
    DistinctConcat(them.inv, [Entry(it.key, it.name)]);
  }

  /** Between two players the amount moves exactly when the purses stay in range. */
  lemma GiveGoldMoves(me: Holder, them: Holder, here: string, items: map<string, Item>, n: int, who: string)
    requires InInt64(n) && n <= me.gold
    requires InInt64(me.gold - n) && InInt64(them.gold + n)
    ensures var r := GiveTo(me, them, false, Some(here), here, items,
                            Request(true, if n < 0 then "-" + Decimal(-n) else Decimal(n), who));
      r == (me.(gold := me.gold - n), them.(gold := them.gold + n), Done)
  {
    ParseDecimal(n);
    MoveGoldConserves(me, them, n);
  }

  /**
    As written, a negative amount passes the purse check: `give -5 coin bob`
    by a player with no gold takes five from bob.
  */
  lemma NegativeGiftTakes(items: map<string, Item>)
    ensures GiveTo(Holder([], 0), Holder([], 10), false, Some("hall"), "hall", items, Request(true, "-5", "bob"))
      == (Holder([], 5), Holder([], 5), Done)
  {
    ParseDecimal(-5);
    assert Decimal(5) == "5";
  }

  /** The evident intent: only a positive amount the giver has can be given. */
  function GiveToChecked(me: Holder, them: Holder, same: bool, here: Option<string>, thereKey: string,
                         items: map<string, Item>, req: Request): (r: (Holder, Holder, Reply))
    requires same ==> them == me
    ensures same ==> r.0 == r.1
    ensures r.2 != Done ==> r.1 == them
  {
    if req.gold && here.Some? && thereKey == here.value && ParseInt64(req.what).Some? && ParseInt64(req.what).value < 1
    then (me, them, ShowSyntax)
    else GiveTo(me, them, same, here, thereKey, items, req)
  }

  /** With the positive-amount guard, giving gold never raises the giver's purse or lowers the target's. */
  lemma CheckedGiftNeverTakes(me: Holder, them: Holder, here: Option<string>, thereKey: string,
                              items: map<string, Item>, req: Request)
    requires req.gold && InInt64(me.gold) && InInt64(them.gold) && them.gold <= Int64Max - me.gold
    requires me.gold >= 0 && them.gold >= 0
    ensures var r := GiveToChecked(me, them, false, here, thereKey, items, req);
      r.0.gold <= me.gold && r.1.gold >= them.gold && r.0.gold + r.1.gold == me.gold + them.gold
  {
    var r := GiveToChecked(me, them, false, here, thereKey, items, req);
    if r.2 == Done {
      var n := ParseInt64(req.what).value;
      MoveGoldConserves(me, them, n);
    }
  }

  /** The target's inventory and purse. */
  function HolderOf(q: Player): Holder
    reads q
  {
    Holder(q.Inventory, q.Gold)
  }

  /**
    The `give` command. `players` is the store's player records by name,
    `room` the store's room for the giver's location (or null), and `db`
    the item records.
  */
  method Give(p: Player, players: map<string, Player>, room: Room?, db: Database, args: seq<string>) returns (reply: Reply)
    modifies p`Gold, p`Inventory, players.Values`Gold, players.Values`Inventory
    ensures ParseGive(args).None? ==> reply == ShowSyntax && HolderOf(p) == old(HolderOf(p))
    ensures ParseGive(args).Some? && ParseGive(args).value.who !in players ==>
      reply == NoSuchPlayer && HolderOf(p) == old(HolderOf(p))
    ensures ParseGive(args).Some? && ParseGive(args).value.who in players ==>
      var t := players[ParseGive(args).value.who];
      (HolderOf(p), HolderOf(t), reply)
        == GiveTo(old(HolderOf(p)), old(HolderOf(t)), t == p, if room == null then None else Some(room.Key),
                  t.Location, db.items, ParseGive(args).value)
    ensures forall q | q in players.Values && q != p
      && (ParseGive(args).None? || ParseGive(args).value.who !in players || q != players[ParseGive(args).value.who])
      :: HolderOf(q) == old(HolderOf(q))
  {
    if |args| < 2 {
      return ShowSyntax;
    }
    var givingGold := args[1] == "coin";
    var rest := RemoveFirst(args, "coin");
    if |rest| < 2 {
      return ShowSyntax;
    }
    if rest[1] !in players {
      return NoSuchPlayer;
    }
    var target := players[rest[1]];
    reply := GiveToPlayer(p, target, room, db, Request(givingGold, rest[0], rest[1]));
  }

  /** `give` once the target's record is found. */
  method GiveToPlayer(p: Player, target: Player, room: Room?, db: Database, req: Request) returns (reply: Reply)
    modifies p`Gold, p`Inventory, target`Gold, target`Inventory
    ensures (HolderOf(p), HolderOf(target), reply)
      == GiveTo(old(HolderOf(p)), old(HolderOf(target)), target == p, if room == null then None else Some(room.Key),
                target.Location, db.items, req)
  {
    if room == null {
      return ShowSyntax;
    }
    if target.Location != room.Key {
      return NotHere;
    }
    if req.gold {
      reply := GiveGold(p, target, req.what);
    } else {
      reply := GiveItem(p, target, db, req.what);
    }
  }

  /** The gold branch: parse the amount, check the giver's purse, move the gold. */
  method GiveGold(p: Player, target: Player, what: string) returns (reply: Reply)
    modifies p`Gold, target`Gold
    ensures match ParseInt64(what)
      case None => reply == ShowSyntax && HolderOf(p) == old(HolderOf(p)) && HolderOf(target) == old(HolderOf(target))
      case Some(n) =>
        if old(p.Gold) < n then reply == TooPoor && HolderOf(p) == old(HolderOf(p)) && HolderOf(target) == old(HolderOf(target))
        else reply == Done && (HolderOf(p), HolderOf(target)) == MoveGold(old(HolderOf(p)), old(HolderOf(target)), target == p, n)
  {
    var amount := ParseInt64(what);
    if amount.None? {
      return ShowSyntax;
    }
    if p.Gold < amount.value {
      return TooPoor;
    }
    p.Gold := Wrap64(p.Gold - amount.value);
    target.Gold := Wrap64(target.Gold + amount.value);
    return Done;
  }

  /** The item branch: resolve the item in the giver's inventory and hand it over. */
  method GiveItem(p: Player, target: Player, db: Database, what: string) returns (reply: Reply)
    modifies p`Inventory, target`Inventory
    ensures match Resolve(old(p.Inventory), db.items, what)
      case Overflow => reply == ShowSyntax && HolderOf(p) == old(HolderOf(p)) && HolderOf(target) == old(HolderOf(target))
      case NotFound => reply == NoItem && HolderOf(p) == old(HolderOf(p)) && HolderOf(target) == old(HolderOf(target))
      case Found(it) => (HolderOf(p), HolderOf(target), reply) == MoveItem(old(HolderOf(p)), old(HolderOf(target)), target == p, it)
  {
    var found := FindInventoryItem(p.Inventory, db.items, what);
    match found
    case Overflow => return ShowSyntax;
    case NotFound => return NoItem;
    case Found(item) =>
      p.Inventory := Remove(p.Inventory, item.key);
      if item.key in KeySet(target.Inventory) {
        return ShowSyntax;
      }
      target.Inventory := Add(target.Inventory, item.key, item.name);
      return Done;
  }
}
