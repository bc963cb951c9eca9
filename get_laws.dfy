/**
  What the three forms of `get` guarantee: `get all` takes a prefix of the
  floor and stops at the first entry that does not fit, `get <item>`
  decides on the first floor entry alone, and `get <item> <container>`
  applies a count limit to carried containers and a count-and-weight limit
  to containers on the floor.
*/
module GetLaws {
  import opened Options
  import opened Dictionaries
  import opened Items
  import opened Ownership
  import opened Weights
  import opened Searches
  import opened Transfers

  /** The name a floor entry is filed under once picked up: its record's name. */
  function FiledName(items: map<string, Item>, e: Entry): string {
    if e.key in items then items[e.key].name else e.name
  }

  /** Entries as the inventory files them after `get`. */
  function Filed(d: Dict, items: map<string, Item>): (r: Dict)
    ensures |r| == |d|
  {
    seq(|d|, i requires 0 <= i < |d| => Entry(d[i].key, FiledName(items, d[i])))
  }

  /** `r` is `s` after moving the first `j` floor entries to the inventory. */
  predicate TookPrefix(s: Scene, r: Scene, j: int) {
    && 0 <= j <= |s.floor|
    && r.floor == s.floor[j..]
    && r.inv == s.inv + Filed(s.floor[..j], s.items)
  }

  lemma FiledHead(d: Dict, j: nat, items: map<string, Item>)
    requires j < |d|
    ensures Filed(d[..j + 1], items) == [Entry(d[0].key, FiledName(items, d[0]))] + Filed(d[1..][..j], items)
  {
    assert d[1..][..j] == d[..j + 1][1..];
  }

  /** Picking up the floor's head and then a prefix of the rest is picking up a longer prefix. */
  lemma PrefixStep(s: Scene, t: Scene, r: Scene, j: int)
    requires s.floor != [] && s.floor[0].key in s.items
    requires t == Scene(s.inv + [Entry(s.floor[0].key, s.items[s.floor[0].key].name)], s.floor[1..], s.items)
    requires TookPrefix(t, r, j)
    ensures TookPrefix(s, r, j + 1)
  {
    var e := Entry(s.floor[0].key, s.items[s.floor[0].key].name);
    assert s.floor[1..][j..] == s.floor[j + 1..];
    var rest := Filed(s.floor[1..][..j], s.items);
    FiledHead(s.floor, j, s.items);
    assert Filed(s.floor[..j + 1], s.items) == [e] + rest;
    assert (s.inv + [e]) + rest == s.inv + ([e] + rest);
  }

  /**
    `get all` moves a prefix of the floor, in order and under the records'
    names, and stops only where the floor is exhausted or its next entry
    does not fit.
  */
  lemma {:induction false} GetAllTakesPrefix(s: Scene, maxInv: int, w: int, maxW: int)
    requires Ready(s)
    ensures exists j :: TookPrefix(s, GetAll(s, maxInv, w, maxW), j)
    ensures !HeadFits(GetAll(s, maxInv, w, maxW), maxInv, w, maxW)
    decreases |s.floor|
  {
    var r := GetAll(s, maxInv, w, maxW);
    if HeadFits(s, maxInv, w, maxW) {
      var k := s.floor[0].key;
      var n := s.items[k].name;
      var t := Transfer(s, OnFloor, InInventory, k, n);
      PickUpHead(s, maxInv, w, maxW);
      assert t == Scene(s.inv + [Entry(k, n)], s.floor[1..], s.items);
      assert r == GetAll(t, maxInv, w, maxW);
      GetAllTakesPrefix(t, maxInv, w, maxW);
      var j :| TookPrefix(t, r, j);
      PrefixStep(s, t, r, j);
      assert TookPrefix(s, r, j + 1);
    } else {
      assert s.floor[..0] == [] && s.floor[0..] == s.floor;
      assert TookPrefix(s, r, 0);
    }
  }

  /**
    The limits `get all` keeps are strict: after picking anything up, the
    item count is below `MaxInventory`, and every record picked up weighs
    less than `MaxWeight` minus the player's `Weight`.
  */
  lemma {:induction false} GetAllWithinLimits(s: Scene, maxInv: int, w: int, maxW: int)
    requires Ready(s)
    ensures var r := GetAll(s, maxInv, w, maxW);
      r == s || |r.inv| < maxInv
    ensures var r := GetAll(s, maxInv, w, maxW);
      forall k | k in KeySet(r.inv) && k !in KeySet(s.inv) :: k in s.items && w + s.items[k].weight < maxW
    decreases |s.floor|
  {
    if HeadFits(s, maxInv, w, maxW) {
      var k := s.floor[0].key;
      var n := s.items[k].name;
      var t := Transfer(s, OnFloor, InInventory, k, n);
      PickUpHead(s, maxInv, w, maxW);
      assert t.inv == s.inv + [Entry(k, n)] && t.items == s.items;
      assert KeySet(t.inv) == KeySet(s.inv) + {k};
      GetAllWithinLimits(t, maxInv, w, maxW);
    }
  }

  function Rock(key: string, weight: int): Item {
    Item(key, "a rock", "A rock.", ["rock"], weight, 0, Worn("hold"), [])
  }

  /** No container at all: every collection is a plain list of distinct keys. */
  lemma PlainScene(s: Scene)
    requires DistinctKeys(s.inv) && DistinctKeys(s.floor) && KeySet(s.inv) !! KeySet(s.floor)
    requires forall c | c in s.items :: s.items[c].contained == [] && s.items[c].key == c
    ensures Ready(s)
  {
    forall p, q | p != q ensures KeySet(Bag(s, p)) !! KeySet(Bag(s, q)) {
      if p.InContainer? {
        assert Bag(s, p) == [];
      } else if q.InContainer? {
        assert Bag(s, q) == [];
      }
    }
    forall p ensures DistinctKeys(Bag(s, p)) {
      if p.InContainer? {
        assert Bag(s, p) == [];
      }
    }
  }

  function RockStore(): map<string, Item> {
    map["a" := Rock("a", 1), "b" := Rock("b", 100)]
  }

  /** A floor with a rock of weight 1 and one of weight 100, and empty hands. */
  function TwoRocks(): Scene {
    Scene([], [Entry("a", "a rock"), Entry("b", "a rock")], RockStore())
  }

  lemma TwoRocksReady()
    ensures Ready(TwoRocks())
  {
    assert KeySet(TwoRocks().floor) == {"a", "b"};
    PlainScene(TwoRocks());
  }

  /**
    Items of weight 1 and 100 on the floor, a `Weight` of 0 and a weight
    limit of 50: `get all` picks up the first, keeps the second on the floor
    and reports that it picked up all it could.
  */
  lemma GetAllStopsAtHeavy()
    ensures Ready(TwoRocks())
    ensures Get(TwoRocks(), ["all"], 10, 0, 50, true)
      == (Scene([Entry("a", "a rock")], [Entry("b", "a rock")], RockStore()), AllYouCould)
  {
    var s := TwoRocks();
    TwoRocksReady();
    assert HeadFits(s, 10, 0, 50);
    PickUpHead(s, 10, 0, 50);
    var t := Scene([Entry("a", "a rock")], [Entry("b", "a rock")], RockStore());
    assert Transfer(s, OnFloor, InInventory, "a", "a rock") == t;
    assert !HeadFits(t, 10, 0, 50);
    assert GetAll(t, 10, 0, 50) == t;
  }

  function Rocks30(): map<string, Item> {
    map["a" := Rock("a", 30), "b" := Rock("b", 30)]
  }

  /** Two rocks of weight 30 on the floor, and empty hands. */
  function TwoHeavyRocks(): Scene {
    Scene([], [Entry("a", "a rock"), Entry("b", "a rock")], Rocks30())
  }

  /** The first rock picked up. */
  function OneHeavyRockTaken(): Scene {
    Scene([Entry("a", "a rock")], [Entry("b", "a rock")], Rocks30())
  }

  /** Both rocks picked up. */
  function BothHeavyRocksTaken(): Scene {
    Scene([Entry("a", "a rock"), Entry("b", "a rock")], [], Rocks30())
  }

  lemma HeavyRocksReady()
    ensures Ready(TwoHeavyRocks()) && Ready(OneHeavyRockTaken()) && Ready(BothHeavyRocksTaken())
  {
    assert KeySet(TwoHeavyRocks().floor) == {"a", "b"};
    PlainScene(TwoHeavyRocks());
    assert KeySet(OneHeavyRockTaken().inv) == {"a"} && KeySet(OneHeavyRockTaken().floor) == {"b"};
    PlainScene(OneHeavyRockTaken());
    assert KeySet(BothHeavyRocksTaken().inv) == {"a", "b"};
    PlainScene(BothHeavyRocksTaken());
  }

  lemma FirstHeavyRock()
    requires Ready(TwoHeavyRocks()) && Ready(OneHeavyRockTaken())
    ensures GetAll(TwoHeavyRocks(), 10, 0, 50) == GetAll(OneHeavyRockTaken(), 10, 0, 50)
  {
    var s := TwoHeavyRocks();
    assert HeadFits(s, 10, 0, 50);
    PickUpHead(s, 10, 0, 50);
    assert Transfer(s, OnFloor, InInventory, "a", "a rock") == OneHeavyRockTaken();
  }

  lemma SecondHeavyRock()
    requires Ready(OneHeavyRockTaken()) && Ready(BothHeavyRocksTaken())
    ensures GetAll(OneHeavyRockTaken(), 10, 0, 50) == BothHeavyRocksTaken()
  {
    var t := OneHeavyRockTaken();
    assert HeadFits(t, 10, 0, 50);
    PickUpHead(t, 10, 0, 50);
    var u := BothHeavyRocksTaken();
    assert Transfer(t, OnFloor, InInventory, "b", "a rock") == u;
    assert GetAll(u, 10, 0, 50) == u;
  }

  /**
    Two rocks of weight 30, a `Weight` of 0 and a weight limit of 50: the
    weight checked is the given `Weight`, which picking up does not raise,
    so `get all` takes both and clears the floor.
  */
  lemma GetAllKeepsGivenWeight()
    ensures Ready(TwoHeavyRocks())
    ensures Get(TwoHeavyRocks(), ["all"], 10, 0, 50, true) == (BothHeavyRocksTaken(), Done)
  {
    HeavyRocksReady();
    FirstHeavyRock();
    SecondHeavyRock();
  }

  // ------------------------------------------------------------ get <item>

  /**
    `get <keyword>` as written looks at the first floor entry only: an empty
    floor answers nothing; otherwise that entry is picked up exactly when it
    fits and carries the keyword, and is then moved from the head of the
    floor to the end of the inventory under its record's name; any other
    first entry is refused and nothing changes.
  */
  lemma GetOneDecidedByHead(s: Scene, kw: string, maxInv: int, w: int, maxW: int)
    requires Ready(s)
    ensures s.floor == [] ==> GetOne(s, kw, maxInv, w, maxW) == (s, Silent)
    ensures GetOne(s, kw, maxInv, w, maxW).1 == Done <==>
      HeadFits(s, maxInv, w, maxW) && kw in s.items[s.floor[0].key].keywords
    ensures GetOne(s, kw, maxInv, w, maxW).1 == Done ==>
      var k := s.floor[0].key;
      GetOne(s, kw, maxInv, w, maxW).0 == Scene(s.inv + [Entry(k, s.items[k].name)], s.floor[1..], s.items)
    ensures s.floor != [] && GetOne(s, kw, maxInv, w, maxW).1 != Done ==> GetOne(s, kw, maxInv, w, maxW) == (s, Refused)
  {
    if HeadFits(s, maxInv, w, maxW) {
      PickUpHead(s, maxInv, w, maxW);
    }
  }

  /**
    As written, `get <keyword>` answers from the first floor entry alone: a
    rock lying before a knife makes `get knife` fail.
  */
  lemma FirstFloorItemDecides()
    ensures var items := map["r" := Rock("r", 1), "k" := Resolver.Knife("k")];
      var s := Scene([], [Entry("r", "a rock"), Entry("k", "a small knife")], items);
      Ready(s) && GetOne(s, "knife", 10, 0, 50) == (s, Refused)
  {
    var items := map["r" := Rock("r", 1), "k" := Resolver.Knife("k")];
    var s := Scene([], [Entry("r", "a rock"), Entry("k", "a small knife")], items);
    assert KeySet(s.floor) == {"r", "k"};
    PlainScene(s);
  }

  /** The evident intent of `get <keyword>`: the first floor record carrying the keyword, if it fits. */
  function GetOneChecked(s: Scene, kw: string, maxInv: int, w: int, maxW: int): (r: (Scene, Reply))
    requires Ready(s)
    ensures Ready(r.0)
    ensures r.1 != Done ==> r.0 == s
  {
    KeysOfKeySet(s.floor);
    match FirstCarrying(KeysOf(s.floor), s.items, kw)
    case None => (s, Refused)
    case Some(k) =>
      if Fits(s, k, maxInv, w, maxW) then (Transfer(s, OnFloor, InInventory, k, s.items[k].name), Done)
      else (s, Refused)
  }

  /**
    With the search over the whole floor, whatever precedes it no longer
    matters: when every floor record carrying the keyword fits, one of them
    is picked up, and what is picked up carries the keyword.
  */
  lemma GetOneCheckedFindsAnyMatch(s: Scene, kw: string, maxInv: int, w: int, maxW: int)
    requires Ready(s)
    ensures var r := GetOneChecked(s, kw, maxInv, w, maxW);
      (exists i | 0 <= i < |s.floor| :: Carries(s.items, s.floor[i].key, kw))
      && (forall i | 0 <= i < |s.floor| && Carries(s.items, s.floor[i].key, kw) :: Fits(s, s.floor[i].key, maxInv, w, maxW))
      ==> r.1 == Done
    ensures var r := GetOneChecked(s, kw, maxInv, w, maxW);
      r.1 == Done ==> exists k | k in KeySet(s.floor) && Carries(s.items, k, kw) :: k !in KeySet(r.0.floor) && k in KeySet(r.0.inv)
  {
    var keys := KeysOf(s.floor);
    KeysOfKeySet(s.floor);
    match FirstCarrying(keys, s.items, kw)
    case None =>
    case Some(k) =>
      var i :| 0 <= i < |keys| && keys[i] == k;
      assert s.floor[i].key == k;
  }

  /** On the rock-and-knife floor the corrected form picks up the knife. */
  lemma CheckedFindsKnife()
    ensures var items := map["r" := Rock("r", 1), "k" := Resolver.Knife("k")];
      var s := Scene([], [Entry("r", "a rock"), Entry("k", "a small knife")], items);
      Ready(s) && GetOneChecked(s, "knife", 10, 0, 50).1 == Done
  {
    var items := map["r" := Rock("r", 1), "k" := Resolver.Knife("k")];
    var s := Scene([], [Entry("r", "a rock"), Entry("k", "a small knife")], items);
    assert KeySet(s.floor) == {"r", "k"};
    PlainScene(s);
    assert s.floor[1].key == "k" && Carries(items, "k", "knife");
    assert !Carries(items, "r", "knife");
    GetOneCheckedFindsAnyMatch(s, "knife", 10, 0, 50);
  }

  // --------------------------------------------------- get <item> <container>

  /**
    Taking from a carried container checks only the item count: the result
    stays below `MaxInventory`, while the weight is not checked at all.
  */
  lemma GetFromCarriedCountOnly(s: Scene, c: string, k: string, maxInv: int)
    requires Ready(s) && c in s.items && k in KeySet(s.items[c].contained) && k in s.items
    ensures GetFromCarried(s, c, k, maxInv).1 == Done <==> |s.inv| + 1 < maxInv
    ensures GetFromCarried(s, c, k, maxInv).1 == Done ==> (
      var r := GetFromCarried(s, c, k, maxInv).0;
      |r.inv| < maxInv && r.inv == s.inv + [Entry(k, s.items[k].name)] && k !in KeySet(r.items[c].contained))
  {
    TakeOutForm(s, c, k, s.items[k].name);
  }

  /** What a successful `get <item> <container>` from the floor did: one record left a container for the inventory. */
  predicate TookOut(s: Scene, r: Scene, c: string, k: string, kwI: string, kwC: string) {
    && IsBag(s.items, c, kwC) && Carries(s.items, k, kwI) && k in KeySet(s.items[c].contained)
    && r.inv == s.inv + [Entry(k, s.items[k].name)]
    && c in r.items && k !in KeySet(r.items[c].contained)
  }

  /**
    Taking from a container on the floor completes exactly when some floor
    container carrying `kwC` holds a record carrying `kwI`, the count stays
    within `MaxInventory` and the player's `Weight` plus the record's stays
    within `MaxWeight`; what it takes is the first such record of the first
    such container.
  */
  lemma GetFromFloorLimits(s: Scene, kwI: string, kwC: string, maxInv: int, w: int, maxW: int)
    requires Ready(s)
    ensures var hit := FirstHit(KeysOf(s.floor), s.items, kwC, kwI);
      GetFromFloor(s, kwI, kwC, maxInv, w, maxW).1 == Done <==>
        hit.Some? && |s.inv| + 1 <= maxInv && w + s.items[hit.value.1].weight <= maxW
    ensures var hit := FirstHit(KeysOf(s.floor), s.items, kwC, kwI);
      GetFromFloor(s, kwI, kwC, maxInv, w, maxW).1 == Done ==>
        |GetFromFloor(s, kwI, kwC, maxInv, w, maxW).0.inv| <= maxInv
        && TookOut(s, GetFromFloor(s, kwI, kwC, maxInv, w, maxW).0, hit.value.0, hit.value.1, kwI, kwC)
  {
    var hit := FirstHit(KeysOf(s.floor), s.items, kwC, kwI);
    if hit.Some? {
      var (c, k) := hit.value;
      if |s.inv| + 1 <= maxInv && w + s.items[k].weight <= maxW {
        var t := Transfer(s, InContainer(c), InInventory, k, s.items[k].name);
        assert GetFromFloor(s, kwI, kwC, maxInv, w, maxW) == (t, Done);
        TakeOutWithin(s, c, k, maxInv);
        assert TookOut(s, t, c, k, kwI, kwC);
      }
    }
  }

  /** Taking `k` out of container `c` within the count limit leaves the inventory within it. */
  lemma TakeOutWithin(s: Scene, c: string, k: string, maxInv: int)
    requires Ready(s) && c in s.items && k in KeySet(s.items[c].contained) && k in s.items
    requires |s.inv| + 1 <= maxInv
    ensures var r := Transfer(s, InContainer(c), InInventory, k, s.items[k].name);
      && r.inv == s.inv + [Entry(k, s.items[k].name)]
      && |r.inv| <= maxInv && k !in KeySet(r.items[c].contained)
  {
    var n := s.items[k].name;
    TakeOutForm(s, c, k, n);
  }

  function Sack(key: string, contents: Dict): Item {
    Item(key, "a sack", "A sack.", ["sack"], 1, 0, Container, contents)
  }

  function SackStore(): map<string, Item> {
    map["s" := Sack("s", [Entry("r", "a rock")]), "r" := Rock("r", 100)]
  }

  /** A carried sack holding a rock of weight 100. */
  function SackCarried(): Scene {
    Scene([Entry("s", "a sack")], [], SackStore())
  }

  lemma SackReady()
    ensures Ready(SackCarried())
  {
    var s := SackCarried();
    assert KeySet(s.inv) == {"s"};
    assert KeySet(s.items["s"].contained) == {"r"};
    forall p ensures DistinctKeys(Bag(s, p)) && (p != InInventory && p != InContainer("s") ==> Bag(s, p) == []) {
    }
  }

  /** `get rock sack` finds the rock in the carried sack. */
  lemma RockInSack()
    ensures FirstHit(KeysOf(SackCarried().inv), SackStore(), "sack", "rock") == Some(("s", "r"))
  {
    assert KeysOf(SackCarried().inv) == ["s"];
    assert KeysOf(SackStore()["s"].contained) == ["r"];
    assert Inner(SackStore(), "s", "rock") == Some("r");
  }

  /** `get rock sack` takes from the carried sack. */
  lemma RockFromCarriedSack()
    requires Ready(SackCarried())
    ensures GetFrom(SackCarried(), "rock", "sack", 10, 0, 50, true) == GetFromCarried(SackCarried(), "s", "r", 10)
  {
    RockInSack();
  }

  /**
    A rock of weight 100 in a carried sack can be taken out by a player
    with a `Weight` of 0 and a weight limit of 50: only the count is checked.
  */
  lemma HeavyFromCarriedSack()
    ensures Ready(SackCarried()) && 0 + SackStore()["r"].weight > 50
    ensures var r := GetFrom(SackCarried(), "rock", "sack", 10, 0, 50, true);
      r.1 == Done && r.0.inv == [Entry("s", "a sack"), Entry("r", "a rock")]
  {
    var s := SackCarried();
    SackReady();
    RockFromCarriedSack();
    assert "r" in KeySet(s.items["s"].contained);
    TakeOutForm(s, "s", "r", "a rock");
  }
}
