/**
  What `drop`, `put`, `empty` and `fill` guarantee about the collections
  they change.
*/
module StashLaws {
  import opened Options
  import opened Dictionaries
  import opened Items
  import opened Resolver
  import opened Ownership
  import opened Weights
  import opened Searches
  import opened Transfers
  import opened GetLaws

  // ---------------------------------------------------------------- drop

  /**
    `drop` moves the resolved item from the inventory to the end of the
    floor under its name; without a room it is held nowhere afterwards.
  */
  lemma DropMoves(s: Scene, args: seq<string>, roomPresent: bool)
    requires Ready(s) && |args| > 0 && Resolve(s.inv, s.items, args[0]).Found?
    ensures var it := Resolve(s.inv, s.items, args[0]).item;
      && it.key in KeySet(s.inv) && it.key !in KeySet(s.floor)
      && (roomPresent ==> Drop(s, args, roomPresent) == (Scene(Remove(s.inv, it.key), s.floor + [Entry(it.key, it.name)], s.items), Done))
      && (!roomPresent ==> (Drop(s, args, roomPresent).1 == Silent
            && forall q :: it.key !in KeySet(Bag(Drop(s, args, roomPresent).0, q))))
  {
    var it := Resolve(s.inv, s.items, args[0]).item;
    ResolveIsNthMatch(s.inv, s.items, args[0]);
    DropForm(s, it.key, it.name);
  }

  /** A token that resolves to nothing leaves every collection as it was. */
  lemma DropMissingChangesNothing(s: Scene, args: seq<string>, roomPresent: bool)
    requires Ready(s) && |args| > 0 && Resolve(s.inv, s.items, args[0]).NotFound?
    ensures Drop(s, args, roomPresent) == (s, NoItem)
  {
  }

  // ---------------------------------------------------------------- put

  /** What a successful `put` did: the item's key left the inventory for the container's contents. */
  predicate PutInto(s: Scene, r: Scene, c: string, k: string, kwI: string, kwC: string) {
    && Carries(s.items, k, kwI) && k in KeySet(s.inv) && IsBag(s.items, c, kwC)
    && r.inv == Remove(s.inv, k) && c in r.items
    && Lookup(r.items[c].contained, k) == Some(s.items[k].name)
  }

  /**
    `put` completes exactly when it has two arguments, some inventory record
    carries the item keyword and `PutTarget` finds a container; it then
    moves the first such record into the contents of that container. Any
    other answer changes nothing.
  */
  lemma PutMoves(s: Scene, args: seq<string>, roomPresent: bool)
    requires Ready(s)
    ensures Put(s, args, roomPresent).1 == Done <==>
      |args| >= 2 && FirstCarrying(KeysOf(s.inv), s.items, args[0]).Some? && PutTarget(s, args[1], roomPresent).Some?
    ensures Put(s, args, roomPresent).1 == Done ==>
      |args| >= 2 && FirstCarrying(KeysOf(s.inv), s.items, args[0]).Some? && PutTarget(s, args[1], roomPresent).Some?
      && PutInto(s, Put(s, args, roomPresent).0, PutTarget(s, args[1], roomPresent).value,
                 FirstCarrying(KeysOf(s.inv), s.items, args[0]).value, args[0], args[1])
    ensures Put(s, args, roomPresent).1 != Done ==> Put(s, args, roomPresent).0 == s
  {
    var r := Put(s, args, roomPresent);
    if r.1 == Done {
      KeysOfKeySet(s.inv);
      var k := FirstCarrying(KeysOf(s.inv), s.items, args[0]).value;
      var c := PutTarget(s, args[1], roomPresent).value;
      PutInForm(s, c, k, s.items[k].name);
      AppendLookup(s.items[c].contained, Entry(k, s.items[k].name));
      assert PutInto(s, r.0, c, k, args[0], args[1]);
    }
  }

  /** No container record lists itself among its contents. */
  predicate NoSelfContainment(items: map<string, Item>) {
    forall c | c in items :: c !in KeySet(items[c].contained)
  }

  function Bag3(key: string): Item {
    Item(key, "a bag", "A bag.", ["bag"], 1, 0, Container, [])
  }

  /** A carried, empty bag. */
  function BagCarried(): Scene {
    Scene([Entry("b", "a bag")], [], map["b" := Bag3("b")])
  }

  lemma BagReady()
    ensures Ready(BagCarried()) && NoSelfContainment(BagCarried().items)
  {
    var s := BagCarried();
    assert KeySet(s.inv) == {"b"};
    PlainScene(s);
  }

  /**
    As written, `put bag bag` files the bag inside itself: it leaves the
    inventory and its own contents list it.
  */
  lemma PutBagInItself()
    ensures Ready(BagCarried())
    ensures var r := Put(BagCarried(), ["bag", "bag"], false);
      r.1 == Done && r.0.inv == [] && "b" in KeySet(r.0.items["b"].contained)
      && !NoSelfContainment(r.0.items)
  {
    var s := BagCarried();
    BagReady();
    BagFindsItself();
    PutInForm(s, "b", "b", "a bag");
    var r := Transfer(s, InInventory, InContainer("b"), "b", "a bag");
    assert r.items["b"].contained == [Entry("b", "a bag")];
  }

  /** In `BagCarried()` the bag is both the item and the container `put bag bag` names. */
  lemma BagFindsItself()
    ensures KeysOf(BagCarried().inv) == ["b"]
    ensures FirstCarrying(["b"], BagCarried().items, "bag") == Some("b")
    ensures PutTarget(BagCarried(), "bag", false) == Some("b")
  {
    var s := BagCarried();
    KeysOfKeySet(s.inv);
    assert FirstBag(["b"], s.items, "bag") == Some("b");
  }

  /** The evident intent of `put`: the container may not be the item itself. */
  function PutChecked(s: Scene, args: seq<string>, roomPresent: bool): (r: (Scene, Reply))
    requires Ready(s)
    ensures Ready(r.0)
    ensures r.1 != Done ==> r.0 == s
  {
    if |args| < 2 then (s, ShowSyntax)
    else
      KeysOfKeySet(s.inv);
      match FirstCarrying(KeysOf(s.inv), s.items, args[0])
      case None => (s, NoItem)
      case Some(k) =>
        match PutTarget(s, args[1], roomPresent)
        case None => (s, NoContainer)
        case Some(c) =>
          if c == k then (s, Refused)
          else (Transfer(s, InInventory, InContainer(c), k, s.items[k].name), Done)
  }

  /** Filing `k` into a container other than itself keeps every record out of its own contents. */
  lemma PutInKeepsNoSelfContainment(s: Scene, c: string, k: string)
    requires Ready(s) && c in s.items && k in s.items && k in KeySet(s.inv) && c != k && NoSelfContainment(s.items)
    ensures NoSelfContainment(Transfer(s, InInventory, InContainer(c), k, s.items[k].name).items)
  {
    var r := Transfer(s, InInventory, InContainer(c), k, s.items[k].name);
    PutInForm(s, c, k, s.items[k].name);
    forall x | x in r.items ensures x !in KeySet(r.items[x].contained) {
      if x == c {
        assert KeySet(r.items[c].contained) == KeySet(s.items[c].contained) + {k};
      } else {
        assert r.items[x] == s.items[x];
      }
    }
  }

  /** With the guard, `put` never makes a record contain itself. */
  lemma PutCheckedKeepsNoSelfContainment(s: Scene, args: seq<string>, roomPresent: bool)
    requires Ready(s) && NoSelfContainment(s.items)
    ensures NoSelfContainment(PutChecked(s, args, roomPresent).0.items)
  {
    if PutChecked(s, args, roomPresent).1 == Done {
      KeysOfKeySet(s.inv);
      var k := FirstCarrying(KeysOf(s.inv), s.items, args[0]).value;
      var c := PutTarget(s, args[1], roomPresent).value;
      PutInKeepsNoSelfContainment(s, c, k);
    }
  }

  // ---------------------------------------------------------------- empty

  /**
    `empty` with a room: the container's contents are appended to the floor
    in order and under their names, the container is left empty, and the
    inventory and every other record are untouched.
  */
  lemma {:induction false} EmptyAllResult(s: Scene, c: string)
    requires Ready(s) && c in s.items
    ensures var r := EmptyAll(s, c);
      && r.floor == s.floor + s.items[c].contained
      && r.inv == s.inv
      && r.items == s.items[c := s.items[c].(contained := [])]
    decreases |s.items[c].contained|
  {
    var d := s.items[c].contained;
    if d != [] {
      var t := Scene(s.inv, s.floor + [d[0]], s.items[c := s.items[c].(contained := d[1..])]);
      TossHead(s, c);
      EmptyAllResult(t, c);
      EmptiedAfterHead(s, c, t, EmptyAll(t, c));
    } else {
      assert s.items[c := s.items[c].(contained := [])] == s.items;
    }
  }

  /** Emptying what is left after the first toss empties the whole container. */
  lemma EmptiedAfterHead(s: Scene, c: string, t: Scene, r: Scene)
    requires c in s.items && s.items[c].contained != []
    requires var d := s.items[c].contained;
      t == Scene(s.inv, s.floor + [d[0]], s.items[c := s.items[c].(contained := d[1..])])
    requires r.floor == t.floor + t.items[c].contained && r.inv == t.inv
    requires r.items == t.items[c := t.items[c].(contained := [])]
    ensures r.floor == s.floor + s.items[c].contained && r.inv == s.inv
    ensures r.items == s.items[c := s.items[c].(contained := [])]
  {
    var d := s.items[c].contained;
    assert d == [d[0]] + d[1..];
    assert t.items[c := t.items[c].(contained := [])] == s.items[c := s.items[c].(contained := [])];
  }

  /**
    Tossing a container's first entry moves it, as it is, to the end of the
    floor; `empty` then goes on from that scene.
  */
  lemma TossHead(s: Scene, c: string)
    requires Ready(s) && c in s.items && s.items[c].contained != []
    ensures var d := s.items[c].contained;
      var t := Scene(s.inv, s.floor + [d[0]], s.items[c := s.items[c].(contained := d[1..])]);
      Ready(t) && c in t.items && |t.items[c].contained| < |d| && EmptyAll(s, c) == EmptyAll(t, c)
  {
    var d := s.items[c].contained;
    assert Bag(s, InContainer(c)) == d && DistinctKeys(d);
    assert d[0] in d;
    RemoveHead(d);
    TossForm(s, c, d[0].key, d[0].name);
  }

  /**
    Without a room, `empty` takes the first entry out of the container and
    fails before filing it anywhere: that item is lost.
  */
  lemma EmptyWithoutRoomLoses(s: Scene, args: seq<string>)
    requires Ready(s) && |args| > 0 && Resolve(s.inv, s.items, args[0]).Found?
    ensures var it := Resolve(s.inv, s.items, args[0]).item;
      it.key in s.items && (s.items[it.key].contained != [] ==>
        var e := s.items[it.key].contained[0];
        Empty(s, args, false).1 == Crashed && forall q :: e.key !in KeySet(Bag(Empty(s, args, false).0, q)))
    ensures var it := Resolve(s.inv, s.items, args[0]).item;
      it.key in s.items && (s.items[it.key].contained == [] ==> Empty(s, args, false) == (s, Crashed))
  {
    ResolveIsNthMatch(s.inv, s.items, args[0]);
  }

  // ---------------------------------------------------------------- fill

  /** One stow from the floor into container `c`, in closed form. */
  lemma StowShape(s: Scene, c: string, k: string)
    requires Ready(s) && c in s.items && k in KeySet(s.floor) && k in s.items
    ensures var t := Transfer(s, OnFloor, InContainer(c), k, s.items[k].name);
      && t.inv == s.inv && t.floor == Remove(s.floor, k)
      && t.items == s.items[c := s.items[c].(contained := Add(s.items[c].contained, k, s.items[k].name))]
      && forall x | x in s.items :: x in t.items && t.items[x].weight == s.items[x].weight
  {
    var t := Transfer(s, OnFloor, InContainer(c), k, s.items[k].name);
    StowForm(s, c, k, s.items[k].name);
    forall x | x in s.items ensures x in t.items && t.items[x].weight == s.items[x].weight {
      assert RecordWeight(s.items, x) == RecordWeight(t.items, x);
    }
  }

  /** Every visited key with a record is light enough on its own, added to the player's `Weight` `w`. */
  ghost predicate AllLight(s: Scene, keys: seq<string>, w: int, maxW: int) {
    forall i | 0 <= i < |keys| && keys[i] in s.items :: w + s.items[keys[i]].weight <= maxW
  }

  /**
    `fill` never changes the inventory or the player's `Weight`, so the
    weight is the same for every check: each item is compared with the
    limit on its own, and the fill completes exactly when every visited
    record is light enough by itself.
  */
  lemma {:induction false} FillFromResult(s: Scene, c: string, keys: seq<string>, w: int, maxW: int)
    requires Ready(s) && c in s.items && OnFloorDistinct(s, keys)
    ensures FillFrom(s, c, keys, w, maxW).0.inv == s.inv
    ensures FillFrom(s, c, keys, w, maxW).1 == Done <==> AllLight(s, keys, w, maxW)
    decreases |keys|
  {
    if keys != [] {
      var k := keys[0];
      var rest := keys[1..];
      if k !in s.items {
        FillFromResult(s, c, rest, w, maxW);
        LightRest(s, s, keys, w, maxW);
      } else if w + s.items[k].weight <= maxW {
        var t := Transfer(s, OnFloor, InContainer(c), k, s.items[k].name);
        StowKeepsRest(s, c, keys);
        StowShape(s, c, k);
        FillFromResult(t, c, rest, w, maxW);
        LightRest(s, t, keys, w, maxW);
      }
    }
  }

  /**
    `fill` only adds to the container and only takes from the floor; when
    it completes, every visited key with a record is in the container and
    no longer on the floor.
  */
  lemma {:induction false} FillFromStows(s: Scene, c: string, keys: seq<string>, w: int, maxW: int)
    requires Ready(s) && c in s.items && OnFloorDistinct(s, keys)
    ensures var r := FillFrom(s, c, keys, w, maxW).0;
      KeySet(s.items[c].contained) <= KeySet(r.items[c].contained) && KeySet(r.floor) <= KeySet(s.floor)
    ensures var r := FillFrom(s, c, keys, w, maxW);
      r.1 == Done ==> forall i | 0 <= i < |keys| && keys[i] in s.items ::
        keys[i] in KeySet(r.0.items[c].contained) && keys[i] !in KeySet(r.0.floor)
    decreases |keys|
  {
    if keys != [] {
      var k := keys[0];
      var rest := keys[1..];
      var r := FillFrom(s, c, keys, w, maxW);
      if k !in s.items {
        FillFromStows(s, c, rest, w, maxW);
        if r.1 == Done {
          StowedRest(s, s, r.0, c, keys);
        }
      } else if w + s.items[k].weight <= maxW {
        var t := Transfer(s, OnFloor, InContainer(c), k, s.items[k].name);
        StowKeepsRest(s, c, keys);
        StowShape(s, c, k);
        FillFromStows(t, c, rest, w, maxW);
        if r.1 == Done {
          StowedRest(s, t, r.0, c, keys);
        }
      }
    }
  }

  /** The induction step of `FillFromStows`: the first key is handled, the rest by the hypothesis. */
  lemma StowedRest(s: Scene, t: Scene, r: Scene, c: string, keys: seq<string>)
    requires keys != [] && t.items.Keys == s.items.Keys && c in t.items && c in r.items
    requires keys[0] in s.items ==> keys[0] in KeySet(t.items[c].contained) && keys[0] !in KeySet(t.floor)
    requires KeySet(t.items[c].contained) <= KeySet(r.items[c].contained) && KeySet(r.floor) <= KeySet(t.floor)
    requires forall i | 0 <= i < |keys[1..]| && keys[1..][i] in t.items ::
      keys[1..][i] in KeySet(r.items[c].contained) && keys[1..][i] !in KeySet(r.floor)
    ensures forall i | 0 <= i < |keys| && keys[i] in s.items ::
      keys[i] in KeySet(r.items[c].contained) && keys[i] !in KeySet(r.floor)
  {
    forall i | 0 <= i < |keys| && keys[i] in s.items
      ensures keys[i] in KeySet(r.items[c].contained) && keys[i] !in KeySet(r.floor) {
      if i > 0 {
        assert keys[i] == keys[1..][i - 1];
      }
    }
  }

  /**
    When the first visited key passes the check, the whole sequence is light
    exactly when the rest is, measured in any scene with the same record
    weights.
  */
  lemma LightRest(s: Scene, t: Scene, keys: seq<string>, w: int, maxW: int)
    requires keys != [] && (keys[0] in s.items ==> w + s.items[keys[0]].weight <= maxW)
    requires t.items.Keys == s.items.Keys
    requires forall x | x in s.items :: t.items[x].weight == s.items[x].weight
    ensures AllLight(s, keys, w, maxW) <==> AllLight(t, keys[1..], w, maxW)
  {
    var rest := keys[1..];
    assert forall i | 0 <= i < |rest| :: rest[i] == keys[i + 1];
    if AllLight(t, rest, w, maxW) {
      forall i | 0 <= i < |keys| && keys[i] in s.items
        ensures w + s.items[keys[i]].weight <= maxW {
        if i > 0 {
          assert keys[i] == rest[i - 1];
        }
      }
    }
  }

  // --------------------------------------------------------- where fill stops

  /**
    Where `fill` stops: the index of the first visited key whose record,
    added to the player's `Weight` `w`, exceeds `maxW`, or `|keys|` when no
    record does.
  */
  function FillStop(items: map<string, Item>, keys: seq<string>, w: int, maxW: int): (j: nat)
    ensures j <= |keys|
    ensures forall i | 0 <= i < j && keys[i] in items :: w + items[keys[i]].weight <= maxW
    ensures j < |keys| ==> keys[j] in items && w + items[keys[j]].weight > maxW
    decreases |keys|
  {
    if keys == [] then 0
    else if keys[0] in items && w + items[keys[0]].weight > maxW then 0
    else
      assert forall i | 1 <= i < |keys| :: keys[i] == keys[1..][i - 1];
      1 + FillStop(items, keys[1..], w, maxW)
  }

  /** The entries `fill` files for the visited keys `keys`: each key with a record, in order, under the record's name. */
  function Stowed(items: map<string, Item>, keys: seq<string>): (d: Dict)
    ensures forall e | e in d :: e.key in keys && e.key in items && e.name == items[e.key].name
    ensures forall i | 0 <= i < |keys| && keys[i] in items :: keys[i] in KeySet(d)
    decreases |keys|
  {
    if keys == [] then []
    else
      var rest := Stowed(items, keys[1..]);
      assert forall i | 1 <= i < |keys| :: keys[i] == keys[1..][i - 1];
      if keys[0] in items then [Entry(keys[0], items[keys[0]].name)] + rest else rest
  }

  /** `d` without the entries whose keys are in `gone`, the rest in order. */
  function DropKeys(d: Dict, gone: set<string>): (r: Dict)
    ensures KeySet(r) == KeySet(d) - gone
    ensures forall e | e in r :: e in d
  {
    if d == [] then []
    else
      var rest := DropKeys(d[1..], gone);
      assert d == [d[0]] + d[1..];
      KeySetConcat([d[0]], d[1..]);
      if d[0].key in gone then rest
      else
        KeySetConcat([d[0]], rest);
        [d[0]] + rest
  }

  lemma {:induction false} DropNoKeys(d: Dict)
    ensures DropKeys(d, {}) == d
  {
    if d != [] {
      DropNoKeys(d[1..]);
      assert d == [d[0]] + d[1..];
    }
  }

  /** Removing `k` and then the keys `gone` is removing the keys `{k} + gone`. */
  lemma {:induction false} RemoveThenDrop(d: Dict, k: string, gone: set<string>)
    ensures DropKeys(Remove(d, k), gone) == DropKeys(d, {k} + gone)
  {
    if d != [] {
      var rest := Remove(d[1..], k);
      RemoveThenDrop(d[1..], k, gone);
      if d[0].key != k {
        assert Remove(d, k) == [d[0]] + rest && ([d[0]] + rest)[1..] == rest;
      }
    }
  }

  /** Two stores with the same keys and, under each key, the same weight and name. */
  ghost predicate SameRecords(a: map<string, Item>, b: map<string, Item>) {
    a.Keys == b.Keys && forall x | x in a :: b[x].weight == a[x].weight && b[x].name == a[x].name
  }

  lemma {:induction false} StopAgrees(a: map<string, Item>, b: map<string, Item>, keys: seq<string>, w: int, maxW: int)
    requires SameRecords(a, b)
    ensures FillStop(b, keys, w, maxW) == FillStop(a, keys, w, maxW)
    decreases |keys|
  {
    if keys != [] {
      StopAgrees(a, b, keys[1..], w, maxW);
    }
  }

  lemma {:induction false} StowedAgrees(a: map<string, Item>, b: map<string, Item>, keys: seq<string>)
    requires SameRecords(a, b)
    ensures Stowed(b, keys) == Stowed(a, keys)
    decreases |keys|
  {
    if keys != [] {
      StowedAgrees(a, b, keys[1..]);
    }
  }

  /**
    `r` is what `fill` leaves after visiting `keys` from `s`: the visited
    keys with a record before `FillStop` are stowed, in order and under the
    records' names, at the container's end; the floor loses exactly those
    keys; the inventory and every other record stay; and the reply is
    `AllYouCould` exactly when `fill` stopped before the end.
  */
  ghost predicate FilledPrefix(s: Scene, c: string, keys: seq<string>, w: int, maxW: int, r: (Scene, Reply)) {
    var j := FillStop(s.items, keys, w, maxW);
    var moved := Stowed(s.items, keys[..j]);
    && (r.1 == AllYouCould <==> j < |keys|)
    && r.0.inv == s.inv
    && r.0.floor == DropKeys(s.floor, KeySet(moved))
    && c in s.items
    && r.0.items == s.items[c := s.items[c].(contained := s.items[c].contained + moved)]
  }

  /** Stopping, at the end of `keys` or at a heavy record, stows nothing. */
  lemma PrefixAtStop(s: Scene, c: string, keys: seq<string>, w: int, maxW: int)
    requires c in s.items
    requires keys == [] || (keys[0] in s.items && w + s.items[keys[0]].weight > maxW)
    ensures FilledPrefix(s, c, keys, w, maxW, (s, if keys == [] then Done else AllYouCould))
  {
    assert FillStop(s.items, keys, w, maxW) == 0 && keys[..0] == [];
    assert KeySet([]) == {};
    DropNoKeys(s.floor);
    assert s.items[c].contained + [] == s.items[c].contained;
  }

  /** A visited key without a record is skipped. */
  lemma PrefixSkip(s: Scene, c: string, keys: seq<string>, w: int, maxW: int, r: (Scene, Reply))
    requires keys != [] && keys[0] !in s.items
    requires FilledPrefix(s, c, keys[1..], w, maxW, r)
    ensures FilledPrefix(s, c, keys, w, maxW, r)
  {
    var j' := FillStop(s.items, keys[1..], w, maxW);
    assert keys[..1 + j'] == [keys[0]] + keys[1..][..j'];
  }

  lemma StowedCons(items: map<string, Item>, keys: seq<string>, j: nat)
    requires keys != [] && keys[0] in items && j < |keys|
    ensures Stowed(items, keys[..1 + j]) == [Entry(keys[0], items[keys[0]].name)] + Stowed(items, keys[1..][..j])
  {
    assert keys[..1 + j][1..] == keys[1..][..j];
  }

  lemma DropStowed(floor: Dict, e: Entry, moved: Dict)
    ensures DropKeys(Remove(floor, e.key), KeySet(moved)) == DropKeys(floor, KeySet([e] + moved))
  {
    KeySetConcat([e], moved);
    assert KeySet([e]) == {e.key};
    RemoveThenDrop(floor, e.key, KeySet(moved));
  }

  /** A light visited record `k` is stowed first, into `t`, and the rest is stowed from `t`. */
  lemma PrefixStow(s: Scene, t: Scene, c: string, keys: seq<string>, w: int, maxW: int, r: (Scene, Reply))
    requires keys != [] && c in s.items && keys[0] in s.items && w + s.items[keys[0]].weight <= maxW
    requires t.inv == s.inv && t.floor == Remove(s.floor, keys[0])
    requires t.items == s.items[c := s.items[c].(contained := s.items[c].contained + [Entry(keys[0], s.items[keys[0]].name)])]
    requires FilledPrefix(t, c, keys[1..], w, maxW, r)
    ensures FilledPrefix(s, c, keys, w, maxW, r)
  {
    var e := Entry(keys[0], s.items[keys[0]].name);
    var rest := keys[1..];
    assert SameRecords(s.items, t.items);
    StopAgrees(s.items, t.items, rest, w, maxW);
    var j' := FillStop(s.items, rest, w, maxW);
    StowedAgrees(s.items, t.items, rest[..j']);
    var moved' := Stowed(s.items, rest[..j']);
    StowedCons(s.items, keys, j');
    DropStowed(s.floor, e, moved');
    StowTwice(s.items, t.items, r.0.items, c, e, moved');
  }

  /** Stowing `e` and then `moved` is stowing `[e] + moved`. */
  lemma StowTwice(items: map<string, Item>, t: map<string, Item>, r: map<string, Item>, c: string, e: Entry, moved: Dict)
    requires c in items
    requires t == items[c := items[c].(contained := items[c].contained + [e])]
    requires r == t[c := t[c].(contained := t[c].contained + moved)]
    ensures r == items[c := items[c].(contained := items[c].contained + ([e] + moved))]
  {
    assert items[c].contained + [e] + moved == items[c].contained + ([e] + moved);
  }

  lemma {:induction false} FilledPrefixHolds(s: Scene, c: string, keys: seq<string>, w: int, maxW: int)
    requires Ready(s) && c in s.items && OnFloorDistinct(s, keys)
    ensures FilledPrefix(s, c, keys, w, maxW, FillFrom(s, c, keys, w, maxW))
    decreases |keys|
  {
    if keys == [] || (keys[0] in s.items && w + s.items[keys[0]].weight > maxW) {
      PrefixAtStop(s, c, keys, w, maxW);
    } else if keys[0] !in s.items {
      FilledPrefixHolds(s, c, keys[1..], w, maxW);
      PrefixSkip(s, c, keys, w, maxW, FillFrom(s, c, keys, w, maxW));
    } else {
      var t := Transfer(s, OnFloor, InContainer(c), keys[0], s.items[keys[0]].name);
      StowKeepsRest(s, c, keys);
      StowShape(s, c, keys[0]);
      FilledPrefixHolds(t, c, keys[1..], w, maxW);
      PrefixStow(s, t, c, keys, w, maxW, FillFrom(s, c, keys, w, maxW));
    }
  }

  /**
    `fill` stows exactly the visited keys with a record before `FillStop`, in
    order and under the records' names, and goes no further: the container
    gains those entries at its end, the floor loses exactly those keys, the
    inventory and every other record stay as they were, and the reply is
    `AllYouCould` exactly when a visited record is too heavy.
  */
  lemma FillTakesPrefix(s: Scene, c: string, keys: seq<string>, w: int, maxW: int)
    requires Ready(s) && c in s.items && OnFloorDistinct(s, keys)
    ensures FillFrom(s, c, keys, w, maxW).1 == AllYouCould <==> FillStop(s.items, keys, w, maxW) < |keys|
    ensures FillFrom(s, c, keys, w, maxW).0.inv == s.inv
    ensures var moved := Stowed(s.items, keys[..FillStop(s.items, keys, w, maxW)]);
      FillFrom(s, c, keys, w, maxW).0.floor == DropKeys(s.floor, KeySet(moved))
    ensures var moved := Stowed(s.items, keys[..FillStop(s.items, keys, w, maxW)]);
      FillFrom(s, c, keys, w, maxW).0.items == s.items[c := s.items[c].(contained := s.items[c].contained + moved)]
  {
    FilledPrefixHolds(s, c, keys, w, maxW);
  }

  /** The key `fill` stops at, and every key after it, stay on the floor. */
  lemma FillLeavesRest(s: Scene, c: string, keys: seq<string>, w: int, maxW: int)
    requires Ready(s) && c in s.items && OnFloorDistinct(s, keys)
    ensures var j := FillStop(s.items, keys, w, maxW);
      forall i | j <= i < |keys| :: keys[i] in KeySet(FillFrom(s, c, keys, w, maxW).0.floor)
  {
    FillTakesPrefix(s, c, keys, w, maxW);
    var j := FillStop(s.items, keys, w, maxW);
    var moved := Stowed(s.items, keys[..j]);
    forall i | j <= i < |keys| ensures keys[i] in KeySet(DropKeys(s.floor, KeySet(moved))) {
      assert forall i' | 0 <= i' < j :: keys[..j][i'] == keys[i'] && keys[i'] != keys[i];
      assert keys[i] !in keys[..j];
      assert keys[i] !in KeySet(moved);
    }
  }

  function Stone(key: string): Item {
    Item(key, "a stone", "A stone.", ["stone"], 30, 0, Worn("hold"), [])
  }

  function StoneStore(): map<string, Item> {
    map["b" := Bag3("b"), "x" := Stone("x"), "y" := Stone("y")]
  }

  /** A carried empty bag and two stones of weight 30 on the floor. */
  function StonesOnFloor(): Scene {
    Scene([Entry("b", "a bag")], [Entry("x", "a stone"), Entry("y", "a stone")], StoneStore())
  }

  lemma StonesReady()
    ensures Ready(StonesOnFloor())
  {
    var s := StonesOnFloor();
    assert KeySet(s.inv) == {"b"};
    assert KeySet(s.floor) == {"x", "y"};
    PlainScene(s);
  }

  /**
    Two stones of weight 30, a `Weight` of 1 and a weight limit of 50: each
    stone passes the check alone, so `fill bag` stows both, 61 in all.
  */
  lemma FillChecksEachItemAlone()
    ensures Ready(StonesOnFloor())
    ensures FillFrom(StonesOnFloor(), "b", ["x", "y"], 1, 50).1 == Done
  {
    var s := StonesOnFloor();
    StonesReady();
    KeysOfKeySet(s.floor);
    assert KeysOf(s.floor) == ["x", "y"];
    FloorKeysDistinct(s);
    FillFromResult(s, "b", ["x", "y"], 1, 50);
    assert AllLight(s, ["x", "y"], 1, 50);
  }
}
