/**
  Who holds an item. An item key sits in the player's inventory, on the
  room's floor, or in the contents of a container record. A transfer moves
  one key from one of these places to another; the invariant is that every
  place has distinct keys and no key is in two places.
*/
module Ownership {
  import opened Options
  import opened Dictionaries
  import opened Items

  datatype Place = InInventory | OnFloor | InContainer(container: string)

  /** The three kinds of collection that one command can touch. */
  datatype Scene = Scene(inv: Dict, floor: Dict, items: map<string, Item>)

  function Bag(s: Scene, p: Place): Dict {
    match p
    case InInventory => s.inv
    case OnFloor => s.floor
    case InContainer(c) => if c in s.items then s.items[c].contained else []
  }

  predicate IsPlace(s: Scene, p: Place) {
    p.InContainer? ==> p.container in s.items
  }

  function WithBag(s: Scene, p: Place, d: Dict): (r: Scene)
    requires IsPlace(s, p)
    ensures r.items.Keys == s.items.Keys
    ensures forall q :: Bag(r, q) == if q == p then d else Bag(s, q)
    ensures StoreValid(s.items) ==> StoreValid(r.items)
    ensures forall c | c in s.items :: r.items[c].key == s.items[c].key
  {
    match p
    case InInventory => s.(inv := d)
    case OnFloor => s.(floor := d)
    case InContainer(c) => s.(items := s.items[c := s.items[c].(contained := d)])
  }

  ghost predicate Owned(s: Scene) {
    && (forall p :: DistinctKeys(Bag(s, p)))
    && (forall p, q | p != q :: KeySet(Bag(s, p)) !! KeySet(Bag(s, q)))
  }

  /** Move the entry with key `k` from `src` to `dst`, filing it under name `n`. */
  function Move(s: Scene, src: Place, dst: Place, k: string, n: string): (r: Scene)
    requires IsPlace(s, src) && IsPlace(s, dst) && src != dst
    requires k !in KeySet(Bag(s, dst))
    ensures r.items.Keys == s.items.Keys
    ensures StoreValid(s.items) ==> StoreValid(r.items)
  {
    var s1 := WithBag(s, src, Remove(Bag(s, src), k));
    WithBag(s1, dst, Add(Bag(s1, dst), k, n))
  }

  /** A held key is in no other place. */
  lemma HeldOnce(s: Scene, p: Place, k: string)
    requires Owned(s) && k in KeySet(Bag(s, p))
    ensures forall q | q != p :: k !in KeySet(Bag(s, q))
  {
  }

  /** The collection at `q` after moving `k` from `src` to `dst`. */
  function Moved(s: Scene, src: Place, dst: Place, k: string, n: string, q: Place): Dict
    requires k !in KeySet(Bag(s, dst))
  {
    if q == dst then Add(Bag(s, dst), k, n)
    else if q == src then Remove(Bag(s, src), k)
    else Bag(s, q)
  }

  lemma MoveBagAt(s: Scene, src: Place, dst: Place, k: string, n: string, q: Place)
    requires IsPlace(s, src) && IsPlace(s, dst) && src != dst
    requires k !in KeySet(Bag(s, dst))
    ensures Bag(Move(s, src, dst, k, n), q) == Moved(s, src, dst, k, n, q)
  {
  }

  /** How the key set and distinctness of one place change under a transfer. */
  lemma MoveKeySetAt(s: Scene, src: Place, dst: Place, k: string, n: string, q: Place)
    requires IsPlace(s, src) && IsPlace(s, dst) && src != dst
    requires k !in KeySet(Bag(s, dst))
    ensures q == dst ==> KeySet(Bag(Move(s, src, dst, k, n), q)) == KeySet(Bag(s, q)) + {k}
    ensures q == src ==> KeySet(Bag(Move(s, src, dst, k, n), q)) == KeySet(Bag(s, q)) - {k}
    ensures q != dst && q != src ==> Bag(Move(s, src, dst, k, n), q) == Bag(s, q)
    ensures DistinctKeys(Bag(s, q)) ==> DistinctKeys(Bag(Move(s, src, dst, k, n), q))
  {
    MoveBagAt(s, src, dst, k, n, q);
    if q == src && DistinctKeys(Bag(s, q)) {
      RemoveDistinct(Bag(s, q), k);
    }
  }

  /**
    A transfer keeps the invariant, leaves `k` in exactly one place, `dst`,
    and changes the holding of no other key.
  */
  lemma {:induction false} MoveKeepsOwnership(s: Scene, src: Place, dst: Place, k: string, n: string)
    requires Owned(s) && IsPlace(s, src) && IsPlace(s, dst) && src != dst
    requires k in KeySet(Bag(s, src))
    ensures k !in KeySet(Bag(s, dst))
    ensures Owned(Move(s, src, dst, k, n))
    ensures forall q :: k in KeySet(Bag(Move(s, src, dst, k, n), q)) <==> q == dst
    ensures forall q, x | x != k :: x in KeySet(Bag(Move(s, src, dst, k, n), q)) <==> x in KeySet(Bag(s, q))
    ensures Lookup(Bag(Move(s, src, dst, k, n), dst), k) == Some(n)
  {
    HeldOnce(s, src, k);
    var r := Move(s, src, dst, k, n);
    forall q ensures DistinctKeys(Bag(r, q)) {
      MoveKeySetAt(s, src, dst, k, n, q);
    }
    forall q ensures k in KeySet(Bag(r, q)) <==> q == dst {
      MoveKeySetAt(s, src, dst, k, n, q);
    }
    forall q, x | x != k ensures x in KeySet(Bag(r, q)) <==> x in KeySet(Bag(s, q)) {
      MoveKeySetAt(s, src, dst, k, n, q);
    }
    forall p, q | p != q ensures KeySet(Bag(r, p)) !! KeySet(Bag(r, q)) {
      MoveKeySetAt(s, src, dst, k, n, p);
      MoveKeySetAt(s, src, dst, k, n, q);
      assert KeySet(Bag(s, p)) !! KeySet(Bag(s, q));
    }
    MoveBagAt(s, src, dst, k, n, dst);
  }

  /** Dropping the key from `src` without filing it anywhere: the item is held nowhere. */
  lemma {:induction false} DiscardLosesItem(s: Scene, src: Place, k: string)
    requires Owned(s) && IsPlace(s, src) && k in KeySet(Bag(s, src))
    ensures Owned(WithBag(s, src, Remove(Bag(s, src), k)))
    ensures forall q :: k !in KeySet(Bag(WithBag(s, src, Remove(Bag(s, src), k)), q))
  {
    var r := WithBag(s, src, Remove(Bag(s, src), k));
    RemoveDistinct(Bag(s, src), k);
    assert forall p :: DistinctKeys(Bag(r, p));
    forall p, q | p != q ensures KeySet(Bag(r, p)) !! KeySet(Bag(r, q)) {
      assert KeySet(Bag(s, p)) !! KeySet(Bag(s, q));
    }
  }
}
