/**
  Record weights. The player's own `Weight` is a given value that no item
  command changes; what the commands need from records is that moving item
  keys between collections never changes a record's weight (an entry
  without a record weighs nothing).
*/
module Weights {
  import opened Dictionaries
  import opened Items
  import opened Ownership

  function RecordWeight(items: map<string, Item>, k: string): int {
    if k in items then items[k].weight else 0
  }

  /** Every key weighs the same in both stores. */
  ghost predicate SameWeights(a: map<string, Item>, b: map<string, Item>) {
    forall k :: RecordWeight(a, k) == RecordWeight(b, k)
  }

  /** Replacing the contents of a collection leaves every record's weight alone. */
  lemma WithBagKeepsWeights(s: Scene, p: Place, d: Dict)
    requires IsPlace(s, p)
    ensures SameWeights(s.items, WithBag(s, p, d).items)
  {
    var r := WithBag(s, p, d);
    forall k ensures RecordWeight(s.items, k) == RecordWeight(r.items, k) {
      if p.InContainer? && k == p.container {
      }
    }
  }

  lemma MoveKeepsWeights(s: Scene, src: Place, dst: Place, k: string, n: string)
    requires IsPlace(s, src) && IsPlace(s, dst) && src != dst
    requires k !in KeySet(Bag(s, dst))
    ensures SameWeights(s.items, Move(s, src, dst, k, n).items)
  {
    var s1 := WithBag(s, src, Remove(Bag(s, src), k));
    WithBagKeepsWeights(s, src, Remove(Bag(s, src), k));
    WithBagKeepsWeights(s1, dst, Add(Bag(s1, dst), k, n));
  }
}
