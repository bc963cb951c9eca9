/**
  The `Dictionary<string, string>` collections of the game (a player's
  inventory, a room's floor items, a container's contents), each a map from
  an item key to its display name, modelled as the sequence of its entries
  in enumeration order with pairwise distinct keys.
*/
module Dictionaries {
  import opened Options

  datatype Entry = Entry(key: string, name: string)

  type Dict = seq<Entry>

  function KeySet(d: Dict): set<string> {
    set e | e in d :: e.key
  }

  /** The keys in enumeration order (what `Keys` yields, or `Keys.ToArray()`). */
  function KeysOf(d: Dict): (ks: seq<string>)
    ensures |ks| == |d|
    ensures forall i | 0 <= i < |d| :: ks[i] == d[i].key
  {
    seq(|d|, i requires 0 <= i < |d| => d[i].key)
  }

  predicate DistinctKeys(d: Dict) {
    forall i, j | 0 <= i < j < |d| :: d[i].key != d[j].key
  }

  /** `TryGetValue`: the name stored under `k`, if any. */
  function Lookup(d: Dict, k: string): (r: Option<string>)
    ensures r.Some? <==> k in KeySet(d)
    ensures r.Some? ==> Entry(k, r.value) in d
    ensures DistinctKeys(d) && r.Some? ==> forall e | e in d && e.key == k :: e.name == r.value
  {
    if d == [] then None
    else if d[0].key == k then Some(d[0].name)
    else Lookup(d[1..], k)
  }

  /** `Remove(k)`: drops the entry with key `k`; `RemoveKeepsOrder` shows the rest keeps its order. */
  function Remove(d: Dict, k: string): (r: Dict)
    ensures KeySet(r) == KeySet(d) - {k}
    ensures forall e | e in r :: e in d && e.key != k
    ensures forall e | e in d && e.key != k :: e in r
    ensures k !in KeySet(d) ==> r == d
  {
    if d == [] then []
    else
      var rest := Remove(d[1..], k);
      assert d == [d[0]] + d[1..];
      KeySetConcat([d[0]], d[1..]);
      if d[0].key == k then rest
      else
        KeySetConcat([d[0]], rest);
        [d[0]] + rest
  }

  /** For a present key of a dictionary with distinct keys, `Remove` cuts out its one entry, and the rest keeps its order. */
  lemma RemoveKeepsOrder(d: Dict, k: string)
    requires DistinctKeys(d) && k in KeySet(d)
    ensures exists i | 0 <= i < |d| :: d[i].key == k && Remove(d, k) == d[..i] + d[i + 1..]
  {
    var e :| e in d && e.key == k;
    var i :| 0 <= i < |d| && d[i] == e;
    RemoveAt(d, i);
    assert d[i].key == k && Remove(d, k) == d[..i] + d[i + 1..];
  }

  /** Removing the key at index `i`, which no other entry has, cuts out that entry. */
  lemma {:induction false} RemoveAt(d: Dict, i: nat)
    requires i < |d| && forall j | 0 <= j < |d| && j != i :: d[j].key != d[i].key
    ensures Remove(d, d[i].key) == d[..i] + d[i + 1..]
  {
    if i == 0 {
      RemoveAtHead(d);
    } else {
      assert d[1..][i - 1] == d[i];
      RemoveAt(d[1..], i - 1);
      RemoveAtStep(d, i);
    }
  }

  lemma RemoveAtHead(d: Dict)
    requires d != [] && forall j | 0 < j < |d| :: d[j].key != d[0].key
    ensures Remove(d, d[0].key) == d[..0] + d[1..]
  {
    assert forall e | e in d[1..] :: e.key != d[0].key;
  }

  lemma RemoveAtStep(d: Dict, i: nat)
    requires 0 < i < |d| && d[0].key != d[i].key
    requires Remove(d[1..], d[i].key) == d[1..][..i - 1] + d[1..][i..]
    ensures Remove(d, d[i].key) == d[..i] + d[i + 1..]
  {
    assert Remove(d, d[i].key) == [d[0]] + Remove(d[1..], d[i].key);
    CutAfterHead(d, i);
  }

  lemma CutAfterHead(d: Dict, i: nat)
    requires 0 < i < |d|
    ensures [d[0]] + (d[1..][..i - 1] + d[1..][i..]) == d[..i] + d[i + 1..]
  {
    assert d[..i] == [d[0]] + d[1..][..i - 1];
  }

  /** Removing from a dictionary keeps its keys distinct and, for a present key, drops exactly one entry. */
  lemma {:induction false} RemoveDistinct(d: Dict, k: string)
    requires DistinctKeys(d)
    ensures DistinctKeys(Remove(d, k))
    ensures k in KeySet(d) ==> |Remove(d, k)| == |d| - 1
  {
    if d != [] {
      assert d == [d[0]] + d[1..];
      DistinctConcat([d[0]], d[1..]);
      RemoveDistinct(d[1..], k);
      if d[0].key != k {
        DistinctConcat([d[0]], Remove(d[1..], k));
      }
    }
  }

  /** `Add(k, n)`, which throws on a key that is already present. */
  function Add(d: Dict, k: string, n: string): (r: Dict)
    requires k !in KeySet(d)
    ensures KeySet(r) == KeySet(d) + {k}
    ensures DistinctKeys(d) ==> DistinctKeys(r)
    ensures Lookup(r, k) == Some(n)
    ensures forall x | x != k :: Lookup(r, x) == Lookup(d, x)
  {
    AppendLookup(d, Entry(k, n));
    d + [Entry(k, n)]
  }

  /** The indexer assignment `d[k] = n`: overwrites in place, or appends a new entry. */
  function Assign(d: Dict, k: string, n: string): (r: Dict)
    ensures KeySet(r) == KeySet(d) + {k}
    ensures k !in KeySet(d) ==> r == d + [Entry(k, n)]
  {
    if d == [] then [Entry(k, n)]
    else if d[0].key == k then
      KeySetConcat([d[0]], d[1..]);
      KeySetConcat([Entry(k, n)], d[1..]);
      assert d == [d[0]] + d[1..];
      [Entry(k, n)] + d[1..]
    else
      KeySetConcat([d[0]], Assign(d[1..], k, n));
      KeySetConcat([d[0]], d[1..]);
      assert d == [d[0]] + d[1..];
      [d[0]] + Assign(d[1..], k, n)
  }

  lemma {:induction false} AssignLookup(d: Dict, k: string, n: string)
    ensures Lookup(Assign(d, k, n), k) == Some(n)
    ensures forall x | x != k :: Lookup(Assign(d, k, n), x) == Lookup(d, x)
  {
    if d != [] && d[0].key != k {
      AssignLookup(d[1..], k, n);
    }
  }

  lemma {:induction false} AssignDistinct(d: Dict, k: string, n: string)
    requires DistinctKeys(d)
    ensures DistinctKeys(Assign(d, k, n))
  {
    if d != [] && d[0].key != k {
      AssignDistinct(d[1..], k, n);
      DistinctConcat([d[0]], Assign(d[1..], k, n));
      DistinctConcat([d[0]], d[1..]);
    } else if d != [] {
      DistinctConcat([d[0]], d[1..]);
      DistinctConcat([Entry(k, n)], d[1..]);
    }
  }

  lemma AppendLookup(d: Dict, e: Entry)
    requires e.key !in KeySet(d)
    ensures KeySet(d + [e]) == KeySet(d) + {e.key}
    ensures DistinctKeys(d) ==> DistinctKeys(d + [e])
    ensures Lookup(d + [e], e.key) == Some(e.name)
    ensures forall x | x != e.key :: Lookup(d + [e], x) == Lookup(d, x)
  {
    if d != [] {
      assert (d + [e])[1..] == d[1..] + [e];
      AppendLookup(d[1..], e);
    }
  }

  lemma KeySetConcat(a: Dict, b: Dict)
    ensures KeySet(a + b) == KeySet(a) + KeySet(b)
  {
    forall k ensures k in KeySet(a + b) <==> k in KeySet(a) || k in KeySet(b) {
      if k in KeySet(a + b) {
        var e :| e in a + b && e.key == k;
        assert e in a || e in b;
      }
      if k in KeySet(a) {
        var e :| e in a && e.key == k;
        assert e in a + b;
      }
      if k in KeySet(b) {
        var e :| e in b && e.key == k;
        assert e in a + b;
      }
    }
  }

  /** Concatenation keeps keys distinct exactly when both parts do and they share no key. */
  lemma {:induction false} DistinctConcat(a: Dict, b: Dict)
    ensures KeySet(a + b) == KeySet(a) + KeySet(b)
    ensures DistinctKeys(a + b) <==> DistinctKeys(a) && DistinctKeys(b) && KeySet(a) !! KeySet(b)
  {
    var c := a + b;
    KeySetConcat(a, b);
    if DistinctKeys(c) {
      assert forall i, j | 0 <= i < j < |a| :: a[i] == c[i] && a[j] == c[j];
      forall i, j | 0 <= i < |a| && 0 <= j < |b| ensures a[i].key != b[j].key {
        assert a[i] == c[i] && b[j] == c[|a| + j];
      }
      forall k | k in KeySet(a) ensures k !in KeySet(b) {
        var i :| 0 <= i < |a| && a[i].key == k;
        assert forall e | e in b :: e.key != k;
      }
      assert forall i, j | 0 <= i < j < |b| :: b[i] == c[|a| + i] && b[j] == c[|a| + j];
    }
    if DistinctKeys(a) && DistinctKeys(b) && KeySet(a) !! KeySet(b) {
      forall i, j | 0 <= i < j < |c| ensures c[i].key != c[j].key {
        if j < |a| {
          assert c[i] == a[i] && c[j] == a[j];
        } else if i >= |a| {
          assert c[i] == b[i - |a|] && c[j] == b[j - |a|];
        } else {
          assert c[i] == a[i] && c[j] == b[j - |a|];
          assert c[i].key in KeySet(a) && c[j].key in KeySet(b);
        }
      }
    }
  }

  /** Removing the key of the first entry from a dictionary with distinct keys leaves its tail. */
  lemma RemoveHead(d: Dict)
    requires d != [] && DistinctKeys(d)
    ensures Remove(d, d[0].key) == d[1..]
  {
    assert d[0].key !in KeySet(d[1..]);
  }

  /** The enumerated keys are exactly the key set. */
  lemma KeysOfKeySet(d: Dict)
    ensures forall x :: x in KeysOf(d) <==> x in KeySet(d)
  {
    forall x | x in KeySet(d) ensures x in KeysOf(d) {
      var e :| e in d && e.key == x;
      var i :| 0 <= i < |d| && d[i] == e;
      assert KeysOf(d)[i] == x;
    }
  }
}
