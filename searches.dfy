/**
  The searches the item commands run over a collection's keys in
  enumeration order: the first record carrying a keyword, the first
  container carrying a keyword, and the first container whose contents
  hold a record carrying a second keyword.
*/
module Searches {
  import opened Options
  import opened Dictionaries
  import opened Items

  /** `k` names a record whose keywords contain `kw`. */
  predicate Carries(items: map<string, Item>, k: string, kw: string) {
    k in items && kw in items[k].keywords
  }

  /** `k` names a container record whose keywords contain `kw`. */
  predicate IsBag(items: map<string, Item>, k: string, kw: string) {
    Carries(items, k, kw) && items[k].wearLocation == Container
  }

  /** The first key in `keys` whose record carries `kw`. */
  function FirstCarrying(keys: seq<string>, items: map<string, Item>, kw: string): (r: Option<string>)
    ensures r.Some? ==> r.value in keys && Carries(items, r.value, kw)
    ensures r.Some? ==> exists i | 0 <= i < |keys| :: keys[i] == r.value && forall j | 0 <= j < i :: !Carries(items, keys[j], kw)
    ensures r.None? <==> forall i | 0 <= i < |keys| :: !Carries(items, keys[i], kw)
  {
    if keys == [] then None
    else if Carries(items, keys[0], kw) then Some(keys[0])
    else
      var r := FirstCarrying(keys[1..], items, kw);
      assert forall i | 1 <= i < |keys| :: keys[i] == keys[1..][i - 1];
      if r.Some? then
        var i :| 0 <= i < |keys[1..]| && keys[1..][i] == r.value && forall j | 0 <= j < i :: !Carries(items, keys[1..][j], kw);
        assert keys[i + 1] == r.value && forall j | 0 <= j < i + 1 :: !Carries(items, keys[j], kw);
        r
      else r
  }

  /** The first key in `keys` that names a container carrying `kw`. */
  function FirstBag(keys: seq<string>, items: map<string, Item>, kw: string): (r: Option<string>)
    ensures r.Some? ==> r.value in keys && IsBag(items, r.value, kw)
    ensures r.Some? ==> exists i | 0 <= i < |keys| :: keys[i] == r.value && forall j | 0 <= j < i :: !IsBag(items, keys[j], kw)
    ensures r.None? <==> forall i | 0 <= i < |keys| :: !IsBag(items, keys[i], kw)
  {
    if keys == [] then None
    else if IsBag(items, keys[0], kw) then Some(keys[0])
    else
      var r := FirstBag(keys[1..], items, kw);
      assert forall i | 1 <= i < |keys| :: keys[i] == keys[1..][i - 1];
      if r.Some? then
        var i :| 0 <= i < |keys[1..]| && keys[1..][i] == r.value && forall j | 0 <= j < i :: !IsBag(items, keys[1..][j], kw);
        assert keys[i + 1] == r.value && forall j | 0 <= j < i + 1 :: !IsBag(items, keys[j], kw);
        r
      else r
  }

  /** The first record inside container `c` that carries `kw`. */
  function Inner(items: map<string, Item>, c: string, kw: string): Option<string>
    requires c in items
  {
    FirstCarrying(KeysOf(items[c].contained), items, kw)
  }

  /** A container carrying `kwC` whose contents hold a record carrying `kwI`. */
  predicate IsHit(items: map<string, Item>, k: string, kwC: string, kwI: string) {
    IsBag(items, k, kwC) && Inner(items, k, kwI).Some?
  }

  /**
    The first container in `keys` that carries `kwC` and holds a record
    carrying `kwI`, with the first such record inside it.
  */
  function FirstHit(keys: seq<string>, items: map<string, Item>, kwC: string, kwI: string): (r: Option<(string, string)>)
    ensures r.Some? ==>
      && r.value.0 in keys && IsHit(items, r.value.0, kwC, kwI)
      && r.value.1 == Inner(items, r.value.0, kwI).value
      && r.value.1 in KeySet(items[r.value.0].contained) && Carries(items, r.value.1, kwI)
    ensures r.Some? ==> exists i | 0 <= i < |keys| :: keys[i] == r.value.0 && forall j | 0 <= j < i :: !IsHit(items, keys[j], kwC, kwI)
    ensures r.None? <==> forall i | 0 <= i < |keys| :: !IsHit(items, keys[i], kwC, kwI)
  {
    if keys == [] then None
    else if IsHit(items, keys[0], kwC, kwI) then
      KeysOfKeySet(items[keys[0]].contained);
      Some((keys[0], Inner(items, keys[0], kwI).value))
    else
      var r := FirstHit(keys[1..], items, kwC, kwI);
      assert forall i | 1 <= i < |keys| :: keys[i] == keys[1..][i - 1];
      if r.Some? then
        HitPastHead(keys, items, kwC, kwI, r.value.0);
        r
      else r
  }

  /** A first hit in the tail, past a head that is no hit, is a first hit of the whole. */
  lemma HitPastHead(keys: seq<string>, items: map<string, Item>, kwC: string, kwI: string, x: string)
    requires keys != [] && !IsHit(items, keys[0], kwC, kwI)
    requires exists i | 0 <= i < |keys[1..]| :: keys[1..][i] == x && forall j | 0 <= j < i :: !IsHit(items, keys[1..][j], kwC, kwI)
    ensures exists i | 0 <= i < |keys| :: keys[i] == x && forall j | 0 <= j < i :: !IsHit(items, keys[j], kwC, kwI)
  {
    var i :| 0 <= i < |keys[1..]| && keys[1..][i] == x && forall j | 0 <= j < i :: !IsHit(items, keys[1..][j], kwC, kwI);
    assert forall j | 1 <= j < i + 1 :: keys[j] == keys[1..][j - 1];
    assert keys[i + 1] == x && forall j | 0 <= j < i + 1 :: !IsHit(items, keys[j], kwC, kwI);
  }

  /** A search from position `i` on finds what the whole search finds when nothing before `i` qualifies. */
  lemma {:induction false} FirstCarryingFrom(keys: seq<string>, i: nat, items: map<string, Item>, kw: string)
    requires i <= |keys|
    requires forall j | 0 <= j < i :: !Carries(items, keys[j], kw)
    ensures FirstCarrying(keys, items, kw) == FirstCarrying(keys[i..], items, kw)
  {
    if i > 0 {
      assert keys[1..][i - 1..] == keys[i..];
      FirstCarryingFrom(keys[1..], i - 1, items, kw);
    }
  }

  lemma {:induction false} FirstBagFrom(keys: seq<string>, i: nat, items: map<string, Item>, kw: string)
    requires i <= |keys|
    requires forall j | 0 <= j < i :: !IsBag(items, keys[j], kw)
    ensures FirstBag(keys, items, kw) == FirstBag(keys[i..], items, kw)
  {
    if i > 0 {
      assert keys[1..][i - 1..] == keys[i..];
      FirstBagFrom(keys[1..], i - 1, items, kw);
    }
  }

  lemma {:induction false} FirstHitFrom(keys: seq<string>, i: nat, items: map<string, Item>, kwC: string, kwI: string)
    requires i <= |keys|
    requires forall j | 0 <= j < i :: !IsHit(items, keys[j], kwC, kwI)
    ensures FirstHit(keys, items, kwC, kwI) == FirstHit(keys[i..], items, kwC, kwI)
  {
    if i > 0 {
      assert keys[1..][i - 1..] == keys[i..];
      FirstHitFrom(keys[1..], i - 1, items, kwC, kwI);
    }
  }
}
