/**
  Item records: the immutable `Template` prototypes and the uniquely keyed
  `PlayerItem` instances that the game moves between rooms, inventories and
  containers.
*/
module Items {
  import opened Options
  import opened Dictionaries

  /** Where an item is worn. Only `Container` matters to the modelled code;
      the enumeration's other members are summarised by `Worn`. */
  datatype Wearlocation = Container | Worn(slot: string)

  /** A `PlayerItem` instance. `key` is the string form of its private guid. */
  datatype Item = Item(
    key: string,
    name: string,
    description: string,
    keywords: seq<string>,
    weight: int,
    value: int,
    wearLocation: Wearlocation,
    contained: Dict)

  /** A `Template`: a prototype whose key is derived from its name. */
  datatype Template = Template(
    name: string,
    description: string,
    keywords: seq<string>,
    weight: int,
    value: int,
    wearLocation: Wearlocation,
    contained: Dict)

  /** The item store: every record is filed under its own key. */
  predicate StoreValid(items: map<string, Item>) {
    forall k | k in items :: items[k].key == k
  }

  // ---------------------------------------------------------------- keys

  predicate IsUpper(c: char) { 'A' <= c <= 'Z' }

  function LowerChar(c: char): char {
    if IsUpper(c) then (c as int + 32) as char else c
  }

  /** `ToLower` on the ASCII letters. */
  function Lower(s: string): (r: string)
    ensures |r| == |s|
    ensures forall i | 0 <= i < |s| :: r[i] == LowerChar(s[i])
  {
    if s == [] then [] else [LowerChar(s[0])] + Lower(s[1..])
  }

  /** Two strings that differ at most in the case of ASCII letters. */
  predicate SameIgnoringCase(a: string, b: string) {
    |a| == |b| && forall i | 0 <= i < |a| :: LowerChar(a[i]) == LowerChar(b[i])
  }

  /** `Template.Key`: the lower-cased name. */
  function TemplateKey(t: Template): (k: string)
    ensures forall i | 0 <= i < |k| :: !IsUpper(k[i])
    ensures SameIgnoringCase(k, t.name)
  {
    Lower(t.name)
  }

  /** Template names that differ only in letter case file under the same key,
      and a key is its own lower-cased form. */
  lemma TemplateKeyIgnoresCase(a: Template, b: Template)
    requires SameIgnoringCase(a.name, b.name)
    ensures TemplateKey(a) == TemplateKey(b)
    ensures Lower(TemplateKey(a)) == TemplateKey(a)
  {
    assert forall i | 0 <= i < |a.name| :: TemplateKey(a)[i] == TemplateKey(b)[i];
  }

  /** The first guid of `draws` that the store does not hold yet. */
  function FirstFresh(draws: seq<string>, items: map<string, Item>): Option<string> {
    if draws == [] then None
    else if draws[0] !in items then Some(draws[0])
    else FirstFresh(draws[1..], items)
  }

  /**
    The loop of the `PlayerItem()` constructor: draw guids (the successive
    results of `Guid.NewGuid`, given as `draws`) until one is not in the
    store yet.
  */
  method NewItemKey(draws: seq<string>, items: map<string, Item>) returns (key: Option<string>)
    ensures key == FirstFresh(draws, items)
    ensures key.Some? ==> key.value !in items
    ensures key.Some? ==> exists i | 0 <= i < |draws| :: draws[i] == key.value && forall j | 0 <= j < i :: draws[j] in items
    ensures key.None? <==> forall j | 0 <= j < |draws| :: draws[j] in items
  {
    var i := 0;
    while i < |draws| && draws[i] in items
      invariant 0 <= i <= |draws|
      invariant forall j | 0 <= j < i :: draws[j] in items
      invariant FirstFresh(draws, items) == FirstFresh(draws[i..], items)
    {
      assert draws[i..][1..] == draws[i + 1..];
      i := i + 1;
    }
    if i < |draws| {
      key := Some(draws[i]);
    } else {
      key := None;
    }
  }

  // ---------------------------------------------------------------- LookAt

  /** One entry of a `GroupBy(i => i.Value)`: a name and how many entries carry it. */
  datatype Group = Group(name: string, count: nat)

  function Names(d: Dict): (s: seq<string>)
    ensures |s| == |d|
    ensures forall i | 0 <= i < |d| :: s[i] == d[i].name
  {
    seq(|d|, i requires 0 <= i < |d| => d[i].name)
  }

  function Occurrences<T(==)>(s: seq<T>, x: T): nat {
    if s == [] then 0 else (if s[0] == x then 1 else 0) + Occurrences(s[1..], x)
  }

  function Without<T(==,!new)>(s: seq<T>, x: T): (r: seq<T>)
    ensures |r| == |s| - Occurrences(s, x)
    ensures forall y | y in r :: y in s && y != x
    ensures forall y | y in s && y != x :: y in r
    ensures forall y | y != x :: Occurrences(r, y) == Occurrences(s, y)
  {
    if s == [] then []
    else if s[0] == x then Without(s[1..], x)
    else [s[0]] + Without(s[1..], x)
  }

  /** LINQ `Distinct`: the distinct elements of `s` in order of first occurrence (`DistinctInOrder`). */
  function Distinct<T(==,!new)>(s: seq<T>): (r: seq<T>)
    ensures forall i, j | 0 <= i < j < |r| :: r[i] != r[j]
    ensures forall y :: y in r <==> y in s
    decreases |s|
  {
    if s == [] then []
    else
      var rest := Distinct(Without(s[1..], s[0]));
      assert s[0] !in rest;
      assert forall i | 0 <= i < |rest| :: ([s[0]] + rest)[i + 1] == rest[i];
      [s[0]] + rest
  }

  /** `x` occurs in `s` before any occurrence of `y`. */
  predicate Before<T(==)>(s: seq<T>, x: T, y: T) {
    s != [] && (s[0] == x || (s[0] != y && Before(s[1..], x, y)))
  }

  /** Taking out the occurrences of a third value does not reorder `x` and `y`. */
  lemma {:induction false} BeforeWithout<T(!new)>(t: seq<T>, z: T, x: T, y: T)
    requires y != z && Before(Without(t, z), x, y)
    ensures Before(t, x, y)
  {
    var w := Without(t[1..], z);
    if t[0] == z {
      BeforeWithout(t[1..], z, x, y);
    } else if t[0] != x {
      assert Without(t, z) == [t[0]] + w && ([t[0]] + w)[1..] == w;
      BeforeWithout(t[1..], z, x, y);
    }
  }

  /** `Distinct` lists the elements in the order of their first occurrence. */
  lemma {:induction false} DistinctInOrder<T(!new)>(s: seq<T>)
    ensures forall i, j | 0 <= i < j < |Distinct(s)| :: Before(s, Distinct(s)[i], Distinct(s)[j])
    decreases |s|
  {
    if s != [] {
      var w := Without(s[1..], s[0]);
      var rest := Distinct(w);
      DistinctInOrder(w);
      assert Distinct(s) == [s[0]] + rest;
      forall i, j | 0 <= i < j < |Distinct(s)| ensures Before(s, Distinct(s)[i], Distinct(s)[j]) {
        if i > 0 {
          assert Distinct(s)[i] == rest[i - 1] && Distinct(s)[j] == rest[j - 1];
          assert Before(w, rest[i - 1], rest[j - 1]);
          assert rest[j - 1] in w;
          BeforeWithout(s[1..], s[0], rest[i - 1], rest[j - 1]);
        }
      }
    }
  }

  /** `GroupBy(i => i.Value).Select(g => (g.Key, g.Count()))` on a dictionary. */
  function GroupByName(d: Dict): seq<Group> {
    var u := Distinct(Names(d));
    seq(|u|, i requires 0 <= i < |u| => Group(u[i], Occurrences(Names(d), u[i])))
  }

  function TotalCount(gs: seq<Group>): nat {
    if gs == [] then 0 else gs[0].count + TotalCount(gs[1..])
  }

  function SumOccurrences(u: seq<string>, s: seq<string>): nat {
    if u == [] then 0 else Occurrences(s, u[0]) + SumOccurrences(u[1..], s)
  }

  lemma {:induction false} SumOverOthers(u: seq<string>, s: seq<string>, x: string)
    requires x !in u
    ensures SumOccurrences(u, Without(s, x)) == SumOccurrences(u, s)
  {
    if u != [] {
      SumOverOthers(u[1..], s, x);
    }
  }

  /** Counting every distinct string of `s` in `s` adds up to `|s|`. */
  lemma {:induction false} SumOverDistinct(s: seq<string>)
    ensures SumOccurrences(Distinct(s), s) == |s|
    decreases |s|
  {
    if s != [] {
      var w := Without(s[1..], s[0]);
      SumOverDistinct(w);
      SumOverOthers(Distinct(w), s[1..], s[0]);
      assert s[0] !in Distinct(w);
      assert forall y | y != s[0] :: Occurrences(s, y) == Occurrences(s[1..], y);
      OccurrencesOfOthers(Distinct(w), s, s[0]);
    }
  }

  lemma {:induction false} OccurrencesOfOthers(u: seq<string>, s: seq<string>, x: string)
    requires s != [] && s[0] == x && x !in u
    ensures SumOccurrences(u, s) == SumOccurrences(u, s[1..])
  {
    if u != [] {
      OccurrencesOfOthers(u[1..], s, x);
    }
  }

  lemma {:induction false} TotalCountIsSum(d: Dict, u: seq<string>)
    ensures TotalCount(seq(|u|, i requires 0 <= i < |u| => Group(u[i], Occurrences(Names(d), u[i]))))
            == SumOccurrences(u, Names(d))
  {
    var gs := seq(|u|, i requires 0 <= i < |u| => Group(u[i], Occurrences(Names(d), u[i])));
    if u != [] {
      TotalCountIsSum(d, u[1..]);
      assert gs[1..] == seq(|u[1..]|, i requires 0 <= i < |u[1..]| => Group(u[1..][i], Occurrences(Names(d), u[1..][i])));
    }
  }

  /**
    The grouping that `LookAt` and the inventory listing print: one group per
    distinct name, counting the entries with that name, every entry in
    exactly one group, and the groups in the order in which their names
    first appear, as LINQ `GroupBy` yields them.
  */
  lemma GroupByNameCounts(d: Dict)
    ensures forall i, j | 0 <= i < j < |GroupByName(d)| :: GroupByName(d)[i].name != GroupByName(d)[j].name
    ensures forall e | e in d :: exists g | g in GroupByName(d) :: g.name == e.name
    ensures forall g | g in GroupByName(d) :: g.count == Occurrences(Names(d), g.name) && g.count >= 1
    ensures TotalCount(GroupByName(d)) == |d|
    ensures forall i, j | 0 <= i < j < |GroupByName(d)| :: Before(Names(d), GroupByName(d)[i].name, GroupByName(d)[j].name)
  {
    var u := Distinct(Names(d));
    DistinctInOrder(Names(d));
    forall e | e in d ensures exists g | g in GroupByName(d) :: g.name == e.name {
      var i :| 0 <= i < |d| && d[i] == e;
      assert Names(d)[i] == e.name;
      assert e.name in Names(d);
      assert e.name in u;
      var j :| 0 <= j < |u| && u[j] == e.name;
      assert GroupByName(d)[j].name == e.name;
    }
    forall g | g in GroupByName(d) ensures g.count >= 1 {
      var j :| 0 <= j < |u| && GroupByName(d)[j] == g;
      OccursPositive(Names(d), u[j]);
    }
    TotalCountIsSum(d, u);
    SumOverDistinct(Names(d));
  }

  lemma {:induction false} OccursPositive(s: seq<string>, x: string)
    requires x in s
    ensures Occurrences(s, x) >= 1
  {
    if s[0] != x {
      OccursPositive(s[1..], x);
    }
  }

  /** One printed line of `LookAt` or of the inventory listing. */
  datatype Line = Text(text: string) | EmptyMarker | Counted(name: string, count: nat)

  function CountedLines(gs: seq<Group>): (ls: seq<Line>)
    ensures |ls| == |gs|
    ensures forall i | 0 <= i < |gs| :: ls[i] == Counted(gs[i].name, gs[i].count)
  {
    seq(|gs|, i requires 0 <= i < |gs| => Counted(gs[i].name, gs[i].count))
  }

  /** `PlayerItem.LookAt`: the description, then for a container its contents
      grouped by name, or an "Empty" marker. */
  function LookAt(it: Item): (ls: seq<Line>)
    ensures |ls| >= 1 && ls[0] == Text(it.description)
    ensures it.wearLocation != Container ==> |ls| == 1
    ensures it.wearLocation == Container && it.contained == [] ==> ls[1..] == [EmptyMarker]
    ensures it.wearLocation == Container && it.contained != [] ==>
      |ls| == 1 + |GroupByName(it.contained)| && EmptyMarker !in ls
    ensures it.wearLocation == Container && it.contained != [] ==>
      ls[1..] == CountedLines(GroupByName(it.contained))
  {
    [Text(it.description)]
    + if it.wearLocation != Container then []
      else if it.contained == [] then [EmptyMarker]
      else CountedLines(GroupByName(it.contained))
  }

  /** The listing of `InventoryCommand`: header, then "Empty" or the grouped names. */
  function InventoryListing(inv: Dict): (ls: seq<Line>)
    ensures |ls| >= 1 && ls[0] == Text("Your inventory:")
    ensures inv == [] <==> EmptyMarker in ls
    ensures inv == [] ==> ls[1..] == [EmptyMarker]
    ensures inv != [] ==> |ls| == 1 + |GroupByName(inv)| && ls[1..] == CountedLines(GroupByName(inv))
  {
    [Text("Your inventory:")]
    + if inv == [] then [EmptyMarker] else CountedLines(GroupByName(inv))
  }

  /** The number of entries the counted lines of a listing account for. */
  function LinesTotal(ls: seq<Line>): nat {
    if ls == [] then 0 else (if ls[0].Counted? then ls[0].count else 0) + LinesTotal(ls[1..])
  }

  lemma {:induction false} CountedLinesTotal(gs: seq<Group>)
    ensures LinesTotal(CountedLines(gs)) == TotalCount(gs)
  {
    if gs != [] {
      CountedLinesTotal(gs[1..]);
      assert CountedLines(gs)[1..] == CountedLines(gs[1..]);
    }
  }

  /** The counts that `LookAt` prints for a non-empty container add up to the
      number of contained entries. */
  lemma LookAtCountsContents(it: Item)
    requires it.wearLocation == Container && it.contained != []
    ensures LinesTotal(LookAt(it)) == |it.contained|
  {
    var gs := GroupByName(it.contained);
    assert LookAt(it)[1..] == CountedLines(gs);
    CountedLinesTotal(gs);
    GroupByNameCounts(it.contained);
  }

  // ---------------------------------------------------------------- equipping

  datatype EquipResult = Equipped | NotImplemented

  /** `PlayerItem.Equip`: not implemented; every call fails. */
  function Equip(it: Item): (r: EquipResult)
    ensures r == NotImplemented
  {
    NotImplemented
  }

  /** `PlayerItem.Unequip`: not implemented; every call fails. */
  function Unequip(it: Item): (r: EquipResult)
    ensures r == NotImplemented
  {
    NotImplemented
  }
}
