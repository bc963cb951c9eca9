/**
  `ItemHelper.FindInventoryItem`: resolving a typed token such as `2.knife`
  to the second inventory item whose keywords contain `knife`.
*/
module Resolver {
  import opened Options
  import opened Dictionaries
  import opened Items

  /** The largest value `Convert.ToInt32` accepts. */
  const Int32Max: int := 0x7fff_ffff

  predicate IsDigit(c: char) { '0' <= c <= '9' }

  predicate AllDigits(s: string) { forall i | 0 <= i < |s| :: IsDigit(s[i]) }

  /** The value of a decimal numeral (leading zeros allowed). */
  function DigitsValue(s: string): nat
    requires AllDigits(s)
  {
    if s == [] then 0 else DigitsValue(s[..|s| - 1]) * 10 + (s[|s| - 1] as int - '0' as int)
  }

  /** The length of the run of digits that starts `s`. */
  function DigitRun(s: string): (n: nat)
    ensures n <= |s| && AllDigits(s[..n])
    ensures n < |s| ==> !IsDigit(s[n])
  {
    if s == [] || !IsDigit(s[0]) then 0
    else
      var n := 1 + DigitRun(s[1..]);
      assert forall i | 1 <= i < n :: s[..n][i] == s[1..][..n - 1][i - 1];
      n
  }

  /** The outcome of matching `^((\d+)\.)`: group 1 is `text`, group 2 `digits`. */
  datatype Prefix = NoPrefix | Ordinal(text: string, digits: string)

  function MatchOrdinal(token: string): (p: Prefix)
    ensures p.Ordinal? ==>
      && p.text == p.digits + "." && |p.digits| >= 1 && AllDigits(p.digits)
      && |p.text| <= |token| && token[..|p.text|] == p.text
    ensures p.NoPrefix? <==>
      forall n | 0 < n < |token| && AllDigits(token[..n]) :: token[n] != '.'
  {
    var n := DigitRun(token);
    if 0 < n < |token| && token[n] == '.' then
      assert token[..n + 1] == token[..n] + ".";
      Ordinal(token[..n + 1], token[..n])
    else
      NoPrefixBeyondRun(token, n);
      NoPrefix
  }

  lemma NoPrefixBeyondRun(token: string, n: nat)
    requires n <= |token| && AllDigits(token[..n]) && (n < |token| ==> !IsDigit(token[n]))
    requires !(0 < n < |token| && token[n] == '.')
    ensures forall m | 0 < m < |token| && AllDigits(token[..m]) :: token[m] != '.'
  {
    forall m | n < m <= |token| ensures !AllDigits(token[..m]) {
      assert token[..m][n] == token[n];
    }
    forall m | 0 < m < n ensures IsDigit(token[m]) {
      assert token[..n][m] == token[m];
    }
  }

  /** `s` contains `pat` somewhere. */
  predicate Occurs(s: string, pat: string) {
    exists i | 0 <= i <= |s| :: OccursAt(s, pat, i)
  }

  predicate OccursAt(s: string, pat: string, i: int) {
    0 <= i <= |s| - |pat| && s[i..i + |pat|] == pat
  }

  /** `s.Replace(pat, String.Empty)`: every non-overlapping occurrence of
      `pat`, scanning left to right, is deleted. */
  function RemoveAll(s: string, pat: string): (r: string)
    requires |pat| > 0
    ensures |r| <= |s|
    decreases |s|
  {
    if |s| < |pat| then s
    else if s[..|pat|] == pat then RemoveAll(s[|pat|..], pat)
    else [s[0]] + RemoveAll(s[1..], pat)
  }

  lemma {:induction false} RemoveAllAbsent(s: string, pat: string)
    requires |pat| > 0 && !Occurs(s, pat)
    ensures RemoveAll(s, pat) == s
    decreases |s|
  {
    if |s| >= |pat| {
      assert s[0..|pat|] == s[..|pat|];
      assert !OccursAt(s, pat, 0);
      assert !Occurs(s[1..], pat) by {
        forall i | OccursAt(s[1..], pat, i) ensures OccursAt(s, pat, i + 1) {
          assert s[1..][i..i + |pat|] == s[i + 1..i + 1 + |pat|];
        }
      }
      RemoveAllAbsent(s[1..], pat);
    }
  }

  /** The keyword that is matched against item keywords. */
  function BareKeyword(token: string): string {
    match MatchOrdinal(token)
    case NoPrefix => token
    case Ordinal(text, _) => RemoveAll(token, text)
  }

  /** The requested ordinal; 1 when there is no prefix. */
  function OrdinalOf(token: string): nat {
    match MatchOrdinal(token)
    case NoPrefix => 1
    case Ordinal(_, digits) => DigitsValue(digits)
  }

  /** A token such as `2.knife` names the keyword after its prefix, provided
      the prefix does not occur again in the rest. */
  lemma BareKeywordOfPrefixed(token: string, rest: string)
    requires MatchOrdinal(token).Ordinal?
    requires token == MatchOrdinal(token).text + rest
    requires !Occurs(rest, MatchOrdinal(token).text)
    ensures BareKeyword(token) == rest
  {
    var text := MatchOrdinal(token).text;
    assert token[..|text|] == text;
    assert token[|text|..] == rest;
    RemoveAllAbsent(rest, text);
  }

  /** The inventory records that carry the keyword `kw`, in key order. */
  function Matches(keys: seq<string>, items: map<string, Item>, kw: string): (ms: seq<Item>)
    ensures |ms| <= |keys|
    ensures forall m | m in ms :: kw in m.keywords
  {
    if keys == [] then []
    else
      var last := keys[|keys| - 1];
      Matches(keys[..|keys| - 1], items, kw)
      + if last in items && kw in items[last].keywords then [items[last]] else []
  }

  lemma {:induction false} MatchesPrefix(keys: seq<string>, j: nat, items: map<string, Item>, kw: string)
    requires j <= |keys|
    ensures Matches(keys[..j], items, kw) <= Matches(keys, items, kw)
    decreases |keys| - j
  {
    if j < |keys| {
      MatchesPrefix(keys, j + 1, items, kw);
      assert keys[..j + 1][..j] == keys[..j];
    } else {
      assert keys[..j] == keys;
    }
  }

  lemma {:induction false} MatchesInKeys(keys: seq<string>, items: map<string, Item>, kw: string)
    requires StoreValid(items)
    ensures forall m | m in Matches(keys, items, kw) :: m.key in keys && m.key in items && items[m.key] == m
  {
    if keys != [] {
      MatchesInKeys(keys[..|keys| - 1], items, kw);
    }
  }

  /** What `FindInventoryItem` returns: the item, null, or the exception that
      `Convert.ToInt32` raises on an ordinal too large for an `int`. */
  datatype Resolution = Found(item: Item) | NotFound | Overflow

  /** The specification of `FindInventoryItem`. */
  function Resolve(inv: Dict, items: map<string, Item>, token: string): Resolution {
    var p := MatchOrdinal(token);
    if p.Ordinal? && DigitsValue(p.digits) > Int32Max then Overflow
    else
      var ms := Matches(KeysOf(inv), items, BareKeyword(token));
      var n := OrdinalOf(token);
      if 1 <= n <= |ms| then Found(ms[n - 1]) else NotFound
  }

  /**
    `FindInventoryItem`: walk the inventory keys in order, counting records
    whose keywords contain the bare keyword, and return the one at which the
    count reaches the ordinal.
  */
  method FindInventoryItem(inv: Dict, items: map<string, Item>, token: string) returns (r: Resolution)
    ensures r == Resolve(inv, items, token)
  {
    var ordinal := 1;
    var keyword := token;
    var m := MatchOrdinal(token);
    if m.Ordinal? {
      if DigitsValue(m.digits) > Int32Max {
        return Overflow;
      }
      ordinal := DigitsValue(m.digits);
      keyword := RemoveAll(token, m.text);
    }
    r := NthMatch(KeysOf(inv), items, keyword, ordinal);
  }

  /** The counting loop of `FindInventoryItem`. */
  method NthMatch(keys: seq<string>, items: map<string, Item>, keyword: string, ordinal: nat) returns (r: Resolution)
    ensures var ms := Matches(keys, items, keyword);
      r == if 1 <= ordinal <= |ms| then Found(ms[ordinal - 1]) else NotFound
  {
    var count := 0;
    var i := 0;
    while i < |keys|
      invariant 0 <= i <= |keys|
      invariant count == |Matches(keys[..i], items, keyword)|
      invariant count < ordinal || ordinal == 0
    {
      var guid := keys[i];
      assert keys[..i + 1][..i] == keys[..i];
      if guid in items && keyword in items[guid].keywords {
        count := count + 1;
        if count == ordinal {
          MatchesPrefix(keys, i + 1, items, keyword);
          return Found(items[guid]);
        }
      }
      i := i + 1;
    }
    assert keys[..i] == keys;
    return NotFound;
  }

  /**
    The result is the N-th match in inventory order (N the ordinal, 1 by
    default), an inventory item carrying the bare keyword; it is missing
    exactly when fewer than N records match.
  */
  lemma ResolveIsNthMatch(inv: Dict, items: map<string, Item>, token: string)
    requires StoreValid(items)
    requires !Resolve(inv, items, token).Overflow?
    ensures var ms := Matches(KeysOf(inv), items, BareKeyword(token));
      Resolve(inv, items, token).Found? <==> 1 <= OrdinalOf(token) <= |ms|
    ensures Resolve(inv, items, token).Found? ==>
      var it := Resolve(inv, items, token).item;
      && BareKeyword(token) in it.keywords
      && it.key in KeySet(inv) && it.key in items && items[it.key] == it
  {
    var ms := Matches(KeysOf(inv), items, BareKeyword(token));
    MatchesInKeys(KeysOf(inv), items, BareKeyword(token));
    if Resolve(inv, items, token).Found? {
      var it := ms[OrdinalOf(token) - 1];
      assert it in ms;
      var j :| 0 <= j < |inv| && KeysOf(inv)[j] == it.key;
      assert inv[j] in inv;
    }
  }

  /** An ordinal of zero (`0.knife`, `00.knife`) never matches. */
  lemma OrdinalZeroNeverMatches(inv: Dict, items: map<string, Item>, token: string)
    requires MatchOrdinal(token).Ordinal? && DigitsValue(MatchOrdinal(token).digits) == 0
    ensures Resolve(inv, items, token) == NotFound
  {
  }

  /** Every occurrence of the matched prefix is deleted, not only the leading one. */
  lemma ReplaceDeletesEveryOccurrence()
    ensures BareKeyword("1.x1.y") == "xy"
  {
    assert DigitRun("1.x1.y") == 1;
    assert "1.x1.y"[..2] == "1.";
    assert MatchOrdinal("1.x1.y") == Ordinal("1.", "1");
    assert "1.x1.y"[2..] == "x1.y";
    assert "x1.y"[1..] == "1.y";
    assert "1.y"[2..] == "y";
    assert RemoveAll("y", "1.") == "y";
    assert RemoveAll("1.y", "1.") == "y";
    assert RemoveAll("x1.y", "1.") == "x" + "y";
  }

  function Knife(key: string): Item {
    Item(key, "a small knife", "A small knife.", ["knife", "small"], 1, 5, Worn("wield"), [])
  }

  function Knives(): Dict {
    [Entry("k1", "a small knife"), Entry("k2", "a small knife"), Entry("k3", "a small knife")]
  }

  function KnifeStore(): map<string, Item> {
    map["k1" := Knife("k1"), "k2" := Knife("k2"), "k3" := Knife("k3")]
  }

  /** Three knives: `2.knife` finds the second in inventory order. */
  lemma SecondKnife()
    ensures Resolve(Knives(), KnifeStore(), "2.knife") == Found(Knife("k2"))
  {
    ThreeKnives(Knives(), KnifeStore());
    BareKeywordOf("2.knife", "2");
  }

  /** Three knives: `5.knife` finds none. */
  lemma FifthKnife()
    ensures Resolve(Knives(), KnifeStore(), "5.knife") == NotFound
  {
    ThreeKnives(Knives(), KnifeStore());
    BareKeywordOf("5.knife", "5");
  }

  lemma ThreeKnives(inv: Dict, items: map<string, Item>)
    requires inv == [Entry("k1", "a small knife"), Entry("k2", "a small knife"), Entry("k3", "a small knife")]
    requires items == map["k1" := Knife("k1"), "k2" := Knife("k2"), "k3" := Knife("k3")]
    ensures Matches(KeysOf(inv), items, "knife") == [Knife("k1"), Knife("k2"), Knife("k3")]
  {
    var keys := KeysOf(inv);
    assert keys == ["k1", "k2", "k3"];
    assert keys[..2] == ["k1", "k2"] && keys[..2][..1] == ["k1"] && keys[..2][..1][..0] == [];
    assert Matches([], items, "knife") == [];
    assert Matches(["k1"], items, "knife") == [Knife("k1")];
    assert Matches(["k1", "k2"], items, "knife") == [Knife("k1"), Knife("k2")];
  }

  lemma KnifeHasNoPrefix(text: string)
    requires |text| == 2 && IsDigit(text[0]) && text[1] == '.'
    ensures !Occurs("knife", text)
  {
    forall i | 0 <= i <= |"knife"| ensures !OccursAt("knife", text, i) {
      if 0 <= i <= |"knife"| - |text| {
        assert "knife"[i..i + 2][0] == "knife"[i];
      }
    }
  }

  lemma BareKeywordOf(token: string, d: string)
    requires |d| == 1 && IsDigit(d[0]) && token == d + ".knife"
    ensures MatchOrdinal(token) == Ordinal(d + ".", d)
    ensures BareKeyword(token) == "knife" && OrdinalOf(token) == DigitsValue(d) == d[0] as int - '0' as int
  {
    assert d[..0] == "";
    assert DigitRun(token[1..]) == 0;
    assert DigitRun(token) == 1;
    assert token[..2] == d + ".";
    assert token[..1] == d;
    KnifeHasNoPrefix(d + ".");
    BareKeywordOfPrefixed(token, "knife");
  }
}
