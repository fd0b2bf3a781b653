/**
 * `list`: resolves the sort order from the command's arguments, sorts the
 * saved restaurants in place with the order's comparator, and prints them as
 * a table.
 */
module ListQuery {
  import opened Wrappers
  import opened Text
  import opened Records
  import opened Table

  /** The three sort orders `list` accepts. */
  datatype SortKey = ByName | ByCuisine | ByPrice

  function KeyWord(key: SortKey): string {
    match key
    case ByName => "name"
    case ByCuisine => "cuisine"
    case ByPrice => "price"
  }

  /**
   * The sort order named by `args`: the first argument, or the second when
   * the first is the filler word "by"; "name" when that argument is missing or
   * is not one of "name", "cuisine", "price".
   */
  function SortOrder(args: seq<string>): (key: SortKey)
    ensures key == ByCuisine <==>
      (|args| > 0 && args[0] == "cuisine") || (|args| > 1 && args[0] == "by" && args[1] == "cuisine")
    ensures key == ByPrice <==>
      (|args| > 0 && args[0] == "price") || (|args| > 1 && args[0] == "by" && args[1] == "price")
  {
    var first := if |args| > 0 then Some(args[0]) else None;
    var order := if first == Some("by") then (if |args| > 1 then Some(args[1]) else None) else first;
    if order == Some("cuisine") then ByCuisine
    else if order == Some("price") then ByPrice
    else ByName
  }

  /** A leading "by" is a filler word: "list by cuisine" is "list cuisine". */
  lemma ByIsFiller(word: string, rest: seq<string>)
    requires word != "by"
    ensures SortOrder(["by", word] + rest) == SortOrder([word] + rest)
  {
  }

  /** The words of the three orders name them: "list price" sorts by price, and so on. */
  lemma SortOrderOfKeyWord(key: SortKey, rest: seq<string>)
    ensures SortOrder([KeyWord(key)] + rest) == key
    ensures SortOrder(["by", KeyWord(key)] + rest) == key
  {
  }

  /**
   * The block given to `sort!`: `<=>` on the down-cased names, on the
   * down-cased cuisines, or on the prices read with `to_i`.
   */
  function CompareBy(key: SortKey, r1: Restaurant, r2: Restaurant): (c: int)
    ensures -1 <= c <= 1
  {
    match key
    case ByName => Compare(Downcase(r1.name), Downcase(r2.name))
    case ByCuisine => Compare(Downcase(r1.cuisine), Downcase(r2.cuisine))
    case ByPrice => CompareInt(ToI(r1.price), ToI(r2.price))
  }

  lemma CompareByAntisymmetric(key: SortKey, r1: Restaurant, r2: Restaurant)
    ensures CompareBy(key, r2, r1) == -CompareBy(key, r1, r2)
  {
    match key
    case ByName => CompareAntisymmetric(Downcase(r1.name), Downcase(r2.name));
    case ByCuisine => CompareAntisymmetric(Downcase(r1.cuisine), Downcase(r2.cuisine));
    case ByPrice =>
  }

  lemma CompareByTransitive(key: SortKey, r1: Restaurant, r2: Restaurant, r3: Restaurant)
    requires CompareBy(key, r1, r2) <= 0 && CompareBy(key, r2, r3) <= 0
    ensures CompareBy(key, r1, r3) <= 0
  {
    match key
    case ByName => CompareTransitive(Downcase(r1.name), Downcase(r2.name), Downcase(r3.name));
    case ByCuisine => CompareTransitive(Downcase(r1.cuisine), Downcase(r2.cuisine), Downcase(r3.cuisine));
    case ByPrice =>
  }

  /** Two records tie under an order exactly when their keys are equal. */
  lemma CompareByZero(key: SortKey, r1: Restaurant, r2: Restaurant)
    ensures CompareBy(key, r1, r2) == 0 <==>
      match key
      case ByName => Downcase(r1.name) == Downcase(r2.name)
      case ByCuisine => Downcase(r1.cuisine) == Downcase(r2.cuisine)
      case ByPrice => ToI(r1.price) == ToI(r2.price)
  {
    match key
    case ByName => CompareZeroIffEqual(Downcase(r1.name), Downcase(r2.name));
    case ByCuisine => CompareZeroIffEqual(Downcase(r1.cuisine), Downcase(r2.cuisine));
    case ByPrice =>
  }

  /** The comparator a key selects, as the block handed to `sort!`. */
  function Comparator(key: SortKey): (Restaurant, Restaurant) -> int {
    (r1, r2) => CompareBy(key, r1, r2)
  }

  /** `r1` may stay before `r2`: the block does not answer 1. */
  predicate Before(cmp: (Restaurant, Restaurant) -> int, r1: Restaurant, r2: Restaurant) {
    cmp(r1, r2) <= 0
  }

  /** What `sort!` needs of its block: `<=>`-style antisymmetry and transitivity. */
  ghost predicate Consistent(cmp: (Restaurant, Restaurant) -> int) {
    && (forall r1, r2 :: cmp(r2, r1) == -cmp(r1, r2))
    && (forall r1, r2, r3 :: Before(cmp, r1, r2) && Before(cmp, r2, r3) ==> Before(cmp, r1, r3))
  }

  lemma ComparatorConsistent(key: SortKey)
    ensures Consistent(Comparator(key))
  {
    forall r1, r2 ensures Comparator(key)(r2, r1) == -Comparator(key)(r1, r2) {
      CompareByAntisymmetric(key, r1, r2);
    }
    forall r1, r2, r3 | Before(Comparator(key), r1, r2) && Before(Comparator(key), r2, r3)
      ensures Before(Comparator(key), r1, r3)
    {
      CompareByTransitive(key, r1, r2, r3);
    }
  }

  /** Non-decreasing under a comparator. */
  predicate SortedWith(rs: seq<Restaurant>, cmp: (Restaurant, Restaurant) -> int) {
    forall i, j :: 0 <= i < j < |rs| ==> cmp(rs[i], rs[j]) <= 0
  }

  /** Non-decreasing under the order's comparator. */
  predicate Sorted(rs: seq<Restaurant>, key: SortKey) {
    SortedWith(rs, Comparator(key))
  }

  /**
   * `sort!` with the order's comparator: afterwards the array is sorted by
   * the key and holds the same records. Ruby's `sort!` does not promise
   * stability and neither does this.
   */
  method SortInPlace(a: array<Restaurant>, key: SortKey)
    modifies a
    ensures Sorted(a[..], key)
    ensures multiset(a[..]) == old(multiset(a[..]))
  {
    ComparatorConsistent(key);
    SortWith(a, Comparator(key));
  }

  /** `sort!` with a block: sorts `a` in place by insertion. */
  method SortWith(a: array<Restaurant>, cmp: (Restaurant, Restaurant) -> int)
    requires Consistent(cmp)
    modifies a
    ensures SortedWith(a[..], cmp)
    ensures multiset(a[..]) == old(multiset(a[..]))
  {
    var i := 0;
    while i < a.Length
      invariant 0 <= i <= a.Length
      invariant SortedPrefix(a[..], i, cmp)
      invariant multiset(a[..]) == old(multiset(a[..]))
    {
      Insert(a, i, cmp);
      i := i + 1;
    }
  }

  /** The first `n` elements of `s` are in order under `cmp`. */
  ghost predicate SortedPrefix(s: seq<Restaurant>, n: int, cmp: (Restaurant, Restaurant) -> int)
    requires n <= |s|
  {
    forall p, q :: 0 <= p < q < n ==> cmp(s[p], s[q]) <= 0
  }

  /**
   * Midway through inserting `s[i]`: the element being moved sits at `j`,
   * the rest of `s[..i + 1]` is in order, and it orders before all it has passed.
   */
  ghost predicate Inserting(s: seq<Restaurant>, j: int, i: int, cmp: (Restaurant, Restaurant) -> int)
    requires 0 <= j <= i < |s|
  {
    && (forall p, q :: 0 <= p < q <= i && p != j && q != j ==> cmp(s[p], s[q]) <= 0)
    && (forall q :: j < q <= i ==> cmp(s[j], s[q]) <= 0)
  }

  /** Before any move, the new element sits at `i` behind the sorted prefix. */
  lemma InsertingStart(s: seq<Restaurant>, i: int, cmp: (Restaurant, Restaurant) -> int)
    requires 0 <= i < |s| && SortedPrefix(s, i, cmp)
    ensures Inserting(s, i, i, cmp)
  {
  }

  /** Moving the element one place down past a greater neighbour keeps the insertion invariant. */
  lemma InsertingStep(s: seq<Restaurant>, j: int, i: int, cmp: (Restaurant, Restaurant) -> int)
    requires Consistent(cmp)
    requires 0 < j <= i < |s| && Inserting(s, j, i, cmp) && cmp(s[j - 1], s[j]) > 0
    ensures Inserting(s[j - 1 := s[j]][j := s[j - 1]], j - 1, i, cmp)
  {
    var t := s[j - 1 := s[j]][j := s[j - 1]];
    assert cmp(t[j - 1], t[j]) < 0;
  }

  /** The insertion stops at the front or behind an element that does not order after it. */
  lemma InsertingDone(s: seq<Restaurant>, j: int, i: int, cmp: (Restaurant, Restaurant) -> int)
    requires Consistent(cmp)
    requires 0 <= j <= i < |s| && Inserting(s, j, i, cmp)
    requires j == 0 || cmp(s[j - 1], s[j]) <= 0
    ensures SortedPrefix(s, i + 1, cmp)
  {
    if j > 0 {
      forall p | 0 <= p < j - 1
        ensures cmp(s[p], s[j]) <= 0
      {
        assert Before(cmp, s[p], s[j - 1]) && Before(cmp, s[j - 1], s[j]);
      }
    }
  }

  /** Moves `a[i]` down into the sorted prefix `a[..i]`, one swap at a time. */
  method Insert(a: array<Restaurant>, i: int, cmp: (Restaurant, Restaurant) -> int)
    requires Consistent(cmp)
    requires 0 <= i < a.Length && SortedPrefix(a[..], i, cmp)
    modifies a
    ensures SortedPrefix(a[..], i + 1, cmp)
    ensures multiset(a[..]) == old(multiset(a[..]))
    ensures a[i + 1..] == old(a[i + 1..])
  {
    var j := i;
    InsertingStart(a[..], i, cmp);
    while j > 0 && cmp(a[j - 1], a[j]) > 0
      invariant 0 <= j <= i
      invariant Inserting(a[..], j, i, cmp)
      invariant multiset(a[..]) == old(multiset(a[..]))
      invariant a[i + 1..] == old(a[i + 1..])
    {
      ghost var s := a[..];
      InsertingStep(s, j, i, cmp);
      Swap(a, j - 1, j);
      assert a[..] == s[j - 1 := s[j]][j := s[j - 1]];
      j := j - 1;
    }
    InsertingDone(a[..], j, i, cmp);
  }

  /** Exchanges two neighbouring elements of `a`. */
  method Swap(a: array<Restaurant>, i: int, j: int)
    requires 0 <= i < j < a.Length
    modifies a
    ensures a[..] == old(a[..][i := a[j]][j := a[i]])
    ensures multiset(a[..]) == old(multiset(a[..]))
  {
    a[i], a[j] := a[j], a[i];
  }

  const SortHint: string := "Sort using: 'list cuisine' or 'list by cuisine'"

  /**
   * `list`: the saved restaurants, sorted by the order the arguments name,
   * printed as a table followed by the sorting hint.
   */
  method List(args: seq<string>, saved: seq<Restaurant>, fmt: Formatter)
    returns (key: SortKey, listed: seq<Restaurant>, lines: seq<string>)
    ensures key == SortOrder(args)
    ensures Sorted(listed, key) && multiset(listed) == multiset(saved)
    ensures lines == TableOf(listed, fmt) + [SortHint]
  {
    key := SortOrder(args);
    var restaurants := new Restaurant[|saved|](i requires 0 <= i < |saved| => saved[i]);
    assert restaurants[..] == saved;
    SortInPlace(restaurants, key);
    listed := restaurants[..];
    lines := RenderTable(listed, fmt);
    lines := lines + [SortHint];
  }

  /**
   * Sorting by price orders by the number each price reads as: a list with
   * prices "30", "10" and "20" comes out as "10", "20", "30".
   */
  lemma ListByPriceExample(listed: seq<Restaurant>, r30: Restaurant, r10: Restaurant, r20: Restaurant)
    requires r30.price == "30" && r10.price == "10" && r20.price == "20"
    requires Sorted(listed, ByPrice) && multiset(listed) == multiset([r30, r10, r20])
    ensures listed == [r10, r20, r30]
  {
    ReadPrice10();
    ReadPrice20();
    ReadPrice30();
    SortedThreeByPrice(listed, r10, r20, r30);
  }

  /** Three records with increasing prices have one sorted order by price. */
  lemma SortedThreeByPrice(listed: seq<Restaurant>, r1: Restaurant, r2: Restaurant, r3: Restaurant)
    requires ToI(r1.price) < ToI(r2.price) < ToI(r3.price)
    requires Sorted(listed, ByPrice) && multiset(listed) == multiset([r3, r1, r2])
    ensures listed == [r1, r2, r3]
  {
    MembersOfThree(listed, r3, r1, r2);
    var l0, l1, l2 := listed[0], listed[1], listed[2];
    assert listed == [l0, l1, l2];
    assert CompareBy(ByPrice, l0, l1) <= 0 && CompareBy(ByPrice, l1, l2) <= 0;
    assert CompareBy(ByPrice, l0, l2) <= 0;
  }

  /** A permutation of three records has length three and holds exactly those records. */
  lemma MembersOfThree(listed: seq<Restaurant>, a: Restaurant, b: Restaurant, c: Restaurant)
    requires multiset(listed) == multiset([a, b, c])
    ensures |listed| == 3
    ensures forall k :: 0 <= k < 3 ==> listed[k] == a || listed[k] == b || listed[k] == c
    ensures a in listed && b in listed && c in listed
  {
    assert |multiset(listed)| == |listed|;
    forall k | 0 <= k < 3
      ensures listed[k] == a || listed[k] == b || listed[k] == c
    {
      assert listed[k] in multiset(listed);
    }
    assert a in multiset(listed) && b in multiset(listed) && c in multiset(listed);
  }

  lemma ReadPrice10()
    ensures ToI("10") == 10
  {
    ToITwoDigits('1', '0');
  }

  lemma ReadPrice20()
    ensures ToI("20") == 20
  {
    ToITwoDigits('2', '0');
  }

  lemma ReadPrice30()
    ensures ToI("30") == 30
  {
    ToITwoDigits('3', '0');
  }
}
