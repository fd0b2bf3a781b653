/**
 * `find`: keeps the saved restaurants whose down-cased name or cuisine
 * contains the down-cased keyword, or whose price reads (with `to_i`) as a
 * number no greater than the keyword does; without a keyword it only prints
 * usage text.
 */
module FindQuery {
  import opened Wrappers
  import opened Text
  import opened Records
  import opened Table

  /**
   * The block given to `select`: the keyword occurs somewhere in the name or
   * in the cuisine, both down-cased, or the price reads as no more than it.
   */
  predicate Matches(r: Restaurant, keyword: string) {
    || Includes(Downcase(r.name), Downcase(keyword))
    || Includes(Downcase(r.cuisine), Downcase(keyword))
    || ToI(r.price) <= ToI(keyword)
  }

  /** A restaurant matches exactly when the keyword occurs at some offset of its name or cuisine, or its price reads as no more. */
  lemma MatchesIff(r: Restaurant, keyword: string)
    ensures Matches(r, keyword) <==>
      || (exists i :: OccursAt(Downcase(r.name), Downcase(keyword), i))
      || (exists i :: OccursAt(Downcase(r.cuisine), Downcase(keyword), i))
      || ToI(r.price) <= ToI(keyword)
  {
    IncludesIff(Downcase(r.name), Downcase(keyword));
    IncludesIff(Downcase(r.cuisine), Downcase(keyword));
  }

  /** `select` with a block: the restaurants the block keeps, in their saved order. */
  function Select(rs: seq<Restaurant>, keep: Restaurant -> bool): (found: seq<Restaurant>)
    ensures |found| <= |rs|
    ensures forall k :: 0 <= k < |found| ==> found[k] in rs && keep(found[k])
  {
    if rs == [] then []
    else
      var last := rs[|rs| - 1];
      Select(rs[..|rs| - 1], keep) + (if keep(last) then [last] else [])
  }

  /** The indices of the restaurants the block keeps, in order. */
  function Positions(rs: seq<Restaurant>, keep: Restaurant -> bool): (ps: seq<nat>)
    ensures forall k :: 0 <= k < |ps| ==> ps[k] < |rs|
  {
    if rs == [] then []
    else
      var n := |rs| - 1;
      Positions(rs[..n], keep) + (if keep(rs[n]) then [n] else [])
  }

  /** The restaurants `find` reports for a keyword. */
  function Search(rs: seq<Restaurant>, keyword: string): seq<Restaurant> {
    Select(rs, r => Matches(r, keyword))
  }

  /** `select` reads `rs` at its positions. */
  lemma {:induction false} SelectAtPositions(rs: seq<Restaurant>, keep: Restaurant -> bool)
    ensures |Positions(rs, keep)| == |Select(rs, keep)|
    ensures forall k :: 0 <= k < |Positions(rs, keep)| ==> Select(rs, keep)[k] == rs[Positions(rs, keep)[k]]
    decreases |rs|
  {
    if rs != [] {
      var n := |rs| - 1;
      SelectAtPositions(rs[..n], keep);
    }
  }

  /** The positions strictly increase, so `select` keeps the saved order. */
  lemma {:induction false} PositionsIncrease(rs: seq<Restaurant>, keep: Restaurant -> bool)
    ensures forall k, l :: 0 <= k < l < |Positions(rs, keep)| ==> Positions(rs, keep)[k] < Positions(rs, keep)[l]
    decreases |rs|
  {
    if rs != [] {
      var n := |rs| - 1;
      PositionsIncrease(rs[..n], keep);
    }
  }

  /** The positions are exactly the indices whose restaurant the block keeps. */
  lemma {:induction false} PositionsExact(rs: seq<Restaurant>, keep: Restaurant -> bool)
    ensures forall i :: 0 <= i < |rs| ==> (i in Positions(rs, keep) <==> keep(rs[i]))
    decreases |rs|
  {
    if rs != [] {
      var n := |rs| - 1;
      PositionsExact(rs[..n], keep);
      assert forall i :: 0 <= i < n ==> rs[..n][i] == rs[i];
    }
  }

  /**
   * `find` keeps order and drops only non-matches: its result is the saved
   * list read at strictly increasing indices, and those indices are exactly
   * the ones whose restaurant matches the keyword.
   */
  lemma SearchIsOrderedSubsequence(rs: seq<Restaurant>, keyword: string)
    ensures var found, ps := Search(rs, keyword), Positions(rs, r => Matches(r, keyword));
      && |ps| == |found|
      && (forall k :: 0 <= k < |ps| ==> found[k] == rs[ps[k]])
      && (forall k, l :: 0 <= k < l < |ps| ==> ps[k] < ps[l])
      && (forall i :: 0 <= i < |rs| ==> (i in ps <==> Matches(rs[i], keyword)))
  {
    var keep := r => Matches(r, keyword);
    SelectAtPositions(rs, keep);
    PositionsIncrease(rs, keep);
    PositionsExact(rs, keep);
  }

  /** A restaurant is found exactly when it is saved and matches the keyword. */
  lemma SearchMembership(rs: seq<Restaurant>, keyword: string, r: Restaurant)
    ensures r in Search(rs, keyword) <==> r in rs && Matches(r, keyword)
  {
    var keep := r => Matches(r, keyword);
    SelectAtPositions(rs, keep);
    PositionsExact(rs, keep);
    var found, ps := Select(rs, keep), Positions(rs, keep);
    if r in found {
      var k :| 0 <= k < |found| && found[k] == r;
      assert rs[ps[k]] == r;
    }
    if r in rs && Matches(r, keyword) {
      var i :| 0 <= i < |rs| && rs[i] == r;
      assert i in ps;
      var k :| 0 <= k < |ps| && ps[k] == i;
      assert found[k] == r;
    }
  }

  /**
   * A keyword with no leading number reads as 0 under `to_i`, so it matches
   * every restaurant whose price reads as 0 or less, whatever its text; a
   * restaurant whose price reads as positive matches only by name or cuisine.
   */
  lemma NonNumericKeyword(r: Restaurant, keyword: string)
    requires NoLeadingNumber(keyword)
    ensures ToI(r.price) <= 0 ==> Matches(r, keyword)
    ensures ToI(r.price) > 0 ==>
      (Matches(r, keyword) <==>
        Includes(Downcase(r.name), Downcase(keyword)) || Includes(Downcase(r.cuisine), Downcase(keyword)))
  {
    ToINonNumeric(keyword);
  }

  /**
   * Searching a pizza place priced "15" and a sushi bar priced "25": "piz"
   * finds only "Pizza Place" and "bar" only "Sushi Bar".
   */
  lemma FindExample()
    ensures Search([Pizza(), Sushi()], "piz") == [Pizza()]
    ensures Search([Pizza(), Sushi()], "bar") == [Sushi()]
  {
    PizzaMatches();
    SushiMatches();
    SelectTwo(Pizza(), Sushi(), r => Matches(r, "piz"));
    SelectTwo(Pizza(), Sushi(), r => Matches(r, "bar"));
  }

  lemma SelectTwo(a: Restaurant, b: Restaurant, keep: Restaurant -> bool)
    ensures Select([a, b], keep) == (if keep(a) then [a] else []) + (if keep(b) then [b] else [])
  {
    assert [a, b][..1] == [a];
    assert [a][..0] == [];
  }

  function Pizza(): Restaurant { Restaurant("Pizza Place", "Italian", "15") }

  function Sushi(): Restaurant { Restaurant("Sushi Bar", "Japanese", "25") }

  lemma PizzaMatches()
    ensures Matches(Pizza(), "piz") && !Matches(Pizza(), "bar")
  {
    PizzaFacts();
    KeywordFacts();
  }

  lemma SushiMatches()
    ensures Matches(Sushi(), "bar") && !Matches(Sushi(), "piz")
  {
    SushiFacts();
    KeywordFacts();
  }

  /** Neither keyword starts with a digit, so both read as 0. */
  lemma KeywordFacts()
    ensures ToI("piz") == 0 && ToI("bar") == 0
    ensures Downcase("piz") == "piz" && Downcase("bar") == "bar"
  {
    NoLeadingNumberOfWord("piz");
    ToINonNumeric("piz");
    NoLeadingNumberOfWord("bar");
    ToINonNumeric("bar");
  }

  /*
   * Each fact about a literal below sits in a lemma of its own: proved
   * together, their unfoldings of `ToI`, `Downcase` and `Includes` on
   * literals swamp the solver.
   */

  lemma PizzaFacts()
    ensures ToI("15") == 15
    ensures Downcase("Pizza Place") == "pizza place" && Downcase("Italian") == "italian"
    ensures Includes("pizza place", "piz")
    ensures !Includes("pizza place", "bar") && !Includes("italian", "bar")
  {
    ReadPrice15();
    DowncasePizza();
    PizzaIncludes();
    NoBarInPizzaPlace();
    NoBarInItalian();
  }

  lemma SushiFacts()
    ensures ToI("25") == 25
    ensures Downcase("Sushi Bar") == "sushi bar" && Downcase("Japanese") == "japanese"
    ensures Includes("sushi bar", "bar")
    ensures !Includes("sushi bar", "piz") && !Includes("japanese", "piz")
  {
    ReadPrice25();
    DowncaseSushi();
    SushiIncludes();
    NoPizInSushiBar();
    NoPizInJapanese();
  }

  lemma ReadPrice15()
    ensures ToI("15") == 15
  {
    ToITwoDigits('1', '5');
  }

  lemma ReadPrice25()
    ensures ToI("25") == 25
  {
    ToITwoDigits('2', '5');
  }

  lemma DowncasePizza()
    ensures Downcase("Pizza Place") == "pizza place" && Downcase("Italian") == "italian"
  {
  }

  lemma DowncaseSushi()
    ensures Downcase("Sushi Bar") == "sushi bar" && Downcase("Japanese") == "japanese"
  {
  }

  lemma PizzaIncludes()
    ensures Includes("pizza place", "piz")
  {
    assert StartsWith("pizza place", "piz");
  }

  lemma SushiIncludes()
    ensures Includes("sushi bar", "bar")
  {
    assert OccursAt("sushi bar", "bar", 6);
    IncludesIff("sushi bar", "bar");
  }

  lemma NoBarInPizzaPlace()
    ensures !Includes("pizza place", "bar")
  {
    MissingCharExcludes("pizza place", "bar", 'b');
  }

  lemma NoBarInItalian()
    ensures !Includes("italian", "bar")
  {
    MissingCharExcludes("italian", "bar", 'b');
  }

  lemma NoPizInSushiBar()
    ensures !Includes("sushi bar", "piz")
  {
    MissingCharExcludes("sushi bar", "piz", 'p');
  }

  lemma NoPizInJapanese()
    ensures !Includes("japanese", "piz")
  {
    MissingCharExcludes("japanese", "piz", 'z');
  }

  const UsageLines: seq<string> := [
    "Find using a key phrase to search the restaurant list.",
    "Examples: 'find pizza', 'find fast'"
  ]

  /**
   * `find`: with a keyword, the matching saved restaurants printed as a
   * table; without one, no search at all and only the usage text.
   */
  method Find(keyword: Option<string>, saved: seq<Restaurant>, fmt: Formatter)
    returns (found: Option<seq<Restaurant>>, lines: seq<string>)
    ensures keyword.None? ==> found.None? && lines == UsageLines
    ensures keyword.Some? ==> found == Some(Search(saved, keyword.value))
    ensures keyword.Some? ==> lines == TableOf(found.value, fmt)
  {
    if keyword.Some? {
      var matching := Search(saved, keyword.value);
      found := Some(matching);
      lines := RenderTable(matching, fmt);
    } else {
      found := None;
      lines := UsageLines;
    }
  }
}
