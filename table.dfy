/**
 * `output_restaurant_table`: a header, a rule of 60 dashes, one fixed-width
 * row per restaurant (or "No listings found"), and a closing rule.
 */
module Table {
  import opened Text
  import opened Records

  const NameWidth: nat := 30
  const CuisineWidth: nat := 20
  const PriceWidth: nat := 6
  const RuleWidth: nat := 60
  const NoListings: string := "No listings found"

  function Rule(): (r: string)
    ensures |r| == RuleWidth && forall i :: 0 <= i < |r| ==> r[i] == '-'
  {
    seq(RuleWidth, _ => '-')
  }

  /** The three cells of a line, each after a single space. */
  function Line(name: string, cuisine: string, price: string): (l: string)
    ensures |l| == 3 + Max(|name|, NameWidth) + Max(|cuisine|, CuisineWidth) + Max(|price|, PriceWidth)
    ensures l[0] == ' '
  {
    " " + LJust(name, NameWidth) + " " + LJust(cuisine, CuisineWidth) + " " + RJust(price, PriceWidth)
  }

  /** The column titles, laid out like every row. */
  function Header(): (h: string)
    ensures |h| == 59 && h[0] == ' '
  {
    Line("Name", "Cuisine", "Price")
  }

  /** One restaurant's line: title-cased name and cuisine, formatted price. */
  function Row(r: Restaurant, fmt: Formatter): (row: string)
    ensures |row| >= 59 && row[0] == ' '
  {
    Line(fmt.titleize(r.name), fmt.titleize(r.cuisine), fmt.formattedPrice(r))
  }

  function Rows(rs: seq<Restaurant>, fmt: Formatter): (lines: seq<string>)
    ensures |lines| == |rs|
    ensures forall k :: 0 <= k < |rs| ==> lines[k] == Row(rs[k], fmt)
  {
    seq(|rs|, k requires 0 <= k < |rs| => Row(rs[k], fmt))
  }

  /** The lines the table prints, in order. */
  function TableOf(rs: seq<Restaurant>, fmt: Formatter): seq<string> {
    [Header(), Rule()] + Rows(rs, fmt) + (if rs == [] then [NoListings] else []) + [Rule()]
  }

  /** A line is the three padded cells, each after one space. */
  lemma LineParts(name: string, cuisine: string, price: string)
    ensures Line(name, cuisine, price)
      == [' '] + LJust(name, NameWidth) + [' '] + LJust(cuisine, CuisineWidth) + [' '] + RJust(price, PriceWidth)
  {
  }

  /**
   * Columns are padded and never cut: a line is at least 59 characters, the
   * name starts at offset 1, the cuisine at offset 32 when the name fits in
   * 30, and the price ends the line.
   */
  lemma LineLayout(name: string, cuisine: string, price: string)
    ensures var l := Line(name, cuisine, price);
      && |l| == 3 + Max(|name|, NameWidth) + Max(|cuisine|, CuisineWidth) + Max(|price|, PriceWidth)
      && |l| >= 59
      && l[0] == ' '
      && l[1..1 + |name|] == name
      && (|name| <= NameWidth ==> l[31] == ' ' && l[32..32 + |cuisine|] == cuisine)
      && l[|l| - |price|..] == price
  {
    var a := LJust(name, NameWidth);
    var b := LJust(cuisine, CuisineWidth);
    var c := RJust(price, PriceWidth);
    var l := Line(name, cuisine, price);
    LineParts(name, cuisine, price);
    LineNameCell(a, b, c, |name|);
    LinePriceCell(a, b, c, |price|);
    if |name| <= NameWidth {
      LineCuisineCell(a, b, c, |cuisine|);
    }
  }

  lemma LineNameCell(a: string, b: string, c: string, n: nat)
    requires n <= |a|
    ensures ([' '] + a + [' '] + b + [' '] + c)[1..1 + n] == a[..n]
  {
    var l := [' '] + a + [' '] + b + [' '] + c;
    assert l == [' '] + (a + ([' '] + b + [' '] + c));
  }

  lemma LineCuisineCell(a: string, b: string, c: string, n: nat)
    requires |a| == 30 && n <= |b|
    ensures var l := [' '] + a + [' '] + b + [' '] + c;
      l[31] == ' ' && l[32..32 + n] == b[..n]
  {
    var l := [' '] + a + [' '] + b + [' '] + c;
    assert l == ([' '] + a + [' ']) + (b + ([' '] + c));
  }

  lemma LinePriceCell(a: string, b: string, c: string, n: nat)
    requires n <= |c|
    ensures var l := [' '] + a + [' '] + b + [' '] + c;
      l[|l| - n..] == c[|c| - n..]
  {
  }

  /** When every cell fits its width, every line of the table body is exactly 59 characters. */
  lemma RowFixedWidth(r: Restaurant, fmt: Formatter)
    requires |fmt.titleize(r.name)| <= NameWidth && |fmt.titleize(r.cuisine)| <= CuisineWidth
    requires |fmt.formattedPrice(r)| <= PriceWidth
    ensures |Row(r, fmt)| == 59
  {
    LineLayout(fmt.titleize(r.name), fmt.titleize(r.cuisine), fmt.formattedPrice(r));
  }

  /**
   * The table is the header, a rule, one row per restaurant in order, "No
   * listings found" exactly when there are none, and a closing rule.
   */
  lemma TableShape(rs: seq<Restaurant>, fmt: Formatter)
    ensures var t := TableOf(rs, fmt);
      && |t| == |rs| + (if rs == [] then 4 else 3)
      && t[0] == Header() && t[1] == Rule() && t[|t| - 1] == Rule()
      && (forall k :: 0 <= k < |rs| ==> t[2 + k] == Row(rs[k], fmt))
      && (NoListings in t <==> rs == [])
  {
    var t := TableOf(rs, fmt);
    LineLayout("Name", "Cuisine", "Price");
    assert Header()[0] != NoListings[0];
    assert Rule()[0] != NoListings[0];
    forall k | 0 <= k < |rs|
      ensures Row(rs[k], fmt) != NoListings
    {
      var r := rs[k];
      LineLayout(fmt.titleize(r.name), fmt.titleize(r.cuisine), fmt.formattedPrice(r));
      assert Row(r, fmt)[0] != NoListings[0];
    }
    if rs != [] {
      assert t == [Header(), Rule()] + Rows(rs, fmt) + [Rule()];
    } else {
      assert t[2] == NoListings;
    }
  }

  lemma RowsSnoc(rs: seq<Restaurant>, i: nat, fmt: Formatter)
    requires i < |rs|
    ensures Rows(rs[..i + 1], fmt) == Rows(rs[..i], fmt) + [Row(rs[i], fmt)]
  {
    assert rs[..i + 1] == rs[..i] + [rs[i]];
  }

  /**
   * The printing loop of `output_restaurant_table`: builds each row from its
   * three padded cells and appends it, then the empty-case line and the rule.
   */
  method RenderTable(rs: seq<Restaurant>, fmt: Formatter) returns (lines: seq<string>)
    ensures lines == TableOf(rs, fmt)
  {
    lines := [Header(), Rule()];
    for i := 0 to |rs|
      invariant lines == [Header(), Rule()] + Rows(rs[..i], fmt)
    {
      var r := rs[i];
      var line := " " + LJust(fmt.titleize(r.name), NameWidth);
      line := line + " " + LJust(fmt.titleize(r.cuisine), CuisineWidth);
      line := line + " " + RJust(fmt.formattedPrice(r), PriceWidth);
      assert line == Row(r, fmt);
      RowsSnoc(rs, i, fmt);
      lines := lines + [line];
    }
    assert rs[..|rs|] == rs;
    if rs == [] {
      lines := lines + [NoListings];
    }
    lines := lines + [Rule()];
  }
}
