/**
 * The Ruby String built-ins the guide relies on, over ASCII: `downcase`,
 * `chomp`, `strip`, `split(' ')`, `include?`, `<=>`, `to_i`, `ljust` and
 * `rjust`.
 */
module Text {

  // ---------------------------------------------------------------------
  // Characters

  /** Ruby's ASCII whitespace: space, \t, \n, \v, \f and \r. */
  predicate IsSpace(c: char) {
    c == ' ' || c == '\t' || c == '\n' || c == '\U{0B}' || c == '\U{0C}' || c == '\r'
  }

  predicate IsUpper(c: char) { 'A' <= c <= 'Z' }

  predicate IsDigit(c: char) { '0' <= c <= '9' }

  predicate NoSpace(s: string) {
    forall i :: 0 <= i < |s| ==> !IsSpace(s[i])
  }

  predicate AllSpace(s: string) {
    forall i :: 0 <= i < |s| ==> IsSpace(s[i])
  }

  predicate NoUpper(s: string) {
    forall i :: 0 <= i < |s| ==> !IsUpper(s[i])
  }

  function LowerChar(c: char): (d: char)
    ensures !IsUpper(d)
    ensures IsSpace(d) <==> IsSpace(c)
    ensures !IsUpper(c) ==> d == c
  {
    if IsUpper(c) then (c as int + 32) as char else c
  }

  /** `String#downcase`, ASCII letters only. */
  function Downcase(s: string): (r: string)
    ensures |r| == |s| && NoUpper(r)
    ensures forall i :: 0 <= i < |s| ==> r[i] == LowerChar(s[i])
  {
    seq(|s|, i requires 0 <= i < |s| => LowerChar(s[i]))
  }

  /** A string that is already lower-case is left alone. */
  lemma DowncaseIdempotent(s: string)
    ensures Downcase(Downcase(s)) == Downcase(s)
  {
  }

  // ---------------------------------------------------------------------
  // chomp, strip and split(' ')

  /** `String#chomp`: removes one trailing "\r\n", "\n" or "\r". */
  function Chomp(s: string): (r: string)
    ensures r <= s
    ensures s[|r|..] in {"", "\n", "\r", "\r\n"}
    ensures |r| < |s| <==> s != [] && (s[|s| - 1] == '\n' || s[|s| - 1] == '\r')
    ensures |s| >= 2 && s[|s| - 2..] == "\r\n" ==> |r| == |s| - 2
  {
    if |s| >= 2 && s[|s| - 2..] == "\r\n" then s[..|s| - 2]
    else if s != [] && (s[|s| - 1] == '\n' || s[|s| - 1] == '\r') then
      assert s[|s| - 1..] == [s[|s| - 1]];
      s[..|s| - 1]
    else s
  }

  /** How many whitespace characters start `s`. */
  function LeadingSpaces(s: string): (n: nat)
    ensures n <= |s| && AllSpace(s[..n])
    ensures n < |s| ==> !IsSpace(s[n])
    decreases |s|
  {
    if s != [] && IsSpace(s[0]) then
      var n := 1 + LeadingSpaces(s[1..]);
      assert forall k :: 1 <= k < n ==> s[..n][k] == s[1..][..n - 1][k - 1];
      n
    else 0
  }

  /** How many whitespace characters end `s`. */
  function TrailingSpaces(s: string): (n: nat)
    ensures n <= |s|
    ensures forall k :: |s| - n <= k < |s| ==> IsSpace(s[k])
    ensures n < |s| ==> !IsSpace(s[|s| - n - 1])
    decreases |s|
  {
    if s != [] && IsSpace(s[|s| - 1]) then
      var init := s[..|s| - 1];
      assert forall k :: 0 <= k < |init| ==> init[k] == s[k];
      1 + TrailingSpaces(init)
    else 0
  }

  function StripLeft(s: string): (r: string)
    ensures |r| <= |s| && r == s[|s| - |r|..]
    ensures AllSpace(s[..|s| - |r|])
    ensures r != [] ==> !IsSpace(r[0])
  {
    s[LeadingSpaces(s)..]
  }

  function StripRight(s: string): (r: string)
    ensures r <= s
    ensures AllSpace(s[|r|..])
    ensures r != [] ==> !IsSpace(r[|r| - 1])
  {
    s[..|s| - TrailingSpaces(s)]
  }

  /** `String#strip`: drops leading and trailing whitespace. */
  function Strip(s: string): (r: string)
    ensures exists i, j :: 0 <= i <= j <= |s| && r == s[i..j] && AllSpace(s[..i]) && AllSpace(s[j..])
    ensures r != [] ==> !IsSpace(r[0]) && !IsSpace(r[|r| - 1])
    ensures NoUpper(s) ==> NoUpper(r)
  {
    SliceBetweenRuns(s, StripLeft(s), StripRight(StripLeft(s)));
    StripRight(StripLeft(s))
  }

  /**
   * A prefix `r` of a suffix `left` of `s` is a slice of `s`; when whitespace
   * alone precedes `left` and follows `r` in it, whitespace alone surrounds
   * the slice.
   */
  lemma SliceBetweenRuns(s: string, left: string, r: string)
    requires |left| <= |s| && left == s[|s| - |left|..] && AllSpace(s[..|s| - |left|])
    requires r <= left && AllSpace(left[|r|..])
    ensures exists i, j :: 0 <= i <= j <= |s| && r == s[i..j] && AllSpace(s[..i]) && AllSpace(s[j..])
  {
    var i := |s| - |left|;
    var j := i + |r|;
    assert r == left[..|r|] == s[i..j];
    forall k | 0 <= k < |s| - j
      ensures IsSpace(s[j..][k])
    {
      assert s[j..][k] == left[|r|..][k];
    }
  }

  /** Length of the run of non-whitespace characters that starts `s`. */
  function WordLength(s: string): (n: nat)
    ensures n <= |s| && NoSpace(s[..n])
    ensures n < |s| ==> IsSpace(s[n])
    ensures s != [] && !IsSpace(s[0]) ==> n >= 1
  {
    if s == [] || IsSpace(s[0]) then 0 else 1 + WordLength(s[1..])
  }

  /**
   * `String#split(' ')`: the maximal runs of non-whitespace characters, in
   * order; leading, trailing and repeated whitespace yield no empty fields.
   */
  function Split(s: string): (words: seq<string>)
    ensures forall k :: 0 <= k < |words| ==> words[k] != [] && NoSpace(words[k])
    ensures NoUpper(s) ==> forall k :: 0 <= k < |words| ==> NoUpper(words[k])
    decreases |s|
  {
    if s == [] then []
    else if IsSpace(s[0]) then Split(s[1..])
    else
      var n := WordLength(s);
      [s[..n]] + Split(s[n..])
  }

  function Concat(words: seq<string>): string {
    if words == [] then [] else words[0] + Concat(words[1..])
  }

  /** The characters of `s` that are not whitespace, in order. */
  function NonSpace(s: string): string {
    if s == [] then [] else (if IsSpace(s[0]) then [] else [s[0]]) + NonSpace(s[1..])
  }

  lemma {:induction false} NonSpaceAppend(a: string, b: string)
    ensures NonSpace(a + b) == NonSpace(a) + NonSpace(b)
    decreases |a|
  {
    if a != [] {
      var head := if IsSpace(a[0]) then [] else [a[0]];
      assert (a + b)[0] == a[0];
      assert (a + b)[1..] == a[1..] + b;
      NonSpaceAppend(a[1..], b);
      calc {
        NonSpace(a + b);
        head + NonSpace(a[1..] + b);
        head + (NonSpace(a[1..]) + NonSpace(b));
        (head + NonSpace(a[1..])) + NonSpace(b);
      }
    } else {
      assert a + b == b;
    }
  }

  lemma {:induction false} NonSpaceOfWord(w: string)
    requires NoSpace(w)
    ensures NonSpace(w) == w
    decreases |w|
  {
    if w != [] {
      NonSpaceOfWord(w[1..]);
    }
  }

  /** Splitting loses exactly the whitespace: the words hold every other character, in order. */
  lemma {:induction false} SplitKeepsText(s: string)
    ensures Concat(Split(s)) == NonSpace(s)
    decreases |s|
  {
    if s == [] {
    } else if IsSpace(s[0]) {
      SplitKeepsText(s[1..]);
    } else {
      var n := WordLength(s);
      SplitKeepsText(s[n..]);
      assert s == s[..n] + s[n..];
      NonSpaceAppend(s[..n], s[n..]);
      NonSpaceOfWord(s[..n]);
      var words := [s[..n]] + Split(s[n..]);
      assert words[1..] == Split(s[n..]);
    }
  }

  /**
   * The text spelt by words and the whitespace runs around them:
   * `gaps[0] + words[0] + gaps[1] + ... + words[n - 1] + gaps[n]`.
   */
  function Interleave(gaps: seq<string>, words: seq<string>): string
    requires |gaps| == |words| + 1
    decreases |words|
  {
    if words == [] then gaps[0] else gaps[0] + words[0] + Interleave(gaps[1..], words[1..])
  }

  /** Runs of whitespace that keep words apart: the inner ones are never empty. */
  predicate Separators(gaps: seq<string>) {
    && (forall k :: 0 <= k < |gaps| ==> AllSpace(gaps[k]))
    && (forall k :: 0 < k < |gaps| - 1 ==> gaps[k] != [])
  }

  /** Non-empty words free of whitespace. */
  predicate Words(words: seq<string>) {
    forall k :: 0 <= k < |words| ==> words[k] != [] && NoSpace(words[k])
  }

  /** The whitespace runs of `s` before, between and after the words `Split` finds. */
  function Gaps(s: string): (gaps: seq<string>)
    ensures |gaps| == |Split(s)| + 1
    ensures Separators(gaps)
    ensures s != [] && IsSpace(s[0]) ==> gaps[0] != []
    decreases |s|
  {
    if s == [] then [[]]
    else if IsSpace(s[0]) then
      var g := Gaps(s[1..]);
      [[s[0]] + g[0]] + g[1..]
    else
      [[]] + Gaps(s[WordLength(s)..])
  }

  /** Whitespace put in front of the first gap is put in front of the text. */
  lemma InterleaveWiden(x: string, gaps: seq<string>, words: seq<string>)
    requires |gaps| == |words| + 1
    ensures Interleave([x + gaps[0]] + gaps[1..], words) == x + Interleave(gaps, words)
  {
    var wide := [x + gaps[0]] + gaps[1..];
    assert wide[1..] == gaps[1..];
  }

  /** A line is its words with the whitespace runs `Gaps` finds around them. */
  lemma {:induction false} SplitSpellsLine(s: string)
    ensures Interleave(Gaps(s), Split(s)) == s
    decreases |s|
  {
    if s == [] {
    } else if IsSpace(s[0]) {
      SplitSpellsLine(s[1..]);
      SpellsAfterSpace(s);
    } else {
      SplitSpellsLine(s[WordLength(s)..]);
      SpellsAfterWord(s);
    }
  }

  /** A leading whitespace character joins the first gap. */
  lemma SpellsAfterSpace(s: string)
    requires s != [] && IsSpace(s[0])
    requires Interleave(Gaps(s[1..]), Split(s[1..])) == s[1..]
    ensures Interleave(Gaps(s), Split(s)) == s
  {
    var rest := s[1..];
    var g, ws := Gaps(rest), Split(rest);
    assert Gaps(s) == [[s[0]] + g[0]] + g[1..];
    assert Split(s) == ws;
    InterleaveWiden([s[0]], g, ws);
    assert [s[0]] + rest == s;
  }

  /** A leading word is the first word, after an empty first gap. */
  lemma SpellsAfterWord(s: string)
    requires s != [] && !IsSpace(s[0])
    requires Interleave(Gaps(s[WordLength(s)..]), Split(s[WordLength(s)..])) == s[WordLength(s)..]
    ensures Interleave(Gaps(s), Split(s)) == s
  {
    var n := WordLength(s);
    var rest := s[n..];
    var g, ws := Gaps(rest), Split(rest);
    assert Gaps(s) == [[]] + g;
    assert Split(s) == [s[..n]] + ws;
    InterleaveWord(s[..n], g, ws);
    assert s[..n] + rest == s;
  }

  /** A word after an empty first gap comes first in the text. */
  lemma InterleaveWord(w: string, gaps: seq<string>, words: seq<string>)
    requires |gaps| == |words| + 1
    ensures Interleave([[]] + gaps, [w] + words) == w + Interleave(gaps, words)
  {
    var wide, longer := [[]] + gaps, [w] + words;
    calc {
      Interleave(wide, longer);
      wide[0] + longer[0] + Interleave(wide[1..], longer[1..]);
      { assert wide[0] == [] && longer[0] == w; }
      [] + w + Interleave(wide[1..], longer[1..]);
      { assert wide[1..] == gaps && longer[1..] == words; }
      [] + w + Interleave(gaps, words);
      { assert [] + w == w; }
      w + Interleave(gaps, words);
    }
  }

  /** Whitespace in front of a line adds no word. */
  lemma {:induction false} SplitLeadingSpace(g: string, t: string)
    requires AllSpace(g)
    ensures Split(g + t) == Split(t)
    decreases |g|
  {
    if g != [] {
      assert (g + t)[1..] == g[1..] + t;
      SplitLeadingSpace(g[1..], t);
    } else {
      assert g + t == t;
    }
  }

  /** A word followed by whitespace, or by nothing, is read as exactly that word. */
  lemma {:induction false} WordLengthOfWord(w: string, rest: string)
    requires NoSpace(w) && (rest == [] || IsSpace(rest[0]))
    ensures WordLength(w + rest) == |w|
    decreases |w|
  {
    if w == [] {
      assert w + rest == rest;
    } else {
      assert (w + rest)[0] == w[0];
      assert (w + rest)[1..] == w[1..] + rest;
      WordLengthOfWord(w[1..], rest);
    }
  }

  /**
   * Words kept apart by whitespace split back into exactly those words: each
   * word `Split` yields is a maximal run of non-whitespace.
   */
  lemma {:induction false} SplitOfSeparated(gaps: seq<string>, words: seq<string>)
    requires |gaps| == |words| + 1 && Separators(gaps) && Words(words)
    ensures Split(Interleave(gaps, words)) == words
    decreases |words|
  {
    if words == [] {
      SplitEmptyIffBlank(gaps[0]);
    } else {
      var w, rest := words[0], Interleave(gaps[1..], words[1..]);
      assert Interleave(gaps, words) == gaps[0] + (w + rest);
      SplitLeadingSpace(gaps[0], w + rest);
      if words[1..] != [] {
        assert gaps[1] != [];
        assert rest == gaps[1] + (words[1] + Interleave(gaps[2..], words[2..]));
      }
      WordLengthOfWord(w, rest);
      var line := w + rest;
      assert line[..|w|] == w && line[|w|..] == rest;
      SplitOfSeparated(gaps[1..], words[1..]);
    }
  }

  /** A line splits into no words exactly when it is blank. */
  lemma SplitEmptyIffBlank(s: string)
    ensures Split(s) == [] <==> AllSpace(s)
  {
    SplitKeepsText(s);
    if Split(s) != [] {
      var w := Split(s)[0];
      assert Concat(Split(s)) == w + Concat(Split(s)[1..]);
      NonSpaceNonEmpty(s);
    } else {
      NonSpaceEmpty(s);
    }
  }

  lemma {:induction false} NonSpaceNonEmpty(s: string)
    requires NonSpace(s) != []
    ensures !AllSpace(s)
    decreases |s|
  {
    if IsSpace(s[0]) {
      NonSpaceNonEmpty(s[1..]);
      var i :| 0 <= i < |s[1..]| && !IsSpace(s[1..][i]);
      assert !IsSpace(s[i + 1]);
    }
  }

  lemma {:induction false} NonSpaceEmpty(s: string)
    requires NonSpace(s) == []
    ensures AllSpace(s)
    decreases |s|
  {
    if s != [] {
      NonSpaceEmpty(s[1..]);
      assert forall i :: 1 <= i < |s| ==> s[i] == s[1..][i - 1];
    }
  }

  /** Whitespace appended to a line adds no word and changes none. */
  lemma {:induction false} SplitTrailingSpace(s: string, c: char)
    requires IsSpace(c)
    ensures Split(s + [c]) == Split(s)
    decreases |s|
  {
    var t := s + [c];
    if s == [] {
      assert Split(t) == Split(t[1..]);
    } else if IsSpace(s[0]) {
      assert t[1..] == s[1..] + [c];
      SplitTrailingSpace(s[1..], c);
    } else {
      var n := WordLength(s);
      WordLengthExtend(s, c);
      assert t[..n] == s[..n];
      assert t[n..] == s[n..] + [c];
      SplitTrailingSpace(s[n..], c);
    }
  }

  lemma {:induction false} WordLengthExtend(s: string, c: char)
    requires IsSpace(c)
    ensures WordLength(s + [c]) == WordLength(s)
    decreases |s|
  {
    if s != [] && !IsSpace(s[0]) {
      assert (s + [c])[1..] == s[1..] + [c];
      WordLengthExtend(s[1..], c);
    }
  }

  /** A trailing whitespace character is the first one `rstrip` drops. */
  lemma StripRightDrop(s: string)
    requires s != [] && IsSpace(s[|s| - 1])
    ensures StripRight(s) == StripRight(s[..|s| - 1])
  {
    assert s[..|s| - 1][..|s| - TrailingSpaces(s)] == s[..|s| - TrailingSpaces(s)];
  }

  lemma {:induction false} SplitStripRight(s: string)
    ensures Split(StripRight(s)) == Split(s)
    decreases |s|
  {
    if s != [] && IsSpace(s[|s| - 1]) {
      var init, c := s[..|s| - 1], s[|s| - 1];
      calc {
        Split(StripRight(s));
        { StripRightDrop(s); }
        Split(StripRight(init));
        { SplitStripRight(init); }
        Split(init);
        { SplitTrailingSpace(init, c); }
        Split(init + [c]);
        { assert init + [c] == s; }
        Split(s);
      }
    } else {
      assert StripRight(s) == s;
    }
  }

  lemma {:induction false} SplitStripLeft(s: string)
    ensures Split(StripLeft(s)) == Split(s)
    decreases |s|
  {
    if s != [] && IsSpace(s[0]) {
      SplitStripLeft(s[1..]);
    }
  }

  /** `strip` before `split(' ')` changes nothing. */
  lemma SplitStrip(s: string)
    ensures Split(Strip(s)) == Split(s)
  {
    SplitStripRight(StripLeft(s));
    SplitStripLeft(s);
  }

  /** `chomp` before `split(' ')` changes nothing. */
  lemma SplitChomp(s: string)
    ensures Split(Chomp(s)) == Split(s)
  {
    var r := Chomp(s);
    if |r| + 2 == |s| {
      assert s == r + [s[|r|]] + [s[|r| + 1]];
      assert IsSpace(s[|r|]) && IsSpace(s[|r| + 1]);
      SplitTrailingSpace(r + [s[|r|]], s[|r| + 1]);
      SplitTrailingSpace(r, s[|r|]);
    } else if |r| + 1 == |s| {
      assert s == r + [s[|r|]];
      assert IsSpace(s[|r|]);
      SplitTrailingSpace(r, s[|r|]);
    } else {
      assert r == s;
    }
  }

  /** `downcase` and `chomp` commute: line terminators are not letters. */
  lemma DowncaseChompCommute(s: string)
    ensures Downcase(Chomp(s)) == Chomp(Downcase(s))
  {
    var d := Downcase(s);
    var n := |s|;
    forall c: char
      ensures (LowerChar(c) == '\r' <==> c == '\r') && (LowerChar(c) == '\n' <==> c == '\n')
    {
    }
    if n >= 2 {
      assert d[n - 2..] == [d[n - 2], d[n - 1]] && s[n - 2..] == [s[n - 2], s[n - 1]];
    }
    forall k | 0 <= k <= n
      ensures Downcase(s[..k]) == d[..k]
    {
    }
  }

  // ---------------------------------------------------------------------
  // include?

  predicate StartsWith(s: string, prefix: string) {
    |prefix| <= |s| && s[..|prefix|] == prefix
  }

  /** `String#include?`, searched left to right. */
  predicate Includes(s: string, sub: string): (b: bool)
    ensures StartsWith(s, sub) ==> b
    ensures b ==> |sub| <= |s|
    decreases |s|
  {
    StartsWith(s, sub) || (s != [] && Includes(s[1..], sub))
  }

  /** `sub` occurs in `s` starting at offset `i`. */
  predicate OccursAt(s: string, sub: string, i: int) {
    0 <= i <= |s| - |sub| && s[i..i + |sub|] == sub
  }

  /** An occurrence past the first character is an occurrence in the tail, one offset earlier. */
  lemma OccursAtTail(s: string, sub: string, i: int)
    requires s != []
    ensures OccursAt(s, sub, i) && i > 0 <==> OccursAt(s[1..], sub, i - 1)
  {
    if 0 < i <= |s| - |sub| {
      assert s[1..][i - 1..i - 1 + |sub|] == s[i..i + |sub|];
    }
  }

  /** `include?` holds exactly when `sub` occurs at some offset of `s`. */
  lemma {:induction false} IncludesIff(s: string, sub: string)
    ensures Includes(s, sub) <==> exists i :: OccursAt(s, sub, i)
    decreases |s|
  {
    if StartsWith(s, sub) {
      assert OccursAt(s, sub, 0);
    } else if s != [] {
      IncludesIff(s[1..], sub);
      forall i | OccursAt(s[1..], sub, i)
        ensures OccursAt(s, sub, i + 1)
      {
        OccursAtTail(s, sub, i + 1);
      }
      forall i | OccursAt(s, sub, i)
        ensures OccursAt(s[1..], sub, i - 1)
      {
        OccursAtTail(s, sub, i);
      }
    }
  }

  /** A string cannot include a text holding a character it lacks. */
  lemma MissingCharExcludes(s: string, sub: string, c: char)
    requires c in sub && c !in s
    ensures !Includes(s, sub)
  {
    IncludesIff(s, sub);
    var k :| 0 <= k < |sub| && sub[k] == c;
    forall i | 0 <= i <= |s| - |sub|
      ensures !OccursAt(s, sub, i)
    {
      assert s[i..i + |sub|][k] == s[i + k] != c;
    }
  }

  // ---------------------------------------------------------------------
  // <=> on strings and integers

  /** `String#<=>`: lexicographic by character, a proper prefix sorting first. */
  function Compare(s: string, t: string): (r: int)
    ensures -1 <= r <= 1
    decreases |s|
  {
    if s == [] && t == [] then 0
    else if s == [] then -1
    else if t == [] then 1
    else if s[0] < t[0] then -1
    else if s[0] > t[0] then 1
    else Compare(s[1..], t[1..])
  }

  /**
   * `s` sorts before `t` with their first `k` characters shared: either `s`
   * is that shared part and `t` goes on, or character `k` of `s` is smaller.
   */
  predicate LexBefore(s: string, t: string, k: nat) {
    && k <= |s| && k <= |t| && s[..k] == t[..k]
    && ((k == |s| && k < |t|) || (k < |s| && k < |t| && s[k] < t[k]))
  }

  /** Lexicographic order: the first differing character decides, and a proper prefix comes first. */
  predicate LexLess(s: string, t: string) {
    exists k: nat | k <= |s| :: LexBefore(s, t, k)
  }

  /** `<=>` answers -1 exactly when `s` sorts before `t` lexicographically. */
  lemma {:induction false} CompareLexLess(s: string, t: string)
    ensures Compare(s, t) < 0 <==> LexLess(s, t)
    decreases |s|
  {
    if s == [] || t == [] || s[0] != t[0] {
      LexLessAtHead(s, t);
    } else {
      CompareLexLess(s[1..], t[1..]);
      LexLessTail(s, t);
    }
  }

  /** When the strings differ at once, or one is empty, the first character decides. */
  lemma LexLessAtHead(s: string, t: string)
    requires s == [] || t == [] || s[0] != t[0]
    ensures LexLess(s, t) <==> t != [] && (s == [] || s[0] < t[0])
  {
    if t != [] && (s == [] || s[0] < t[0]) {
      assert LexBefore(s, t, 0);
    }
    if LexLess(s, t) {
      var k: nat :| k <= |s| && LexBefore(s, t, k);
      if k > 0 {
        assert s[..k][0] == t[..k][0];
      }
    }
  }

  /** A shared first character leaves the order to the rest. */
  lemma LexLessTail(s: string, t: string)
    requires s != [] && t != [] && s[0] == t[0]
    ensures LexLess(s, t) <==> LexLess(s[1..], t[1..])
  {
    var s', t' := s[1..], t[1..];
    if LexLess(s, t) {
      var k: nat :| k <= |s| && LexBefore(s, t, k);
      assert k > 0;
      assert s[..k] == [s[0]] + s'[..k - 1] && t[..k] == [t[0]] + t'[..k - 1];
      assert LexBefore(s', t', k - 1);
    }
    if LexLess(s', t') {
      var k: nat :| k <= |s'| && LexBefore(s', t', k);
      assert s[..k + 1] == [s[0]] + s'[..k] && t[..k + 1] == [t[0]] + t'[..k];
      assert LexBefore(s, t, k + 1);
    }
  }

  lemma {:induction false} CompareZeroIffEqual(s: string, t: string)
    ensures Compare(s, t) == 0 <==> s == t
    decreases |s|
  {
    if s != [] && t != [] && s[0] == t[0] {
      CompareZeroIffEqual(s[1..], t[1..]);
      assert s == [s[0]] + s[1..] && t == [t[0]] + t[1..];
    }
  }

  lemma {:induction false} CompareAntisymmetric(s: string, t: string)
    ensures Compare(t, s) == -Compare(s, t)
    decreases |s|
  {
    if s != [] && t != [] && s[0] == t[0] {
      CompareAntisymmetric(s[1..], t[1..]);
    }
  }

  lemma {:induction false} CompareTransitive(a: string, b: string, c: string)
    requires Compare(a, b) <= 0 && Compare(b, c) <= 0
    ensures Compare(a, c) <= 0
    decreases |a|
  {
    if a != [] && b != [] && c != [] && a[0] == b[0] == c[0] {
      CompareTransitive(a[1..], b[1..], c[1..]);
    }
  }

  /** `Integer#<=>`. */
  function CompareInt(x: int, y: int): (r: int)
    ensures r < 0 <==> x < y
    ensures r == 0 <==> x == y
    ensures r > 0 <==> x > y
  {
    if x < y then -1 else if x == y then 0 else 1
  }

  // ---------------------------------------------------------------------
  // to_i

  /**
   * The decimal digits that start `s`, in order; one underscore between two
   * digits is skipped, as Ruby's integer parser allows ("1_000").
   */
  function LeadingDigits(s: string): (ds: string)
    ensures forall i :: 0 <= i < |ds| ==> IsDigit(ds[i])
    ensures ds == [] <==> (s == [] || !IsDigit(s[0]))
    decreases |s|
  {
    if s == [] || !IsDigit(s[0]) then []
    else if |s| >= 3 && s[1] == '_' && IsDigit(s[2]) then [s[0]] + LeadingDigits(s[2..])
    else [s[0]] + LeadingDigits(s[1..])
  }

  function DigitValue(c: char): nat
    requires IsDigit(c)
  {
    c as int - '0' as int
  }

  /** The value of a string of decimal digits, most significant first. */
  function DecimalValue(ds: string): nat
    requires forall i :: 0 <= i < |ds| ==> IsDigit(ds[i])
  {
    if ds == [] then 0 else 10 * DecimalValue(ds[..|ds| - 1]) + DigitValue(ds[|ds| - 1])
  }

  /**
   * `String#to_i`: leading whitespace, an optional sign and the leading
   * digits; 0 when no digit follows.
   */
  function ToI(s: string): (n: int)
    ensures (forall i :: 0 <= i < |s| ==> !IsDigit(s[i])) ==> n == 0
  {
    var t := StripLeft(s);
    assert forall i :: 0 <= i < |t| ==> t[i] == s[|s| - |t| + i];
    if t != [] && t[0] == '-' then -(DecimalValue(LeadingDigits(t[1..])) as int)
    else if t != [] && t[0] == '+' then DecimalValue(LeadingDigits(t[1..]))
    else DecimalValue(LeadingDigits(t))
  }

  /**
   * No digit follows the leading whitespace and the optional sign of `s`:
   * `to_i` finds no number in it ("", "x", "  -x", "+", "-cheap").
   */
  predicate NoLeadingNumber(s: string) {
    var t := StripLeft(s);
    var u := if t != [] && (t[0] == '-' || t[0] == '+') then t[1..] else t;
    u == [] || !IsDigit(u[0])
  }

  /** A string starting with neither whitespace, a sign nor a digit has no leading number. */
  lemma NoLeadingNumberOfWord(s: string)
    requires s != [] && !IsSpace(s[0]) && !IsDigit(s[0]) && s[0] != '-' && s[0] != '+'
    ensures NoLeadingNumber(s)
  {
    assert StripLeft(s) == s;
  }

  /** A string with no leading number reads as 0. */
  lemma ToINonNumeric(s: string)
    requires NoLeadingNumber(s)
    ensures ToI(s) == 0
  {
  }

  /** A sign with no digit after it reads as 0: "-x" and "+" have no leading number. */
  lemma SignWithoutDigits()
    ensures NoLeadingNumber("-x") && ToI("-x") == 0
    ensures NoLeadingNumber("+") && ToI("+") == 0
  {
    assert StripLeft("-x") == "-x" && "-x"[1..] == "x";
    ToINonNumeric("-x");
    assert StripLeft("+") == "+";
    ToINonNumeric("+");
  }

  function DigitChar(d: nat): (c: char)
    requires d < 10
    ensures IsDigit(c) && DigitValue(c) == d
  {
    ('0' as int + d) as char
  }

  /** `Integer#to_s` for a non-negative integer. */
  function NatToString(n: nat): (s: string)
    ensures s != [] && forall i :: 0 <= i < |s| ==> IsDigit(s[i])
  {
    if n < 10 then [DigitChar(n)] else NatToString(n / 10) + [DigitChar(n % 10)]
  }

  lemma {:induction false} LeadingDigitsOfDigits(ds: string)
    requires forall i :: 0 <= i < |ds| ==> IsDigit(ds[i])
    ensures LeadingDigits(ds) == ds
    decreases |ds|
  {
    if ds != [] {
      LeadingDigitsOfDigits(ds[1..]);
    }
  }

  lemma {:induction false} DecimalValueOfNat(n: nat)
    ensures DecimalValue(NatToString(n)) == n
  {
    if n >= 10 {
      DecimalValueOfNat(n / 10);
      var s := NatToString(n);
      assert s[..|s| - 1] == NatToString(n / 10);
    }
  }

  /** A two-digit numeral reads as its value. */
  lemma ToITwoDigits(a: char, b: char)
    requires IsDigit(a) && IsDigit(b)
    ensures ToI([a, b]) == 10 * DigitValue(a) + DigitValue(b)
  {
    var s := [a, b];
    assert StripLeft(s) == s;
    LeadingDigitsOfDigits(s);
    assert ToI(s) == DecimalValue(s);
    assert DecimalValue([a]) == DigitValue(a) by {
      assert [a][..0] == [];
    }
    assert DecimalValue(s) == 10 * DecimalValue([a]) + DigitValue(b) by {
      assert s[..1] == [a];
    }
  }

  /** `to_i` reads back what `to_s` wrote: `n.to_s.to_i == n`. */
  lemma ToIOfNatToString(n: nat)
    ensures ToI(NatToString(n)) == n
  {
    var s := NatToString(n);
    assert StripLeft(s) == s;
    LeadingDigitsOfDigits(s);
    DecimalValueOfNat(n);
  }

  /** A leading minus sign negates: `("-" + n.to_s).to_i == -n`. */
  lemma ToIOfNegative(n: nat)
    ensures ToI("-" + NatToString(n)) == -(n as int)
  {
    var s := NatToString(n);
    var t := "-" + s;
    assert StripLeft(t) == t;
    assert t[1..] == s;
    LeadingDigitsOfDigits(s);
    DecimalValueOfNat(n);
  }

  // ---------------------------------------------------------------------
  // ljust and rjust

  function Spaces(n: nat): (r: string)
    ensures |r| == n && AllSpace(r)
    ensures forall i :: 0 <= i < n ==> r[i] == ' '
  {
    seq(n, _ => ' ')
  }

  function Max(a: nat, b: nat): nat { if a < b then b else a }

  /** `String#ljust(width)`: pads on the right with spaces up to `width`; never truncates. */
  function LJust(s: string, width: nat): (r: string)
    ensures |r| == Max(|s|, width)
    ensures r[..|s|] == s
    ensures forall i :: |s| <= i < |r| ==> r[i] == ' '
  {
    if |s| < width then s + Spaces(width - |s|) else s
  }

  /** `String#rjust(width)`: pads on the left with spaces up to `width`; never truncates. */
  function RJust(s: string, width: nat): (r: string)
    ensures |r| == Max(|s|, width)
    ensures r[|r| - |s|..] == s
    ensures forall i :: 0 <= i < |r| - |s| ==> r[i] == ' '
  {
    if |s| < width then Spaces(width - |s|) + s else s
  }
}
