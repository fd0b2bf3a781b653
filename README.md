# Food Finder guide: a verified model of the command loop and queries

Food Finder is an interactive command-line restaurant guide. The `Guide`
class in `lib/guide.rb` prompts for a command, tokenizes the line, and
dispatches one of four actions:

- `list [[by] name|cuisine|price]` sorts the saved restaurants by the chosen
  key and prints them as a fixed-width table.
- `find <keyword>` keeps the restaurants whose name or cuisine contains the
  keyword, or whose price reads as a number no greater than the keyword's.
- `add` saves a new restaurant.
- `quit` ends the loop.

This project models that core in Dafny and proves what it does:

- **Text** models the Ruby string built-ins the guide relies on, over ASCII:
  `downcase`, `chomp`, `strip`, `split(' ')`, `include?`, `<=>`, `to_i`,
  `ljust` and `rjust`.
- **Records** is the restaurant record as the guide sees it. It also holds
  stand-ins for the parts of the unseen `Restaurant` class the guide calls.
- **Table** models `output_restaurant_table`:
  - header, 60-dash rule, one padded row per restaurant, "No listings
    found" when there are none, closing rule;
  - `RenderTable` is the printing loop, proved to produce `TableOf`.
- **ListQuery** models `list`:
  - sort-order resolution (`by` is a filler word, `name` is the default);
  - the key comparator, proved antisymmetric and transitive;
  - an in-place insertion sort on an `array`, proved to leave the array
    sorted by the key and a permutation of the input.
- **FindQuery** models `find`:
  - the `select` predicate and the filter;
  - the result is an order-preserving subsequence of the saved list;
  - a restaurant is found exactly when it matches;
  - without a keyword, only the usage text.
- **Commands** models the command loop:
  - `get_action`: a loop over input lines that skips lines until one whose
    first word, down-cased, is a known action;
  - `do_action`: dispatch on a closed `Action` datatype;
  - `launch!`: the loop that stops exactly when `quit` is dispatched. Its run
    is returned as a log of rounds: each round's command, the saved
    restaurants before and after it, and its outcome. What a round prints is
    `Printed` of its outcome.

Console output is modelled as the sequence of lines an operation prints.
Keyboard input is a sequence of lines.

Three points about what the code does, which the model keeps:

- **Sorting.** `list` sorts with `sort!` and a block. Ruby's `sort!` promises
  no stability, so the model claims only sortedness and permutation.
- **Unknown commands.** `do_action` prints "I don't understand that command."
  for any other word (`lib/guide.rb:61-62`). But `get_action` only returns
  known actions, so that branch cannot be reached from `launch!`.
  `Commands.Launch` proves that no dispatched command is ever "not
  understood".
- **Non-numeric keywords.** A keyword with no leading number reads as 0. So
  `find` returns every restaurant whose price reads as 0 or less, whatever
  the keyword's text. The model keeps this (`FindQuery.NonNumericKeyword`).

The class body in `lib/guide.rb` is closed by the stray `end` at line 48. So
`do_action`, `list`, `find` and `add` are defined at the top level rather than
in `Guide`. This changes no behaviour modelled here.

## Model

| member | source | states |
|---|---|---|
| Text.Downcase | lib/guide.rb:43 | `downcase` keeps the length, leaves no upper-case ASCII letter and lowers each character in place |
| Text.DowncaseIdempotent | lib/guide.rb:43 | down-casing twice is down-casing once |
| Text.Chomp | lib/guide.rb:43 | `chomp` returns a prefix of the line and removes exactly a trailing "\r\n", "\n" or "\r" (both characters for "\r\n"), nothing otherwise |
| Text.Strip | lib/guide.rb:43 | `strip` returns a slice of the line with only whitespace cut on either side, no whitespace left at either end, and no upper-case letter added |
| Text.SliceBetweenRuns | lib/guide.rb:43 | a prefix of a suffix of the line, with only whitespace before the suffix and after the prefix, is a slice of the line between two whitespace runs (the proof behind `strip`'s slice clause) |
| Text.Split | lib/guide.rb:43 | `split(' ')` yields only non-empty words free of whitespace, lower-case when the input is |
| Text.Gaps | lib/guide.rb:43 | a line has one run of whitespace more than it has words, and the runs between words are non-empty |
| Text.SplitSpellsLine | lib/guide.rb:43 | the words, interleaved with the whitespace runs between them, spell the line: each word is a maximal run of non-whitespace |
| Text.SplitOfSeparated | lib/guide.rb:43 | splitting words joined by non-empty whitespace runs gives back exactly those words |
| Text.WordLengthOfWord | lib/guide.rb:43 | a word runs exactly up to the whitespace that follows it |
| Text.SplitKeepsText | lib/guide.rb:43 | the words, concatenated, are exactly the non-whitespace characters of the line in order |
| Text.SplitEmptyIffBlank | lib/guide.rb:43-44 | a line has no words exactly when it is all whitespace |
| Text.SplitStrip | lib/guide.rb:43 | `strip` before `split(' ')` changes no word |
| Text.SplitChomp | lib/guide.rb:43 | `chomp` before `split(' ')` changes no word |
| Text.DowncaseChompCommute | lib/guide.rb:43 | `downcase` and `chomp` commute |
| Text.Includes | lib/guide.rb:93 | `include?` holds when the text starts with the keyword, and only when the keyword is no longer than the text |
| Text.IncludesIff | lib/guide.rb:93 | `include?` holds exactly when the keyword occurs at some offset |
| Text.MissingCharExcludes | lib/guide.rb:93 | a text lacking one of the keyword's characters does not include it |
| Text.Compare | lib/guide.rb:77-79 | string `<=>` answers -1, 0 or 1 |
| Text.CompareLexLess | lib/guide.rb:77-79 | string `<=>` answers -1 exactly when the first string sorts before the second lexicographically: at the first differing character the first has the smaller one, or it is a proper prefix of the second |
| Text.CompareZeroIffEqual | lib/guide.rb:77-79 | string `<=>` answers 0 exactly for equal strings |
| Text.CompareAntisymmetric | lib/guide.rb:77-79 | swapping the operands of string `<=>` negates the answer |
| Text.CompareTransitive | lib/guide.rb:77-79 | string `<=>` is transitive in its "not after" relation |
| Text.CompareInt | lib/guide.rb:81 | integer `<=>` is negative, zero or positive exactly when the first is less, equal or greater |
| Text.ToI | lib/guide.rb:93 | `to_i` of text without any digit is 0 |
| Text.ToINonNumeric | lib/guide.rb:93 | `to_i` of text in which no digit follows the leading whitespace and the optional sign is 0 ("x", "-x", "+", "  cheap", "") |
| Text.SignWithoutDigits | lib/guide.rb:93 | "-x" and "+" have no leading number and read as 0 under `to_i`, so they match like any other non-numeric keyword |
| Text.ToITwoDigits | lib/guide.rb:81 | a two-digit numeral reads as its value |
| Text.ToIOfNatToString | lib/guide.rb:81 | `n.to_s.to_i == n` for every non-negative n |
| Text.ToIOfNegative | lib/guide.rb:93 | a leading minus reads as the negated value |
| Text.LJust | lib/guide.rb:135-136 | `ljust` pads to the larger of the width and the length, never truncates, keeps the text as prefix and pads with spaces |
| Text.RJust | lib/guide.rb:137 | `rjust` pads to the larger of the width and the length, never truncates, keeps the text as suffix and pads with spaces |
| Table.Rule | lib/guide.rb:133 | the rule is exactly 60 dashes |
| Table.Line | lib/guide.rb:130-132 | a line starts with a space and is as long as the three padded cells plus their three separating spaces |
| Table.Header | lib/guide.rb:130-132 | the header starts with a space and is exactly 59 characters |
| Table.Row | lib/guide.rb:135-137 | a restaurant's row starts with a space and is at least 59 characters |
| Table.Rows | lib/guide.rb:134-139 | one row per restaurant, in order |
| Table.LineLayout | lib/guide.rb:130-137 | a line is at least 59 characters, starts with a space, holds the name from offset 1, the cuisine from offset 32 when the name fits, and ends with the price |
| Table.RowFixedWidth | lib/guide.rb:135-137 | a row whose cells fit their widths is exactly 59 characters |
| Table.TableShape | lib/guide.rb:129-142 | header, rule, the rows in order, "No listings found" exactly when there are no restaurants, closing rule |
| Table.RenderTable | lib/guide.rb:129-142 | the printing loop produces exactly `TableOf` |
| ListQuery.SortOrder | lib/guide.rb:67-69 | the order is cuisine (or price) exactly when the first argument, or the second after "by", names it; otherwise name |
| ListQuery.ByIsFiller | lib/guide.rb:68 | `list by X` is `list X` |
| ListQuery.SortOrderOfKeyWord | lib/guide.rb:67-69 | each order's word selects that order, with or without "by" |
| ListQuery.CompareBy | lib/guide.rb:75-82 | the sort block answers -1, 0 or 1 |
| ListQuery.CompareByAntisymmetric | lib/guide.rb:74-83 | swapping the two records negates the sort block's answer |
| ListQuery.CompareByTransitive | lib/guide.rb:74-83 | the sort block's "not after" relation is transitive |
| ListQuery.CompareByZero | lib/guide.rb:75-82 | two records tie exactly when their down-cased names, down-cased cuisines or `to_i` prices are equal |
| ListQuery.ComparatorConsistent | lib/guide.rb:74-83 | every key's block meets what `sort!` needs of a comparator |
| ListQuery.SortInPlace | lib/guide.rb:73-83 | `sort!` leaves the array sorted by the key and a permutation of what it held |
| ListQuery.SortWith | lib/guide.rb:74 | sorting with any consistent block leaves the array sorted under it and a permutation |
| ListQuery.Insert | lib/guide.rb:74 | one insertion step extends the sorted prefix by one element, permutes the array and leaves every element after that prefix where it was |
| ListQuery.List | lib/guide.rb:66-86 | `list` resolves the order from its arguments, returns the saved restaurants sorted by it and permuted, and prints their table followed by the sorting hint |
| ListQuery.ListByPriceExample | lib/guide.rb:73-83 | listing by price records priced "30", "10", "20" yields them as 10, 20, 30 |
| FindQuery.MatchesIff | lib/guide.rb:93 | a restaurant matches exactly when the down-cased keyword occurs at some offset of its down-cased name or cuisine, or its price reads as no more than the keyword |
| FindQuery.Select | lib/guide.rb:92-94 | `select` keeps only records the block accepts and never more than it was given |
| FindQuery.SearchIsOrderedSubsequence | lib/guide.rb:91-94 | the found list is the saved list read at strictly increasing indices, exactly those whose record matches |
| FindQuery.SearchMembership | lib/guide.rb:92-94 | a record is found exactly when it is saved and matches the keyword |
| FindQuery.NonNumericKeyword | lib/guide.rb:93 | with a keyword in which no digit follows the leading whitespace and the optional sign, every record priced at 0 or less matches; a record priced above 0 matches only by name or cuisine |
| FindQuery.FindExample | lib/guide.rb:91-94 | "piz" finds only "Pizza Place" and "bar" only "Sushi Bar" |
| FindQuery.Find | lib/guide.rb:88-100 | with a keyword, the matching records printed as a table; without one, no search and only the usage text |
| Commands.ActionOf | lib/guide.rb:6 | a word names an action exactly when it is in `Config.actions`, and the action's name is that word |
| Commands.ActionOfNameOf | lib/guide.rb:6 | every action's name reads back as that action |
| Commands.TokensSplitDowncase | lib/guide.rb:43 | the words of a line, each down-cased, are the words of the down-cased line |
| Commands.TokensAreWords | lib/guide.rb:43 | every word of a line is non-empty, lower-case and free of whitespace |
| Commands.TokensOfLine | lib/guide.rb:43 | `chomp.downcase.strip.split(' ')` yields the line's down-cased words |
| Commands.ReadWords | lib/guide.rb:43 | reading a line yields its down-cased words |
| Commands.TokensEmptyIffBlank | lib/guide.rb:41-44 | the action is nil exactly when the line is blank |
| Commands.ParseCommand | lib/guide.rb:40-46 | a line is accepted exactly when its first word is a known action; the action and the arguments are then its words in order |
| Commands.ParseCommandShape | lib/guide.rb:43-46 | an accepted action is one of the four, and every argument is non-empty, lower-case and free of whitespace |
| Commands.ParseCommandOfWords | lib/guide.rb:40-46 | words written out with spaces, the first a known action, parse back to that action and those arguments |
| Commands.ParseCommandOfUnwords | lib/guide.rb:40-46 | a line holding an action's name and well-formed arguments parses to exactly them |
| Commands.GetAction | lib/guide.rb:38-47 | skips every line that is not accepted and returns the first accepted one as parsed; the action list is printed before a prompt exactly when the line before it was not blank |
| Commands.DoAction | lib/guide.rb:50-64 | the quit signal exactly for "quit" and "not understood" exactly for words outside `Config.actions`; "list" sorts the saved restaurants by the order its arguments name (sorted, a permutation) and prints their table and the sorting hint; "find" searches for its first argument and prints the table of what it found, or only the usage text without one; "add" reports the built record and whether `save` succeeded and prints "Restaurant Added" or the save error; the saved list grows by the record exactly when `add` saves it |
| Commands.IsQuitParses | lib/guide.rb:40-46 | a quit line is exactly a line `get_action` accepts with the action `quit` |
| Commands.SkippedNotQuit | lib/guide.rb:40-45 | a line `get_action` skips is never a quit line |
| Commands.AcceptedCommands | lib/guide.rb:38-47 | the lines yield at most one command each, all with known actions |
| Commands.AcceptedSkipped | lib/guide.rb:40-45 | the lines `get_action` skips add no command; the line it stops at adds its own |
| Commands.LoggedExtend | lib/guide.rb:31-33 | an understood round extends the log of a run that has not quit, and the run has quit exactly when that round quits |
| Commands.QuitFreeExtend | lib/guide.rb:31 | the lines read stay quit-free up to the last one, which is a quit line exactly when the loop quits |
| Commands.ProgressSkip | lib/guide.rb:40-45 | lines that yield no command leave the run as it was |
| Commands.ProgressStep | lib/guide.rb:31-33 | a dispatched round extends the log by one accepted command, grows the saved list by what it saved, and moves to the next answer to `add` |
| Commands.PerformedUnderstood | lib/guide.rb:50-63 | a round whose command is a known action is never "not understood" |
| Commands.PerformedStore | lib/guide.rb:102-110 | a round appends to the saved list exactly the record its outcome reports saved |
| Commands.PlayedExtend | lib/guide.rb:31-33 | a round that does what `do_action` does, on what the last round left and with the next answer, extends the run |
| Commands.Turn | lib/guide.rb:32-33 | one round reads to the next accepted line, dispatches that line's command exactly as `do_action` does on the current saved list, and quits exactly on a quit line |
| Commands.Launch | lib/guide.rb:28-36 | quits exactly when some line's first word, down-cased, is "quit", right after the first such line; round i dispatches the i-th accepted line's command exactly as `do_action` does, on the saved list the round before left and with the next answer to `add`; no round is "not understood"; only the last is the quit signal; the saved list ends as the saved restaurants followed by the records the adds saved |
| Commands.QuitLineExists | lib/guide.rb:31 | where the loop stops decides whether the input holds a quit line |

## Left out

- Terminal output is modelled as returned lines. The `> ` prompt is not,
  nor the blank lines the `puts` strings carry.
- The `intro` and `conclusion` banners are not modelled, nor
  `output_action_header` with its `upcase.center(60)`.
- `Guide#initialize` (lib/guide.rb:12-26) is not modelled. It is file-system
  checks and `exit!` inside the `Restaurant` class, which is not part of this
  model.
- The `Restaurant` class is not part of this model:
  - `saved_restaurants` is the `saved` parameter;
  - `build_from_questions` and `save` are an `AddReply`;
  - `formatted_price` and `String#titleize` are the `Formatter` arrows.
- Commands.DoAction: a successful `add` is assumed to append the record to
  the saved list. The source only reports what `save` returned.
- Commands.Launch: in the source, the answers to `add`'s questions come from
  the same terminal as the commands. The model takes them from `replies`, so
  every input line is read as a command.
- Commands.GetAction: when the input runs out, `gets` returns nil and the
  source fails on `nil.chomp`. The model returns `None`, and `Launch` stops
  there without quitting.
- Commands.GetAction: printing the action list is reported as one flag per
  prompt, not as printed text.
- ListQuery.SortInPlace: the ordering is proved; the model sorts by
  insertion, so records with equal keys may end up in a different order than
  Ruby's `sort!` gives.
- Text.Downcase: ASCII letters only. Ruby's Unicode case mapping is not
  modelled.
- Text.Strip: strips ASCII whitespace only. Ruby's `strip` also removes NUL
  characters at either end, which is not modelled.
- `to_i` covers leading whitespace, an optional sign, and decimal digits with
  single underscores between them. Any other detail of Ruby's integer parser
  is not modelled.
