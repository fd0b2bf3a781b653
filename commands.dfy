/**
 * The guide's command loop: `get_action` reads lines until one whose first
 * word, down-cased, is a known action, `do_action` dispatches it, and
 * `launch!` repeats both until the action dispatched is `quit`.
 */
module Commands {
  import opened Wrappers
  import opened Text
  import opened Records
  import opened Table
  import ListQuery
  import FindQuery

  /** `Guide::Config.actions`, in order. */
  const ActionNames: seq<string> := ["list", "find", "add", "quit"]

  /** The closed set of actions the guide dispatches on. */
  datatype Action = List | Find | Add | Quit

  function NameOf(a: Action): string {
    match a
    case List => "list"
    case Find => "find"
    case Add => "add"
    case Quit => "quit"
  }

  /** The action a word names, if it names one. */
  function ActionOf(word: string): (a: Option<Action>)
    ensures a.Some? <==> word in ActionNames
    ensures a.Some? ==> NameOf(a.value) == word
  {
    if word == "list" then Some(List)
    else if word == "find" then Some(Find)
    else if word == "add" then Some(Add)
    else if word == "quit" then Some(Quit)
    else None
  }

  /** Every action's name reads back as that action. */
  lemma ActionOfNameOf(a: Action)
    ensures ActionOf(NameOf(a)) == Some(a)
  {
  }

  /** The words of an input line: its maximal runs of non-whitespace, each down-cased. */
  function Tokens(line: string): seq<string>
    decreases |line|
  {
    if line == [] then []
    else if IsSpace(line[0]) then Tokens(line[1..])
    else
      var n := WordLength(line);
      [Downcase(line[..n])] + Tokens(line[n..])
  }

  /** Down-casing keeps whitespace where it was, so it keeps word boundaries. */
  lemma {:induction false} WordLengthDowncase(s: string)
    ensures WordLength(Downcase(s)) == WordLength(s)
    decreases |s|
  {
    if s != [] && !IsSpace(s[0]) {
      assert Downcase(s)[1..] == Downcase(s[1..]);
      WordLengthDowncase(s[1..]);
    }
  }

  /** Splitting then down-casing each word is down-casing then splitting. */
  lemma {:induction false} TokensSplitDowncase(line: string)
    ensures Tokens(line) == Split(Downcase(line))
    decreases |line|
  {
    var d := Downcase(line);
    if line != [] {
      if IsSpace(line[0]) {
        assert d[1..] == Downcase(line[1..]);
        TokensSplitDowncase(line[1..]);
      } else {
        var n := WordLength(line);
        WordLengthDowncase(line);
        assert d[..n] == Downcase(line[..n]);
        assert d[n..] == Downcase(line[n..]);
        TokensSplitDowncase(line[n..]);
      }
    }
  }

  /** Every word is non-empty, holds no whitespace and no upper-case letter. */
  lemma TokensAreWords(line: string)
    ensures forall k :: 0 <= k < |Tokens(line)| ==>
      Tokens(line)[k] != [] && NoSpace(Tokens(line)[k]) && NoUpper(Tokens(line)[k])
  {
    TokensSplitDowncase(line);
  }

  /** `chomp` and `strip` change no word: the chain the guide applies yields `Tokens`. */
  lemma TokensOfLine(line: string)
    ensures Split(Strip(Downcase(Chomp(line)))) == Tokens(line)
  {
    SplitStrip(Downcase(Chomp(line)));
    DowncaseChompCommute(line);
    SplitChomp(Downcase(line));
    TokensSplitDowncase(line);
  }

  /** `gets.chomp.downcase.strip.split(' ')` on a line already read. */
  method ReadWords(line: string) returns (words: seq<string>)
    ensures words == Tokens(line)
  {
    words := Split(Strip(Downcase(Chomp(line))));
    TokensOfLine(line);
  }

  /** A line yields no action (`args.shift` is nil) exactly when it is blank. */
  lemma TokensEmptyIffBlank(line: string)
    ensures Tokens(line) == [] <==> AllSpace(line)
  {
    TokensSplitDowncase(line);
    SplitEmptyIffBlank(Downcase(line));
    assert AllSpace(Downcase(line)) <==> AllSpace(line) by {
      assert forall i :: 0 <= i < |line| ==> (IsSpace(Downcase(line)[i]) <==> IsSpace(line[i]));
    }
  }

  /** An action word and the words after it. */
  datatype Command = Command(action: string, args: seq<string>)

  /** `get_action` stops at a line whose first word is a known action. */
  predicate Accepted(line: string) {
    Tokens(line) != [] && Tokens(line)[0] in ActionNames
  }

  /**
   * One pass of `get_action`'s loop over a line: the first word is the action
   * (`args.shift`) and the rest its arguments; `None` when the line is blank or
   * its first word is not a known action, where the loop prompts again.
   */
  function ParseCommand(line: string): (c: Option<Command>)
    ensures c.Some? <==> Accepted(line)
    ensures c.Some? ==> [c.value.action] + c.value.args == Tokens(line)
  {
    var words := Tokens(line);
    if words != [] && words[0] in ActionNames then Some(Command(words[0], words[1..])) else None
  }

  /**
   * A parsed command names a closed action, and each argument is non-empty,
   * lower-case and free of whitespace.
   */
  lemma ParseCommandShape(line: string)
    requires ParseCommand(line).Some?
    ensures ActionOf(ParseCommand(line).value.action).Some?
    ensures forall k :: 0 <= k < |ParseCommand(line).value.args| ==>
      var w := ParseCommand(line).value.args[k]; w != [] && NoSpace(w) && NoUpper(w)
  {
    var words := Tokens(line);
    TokensAreWords(line);
    assert forall k :: 0 <= k < |words| - 1 ==> ParseCommand(line).value.args[k] == words[k + 1];
  }


  /** The words joined, each followed by one space. */
  function Unwords(words: seq<string>): string {
    if words == [] then [] else words[0] + " " + Unwords(words[1..])
  }

  /** Reading back words written out with spaces gives the same words. */
  lemma {:induction false} TokensOfUnwords(words: seq<string>)
    requires forall k :: 0 <= k < |words| ==> words[k] != [] && NoSpace(words[k]) && NoUpper(words[k])
    ensures Tokens(Unwords(words)) == words
    decreases |words|
  {
    if words != [] {
      var w, rest := words[0], Unwords(words[1..]);
      var line := w + " " + rest;
      assert line == w + (" " + rest) && line[0] == w[0];
      WordLengthOfWord(w, " " + rest);
      assert line[..|w|] == w && line[|w|..] == " " + rest;
      assert Tokens(line) == [Downcase(w)] + Tokens(" " + rest);
      assert Downcase(w) == w;
      assert (" " + rest)[1..] == rest;
      assert Tokens(" " + rest) == Tokens(rest);
      TokensOfUnwords(words[1..]);
    }
  }

  /** Parsing words written out with spaces, the first a known action, gives them back. */
  lemma ParseCommandOfWords(words: seq<string>)
    requires words != [] && words[0] in ActionNames
    requires forall k :: 0 <= k < |words| ==> words[k] != [] && NoSpace(words[k]) && NoUpper(words[k])
    ensures ParseCommand(Unwords(words)) == Some(Command(words[0], words[1..]))
  {
    TokensOfUnwords(words);
  }

  /**
   * Parsing a line that holds an action and well-formed arguments gives them
   * back: `get_action` accepts "find pizza" as `find` with `["pizza"]`.
   */
  lemma ParseCommandOfUnwords(a: Action, args: seq<string>)
    requires forall k :: 0 <= k < |args| ==> args[k] != [] && NoSpace(args[k]) && NoUpper(args[k])
    ensures ParseCommand(Unwords([NameOf(a)] + args)) == Some(Command(NameOf(a), args))
  {
    var words := [NameOf(a)] + args;
    NameIsWord(a);
    assert words[0] == NameOf(a) && words[1..] == args;
    forall k | 0 <= k < |words|
      ensures words[k] != [] && NoSpace(words[k]) && NoUpper(words[k])
    {
      if k > 0 {
        assert words[k] == args[k - 1];
      }
    }
    ParseCommandOfWords(words);
  }

  /** Each action's name is a single lower-case word of `ActionNames`. */
  lemma NameIsWord(a: Action)
    ensures NameOf(a) != [] && NoSpace(NameOf(a)) && NoUpper(NameOf(a)) && NameOf(a) in ActionNames
  {
    match a
    case List =>
    case Find =>
    case Add =>
    case Quit =>
  }

  /**
   * `get_action` over the input lines from `from` on: skips every line whose
   * first word, down-cased, is not a known action and returns the first whose
   * is, with the index after it; `None` when the input runs out first (where
   * the source would fail on a nil line). `hinted[i]` says whether the list of actions was
   * printed before the i-th prompt: exactly when the line read before it was
   * not blank.
   */
  method GetAction(input: seq<string>, from: nat)
    returns (command: Option<Command>, next: nat, hinted: seq<bool>)
    requires from <= |input|
    ensures from <= next <= |input| && |hinted| == next - from
    ensures command.None? ==> next == |input|
    ensures command.Some? ==> next > from && command == ParseCommand(input[next - 1])
    ensures command.Some? ==> forall k :: from <= k < next - 1 ==> !Accepted(input[k])
    ensures command.None? ==> forall k :: from <= k < next ==> !Accepted(input[k])
    ensures forall i :: 0 <= i < |hinted| ==> hinted[i] == (i > 0 && !AllSpace(input[from + i - 1]))
  {
    // The words of the line last read; its first word is the action that
    // `args.shift` takes, nil while no line has been read or the line is blank.
    var words: seq<string> := [];
    var pos := from;
    hinted := [];
    while !(words != [] && words[0] in ActionNames)
      invariant from <= pos <= |input| && |hinted| == pos - from
      invariant words == if pos == from then [] else Tokens(input[pos - 1])
      invariant forall k :: from <= k < pos - 1 ==> !Accepted(input[k])
      invariant forall i :: 0 <= i < |hinted| ==> hinted[i] == (i > 0 && !AllSpace(input[from + i - 1]))
      decreases |input| - pos
    {
      if pos == |input| {
        assert pos > from ==> !Accepted(input[pos - 1]);
        command, next := None, pos;
        return;
      }
      if pos > from {
        TokensEmptyIffBlank(input[pos - 1]);
      }
      hinted := hinted + [words != []];
      words := ReadWords(input[pos]);
      pos := pos + 1;
    }
    command, next := Some(Command(words[0], words[1..])), pos;
    assert command == ParseCommand(input[pos - 1]);
  }

  /** What one dispatched command did. */
  datatype Outcome =
    | Listed(order: ListQuery.SortKey, records: seq<Restaurant>)
    | Searched(keyword: Option<string>, found: Option<seq<Restaurant>>)
    | Added(record: Restaurant, saved: bool)
    | Quitting
    | NotUnderstood

  const AddedLine: string := "Restaurant Added"
  const SaveErrorLine: string := "Save Error: Restaurant not added"
  const NotUnderstoodLine: string := "I don't understand that command."

  /**
   * What `do_action` does with command `c` when `saved` holds the saved
   * restaurants: "list" sorts them by the order its arguments name; "find"
   * searches them for its first argument, or does no search when there is
   * none; "add" reports the record built from the user's answers and whether
   * `save` succeeded; "quit" yields the quit signal; any other word is not
   * understood. `store` is the saved restaurants afterwards: the record is
   * appended exactly when an `add` saves it.
   */
  predicate Performs(c: Command, saved: seq<Restaurant>, reply: AddReply, outcome: Outcome, store: seq<Restaurant>) {
    && (outcome.Quitting? <==> c.action == "quit")
    && (outcome.NotUnderstood? <==> c.action !in ActionNames)
    && (c.action == "list" ==>
      && outcome.Listed?
      && outcome.order == ListQuery.SortOrder(c.args)
      && ListQuery.Sorted(outcome.records, outcome.order)
      && multiset(outcome.records) == multiset(saved))
    && (c.action == "find" ==>
      && outcome.Searched?
      && outcome.keyword == (if c.args == [] then None else Some(c.args[0]))
      && outcome.found == (if c.args == [] then None else Some(FindQuery.Search(saved, c.args[0]))))
    && (c.action == "add" ==> outcome == Added(reply.record, reply.saved))
    && store == (if c.action == "add" && reply.saved then saved + [reply.record] else saved)
  }

  /**
   * The lines `do_action` prints for an outcome: the table of the sorted
   * restaurants and the sorting hint for "list"; the table of what was found
   * for "find", or the usage text when there was no keyword; whether the
   * record was added; the complaint about a command not understood; nothing
   * for "quit".
   */
  function Printed(outcome: Outcome, fmt: Formatter): seq<string> {
    match outcome
    case Listed(_, records) => TableOf(records, fmt) + [ListQuery.SortHint]
    case Searched(_, None) => FindQuery.UsageLines
    case Searched(_, Some(found)) => TableOf(found, fmt)
    case Added(_, saved) => [if saved then AddedLine else SaveErrorLine]
    case Quitting => []
    case NotUnderstood => [NotUnderstoodLine]
  }

  /**
   * `do_action`. `reply` is what `Restaurant.build_from_questions` and `save`
   * produce for an `add`; `lines` is what it prints; `store` is the saved
   * restaurants afterwards.
   */
  method DoAction(action: string, args: seq<string>, saved: seq<Restaurant>, reply: AddReply, fmt: Formatter)
    returns (outcome: Outcome, lines: seq<string>, store: seq<Restaurant>)
    ensures Performs(Command(action, args), saved, reply, outcome, store)
    ensures lines == Printed(outcome, fmt)
  {
    store := saved;
    match ActionOf(action)
    case Some(List) =>
      var order, records;
      order, records, lines := ListQuery.List(args, saved, fmt);
      outcome := Listed(order, records);
    case Some(Find) =>
      var keyword := if args == [] then None else Some(args[0]);
      var found;
      found, lines := FindQuery.Find(keyword, saved, fmt);
      outcome := Searched(keyword, found);
    case Some(Add) =>
      if reply.saved {
        store := saved + [reply.record];
        lines := [AddedLine];
      } else {
        lines := [SaveErrorLine];
      }
      outcome := Added(reply.record, reply.saved);
    case Some(Quit) =>
      outcome, lines := Quitting, [];
    case None =>
      outcome, lines := NotUnderstood, [NotUnderstoodLine];
  }

  /** A line that `get_action` accepts as the `quit` action: its first word, down-cased, is "quit". */
  predicate IsQuit(line: string) {
    Tokens(line) != [] && Tokens(line)[0] == "quit"
  }

  /** A quit line is exactly a line that `get_action` accepts with the action `quit`. */
  lemma IsQuitParses(line: string)
    ensures IsQuit(line) <==> ParseCommand(line).Some? && ParseCommand(line).value.action == "quit"
  {
  }

  /** A line `get_action` skips is never a quit line. */
  lemma SkippedNotQuit(input: seq<string>, from: nat, to: nat)
    requires from <= to <= |input|
    requires forall k :: from <= k < to ==> !Accepted(input[k])
    ensures forall k :: from <= k < to ==> !IsQuit(input[k])
  {
  }

  /** The commands `get_action` returns for `lines`, in order: one per accepted line. */
  function AcceptedCommands(lines: seq<string>): (commands: seq<Command>)
    ensures |commands| <= |lines|
    ensures forall k :: 0 <= k < |commands| ==> commands[k].action in ActionNames
  {
    if lines == [] then []
    else
      var earlier := AcceptedCommands(lines[..|lines| - 1]);
      match ParseCommand(lines[|lines| - 1])
      case Some(c) => earlier + [c]
      case None => earlier
  }

  /**
   * One round of `launch!` as it happened: the command dispatched, the saved
   * restaurants before and after it, which answer to `add`'s questions was
   * next, and the outcome.
   */
  datatype Round = Round(command: Command, before: seq<Restaurant>, answer: nat, outcome: Outcome, after: seq<Restaurant>)

  /** The index of the answer to `add` the round after `r` gets: one further when `r` was an `add`. */
  function NextAnswer(r: Round): nat {
    r.answer + if r.command.action == "add" then 1 else 0
  }

  /** Round `r` did what `do_action` does with its command, given the `add` answer it was due. */
  predicate Performed(r: Round, replies: nat -> AddReply) {
    Performs(r.command, r.before, replies(r.answer), r.outcome, r.after)
  }

  /** The records that the `add` rounds among `rounds` saved, in order. */
  function AddedRecords(rounds: seq<Round>): seq<Restaurant> {
    if rounds == [] then []
    else
      var o := rounds[|rounds| - 1].outcome;
      AddedRecords(rounds[..|rounds| - 1]) + (if o.Added? && o.saved then [o.record] else [])
  }

  /**
   * Round `i` of `rounds` does what `do_action` does with its command, on the
   * restaurants the round before it left (`saved` for the first) and with the
   * next unused answer to `add`.
   */
  predicate RoundPlayed(rounds: seq<Round>, i: nat, saved: seq<Restaurant>, replies: nat -> AddReply)
    requires i < |rounds|
  {
    var r := rounds[i];
    && Performed(r, replies)
    && r.before == (if i == 0 then saved else rounds[i - 1].after)
    && r.answer == (if i == 0 then 0 else NextAnswer(rounds[i - 1]))
  }

  /** `rounds` is a run of `launch!` from the saved restaurants `saved`: every round is played in turn. */
  predicate Played(rounds: seq<Round>, saved: seq<Restaurant>, replies: nat -> AddReply) {
    forall i :: 0 <= i < |rounds| ==> RoundPlayed(rounds, i, saved, replies)
  }

  /**
   * `rounds` dispatched `commands`, one round each and in order; none was
   * "not understood", and only the last, when `quit`, was the quit signal.
   */
  predicate Logged(rounds: seq<Round>, commands: seq<Command>, quit: bool) {
    && |rounds| == |commands|
    && (forall i :: 0 <= i < |rounds| ==> rounds[i].command == commands[i])
    && (forall i :: 0 <= i < |rounds| ==> !rounds[i].outcome.NotUnderstood?)
    && (forall i :: 0 <= i < |rounds| ==> (rounds[i].outcome.Quitting? <==> quit && i == |rounds| - 1))
  }

  /** A further round that is understood extends the log of a run that has not quit. */
  lemma LoggedExtend(rounds: seq<Round>, commands: seq<Command>, r: Round)
    requires Logged(rounds, commands, false) && !r.outcome.NotUnderstood?
    ensures Logged(rounds + [r], commands + [r.command], r.outcome.Quitting?)
  {
    var extended := rounds + [r];
    forall i | 0 <= i < |extended|
      ensures extended[i].command == (commands + [r.command])[i]
      ensures !extended[i].outcome.NotUnderstood?
      ensures extended[i].outcome.Quitting? <==> r.outcome.Quitting? && i == |extended| - 1
    {
      if i < |rounds| {
        assert extended[i] == rounds[i];
      } else {
        assert extended[i] == r;
      }
    }
  }

  /**
   * What `launch!` has done once it has read `input[..pos]`: no line before
   * the last one read is a quit line, and the last one is exactly when `quit`;
   * the rounds log one accepted line each, in order; `store` is what the last
   * round left, which is `saved` followed by the records the adds saved;
   * `adds` is the index of the next answer to `add`.
   */
  predicate Progress(input: seq<string>, pos: nat, quit: bool, rounds: seq<Round>, store: seq<Restaurant>, adds: nat,
                     saved: seq<Restaurant>) {
    && pos <= |input|
    && (quit ==> pos > 0 && IsQuit(input[pos - 1]))
    && (forall k :: 0 <= k < (if quit then pos - 1 else pos) ==> !IsQuit(input[k]))
    && Logged(rounds, AcceptedCommands(input[..pos]), quit)
    && store == (if rounds == [] then saved else rounds[|rounds| - 1].after)
    && store == saved + AddedRecords(rounds)
    && adds == (if rounds == [] then 0 else NextAnswer(rounds[|rounds| - 1]))
  }

  /**
   * `launch!`: reads and dispatches commands until the dispatched action is
   * `quit`. It quits exactly when some input line's first word, down-cased,
   * is "quit", right after the first such line. There is one round per
   * accepted line up to there, in order, each doing what `do_action` does
   * with that line's command; none is "not understood"; only the last is the
   * quit signal; the saved restaurants end up as `saved` followed by the
   * records the adds saved. `replies(n)` answers the n-th `add`.
   */
  method Launch(input: seq<string>, saved: seq<Restaurant>, replies: nat -> AddReply, fmt: Formatter)
    returns (quit: bool, consumed: nat, rounds: seq<Round>, store: seq<Restaurant>)
    ensures consumed <= |input|
    ensures quit <==> exists k :: 0 <= k < |input| && IsQuit(input[k])
    ensures quit ==> consumed > 0 && IsQuit(input[consumed - 1])
    ensures forall k :: 0 <= k < (if quit then consumed - 1 else consumed) ==> !IsQuit(input[k])
    ensures !quit ==> consumed == |input|
    ensures |rounds| == |AcceptedCommands(input[..consumed])|
    ensures forall i :: 0 <= i < |rounds| ==> rounds[i].command == AcceptedCommands(input[..consumed])[i]
    ensures Played(rounds, saved, replies)
    ensures forall i :: 0 <= i < |rounds| ==> !rounds[i].outcome.NotUnderstood?
    ensures forall i :: 0 <= i < |rounds| ==> (rounds[i].outcome.Quitting? <==> quit && i == |rounds| - 1)
    ensures store == saved + AddedRecords(rounds)
  {
    var pos, adds, exhausted := 0, 0, false;
    quit, rounds, store := false, [], saved;
    while !quit && !exhausted
      invariant Progress(input, pos, quit, rounds, store, adds, saved)
      invariant Played(rounds, saved, replies)
      invariant exhausted ==> !quit && pos == |input|
      decreases |input| - pos, !quit && !exhausted
    {
      var round;
      round, pos, quit, rounds, store, adds := Turn(input, pos, saved, replies, fmt, rounds, store, adds);
      exhausted := round.None?;
    }
    consumed := pos;
    QuitLineExists(input, consumed, quit);
  }

  /** Lines that add no command leave the run as it was, quit-free to where they end. */
  lemma ProgressSkip(input: seq<string>, pos: nat, next: nat, rounds: seq<Round>, store: seq<Restaurant>, adds: nat,
                     saved: seq<Restaurant>)
    requires Progress(input, pos, false, rounds, store, adds, saved)
    requires pos <= next <= |input|
    requires AcceptedCommands(input[..next]) == AcceptedCommands(input[..pos])
    requires forall k :: pos <= k < next ==> !IsQuit(input[k])
    ensures Progress(input, next, false, rounds, store, adds, saved)
  {
  }

  /** A round that dispatches the command of line `next - 1` extends the run by that round. */
  lemma ProgressStep(input: seq<string>, pos: nat, next: nat, rounds: seq<Round>, store: seq<Restaurant>, adds: nat,
                     saved: seq<Restaurant>, r: Round)
    requires Progress(input, pos, false, rounds, store, adds, saved)
    requires pos < next <= |input|
    requires AcceptedCommands(input[..next]) == AcceptedCommands(input[..pos]) + [r.command]
    requires !r.outcome.NotUnderstood? && (r.outcome.Quitting? <==> IsQuit(input[next - 1]))
    requires forall k :: pos <= k < next - 1 ==> !IsQuit(input[k])
    requires r.after == store + (if r.outcome.Added? && r.outcome.saved then [r.outcome.record] else [])
    ensures Progress(input, next, r.outcome.Quitting?, rounds + [r], r.after, NextAnswer(r), saved)
  {
    LoggedExtend(rounds, AcceptedCommands(input[..pos]), r);
    QuitFreeExtend(input, pos, next, r.outcome.Quitting?);
    var gained := if r.outcome.Added? && r.outcome.saved then [r.outcome.record] else [];
    assert (rounds + [r])[..|rounds|] == rounds;
    assert AddedRecords(rounds + [r]) == AddedRecords(rounds) + gained;
    assert r.after == saved + (AddedRecords(rounds) + gained);
  }

  /** The lines read so far stay quit-free up to the last one, which is a quit line exactly when `quit`. */
  lemma QuitFreeExtend(input: seq<string>, pos: nat, next: nat, quit: bool)
    requires pos < next <= |input|
    requires forall k :: 0 <= k < pos ==> !IsQuit(input[k])
    requires forall k :: pos <= k < next - 1 ==> !IsQuit(input[k])
    requires quit <==> IsQuit(input[next - 1])
    ensures forall k :: 0 <= k < (if quit then next - 1 else next) ==> !IsQuit(input[k])
  {
  }

  /** A round whose command `get_action` accepted is never "not understood". */
  lemma PerformedUnderstood(r: Round, replies: nat -> AddReply)
    requires Performed(r, replies) && r.command.action in ActionNames
    ensures !r.outcome.NotUnderstood?
  {
  }

  /** A round played on what the last round left, with the next answer, extends a run. */
  lemma PlayedExtend(rounds: seq<Round>, saved: seq<Restaurant>, replies: nat -> AddReply, r: Round)
    requires Played(rounds, saved, replies)
    requires r.before == (if rounds == [] then saved else rounds[|rounds| - 1].after)
    requires r.answer == (if rounds == [] then 0 else NextAnswer(rounds[|rounds| - 1]))
    requires Performed(r, replies)
    ensures Played(rounds + [r], saved, replies)
  {
    var extended := rounds + [r];
    forall i | 0 <= i < |extended|
      ensures RoundPlayed(extended, i, saved, replies)
    {
      if i > 0 {
        assert extended[i - 1] == rounds[i - 1];
      }
      if i < |rounds| {
        assert RoundPlayed(rounds, i, saved, replies);
        assert extended[i] == rounds[i];
      } else {
        assert extended[i] == r;
      }
    }
  }

  /** A round appends to the saved restaurants exactly the record its outcome reports saved. */
  lemma PerformedStore(r: Round, replies: nat -> AddReply)
    requires Performed(r, replies)
    ensures r.after == r.before + (if r.outcome.Added? && r.outcome.saved then [r.outcome.record] else [])
  {
  }

  /**
   * One round of `launch!`: `get_action` from line `pos` on, then `do_action`
   * on the command it returns, with the saved restaurants `store` and the
   * answer `replies(adds)` if it is an `add`; `None` when the input runs out
   * first. `rounds`, `store` and `adds` are what the earlier rounds did, and
   * the round extends them. What the round prints is
   * `Printed(round.value.outcome, fmt)`.
   */
  method Turn(input: seq<string>, pos: nat, saved: seq<Restaurant>, replies: nat -> AddReply, fmt: Formatter,
              rounds: seq<Round>, store: seq<Restaurant>, adds: nat)
    returns (round: Option<Round>, next: nat, quit: bool, rounds': seq<Round>, store': seq<Restaurant>, adds': nat)
    requires Progress(input, pos, false, rounds, store, adds, saved) && Played(rounds, saved, replies)
    ensures pos <= next <= |input|
    ensures quit <==> round.Some? && round.value.outcome.Quitting?
    ensures Progress(input, next, quit, rounds', store', adds', saved) && Played(rounds', saved, replies)
    ensures round.None? ==> next == |input| && rounds' == rounds && store' == store
    ensures round.Some? ==>
      && next > pos
      && ParseCommand(input[next - 1]) == Some(round.value.command)
      && round.value.before == store && round.value.answer == adds && round.value.after == store'
      && Performs(round.value.command, store, replies(adds), round.value.outcome, store')
      && rounds' == rounds + [round.value]
  {
    var command, hinted;
    command, next, hinted := GetAction(input, pos);
    AcceptedSkipped(input, pos, next, command.Some?);
    if command.None? {
      SkippedNotQuit(input, pos, next);
      ProgressSkip(input, pos, next, rounds, store, adds, saved);
      round, quit, rounds', store', adds' := None, false, rounds, store, adds;
      return;
    }
    SkippedNotQuit(input, pos, next - 1);
    var action, args := command.value.action, command.value.args;
    var outcome, lines;
    outcome, lines, store' := DoAction(action, args, store, replies(adds), fmt);
    var r := Round(command.value, store, adds, outcome, store');
    assert Performed(r, replies);
    PerformedUnderstood(r, replies);
    PerformedStore(r, replies);
    IsQuitParses(input[next - 1]);
    ProgressStep(input, pos, next, rounds, store, adds, saved, r);
    PlayedExtend(rounds, saved, replies, r);
    round, quit, rounds', adds' := Some(r), outcome.Quitting?, rounds + [r], NextAnswer(r);
  }

  /** Where the loop stopped decides whether the input holds a quit line at all. */
  lemma QuitLineExists(input: seq<string>, consumed: nat, quit: bool)
    requires consumed <= |input|
    requires quit ==> consumed > 0 && IsQuit(input[consumed - 1])
    requires !quit ==> consumed == |input| && forall k :: 0 <= k < consumed ==> !IsQuit(input[k])
    ensures quit <==> exists k :: 0 <= k < |input| && IsQuit(input[k])
  {
  }

  /**
   * Lines `get_action` skips add no command: from `from` to `next`, one more
   * command is accepted exactly when `found`, and then it is the last line's.
   */
  lemma {:induction false} AcceptedSkipped(input: seq<string>, from: nat, next: nat, found: bool)
    requires from <= next <= |input|
    requires found ==> next > from && Accepted(input[next - 1])
    requires forall k :: from <= k < (if found then next - 1 else next) ==> !Accepted(input[k])
    ensures found ==> AcceptedCommands(input[..next]) == AcceptedCommands(input[..from]) + [ParseCommand(input[next - 1]).value]
    ensures !found ==> AcceptedCommands(input[..next]) == AcceptedCommands(input[..from])
    decreases next - from
  {
    if next > from {
      assert input[..next][..next - 1] == input[..next - 1];
      AcceptedSkipped(input, from, next - 1, false);
    }
  }
}
