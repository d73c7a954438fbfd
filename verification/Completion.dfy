/** Tab completion (completeInputToken, completeCommandToken, commonStringPrefix and the `@` token). */
module Completion {
  import opened Text
  import opened Wrappers
  import opened Fuzzy
  import opened CommandMatching

  // ---- Longest common prefix -----------------------------------------------------------------

  function Common<T(==)>(a: seq<T>, b: seq<T>): (r: seq<T>)
    ensures r <= a && r <= b
  {
    if a != [] && b != [] && a[0] == b[0] then [a[0]] + Common(a[1..], b[1..]) else []
  }

  /** Of runes for a list of lines, of bytes for strings as they are stored. */
  function CommonPrefix<T(==)>(values: seq<seq<T>>): seq<T> {
    if values == [] then []
    else if |values| == 1 then values[0]
    else Common(CommonPrefix(values[..|values| - 1]), values[|values| - 1])
  }

  ghost predicate SharedBy<T>(p: seq<T>, values: seq<seq<T>>) {
    forall v | v in values :: p <= v
  }

  lemma {:induction false} CommonIsLongest<T>(a: seq<T>, b: seq<T>, p: seq<T>)
    requires p <= a && p <= b
    ensures p <= Common(a, b)
  {
    if p != [] {
      CommonIsLongest(a[1..], b[1..], p[1..]);
    }
  }

  /** It is a prefix of every value, and every common prefix is a prefix of it. */
  lemma {:induction false} CommonPrefixIsLongest<T(!new)>(values: seq<seq<T>>)
    requires values != []
    ensures SharedBy(CommonPrefix(values), values)
    ensures forall p | SharedBy(p, values) :: p <= CommonPrefix(values)
  {
    if |values| > 1 {
      var init, last := values[..|values| - 1], values[|values| - 1];
      CommonPrefixIsLongest(init);
      forall v | v in values ensures CommonPrefix(values) <= v {
        if v !in init {
          assert v == last;
        }
      }
      assert values == init + [last];
      forall p | SharedBy(p, values) ensures p <= CommonPrefix(values) {
        assert last in values;
        forall v | v in init ensures p <= v {
          assert v in values;
        }
        assert SharedBy(p, init);
        CommonIsLongest(CommonPrefix(init), last, p);
      }
    } else {
      assert values[0] in values;
    }
  }

  method CommonStringPrefix<T(==)>(values: seq<seq<T>>) returns (common: seq<T>)
    ensures common == CommonPrefix(values)
  {
    if |values| == 0 {
      return [];
    }
    common := values[0];
    for i := 1 to |values|
      invariant common == CommonPrefix(values[..i])
    {
      ghost var before := common;
      while !(common <= values[i]) && common != []
        invariant common <= before && Common(before, values[i]) <= common
        decreases |common|
      {
        assert common != Common(before, values[i]);
        common := common[..|common| - 1];
      }
      CommonIsLongest(before, values[i], common);
      assert values[..i + 1][..i] == values[..i];
    }
    assert values[..|values|] == values;
  }

  // ---- Completing a command ------------------------------------------------------------------

  /** What is shown below the line; NoNotice stands for the empty message. */
  datatype Notice =
    | NoNotice
    | NoCommands(prefix: string)
    | SeveralCommands(prefix: string, fuzzy: bool, names: seq<string>)
    | ReferenceError(reason: string)
    | NoReferences(prefix: string)
    | SeveralReferences(prefix: string, paths: seq<string>)

  datatype Outcome = Outcome(buffer: string, changed: bool, notice: Notice)

  predicate IsBlank(c: char) {
    c == ' ' || c == '\t' || c == '\r' || c == '\n'
  }

  predicate HasBlank(s: string) {
    exists c | c in s :: IsBlank(c)
  }

  /** A line that is a single `/` word. */
  predicate IsCommandToken(buffer: string) {
    buffer != [] && buffer[0] == '/' && !HasBlank(buffer)
  }

  function PrefixMatches(commands: seq<string>, prefix: string): seq<string> {
    if commands == [] then [] else
    PrefixMatches(commands[..|commands| - 1], prefix) +
    if prefix <= commands[|commands| - 1] then [commands[|commands| - 1]] else []
  }

  /** The commands a token may stand for, and whether they were found by fuzzy search. */
  ghost function Candidates(lower: char -> char, commands: seq<string>, prefix: string): (seq<string>, bool) {
    var direct := PrefixMatches(commands, prefix);
    if direct != [] || prefix == COMMAND_PREFIX then (direct, false)
    else
      var ranked := TopRanked(lower, commands, prefix, |commands|);
      if ranked == [] then ([], false)
      else
        var nearest := NearestMatch(lower, ranked, prefix);
        (if nearest != "" then [nearest] else ranked, true)
  }

  /** What Tab makes of a token and the commands it may stand for. */
  function Choose(buffer: string, names: seq<string>, fuzzy: bool): Outcome {
    if names == [] then Outcome(buffer, false, NoCommands(buffer))
    else if |names| == 1 then Outcome(names[0] + " ", true, NoNotice)
    else if Len(CommonPrefix(names)) > Len(buffer) then Outcome(CommonPrefix(names), true, NoNotice)
    else Outcome(buffer, false, SeveralCommands(buffer, fuzzy, names))
  }

  ghost function CompleteCommand(lower: char -> char, commands: seq<string>, buffer: string, cursor: int): Outcome {
    if cursor != |buffer| || !IsCommandToken(buffer) then Outcome(buffer, false, NoNotice)
    else
      var (names, fuzzy) := Candidates(lower, commands, buffer);
      Choose(buffer, names, fuzzy)
  }

  method CommandsWithPrefix(commands: seq<string>, prefix: string) returns (matches: seq<string>)
    ensures matches == PrefixMatches(commands, prefix)
  {
    matches := [];
    for i := 0 to |commands|
      invariant matches == PrefixMatches(commands[..i], prefix)
    {
      if prefix <= commands[i] {
        matches := matches + [commands[i]];
      }
      assert commands[..i + 1][..i] == commands[..i];
    }
    assert commands[..|commands|] == commands;
  }

  method FindCandidates(lower: char -> char, commands: seq<string>, buffer: string)
    returns (matches: seq<string>, fuzzy: bool)
    ensures (matches, fuzzy) == Candidates(lower, commands, buffer)
  {
    hide TopRanked, NearestMatch, PrefixMatches;
    matches := CommandsWithPrefix(commands, buffer);
    fuzzy := false;
    if |matches| == 0 && buffer != COMMAND_PREFIX {
      matches := FuzzyFilterStrings(lower, commands, buffer, |commands|);
      fuzzy := |matches| > 0;
      if fuzzy {
        var completion := CloseEditDistanceCommandMatch(lower, matches, buffer);
        if completion != "" {
          matches := [completion];
        }
      }
    }
  }

  method CompleteCommandToken(lower: char -> char, commands: seq<string>, buffer: string, cursor: int)
    returns (r: Outcome)
    ensures r == CompleteCommand(lower, commands, buffer, cursor)
  {
    hide Candidates, CommonPrefix, HasBlank, Len;
    if cursor != |buffer| || |buffer| == 0 || buffer[0] != '/' {
      return Outcome(buffer, false, NoNotice);
    }
    if HasBlank(buffer) {
      return Outcome(buffer, false, NoNotice);
    }
    var matches, fuzzy := FindCandidates(lower, commands, buffer);
    if |matches| == 0 {
      return Outcome(buffer, false, NoCommands(buffer));
    }
    if |matches| == 1 {
      return Outcome(matches[0] + " ", true, NoNotice);
    }
    var common := CommonStringPrefix(matches);
    if Len(common) > Len(buffer) {
      return Outcome(common, true, NoNotice);
    }
    return Outcome(buffer, false, SeveralCommands(buffer, fuzzy, matches));
  }

  // ---- Completing a workspace reference --------------------------------------------------------

  datatype Suggestions = Failed(reason: string) | Found(paths: seq<string>)

  /** Where the last run of non-space runes starts. */
  function LastWordStart(buffer: string): (start: nat)
    ensures start <= |buffer|
    ensures forall i | start <= i < |buffer| :: !IsSpace(buffer[i])
    ensures start > 0 ==> IsSpace(buffer[start - 1])
  {
    |TrimRight(buffer, c => !IsSpace(c))|
  }

  /** The `@` token that ends the line: where it starts and its text without trailing punctuation. */
  function TrailingAtReference(buffer: string): Option<(nat, string)> {
    var start := LastWordStart(buffer);
    if start == |buffer| || buffer[start] != '@' then None
    else
      var prefix := TrimRight(buffer[start + 1..], IsTrailingPunctuation);
      if '"' in prefix || '\'' in prefix then None else Some((start, prefix))
  }

  method TrailingAtReferenceToken(buffer: string) returns (r: Option<(nat, string)>)
    ensures r == TrailingAtReference(buffer)
  {
    if |buffer| == 0 {
      return None;
    }
    var start := |buffer| - 1;
    while start >= 0 && !IsSpace(buffer[start])
      invariant -1 <= start < |buffer|
      invariant forall i | start < i < |buffer| :: !IsSpace(buffer[i])
      decreases start
    {
      start := start - 1;
    }
    start := start + 1;
    assert start == LastWordStart(buffer);
    if start >= |buffer| || buffer[start] != '@' {
      return None;
    }
    var prefix := TrimRight(buffer[start + 1..], IsTrailingPunctuation);
    if '"' in prefix || '\'' in prefix {
      return None;
    }
    return Some((start, prefix));
  }

  /** `suggest` stands for the walk over the workspace directory. */
  function CompleteReference(buffer: string, suggest: string -> Suggestions): Outcome {
    match TrailingAtReference(buffer)
    case None => Outcome(buffer, false, NoNotice)
    case Some((start, prefix)) =>
      match suggest(prefix)
      case Failed(reason) => Outcome(buffer, false, ReferenceError(reason))
      case Found(paths) =>
        if paths == [] then Outcome(buffer, false, NoReferences(prefix))
        else
          var completion :=
            if |paths| == 1 then paths[0]
            else if Len(CommonPrefix(paths)) > Len(prefix) then CommonPrefix(paths) else "";
          if completion != "" then Outcome(buffer[..start + 1] + completion, true, NoNotice)
          else Outcome(buffer, false, SeveralReferences(prefix, paths))
  }

  ghost function CompleteInput(lower: char -> char, commands: seq<string>, suggest: string -> Suggestions,
                               buffer: string, cursor: int): Outcome {
    var r := CompleteCommand(lower, commands, buffer, cursor);
    if r.changed || r.notice != NoNotice then r
    else if cursor != |buffer| then Outcome(buffer, false, NoNotice)
    else CompleteReference(buffer, suggest)
  }

  method CompleteInputToken(lower: char -> char, commands: seq<string>, suggest: string -> Suggestions,
                            buffer: string, cursor: int) returns (r: Outcome)
    ensures r == CompleteInput(lower, commands, suggest, buffer, cursor)
  {
    r := CompleteCommandToken(lower, commands, buffer, cursor);
    if r.changed || r.notice != NoNotice {
      return r;
    }
    if cursor != |buffer| {
      return Outcome(buffer, false, NoNotice);
    }
    return CompleteReference(buffer, suggest);
  }

  // ---- What Tab guarantees ---------------------------------------------------------------------

  /** Every name starts with a slash and has no blank in it. */
  ghost predicate SlashCommands(commands: seq<string>) {
    forall c | c in commands :: IsCommandToken(c)
  }

  lemma {:induction false} PrefixMatchesMembers(commands: seq<string>, prefix: string)
    ensures forall c :: c in PrefixMatches(commands, prefix) <==> c in commands && prefix <= c
  {
    if commands != [] {
      var init := commands[..|commands| - 1];
      PrefixMatchesMembers(init, prefix);
      assert commands == init + [commands[|commands| - 1]];
    }
  }

  /** Lengthening the prefix to one that all its matches share keeps the list of matches. */
  lemma {:induction false} SharedPrefixSameMatches(commands: seq<string>, prefix: string, longer: string)
    requires prefix <= longer
    requires forall c | c in commands && prefix <= c :: longer <= c
    ensures PrefixMatches(commands, longer) == PrefixMatches(commands, prefix)
  {
    if commands != [] {
      var init, last := commands[..|commands| - 1], commands[|commands| - 1];
      assert commands == init + [last];
      assert last in commands;
      forall c | c in init && prefix <= c ensures longer <= c {
        assert c in commands;
      }
      SharedPrefixSameMatches(init, prefix, longer);
    }
  }

  /** Candidates are commands, and appear at most as often as in the list of commands when there are several. */
  ghost predicate FromCommands(commands: seq<string>, names: seq<string>) {
    && (forall n | n in names :: n in commands)
    && (|names| >= 2 ==> multiset(names) <= multiset(commands))
  }

  lemma CandidatesFromCommands(lower: char -> char, commands: seq<string>, prefix: string)
    ensures FromCommands(commands, Candidates(lower, commands, prefix).0)
  {
    hide PrefixMatches, TopRanked, FromCommands, NearestMatch;
    DirectFromCommands(commands, prefix);
    var ranked := TopRanked(lower, commands, prefix, |commands|);
    TopRankedMultiplicity(lower, commands, prefix, |commands|);
    SubmultisetFromCommands(commands, ranked);
    NothingFromCommands(commands);
    NearestIsListed(lower, ranked, prefix);
    if NearestMatch(lower, ranked, prefix) != "" {
      OneFromCommands(commands, ranked, NearestMatch(lower, ranked, prefix));
    }
  }

  lemma NearestIsListed(lower: char -> char, names: seq<string>, prefix: string)
    ensures NearestMatch(lower, names, prefix) != "" ==> NearestMatch(lower, names, prefix) in names
  {
    hide Nearest, TrimSpace, StripCommandPrefix, ToCommand;
  }

  lemma NothingFromCommands(commands: seq<string>)
    ensures FromCommands(commands, [])
  {}

  lemma OneFromCommands(commands: seq<string>, names: seq<string>, name: string)
    requires FromCommands(commands, names) && name in names
    ensures FromCommands(commands, [name])
  {}

  lemma SubmultisetFromCommands(commands: seq<string>, names: seq<string>)
    requires multiset(names) <= multiset(commands)
    ensures FromCommands(commands, names)
  {
    forall n | n in names ensures n in commands {
      assert n in multiset(names);
      assert n in multiset(commands);
    }
  }

  lemma DirectFromCommands(commands: seq<string>, prefix: string)
    ensures FromCommands(commands, PrefixMatches(commands, prefix))
  {
    var direct := PrefixMatches(commands, prefix);
    PrefixMatchesMembers(commands, prefix);
    forall c ensures multiset(direct)[c] <= multiset(commands)[c] {
      if c in direct {
        PrefixMatchesCount(commands, prefix, c);
      }
    }
  }

  /** A completion by prefix goes as far as the matches agree and loses none of them. */
  lemma ExtensionKeepsMatches(lower: char -> char, commands: seq<string>, buffer: string)
    requires IsCommandToken(buffer) && |PrefixMatches(commands, buffer)| >= 2
    ensures var r := CompleteCommand(lower, commands, buffer, |buffer|);
            && buffer <= r.buffer
            && PrefixMatches(commands, r.buffer) == PrefixMatches(commands, buffer)
            && (forall p | SharedBy(p, PrefixMatches(commands, buffer)) :: p <= r.buffer)
  {
    var names := PrefixMatches(commands, buffer);
    PrefixMatchesMembers(commands, buffer);
    CommonPrefixIsLongest(names);
    assert SharedBy(buffer, names);
    SharedPrefixSameMatches(commands, buffer, CommonPrefix(names));
    PrefixLen(buffer, CommonPrefix(names));
  }

  lemma ChoiceIsCommand(commands: seq<string>, buffer: string, names: seq<string>, fuzzy: bool)
    requires FromCommands(commands, names) && Choose(buffer, names, fuzzy).changed
    ensures var r := Choose(buffer, names, fuzzy);
            exists c | c in commands :: r.buffer == c + " " || (r.buffer <= c && Len(buffer) < Len(r.buffer))
  {
    CommonPrefixIsLongest(names);
    assert names[0] in names && names[0] in commands;
  }

  /** Whatever Tab writes is a command and a space, or a longer start of at least one command. */
  lemma CompletionIsCommand(lower: char -> char, commands: seq<string>, buffer: string, cursor: int)
    requires CompleteCommand(lower, commands, buffer, cursor).changed
    ensures var r := CompleteCommand(lower, commands, buffer, cursor);
            exists c | c in commands :: r.buffer == c + " " || (r.buffer <= c && Len(buffer) < Len(r.buffer))
  {
    var (names, fuzzy) := Candidates(lower, commands, buffer);
    CandidatesFromCommands(lower, commands, buffer);
    ChoiceIsCommand(commands, buffer, names, fuzzy);
  }

  /** A token that starts no command is replaced by the one fuzzy match that is strictly nearest, if it is near enough. */
  lemma MisspelledIsCorrected(lower: char -> char, commands: seq<string>, buffer: string, i: int)
    requires SlashCommands(commands) && IsCommandToken(buffer) && buffer != COMMAND_PREFIX
    requires forall c | c in commands :: !(buffer <= c)
    requires TrimSpace(StripCommandPrefix(buffer)) != ""
    requires UniqueNearest(ToCommand(lower, StripCommandPrefix(buffer)), TopRanked(lower, commands, buffer, |commands|), i)
    ensures CompleteCommand(lower, commands, buffer, |buffer|) ==
            Outcome(TopRanked(lower, commands, buffer, |commands|)[i] + " ", true, NoNotice)
  {
    hide TopRanked, ToCommand, StripCommandPrefix, TrimSpace, CommonPrefix;
    var ranked := TopRanked(lower, commands, buffer, |commands|);
    PrefixMatchesMembers(commands, buffer);
    assert PrefixMatches(commands, buffer) == [] by {
      if PrefixMatches(commands, buffer) != [] {
        assert PrefixMatches(commands, buffer)[0] in PrefixMatches(commands, buffer);
      }
    }
    TopRankedMultiplicity(lower, commands, buffer, |commands|);
    SubmultisetFromCommands(commands, ranked);
    assert ranked[i] in commands;
    NearestIsUnique(ToCommand(lower, StripCommandPrefix(buffer)), ranked, i);
  }

  // ---- Every case of Tab on a command --------------------------------------------------------------

  lemma {:induction false} OnlyPrefixMatch(commands: seq<string>, prefix: string, i: nat)
    requires i < |commands| && prefix <= commands[i]
    requires forall j | 0 <= j < |commands| && j != i :: !(prefix <= commands[j])
    ensures PrefixMatches(commands, prefix) == [commands[i]]
  {
    var init := commands[..|commands| - 1];
    if i < |init| {
      OnlyPrefixMatch(init, prefix, i);
    } else {
      NoPrefixMatch(init, prefix);
    }
  }

  lemma {:induction false} NoPrefixMatch(commands: seq<string>, prefix: string)
    requires forall i | 0 <= i < |commands| :: !(prefix <= commands[i])
    ensures PrefixMatches(commands, prefix) == []
  {
    if commands != [] {
      NoPrefixMatch(commands[..|commands| - 1], prefix);
    }
  }

  /** The one command that starts with the token is written out, with a space. */
  lemma SingleMatchIsCompleted(lower: char -> char, commands: seq<string>, buffer: string, i: nat)
    requires IsCommandToken(buffer) && i < |commands| && buffer <= commands[i]
    requires forall j | 0 <= j < |commands| && j != i :: !(buffer <= commands[j])
    ensures CompleteCommand(lower, commands, buffer, |buffer|) == Outcome(commands[i] + " ", true, NoNotice)
  {
    OnlyPrefixMatch(commands, buffer, i);
  }

  /** Several commands that start with it are listed, unless they agree on more than the token. */
  lemma SeveralMatchesAreListed(lower: char -> char, commands: seq<string>, buffer: string)
    requires IsCommandToken(buffer) && |PrefixMatches(commands, buffer)| >= 2
    ensures CompleteCommand(lower, commands, buffer, |buffer|) ==
            if CommonPrefix(PrefixMatches(commands, buffer)) == buffer then
              Outcome(buffer, false, SeveralCommands(buffer, false, PrefixMatches(commands, buffer)))
            else Outcome(CommonPrefix(PrefixMatches(commands, buffer)), true, NoNotice)
  {
    var names := PrefixMatches(commands, buffer);
    PrefixMatchesMembers(commands, buffer);
    CommonPrefixIsLongest(names);
    assert SharedBy(buffer, names);
    PrefixLen(buffer, CommonPrefix(names));
  }

  /** A token that no command has as a subsequence is answered with a message. */
  lemma NoMatchIsTold(lower: char -> char, commands: seq<string>, buffer: string)
    requires IsCommandToken(buffer) && forall i | 0 <= i < |commands| :: !(buffer <= commands[i])
    requires buffer == "/" || forall c | c in commands :: Score(lower, c, Wanted(buffer)) == None
    ensures CompleteCommand(lower, commands, buffer, |buffer|) == Outcome(buffer, false, NoCommands(buffer))
  {
    hide Score, Wanted, TopRanked;
    NoPrefixMatch(commands, buffer);
    TopRankedMembers(lower, commands, buffer, |commands|);
    var ranked := TopRanked(lower, commands, buffer, |commands|);
    assert ranked != [] ==> ranked[0] in ranked;
  }

  /** A token that starts no command is replaced by its only fuzzy match, or by what several of them agree on
      if that is longer; otherwise they are listed in rank order. */
  lemma FuzzyMatchesAreOffered(lower: char -> char, commands: seq<string>, buffer: string)
    requires IsCommandToken(buffer) && buffer != "/" && forall i | 0 <= i < |commands| :: !(buffer <= commands[i])
    requires NearestMatch(lower, TopRanked(lower, commands, buffer, |commands|), buffer) == ""
    requires TopRanked(lower, commands, buffer, |commands|) != []
    ensures var ranked := TopRanked(lower, commands, buffer, |commands|);
            CompleteCommand(lower, commands, buffer, |buffer|) ==
            if |ranked| == 1 then Outcome(ranked[0] + " ", true, NoNotice)
            else if Len(CommonPrefix(ranked)) > Len(buffer) then Outcome(CommonPrefix(ranked), true, NoNotice)
            else Outcome(buffer, false, SeveralCommands(buffer, true, ranked))
  {
    hide TopRanked, NearestMatch;
    NoPrefixMatch(commands, buffer);
  }

  /** Anything but a slash word that ends at the cursor is left to the reference completion, which needs the
      cursor at the end as well. */
  lemma OtherLinesAreNoCommands(lower: char -> char, commands: seq<string>, suggest: string -> Suggestions,
                                buffer: string, cursor: int)
    requires buffer == "" || buffer[0] != '/' || (exists c | c in " \t\r\n" :: c in buffer) || cursor != |buffer|
    ensures CompleteCommand(lower, commands, buffer, cursor) == Outcome(buffer, false, NoNotice)
    ensures CompleteInput(lower, commands, suggest, buffer, cursor) ==
            if cursor == |buffer| then CompleteReference(buffer, suggest) else Outcome(buffer, false, NoNotice)
  {
    hide Candidates, CompleteReference;
    if exists c | c in " \t\r\n" :: c in buffer {
      var c :| c in " \t\r\n" && c in buffer;
      assert IsBlank(c);
    }
  }

  lemma SlashWordIsCommand(lower: char -> char, commands: seq<string>, suggest: string -> Suggestions, name: string)
    requires forall c | c in " \t\r\n" :: c !in name
    ensures IsCommandToken("/" + name)
    ensures CompleteInput(lower, commands, suggest, "/" + name, |name| + 1) ==
            CompleteCommand(lower, commands, "/" + name, |name| + 1)
  {
    hide Candidates, CompleteReference;
    forall c | c in "/" + name ensures !IsBlank(c) {
      assert ' ' in " \t\r\n" && '\t' in " \t\r\n" && '\r' in " \t\r\n" && '\n' in " \t\r\n";
    }
  }

  // ---- Every case of Tab on a reference ------------------------------------------------------------

  /** The token is what follows the `@` of the last word, without the punctuation at its end. */
  lemma ReferenceIsFound(front: string, prefix: string, tail: string)
    requires front == "" || IsSpace(front[|front| - 1])
    requires forall c | c in prefix + tail :: !IsSpace(c)
    requires (forall c | c in tail :: c in ".,;:!?)]}") && (prefix != "" ==> prefix[|prefix| - 1] !in ".,;:!?)]}")
    ensures TrailingAtReference(front + ("@" + (prefix + tail))) ==
            if '"' in prefix || '\'' in prefix then None else Some((|front|, prefix))
  {
    hide IsSpace, LastWordStart, IsTrailingPunctuation, TrimRight;
    var word := "@" + (prefix + tail);
    var buffer := front + word;
    AtIsNoSpace();
    LastWordStartIs(front, word);
    assert buffer[|front|] == '@' && buffer[|front| + 1..] == prefix + tail;
    PunctuationIsTrimmed(prefix, tail);
  }

  lemma PunctuationIsTrimmed(prefix: string, tail: string)
    requires (forall c | c in tail :: c in ".,;:!?)]}") && (prefix != "" ==> prefix[|prefix| - 1] !in ".,;:!?)]}")
    ensures TrimRight(prefix + tail, IsTrailingPunctuation) == prefix
  {
    hide TrimRight;
    assert forall i | 0 <= i < |tail| :: tail[i] in tail;
    TrimRightSkips(prefix, tail, IsTrailingPunctuation);
    TrimRightNone(prefix, IsTrailingPunctuation);
  }

  lemma AtIsNoSpace()
    ensures !IsSpace('@')
  {}

  lemma LastWordStartIs(front: string, word: string)
    requires front == "" || IsSpace(front[|front| - 1])
    requires forall c | c in word :: !IsSpace(c)
    ensures LastWordStart(front + word) == |front|
  {
    hide IsSpace;
    var line, start := front + word, LastWordStart(front + word);
    assert |front| > 0 ==> line[|front| - 1] == front[|front| - 1];
    assert forall i | |front| <= i < |line| :: line[i] in word;
  }

  /** A line whose last word does not start with `@`, or that ends with a space, has no token. */
  lemma NoReferenceIsFound(front: string, word: string)
    requires front == "" || IsSpace(front[|front| - 1])
    requires (forall c | c in word :: !IsSpace(c)) && (word != "" ==> word[0] != '@')
    ensures TrailingAtReference(front + word) == None
  {
    LastWordStartIs(front, word);
  }

  /** A single path takes the place of the token, several ones their common prefix if it is longer than what was
      typed; otherwise the line stays, with a message. */
  lemma ReferenceIsCompleted(front: string, prefix: string, suggest: string -> Suggestions, answer: Suggestions)
    requires front == "" || IsSpace(front[|front| - 1])
    requires forall c | c in prefix :: !IsSpace(c) && c != '"' && c != '\''
    requires prefix != "" ==> prefix[|prefix| - 1] !in ".,;:!?)]}"
    requires suggest(prefix) == answer
    ensures var buffer := front + ("@" + prefix);
            var r := CompleteReference(buffer, suggest);
            && (answer.Failed? ==> r == Outcome(buffer, false, ReferenceError(answer.reason)))
            && (answer == Found([]) ==> r == Outcome(buffer, false, NoReferences(prefix)))
            && (answer.Found? && |answer.paths| == 1 && answer.paths[0] != "" ==>
                  r == Outcome(front + "@" + answer.paths[0], true, NoNotice))
            && (answer.Found? && |answer.paths| > 1 ==>
                  r == if Len(CommonPrefix(answer.paths)) > Len(prefix) then
                         Outcome(front + "@" + CommonPrefix(answer.paths), true, NoNotice)
                       else Outcome(buffer, false, SeveralReferences(prefix, answer.paths)))
  {
    hide CompleteReference, CommonPrefix, IsSpace, Len;
    var buffer := front + ("@" + prefix);
    PlainReferenceIsFound(front, prefix);
    TokenIsCut(front, prefix);
    FoundTokenIsCompleted(buffer, |front|, front + "@", prefix, suggest, answer);
  }

  lemma TokenIsCut(front: string, prefix: string)
    ensures (front + ("@" + prefix))[..|front| + 1] == front + "@"
  {}

  lemma FoundTokenIsCompleted(buffer: string, start: nat, head: string, prefix: string,
                              suggest: string -> Suggestions, answer: Suggestions)
    requires start < |buffer| && buffer[..start + 1] == head && TrailingAtReference(buffer) == Some((start, prefix)) && suggest(prefix) == answer
    ensures var r := CompleteReference(buffer, suggest);
            && (answer.Failed? ==> r == Outcome(buffer, false, ReferenceError(answer.reason)))
            && (answer == Found([]) ==> r == Outcome(buffer, false, NoReferences(prefix)))
            && (answer.Found? && |answer.paths| == 1 && answer.paths[0] != "" ==>
                  r == Outcome(head + answer.paths[0], true, NoNotice))
            && (answer.Found? && |answer.paths| > 1 ==>
                  r == if Len(CommonPrefix(answer.paths)) > Len(prefix) then
                         Outcome(head + CommonPrefix(answer.paths), true, NoNotice)
                       else Outcome(buffer, false, SeveralReferences(prefix, answer.paths)))
  {
    hide TrailingAtReference, CommonPrefix, Len;
    EmptyLen();
  }

  lemma PlainReferenceIsFound(front: string, prefix: string)
    requires front == "" || IsSpace(front[|front| - 1])
    requires forall c | c in prefix :: !IsSpace(c) && c != '"' && c != '\''
    requires prefix != "" ==> prefix[|prefix| - 1] !in ".,;:!?)]}"
    ensures TrailingAtReference(front + ("@" + prefix)) == Some((|front|, prefix))
  {
    hide TrailingAtReference, IsSpace;
    assert prefix + "" == prefix;
    ReferenceIsFound(front, prefix, "");
  }

  lemma EmptyLen()
    ensures Len("") == 0
  {}

  lemma {:induction false} PrefixMatchesCount(commands: seq<string>, prefix: string, name: string)
    requires prefix <= name
    ensures multiset(PrefixMatches(commands, prefix))[name] == multiset(commands)[name]
  {
    if commands != [] {
      var init := commands[..|commands| - 1];
      assert commands == init + [commands[|commands| - 1]];
      PrefixMatchesCount(init, prefix, name);
    }
  }

  lemma SharedNamesAreFound(commands: seq<string>, names: seq<string>, prefix: string)
    requires multiset(names) <= multiset(commands) && SharedBy(prefix, names)
    ensures multiset(names) <= multiset(PrefixMatches(commands, prefix))
  {
    var found := PrefixMatches(commands, prefix);
    forall n ensures multiset(names)[n] <= multiset(found)[n] {
      if n in names {
        PrefixMatchesCount(commands, prefix, n);
      }
    }
  }

  lemma SubmultisetLength<T>(a: seq<T>, b: seq<T>)
    requires multiset(a) <= multiset(b)
    ensures |a| <= |b|
  {
    assert multiset(b) == multiset(a) + (multiset(b) - multiset(a));
    assert |multiset(a)| == |a| && |multiset(b)| == |b|;
  }

  /** The common prefix of several commands is not extended any further by prefix search. */
  lemma CommonPrefixIsStable(commands: seq<string>, names: seq<string>)
    requires |names| >= 2 && multiset(names) <= multiset(commands)
    ensures var common := CommonPrefix(names);
            && |PrefixMatches(commands, common)| >= 2
            && CommonPrefix(PrefixMatches(commands, common)) == common
  {
    hide CommonPrefix, PrefixMatches;
    var common := CommonPrefix(names);
    var found := PrefixMatches(commands, common);
    CommonPrefixIsLongest(names);
    SharedNamesAreFound(commands, names, common);
    SubmultisetLength(names, found);
    PrefixMatchesMembers(commands, common);
    CommonPrefixIsLongest(found);
    assert SharedBy(common, found);
    forall n | n in names ensures CommonPrefix(found) <= n {
      assert n in multiset(names);
      assert n in multiset(found);
      assert n in found;
    }
    assert SharedBy(CommonPrefix(found), names);
  }

  /** A second Tab changes nothing that the first one left on a line that is a command token,
      whichever of the unique, common-prefix, nearest and fuzzy cases the first one took. */
  lemma TabIsIdempotent(lower: char -> char, commands: seq<string>, suggest: string -> Suggestions,
                        buffer: string, cursor: int)
    requires SlashCommands(commands) && IsCommandToken(buffer)
    ensures var first := CompleteInput(lower, commands, suggest, buffer, cursor);
            var cursor' := if first.changed then |first.buffer| else cursor;
            var second := CompleteInput(lower, commands, suggest, first.buffer, cursor');
            !second.changed && second.buffer == first.buffer
  {
    hide Candidates, CommonPrefix, CompleteReference;
    if cursor == |buffer| {
      var (names, fuzzy) := Candidates(lower, commands, buffer);
      CandidatesFromCommands(lower, commands, buffer);
      var first := Choose(buffer, names, fuzzy);
      if |names| == 1 {
        CompletedCommandIsLeftAlone(lower, commands, suggest, names[0]);
      } else if first.changed {
        ExtendedTokenIsLeftAlone(lower, commands, names);
      }
    }
  }

  lemma CompletedCommandIsLeftAlone(lower: char -> char, commands: seq<string>, suggest: string -> Suggestions, name: string)
    ensures CompleteInput(lower, commands, suggest, name + " ", |name| + 1) == Outcome(name + " ", false, NoNotice)
  {
    var done := name + " ";
    assert done[|name|] == ' ';
    assert ' ' in done && IsBlank(' ');
    assert LastWordStart(done) == |done|;
  }

  /** A token that is the common prefix of several commands gets a list, not a change. */
  lemma ExtendedTokenIsLeftAlone(lower: char -> char, commands: seq<string>, names: seq<string>)
    requires SlashCommands(commands) && FromCommands(commands, names) && |names| >= 2 && CommonPrefix(names) != ""
    ensures var common := CommonPrefix(names);
            CompleteCommand(lower, commands, common, |common|) ==
            Outcome(common, false, SeveralCommands(common, false, PrefixMatches(commands, common)))
  {
    CommonPrefixIsStable(commands, names);
    CommonPrefixIsLongest(names);
    assert names[0] in names && names[0] in commands;
    PrefixOfCommand(CommonPrefix(names), names[0]);
  }

  lemma PrefixOfCommand(prefix: string, command: string)
    requires IsCommandToken(command) && prefix <= command && prefix != ""
    ensures IsCommandToken(prefix)
  {
    forall c | c in prefix ensures !IsBlank(c) {
      assert c in command;
    }
  }
}
