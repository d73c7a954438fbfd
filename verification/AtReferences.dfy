/** The tokenizer of @path references in a prompt (parseAtReferencePaths). */
module AtReferences {
  import opened Text

  // ---- The tokenizer ---------------------------------------------------------------------------

  predicate IsPathQuote(c: char) {
    c == '"' || c == '\''
  }

  /** The first position from `i` on with a space, or the end. */
  function WordEnd(runes: string, i: nat): (end: nat)
    requires i <= |runes|
    ensures i <= end <= |runes|
    ensures forall k | i <= k < end :: !IsSpace(runes[k])
    ensures end < |runes| ==> IsSpace(runes[end])
    decreases |runes| - i
  {
    if i == |runes| || IsSpace(runes[i]) then i else WordEnd(runes, i + 1)
  }

  /** The first position from `i` on with the quote, or the end. */
  function QuoteEnd(runes: string, i: nat, quote: char): (end: nat)
    requires i <= |runes|
    ensures i <= end <= |runes|
    ensures forall k | i <= k < end :: runes[k] != quote
    ensures end < |runes| ==> runes[end] == quote
    decreases |runes| - i
  {
    if i == |runes| || runes[i] == quote then i else QuoteEnd(runes, i + 1, quote)
  }

  /** An `@` at the start of a word that is followed by something. */
  predicate StartsReference(runes: string, i: nat) {
    && i < |runes| && runes[i] == '@' && (i > 0 ==> IsSpace(runes[i - 1]))
    && i + 1 < |runes| && !IsSpace(runes[i + 1])
  }

  function References(runes: string, i: nat): seq<string>
    decreases |runes| - i
  {
    if i >= |runes| then []
    else if !StartsReference(runes, i) then References(runes, i + 1)
    else if IsPathQuote(runes[i + 1]) then
      var end := QuoteEnd(runes, i + 2, runes[i + 1]);
      (if end > i + 2 then [runes[i + 2..end]] else []) + References(runes, end + 1)
    else
      var end := WordEnd(runes, i + 1);
      [TrimRight(runes[i + 1..end], IsTrailingPunctuation)] + References(runes, end + 1)
  }

  method ParseAtReferencePaths(runes: string) returns (paths: seq<string>)
    ensures paths == References(runes, 0)
  {
    hide References, IsSpace, IsPathQuote, QuoteEnd, WordEnd, TrimRight;
    paths := [];
    var i := 0;
    while i < |runes|
      invariant References(runes, 0) == paths + References(runes, i)
      decreases |runes| - i
    {
      ReferencesStep(runes, i);
      if runes[i] != '@' {
        i := i + 1;
        continue;
      }
      if i > 0 && !IsSpace(runes[i - 1]) {
        i := i + 1;
        continue;
      }
      if i + 1 >= |runes| || IsSpace(runes[i + 1]) {
        i := i + 1;
        continue;
      }
      var path, end := ReadReference(runes, i + 1);
      AddPath(paths, path, References(runes, end + 1));
      paths := paths + path;
      i := end + 1;
    }
    ReferencesStep(runes, i);
    assert paths + [] == paths;
  }

  /** The two scans for the end of a reference whose first rune is at `first`. */
  method ReadReference(runes: string, first: nat) returns (path: seq<string>, end: nat)
    requires first < |runes| && !IsSpace(runes[first])
    ensures first < end
    ensures if IsPathQuote(runes[first]) then
              end == QuoteEnd(runes, first + 1, runes[first]) &&
              path == if end > first + 1 then [runes[first + 1..end]] else []
            else end == WordEnd(runes, first) && path == [TrimRight(runes[first..end], IsTrailingPunctuation)]
  {
    if IsPathQuote(runes[first]) {
      var quote := runes[first];
      end := first + 1;
      while end < |runes| && runes[end] != quote
        invariant first < end <= |runes| && QuoteEnd(runes, first + 1, quote) == QuoteEnd(runes, end, quote)
      {
        end := end + 1;
      }
      return if end > first + 1 then [runes[first + 1..end]] else [], end;
    }
    end := first;
    while end < |runes| && !IsSpace(runes[end])
      invariant first <= end <= |runes| && WordEnd(runes, first) == WordEnd(runes, end)
    {
      end := end + 1;
    }
    return [TrimRight(runes[first..end], IsTrailingPunctuation)], end;
  }

  lemma ReferencesStep(runes: string, i: nat)
    ensures References(runes, i) ==
            if i >= |runes| then []
            else if !StartsReference(runes, i) then References(runes, i + 1)
            else if IsPathQuote(runes[i + 1]) then
              var end := QuoteEnd(runes, i + 2, runes[i + 1]);
              (if end > i + 2 then [runes[i + 2..end]] else []) + References(runes, end + 1)
            else
              var end := WordEnd(runes, i + 1);
              [TrimRight(runes[i + 1..end], IsTrailingPunctuation)] + References(runes, end + 1)
  {}

  lemma AddPath(paths: seq<string>, path: seq<string>, more: seq<string>)
    ensures paths + (path + more) == (paths + path) + more
  {}

  // ---- Printed prompts -------------------------------------------------------------------------

  /** A bare path and the punctuation behind it, a quoted path, an `@` on its own, or some other word. */
  datatype Token = Bare(path: string, tail: string) | Quoted(quote: char, path: string) | Lone | Word(text: string)

  /** A token and the spaces after it. */
  datatype Item = Item(token: Token, gap: string)

  predicate NoSpace(s: string) {
    forall i | 0 <= i < |s| :: !IsSpace(s[i])
  }

  predicate TokenOk(t: Token) {
    match t
    case Bare(path, tail) =>
      && path + tail != "" && NoSpace(path + tail) && (path + tail)[0] != '"' && (path + tail)[0] != '\''
      && (path != "" ==> path[|path| - 1] !in ".,;:!?)]}") && (forall c | c in tail :: c in ".,;:!?)]}")
    case Quoted(quote, path) => (quote == '"' || quote == '\'') && quote !in path
    case Lone => true
    case Word(text) => NoSpace(text) && (text != "" ==> text[0] != '@')
  }

  /** Only the last token may have nothing after it. */
  predicate ItemsOk(items: seq<Item>) {
    forall i | 0 <= i < |items| ::
      TokenOk(items[i].token) && AllSpace(items[i].gap) && (i < |items| - 1 ==> items[i].gap != "")
  }

  function PrintToken(t: Token): string {
    match t
    case Bare(path, tail) => "@" + (path + tail)
    case Quoted(quote, path) => ['@', quote] + path + [quote]
    case Lone => "@"
    case Word(text) => text
  }

  function Print(items: seq<Item>): string {
    if items == [] then "" else PrintToken(items[0].token) + items[0].gap + Print(items[1..])
  }

  /** A bare token means its path, even an empty one; an empty pair of quotes means nothing. */
  function PathsOf(t: Token): seq<string> {
    match t
    case Bare(path, _) => [path]
    case Quoted(_, path) => if path == "" then [] else [path]
    case _ => []
  }

  function Paths(items: seq<Item>): seq<string> {
    if items == [] then [] else PathsOf(items[0].token) + Paths(items[1..])
  }

  predicate AtWordStart(done: string) {
    done == "" || IsSpace(done[|done| - 1])
  }

  /** Positions at which no reference starts are skipped. */
  lemma {:induction false} Skip(runes: string, i: nat, j: nat)
    requires i <= j && forall k | i <= k < j && k < |runes| :: runes[k] != '@' || (k > 0 && !IsSpace(runes[k - 1]))
    ensures References(runes, i) == References(runes, j)
    decreases j - i
  {
    if i < j {
      Skip(runes, i + 1, j);
    }
  }

  lemma WordIsSkipped(done: string, text: string, gap: string, rest: string)
    requires TokenOk(Word(text)) && AllSpace(gap)
    ensures References(done + (text + gap) + rest, |done|) ==
            References(done + (text + gap) + rest, |done| + |text| + |gap|)
  {
    var runes := done + (text + gap) + rest;
    forall k | |done| <= k < |done| + |text| + |gap|
      ensures runes[k] != '@' || (k > 0 && !IsSpace(runes[k - 1]))
    {
      if k < |done| + |text| {
        assert runes[k] == text[k - |done|];
        if k > |done| {
          assert runes[k - 1] == text[k - 1 - |done|];
        }
      } else {
        assert runes[k] == gap[k - |done| - |text|];
      }
    }
    Skip(runes, |done|, |done| + |text| + |gap|);
  }

  lemma GapIsSkipped(front: string, gap: string, rest: string, i: nat)
    requires AllSpace(gap) && |front| <= i && (i <= |front| + |gap| || (i == |front| + 1 && gap == "" && rest == ""))
    ensures References(front + gap + rest, i) == References(front + gap + rest, |front| + |gap|)
  {
    var runes := front + gap + rest;
    if i <= |front| + |gap| {
      forall k | i <= k < |front| + |gap| ensures runes[k] != '@' {
        assert runes[k] == gap[k - |front|];
      }
      Skip(runes, i, |front| + |gap|);
    }
  }

  lemma WordEndIs(runes: string, i: nat, end: nat)
    requires i <= end <= |runes|
    requires forall k | i <= k < end :: !IsSpace(runes[k])
    requires end < |runes| ==> IsSpace(runes[end])
    ensures WordEnd(runes, i) == end
  {
    hide IsSpace;
  }

  lemma PunctuationIsTrimmed(path: string, tail: string)
    requires (path != "" ==> path[|path| - 1] !in ".,;:!?)]}") && (forall c | c in tail :: c in ".,;:!?)]}")
    ensures TrimRight(path + tail, IsTrailingPunctuation) == path
  {
    hide TrimRight;
    assert forall i | 0 <= i < |tail| :: tail[i] in tail;
    TrimRightSkips(path, tail, IsTrailingPunctuation);
    TrimRightNone(path, IsTrailingPunctuation);
  }

  lemma RunesOf(runes: string, s: string, at: nat)
    requires OccursAt(runes, s, at)
    ensures forall k | at <= k < at + |s| :: runes[k] == s[k - at]
  {
    assert forall k | at <= k < at + |s| :: runes[at..at + |s|][k - at] == runes[k];
  }

  /** A reference at `at` that is followed by a space or the end. */
  lemma BareIsRead(runes: string, at: nat, path: string, tail: string)
    requires TokenOk(Bare(path, tail)) && OccursAt(runes, path + tail, at + 1) && runes[at] == '@'
    requires at > 0 ==> IsSpace(runes[at - 1])
    requires at + 1 + |path + tail| < |runes| ==> IsSpace(runes[at + 1 + |path + tail|])
    ensures References(runes, at) == [path] + References(runes, at + 1 + |path + tail| + 1)
  {
    hide IsSpace, References, IsTrailingPunctuation, WordEnd, TrimRight;
    var word := path + tail;
    RunesOf(runes, word, at + 1);
    assert runes[at + 1] == word[0];
    WordEndIs(runes, at + 1, at + 1 + |word|);
    PunctuationIsTrimmed(path, tail);
    UnquotedAt(runes, at, at + 1 + |word|);
  }

  lemma UnquotedAt(runes: string, at: nat, end: nat)
    requires StartsReference(runes, at) && runes[at + 1] != '"' && runes[at + 1] != '\''
    requires WordEnd(runes, at + 1) == end
    ensures References(runes, at) ==
            [TrimRight(runes[at + 1..end], IsTrailingPunctuation)] + References(runes, end + 1)
  {
    hide IsSpace, References, IsTrailingPunctuation, WordEnd, TrimRight, QuoteEnd;
    ReferencesStep(runes, at);
  }

  lemma QuotedIsRead(runes: string, at: nat, quote: char, path: string)
    requires TokenOk(Quoted(quote, path)) && OccursAt(runes, path, at + 2)
    requires at + 2 + |path| < |runes| && runes[at] == '@' && runes[at + 1] == quote == runes[at + 2 + |path|]
    requires at > 0 ==> IsSpace(runes[at - 1])
    ensures References(runes, at) == PathsOf(Quoted(quote, path)) + References(runes, at + 2 + |path| + 1)
  {
    hide IsSpace, References;
    RunesOf(runes, path, at + 2);
    QuoteIsNoSpace(quote);
    assert QuoteEnd(runes, at + 2, quote) == at + 2 + |path|;
    ReferencesStep(runes, at);
  }

  /** A quote that is never closed takes the rest of the prompt as its path. */
  lemma OpenQuoteIsRead(done: string, quote: char, path: string)
    requires AtWordStart(done) && (quote == '"' || quote == '\'') && quote !in path
    ensures References(done + (['@', quote] + path), |done|) == if path == "" then [] else [path]
  {
    hide IsSpace, References;
    var runes := done + (['@', quote] + path);
    assert |done| > 0 ==> runes[|done| - 1] == done[|done| - 1];
    assert runes[|done| + 2..] == path;
    OpenQuoteAt(runes, |done|, quote);
  }

  lemma OpenQuoteAt(runes: string, at: nat, quote: char)
    requires at + 2 <= |runes| && runes[at] == '@' && runes[at + 1] == quote && (quote == '"' || quote == '\'')
    requires at > 0 ==> IsSpace(runes[at - 1])
    requires quote !in runes[at + 2..]
    ensures References(runes, at) == if runes[at + 2..] == "" then [] else [runes[at + 2..]]
  {
    hide IsSpace, References, QuoteEnd, WordEnd;
    QuoteIsNoSpace(quote);
    NoQuoteAhead(runes, at + 2, quote);
    ReferencesStep(runes, at);
    ReferencesStep(runes, |runes| + 1);
  }

  lemma NoQuoteAhead(runes: string, i: nat, quote: char)
    requires i <= |runes| && quote !in runes[i..]
    ensures QuoteEnd(runes, i, quote) == |runes| && runes[i..|runes|] == runes[i..]
  {
    assert forall k | i <= k < |runes| :: runes[k] == runes[i..][k - i];
  }

  lemma QuoteIsNoSpace(quote: char)
    requires quote == '"' || quote == '\''
    ensures !IsSpace(quote)
  {}

  lemma BareItemIsRead(done: string, path: string, tail: string, gap: string, rest: string)
    requires TokenOk(Bare(path, tail)) && AllSpace(gap) && AtWordStart(done) && (gap == "" ==> rest == "")
    ensures var front := done + ("@" + (path + tail)) + gap;
            References(front + rest, |done|) == [path] + References(front + rest, |front|)
  {
    hide References, TokenOk, IsSpace;
    var word := path + tail;
    var stem := done + ("@" + word);
    var runes := stem + gap + rest;
    assert runes[|done| + 1..|done| + 1 + |word|] == word;
    assert |done| > 0 ==> runes[|done| - 1] == done[|done| - 1];
    assert gap != "" ==> runes[|stem|] == gap[0];
    BareIsRead(runes, |done|, path, tail);
    GapIsSkipped(stem, gap, rest, |stem| + 1);
  }

  lemma QuotedItemIsRead(done: string, quote: char, path: string, gap: string, rest: string)
    requires TokenOk(Quoted(quote, path)) && AllSpace(gap) && AtWordStart(done)
    ensures var front := done + (['@', quote] + path + [quote]) + gap;
            References(front + rest, |done|) == PathsOf(Quoted(quote, path)) + References(front + rest, |front|)
  {
    hide References, TokenOk, IsSpace, PathsOf;
    var stem := done + (['@', quote] + path + [quote]);
    var runes := stem + gap + rest;
    assert runes[|done| + 2..|done| + 2 + |path|] == path;
    assert |done| > 0 ==> runes[|done| - 1] == done[|done| - 1];
    QuotedIsRead(runes, |done|, quote, path);
    GapIsSkipped(stem, gap, rest, |stem|);
  }

  /** An `@` before a space or the end of the prompt is no reference. */
  lemma LoneIsSkipped(done: string, gap: string, rest: string)
    requires AllSpace(gap) && (gap == "" ==> rest == "")
    ensures References(done + "@" + gap + rest, |done|) == References(done + "@" + gap + rest, |done| + 1 + |gap|)
  {
    hide References, IsSpace;
    var runes := done + "@" + gap + rest;
    assert gap != "" ==> runes[|done| + 1] == gap[0];
    ReferencesStep(runes, |done|);
    GapIsSkipped(done + "@", gap, rest, |done| + 1);
  }

  /** One token and the spaces after it. */
  lemma ItemIsRead(done: string, token: Token, gap: string, rest: string)
    requires TokenOk(token) && AllSpace(gap) && AtWordStart(done) && (gap == "" ==> rest == "")
    ensures var front := done + PrintToken(token) + gap;
            References(front + rest, |done|) ==
            PathsOf(token) + References(front + rest, |front|)
  {
    hide References, TokenOk, IsSpace, AllSpace, AtWordStart;
    match token
    case Bare(path, tail) => BareItemIsRead(done, path, tail, gap, rest);
    case Quoted(quote, path) => QuotedItemIsRead(done, quote, path, gap, rest);
    case Lone => LoneIsSkipped(done, gap, rest);
    case Word(text) =>
      assert done + text + gap + rest == done + (text + gap) + rest;
      WordIsSkipped(done, text, gap, rest);
  }

  lemma NothingToRead(done: string, items: seq<Item>)
    requires items == []
    ensures References(done, |done|) == [] && Print(items) == "" && Paths(items) == []
  {}

  lemma PrintFirst(done: string, items: seq<Item>, rest: string)
    requires items != []
    ensures done + Print(items) + rest == done + PrintToken(items[0].token) + items[0].gap + (Print(items[1..]) + rest)
    ensures Paths(items) == PathsOf(items[0].token) + Paths(items[1..])
  {
    hide PrintToken;
  }

  /** The items are read from where they start, and reading goes on behind them. */
  lemma {:induction false} ItemsAreRead(done: string, items: seq<Item>, rest: string)
    requires ItemsOk(items) && AtWordStart(done)
    requires items != [] && items[|items| - 1].gap == "" ==> rest == ""
    ensures References(done + Print(items) + rest, |done|) ==
            Paths(items) + References(done + Print(items) + rest, |done| + |Print(items)|)
    decreases |items|
  {
    hide References, TokenOk, IsSpace, PrintToken, Print, Paths, PathsOf;
    if items == [] {
      NothingToRead(done, items);
      assert [] + References(done + "" + rest, |done|) == References(done + "" + rest, |done|);
    } else {
      var token, gap, others := items[0].token, items[0].gap, items[1..];
      var front := done + PrintToken(token) + gap;
      PrintFirst(done, items, rest);
      if others == [] {
        NothingToRead(front, others);
        ItemIsRead(done, token, gap, Print(others) + rest);
        assert Paths(others) == [] && Paths(items) == PathsOf(token) + [];
        assert |front| == |done| + |Print(items)|;
      } else {
        ItemIsRead(done, token, gap, Print(others) + rest);
        assert gap != "" && front[|front| - 1] == gap[|gap| - 1];
        ItemsAreRead(front, others, rest);
        AppendAssociates(front, Print(others), rest);
        AppendAssociates(PathsOf(token), Paths(others), References(front + Print(others) + rest, |front| + |Print(others)|));
        assert |front| + |Print(others)| == |done| + |Print(items)|;
      }
    }
  }

  /** The paths that were printed are read back, in order, and the words between them are not taken for paths. */
  lemma PrintedReferencesAreRead(items: seq<Item>)
    requires ItemsOk(items)
    ensures References(Print(items), 0) == Paths(items)
  {
    hide References, Print, Paths;
    ItemsAreRead("", items, "");
    assert "" + Print(items) + "" == Print(items);
    NothingToRead(Print(items), []);
    assert Paths(items) + [] == Paths(items);
  }

  /** A quote that is left open after them takes everything up to the end. */
  lemma OpenQuoteTakesTheRest(items: seq<Item>, quote: char, path: string)
    requires ItemsOk(items) && (items != [] ==> items[|items| - 1].gap != "")
    requires (quote == '"' || quote == '\'') && quote !in path
    ensures References(Print(items) + (['@', quote] + path), 0) == Paths(items) + if path == "" then [] else [path]
  {
    hide References, Print, Paths, TokenOk, IsSpace, AtWordStart, ItemsOk;
    StartsEmpty();
    ItemsAreRead("", items, ['@', quote] + path);
    assert "" + Print(items) == Print(items);
    PrintEndsInGap(items);
    OpenQuoteIsRead(Print(items), quote, path);
  }

  lemma StartsEmpty()
    ensures AtWordStart("")
  {}

  lemma {:induction false} PrintEndsInGap(items: seq<Item>)
    requires ItemsOk(items) && (items != [] ==> items[|items| - 1].gap != "")
    ensures AtWordStart(Print(items))
  {
    hide TokenOk, IsSpace, PrintToken;
    if items != [] {
      PrintEndsInGap(items[1..]);
      var gap := items[0].gap;
      assert items[1..] == [] ==> Print(items) == PrintToken(items[0].token) + gap + "";
      assert Print(items[1..]) != "" || items[1..] == [] by { PrintIsLong(items[1..]); }
    }
  }

  lemma PrintIsLong(items: seq<Item>)
    requires items != [] ==> items[|items| - 1].gap != ""
    ensures items != [] ==> Print(items) != ""
  {
    hide PrintToken;
    if items != [] {
      PrintIsLong(items[1..]);
    }
  }
}
