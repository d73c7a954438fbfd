/** Fuzzy scoring and ranked filtering of names (fuzzyStringScore and fuzzyFilterStrings). */
module Fuzzy {
  import opened Text
  import opened Wrappers
  import Sorting

  const COMMAND_PREFIX := "/"

  function StripCommandPrefix(token: string): string {
    TrimPrefix(TrimSpace(token), COMMAND_PREFIX)
  }

  /** Blanks around a token and one slash before it do not belong to the name. */
  lemma TokenIsStripped(before: string, name: string, after: string)
    requires AllSpace(before) && AllSpace(after)
    requires name != "" ==> !IsSpace(name[|name| - 1])
    ensures StripCommandPrefix(before + ("/" + name) + after) == name
    ensures IsTrimmed(name) && (name != "" ==> name[0] != '/') ==> StripCommandPrefix(before + name + after) == name
  {
    hide IsSpace, TrimSpace;
    SlashIsNoSpace();
    TrimSpaceTakesOff(before, "/" + name, after);
    assert ("/" + name)[1..] == name;
    if IsTrimmed(name) && (name != "" ==> name[0] != '/') {
      TrimSpaceTakesOff(before, name, after);
    }
  }

  lemma SlashIsNoSpace()
    ensures !IsSpace('/')
  {}

  lemma NothingToStrip(blank: string)
    requires AllSpace(blank)
    ensures StripCommandPrefix("/" + blank) == "" && StripCommandPrefix(blank) == ""
  {
    hide IsSpace, TrimSpace;
    TokenIsStripped("", "", blank);
    assert "" + ("/" + "") + blank == "/" + blank;
    BlankIsTrimmed(blank);
  }

  // ---- Subsequences ------------------------------------------------------------------------

  /** `at` places the runes of `query`, in order, at positions of `candidate`. */
  ghost predicate Embeds(candidate: string, query: string, at: seq<int>) {
    && |at| == |query|
    && (forall k | 0 <= k < |at| :: 0 <= at[k] < |candidate| && candidate[at[k]] == query[k])
    && (forall k | 0 <= k < |at| - 1 :: at[k] < at[k + 1])
  }

  ghost predicate IsSubsequence(query: string, candidate: string) {
    exists at :: Embeds(candidate, query, at)
  }

  /** One past the last position of the leftmost embedding of `query`, or -1. */
  function GreedyEnd(candidate: string, query: string): int
    ensures -1 <= GreedyEnd(candidate, query) <= |candidate|
  {
    if query == [] then 0
    else
      var end := GreedyEnd(candidate, query[..|query| - 1]);
      if end == -1 then -1
      else
        var at := IndexRune(candidate, query[|query| - 1], end);
        if at == -1 then -1 else at + 1
  }

  /** When the greedy scan succeeds there is an embedding from the first occurrence of the first rune to its end. */
  lemma {:induction false} GreedyEmbeds(candidate: string, query: string) returns (at: seq<int>)
    requires GreedyEnd(candidate, query) != -1
    ensures Embeds(candidate, query, at)
    ensures query != [] ==> at[0] == IndexRune(candidate, query[0], 0)
    ensures query != [] ==> at[|at| - 1] == GreedyEnd(candidate, query) - 1
  {
    if query == [] {
      return [];
    }
    var init := query[..|query| - 1];
    var before := GreedyEmbeds(candidate, init);
    at := before + [GreedyEnd(candidate, query) - 1];
  }

  /** Every embedding starts no earlier and ends no earlier than the greedy one. */
  lemma {:induction false} GreedyIsEarliest(candidate: string, query: string, at: seq<int>)
    requires Embeds(candidate, query, at)
    ensures GreedyEnd(candidate, query) != -1
    ensures query != [] ==> IndexRune(candidate, query[0], 0) <= at[0]
    ensures query != [] ==> GreedyEnd(candidate, query) - 1 <= at[|at| - 1]
  {
    if query != [] {
      var init := query[..|query| - 1];
      GreedyIsEarliest(candidate, init, at[..|at| - 1]);
    }
  }

  lemma SubsequenceIffGreedy(query: string, candidate: string)
    ensures IsSubsequence(query, candidate) <==> GreedyEnd(candidate, query) != -1
  {
    if GreedyEnd(candidate, query) != -1 {
      var at := GreedyEmbeds(candidate, query);
    }
    if IsSubsequence(query, candidate) {
      var at :| Embeds(candidate, query, at);
      GreedyIsEarliest(candidate, query, at);
    }
  }

  lemma {:induction false} GreedyOfPrefix(candidate: string, query: string, k: nat)
    requires k <= |query| && GreedyEnd(candidate, query) != -1
    ensures GreedyEnd(candidate, query[..k]) != -1
    decreases |query|
  {
    if k < |query| {
      GreedyOfPrefix(candidate, query[..|query| - 1], k);
      assert query[..|query| - 1][..k] == query[..k];
    } else {
      assert query[..k] == query;
    }
  }

  lemma GreedyStart(candidate: string, query: string)
    ensures GreedyEnd(candidate, query[..0]) == 0
  {}

  lemma GreedyAdvances(candidate: string, query: string, k: nat, at: nat)
    requires k < |query| && at < |candidate| && candidate[at] == query[k]
    requires 0 <= GreedyEnd(candidate, query[..k]) <= at
    requires forall i | GreedyEnd(candidate, query[..k]) <= i < at :: candidate[i] != query[k]
    ensures GreedyEnd(candidate, query[..k + 1]) == at + 1
    ensures k == 0 ==> IndexRune(candidate, query[0], 0) == at
  {
    assert query[..k + 1][..k] == query[..k];
  }

  lemma GreedyStuck(candidate: string, query: string, k: nat)
    requires k < |query|
    requires GreedyEnd(candidate, query[..k]) >= 0
    requires forall i | GreedyEnd(candidate, query[..k]) <= i < |candidate| :: candidate[i] != query[k]
    ensures GreedyEnd(candidate, query) == -1
  {
    assert query[..k + 1][..k] == query[..k];
    if GreedyEnd(candidate, query) != -1 {
      GreedyOfPrefix(candidate, query, k + 1);
    }
  }

  // ---- The score ---------------------------------------------------------------------------

  function GreedyScore(candidate: string, query: string): int
    requires query != []
  {
    var first, last := IndexRune(candidate, query[0], 0), GreedyEnd(candidate, query) - 1;
    100 + (last - first + 1 - |query|) + (|candidate| - |query|)
  }

  /** The score of a candidate for what is wanted, or None when it is rejected. Smaller is better. Lengths
      and the position of an occurrence count bytes in the first two cases and runes in the last one. */
  function ScoreOf(candidate: string, wanted: string): Option<int> {
    if wanted <= candidate then Some(if wanted == "" then 0 else Len(candidate) - Len(wanted))
    else if IndexFrom(candidate, wanted, 0) >= 0 then
      Some(20 + Len(candidate[..IndexFrom(candidate, wanted, 0)]) + Len(candidate) - Len(wanted))
    else if GreedyEnd(candidate, wanted) != -1 then Some(GreedyScore(candidate, wanted))
    else None
  }

  /** Value and query are compared lowered and without their slashes. */
  function Score(lower: char -> char, value: string, query: string): Option<int> {
    ScoreOf(MapRunes(lower, StripCommandPrefix(value)), MapRunes(lower, StripCommandPrefix(query)))
  }

  /** What is wanted at the start of the candidate scores the bytes behind it. */
  lemma PrefixScore(wanted: string, after: string)
    requires wanted != ""
    ensures ScoreOf(wanted + after, wanted) == Some(Len(after))
  {
    hide ScoreOf, Len;
    ScoreAtStart(wanted + after, wanted);
    LenAppend(wanted, after);
  }

  lemma ScoreAtStart(candidate: string, wanted: string)
    requires wanted != "" && wanted <= candidate
    ensures ScoreOf(candidate, wanted) == Some(Len(candidate) - Len(wanted))
  {
    hide Len, IndexFrom, OccursAt, GreedyEnd, GreedyScore;
  }

  lemma FirstOccurrence(before: string, wanted: string, after: string)
    requires before != "" && forall i | 0 <= i < |before| :: !OccursAt(before + wanted + after, wanted, i)
    ensures !(wanted <= before + wanted + after) && IndexFrom(before + wanted + after, wanted, 0) == |before|
  {
    hide IndexFrom;
    var candidate := before + wanted + after;
    assert !OccursAt(candidate, wanted, 0);
    assert OccursAt(candidate, wanted, |before|);
  }

  /** Farther inside it scores 20, the bytes before it twice and those behind it once. */
  lemma SubstringScore(before: string, wanted: string, after: string)
    requires before != "" && forall i | 0 <= i < |before| :: !OccursAt(before + wanted + after, wanted, i)
    ensures ScoreOf(before + wanted + after, wanted) == Some(20 + 2 * Len(before) + Len(after))
  {
    hide ScoreOf, Len, IndexFrom, OccursAt;
    FirstOccurrence(before, wanted, after);
    ScoreInside(before + wanted + after, wanted, |before|);
    assert (before + wanted + after)[..|before|] == before;
    LenAppend(before, wanted);
    LenAppend(before + wanted, after);
  }

  lemma ScoreInside(candidate: string, wanted: string, at: nat)
    requires !(wanted <= candidate) && IndexFrom(candidate, wanted, 0) == at && at <= |candidate|
    ensures ScoreOf(candidate, wanted) == Some(20 + Len(candidate[..at]) + Len(candidate) - Len(wanted))
  {
    hide Len, IndexFrom, OccursAt, GreedyEnd, GreedyScore;
  }

  /** Scattered over the candidate it scores by its greedy embedding. */
  lemma ScatteredScore(candidate: string, wanted: string)
    requires IsSubsequence(wanted, candidate) && forall i :: !OccursAt(candidate, wanted, i)
    ensures wanted != "" && ScoreOf(candidate, wanted) == Some(GreedyScore(candidate, wanted))
  {
    assert !OccursAt(candidate, wanted, 0);
    SubsequenceIffGreedy(wanted, candidate);
  }

  lemma OccurrenceEmbeds(candidate: string, query: string, from: nat)
    requires OccursAt(candidate, query, from)
    ensures IsSubsequence(query, candidate)
  {
    var at: seq<int> := seq(|query|, k => from + k);
    forall k | 0 <= k < |query| ensures candidate[at[k]] == query[k] {
      assert candidate[from..from + |query|][k] == query[k];
    }
    assert Embeds(candidate, query, at);
  }

  /** A candidate is accepted exactly when what is wanted is a subsequence of it. */
  lemma AcceptedIffSubsequence(candidate: string, wanted: string)
    ensures ScoreOf(candidate, wanted).Some? <==> IsSubsequence(wanted, candidate)
  {
    hide IsSubsequence;
    SubsequenceIffGreedy(wanted, candidate);
    if wanted <= candidate {
      OccurrenceEmbeds(candidate, wanted, 0);
    } else if IndexFrom(candidate, wanted, 0) >= 0 {
      OccurrenceEmbeds(candidate, wanted, IndexFrom(candidate, wanted, 0));
    }
  }

  /** A value is accepted exactly when the lowered, stripped query is a subsequence of it. */
  lemma AcceptsIffSubsequence(lower: char -> char, value: string, query: string)
    ensures Score(lower, value, query).Some? <==>
            IsSubsequence(MapRunes(lower, StripCommandPrefix(query)), MapRunes(lower, StripCommandPrefix(value)))
  {
    hide ScoreOf, IsSubsequence;
    AcceptedIffSubsequence(MapRunes(lower, StripCommandPrefix(value)), MapRunes(lower, StripCommandPrefix(query)));
  }

  /** In the last branch the score charges the runes between the earliest start and the earliest
      end of any embedding that the query does not use, and the surplus length of the candidate. */
  lemma GreedyScoreIsEarliestSpan(candidate: string, query: string) returns (at: seq<int>)
    requires query != [] && IsSubsequence(query, candidate)
    ensures Embeds(candidate, query, at)
    ensures GreedyScore(candidate, query) == 100 + (at[|at| - 1] - at[0] + 1 - |query|) + (|candidate| - |query|)
    ensures forall other | Embeds(candidate, query, other) :: at[0] <= other[0] && at[|at| - 1] <= other[|at| - 1]
  {
    SubsequenceIffGreedy(query, candidate);
    at := GreedyEmbeds(candidate, query);
    forall other | Embeds(candidate, query, other)
      ensures at[0] <= other[0] && at[|at| - 1] <= other[|at| - 1]
    {
      GreedyIsEarliest(candidate, query, other);
    }
  }

  /** fuzzyStringScore: prefix, then substring, then one greedy pass over the candidate. */
  method FuzzyStringScore(lower: char -> char, value: string, query: string) returns (score: int, ok: bool)
    ensures ok == Score(lower, value, query).Some?
    ensures ok ==> score == Score(lower, value, query).value
    ensures !ok ==> score == 0
  {
    var candidate := MapRunes(lower, StripCommandPrefix(value));
    var wanted := MapRunes(lower, StripCommandPrefix(query));
    if wanted == "" {
      return 0, true;
    }
    if wanted <= candidate {
      return Len(candidate) - Len(wanted), true;
    }
    var idx := IndexFrom(candidate, wanted, 0);
    if idx >= 0 {
      return 20 + Len(candidate[..idx]) + Len(candidate) - Len(wanted), true;
    }
    score, ok := GreedyPass(candidate, wanted);
  }

  /** The last branch: one pass over the candidate, charging every gap as it is crossed. */
  method GreedyPass(candidate: string, wanted: string) returns (score: int, ok: bool)
    requires wanted != []
    ensures ok <==> GreedyEnd(candidate, wanted) != -1
    ensures score == if ok then GreedyScore(candidate, wanted) else 0
  {
    hide GreedyEnd, IndexRune;
    assert GreedyEnd(candidate, wanted[..0]) == 0 by { GreedyStart(candidate, wanted); }
    score := 100;
    var queryIndex := 0;
    var lastMatch := -1;
    ghost var first := IndexRune(candidate, wanted[0], 0);
    for candidateIndex := 0 to |candidate|
      invariant 0 <= queryIndex <= |wanted|
      invariant GreedyEnd(candidate, wanted[..queryIndex]) == lastMatch + 1
      invariant -1 <= lastMatch < candidateIndex
      invariant lastMatch >= 0 <==> queryIndex > 0
      invariant queryIndex < |wanted| ==>
                  forall k | lastMatch < k < candidateIndex :: candidate[k] != wanted[queryIndex]
      invariant score == if queryIndex == 0 then 100 else 100 + (lastMatch - first + 1 - queryIndex)
    {
      if queryIndex >= |wanted| {
        break;
      }
      if candidate[candidateIndex] != wanted[queryIndex] {
        continue;
      }
      if lastMatch >= 0 {
        score := score + (candidateIndex - lastMatch - 1);
      }
      GreedyAdvances(candidate, wanted, queryIndex, candidateIndex);
      lastMatch := candidateIndex;
      queryIndex := queryIndex + 1;
    }
    if queryIndex != |wanted| {
      GreedyStuck(candidate, wanted, queryIndex);
      return 0, false;
    }
    assert wanted[..|wanted|] == wanted;
    return score + (|candidate| - |wanted|), true;
  }

  // ---- Ranked filtering --------------------------------------------------------------------

  datatype Match = Match(value: string, score: int)

  predicate RankLe(a: Match, b: Match) {
    a.score < b.score || (a.score == b.score && LexLe(a.value, b.value))
  }

  lemma RankIsTotal()
    ensures Sorting.TotalOrder(RankLe)
  {
    forall a, b ensures (RankLe(a, b) || RankLe(b, a)) && (RankLe(a, b) && RankLe(b, a) ==> a == b) {
      LexTotal(a.value, b.value);
    }
    forall a, b, c | RankLe(a, b) && RankLe(b, c) ensures RankLe(a, c) {
      if a.score == b.score == c.score {
        LexTransitive(a.value, b.value, c.value);
      }
    }
  }

  lemma LexIsTotal()
    ensures Sorting.TotalOrder(LexLe)
  {
    forall a, b ensures (LexLe(a, b) || LexLe(b, a)) && (LexLe(a, b) && LexLe(b, a) ==> a == b) {
      LexTotal(a, b);
    }
    forall a, b, c | LexLe(a, b) && LexLe(b, c) ensures LexLe(a, c) {
      LexTransitive(a, b, c);
    }
  }

  type Scorer = string -> Option<int>

  function ScoreFor(lower: char -> char, query: string): Scorer {
    value => Score(lower, value, query)
  }

  /** The accepted values with their scores, in list order. */
  function Matches(score: Scorer, values: seq<string>): seq<Match> {
    if values == [] then [] else
    Matches(score, values[..|values| - 1]) +
    match score(values[|values| - 1])
    case Some(n) => [Match(values[|values| - 1], n)]
    case None => []
  }

  function Values(matches: seq<Match>): (r: seq<string>)
    ensures |r| == |matches| && forall i | 0 <= i < |r| :: r[i] == matches[i].value
  {
    seq(|matches|, i requires 0 <= i < |matches| => matches[i].value)
  }

  function Ranked(score: Scorer, values: seq<string>): seq<Match> {
    Sorting.Sort(RankLe, Matches(score, values))
  }

  function Take<T>(s: seq<T>, limit: int): (r: seq<T>)
    ensures r <= s && |r| == if limit <= 0 || limit > |s| then |s| else limit
  {
    if limit <= 0 || limit > |s| then s else s[..limit]
  }

  function Wanted(query: string): string {
    TrimSpace(TrimPrefix(query, COMMAND_PREFIX))
  }

  /** One slash at the very front and the blanks around what follows are not searched for. */
  lemma QueryIsWanted(before: string, query: string, after: string)
    requires AllSpace(before) && AllSpace(after) && IsTrimmed(query)
    ensures Wanted("/" + (before + query + after)) == query
    ensures before + query + after == "" || (before + query + after)[0] != '/' ==> Wanted(before + query + after) == query
  {
    hide IsSpace, TrimSpace;
    TrimSpaceTakesOff(before, query, after);
    assert ("/" + (before + query + after))[1..] == before + query + after;
  }

  /** The first `limit` matches by (score, value); a limit below one means all of them. */
  function TopRanked(lower: char -> char, values: seq<string>, query: string, limit: int): seq<string> {
    Values(Take(Ranked(ScoreFor(lower, Wanted(query)), values), limit))
  }

  lemma {:induction false} CountOfMatch(score: Scorer, values: seq<string>, m: Match)
    ensures multiset(Matches(score, values))[m] == if score(m.value) == Some(m.score) then multiset(values)[m.value] else 0
  {
    if values != [] {
      var init, last := values[..|values| - 1], values[|values| - 1];
      assert values == init + [last];
      CountOfMatch(score, init, m);
    }
  }

  lemma SameMatches(score: Scorer, values: seq<string>, other: seq<string>)
    requires multiset(values) == multiset(other)
    ensures multiset(Matches(score, values)) == multiset(Matches(score, other))
  {
    var a, b := Matches(score, values), Matches(score, other);
    forall m ensures multiset(a)[m] == multiset(b)[m] {
      CountOfMatch(score, values, m);
      CountOfMatch(score, other, m);
    }
  }

  lemma RankedIgnoresOrder(score: Scorer, values: seq<string>, other: seq<string>)
    requires multiset(values) == multiset(other)
    ensures Ranked(score, values) == Ranked(score, other)
  {
    SameMatches(score, values, other);
    RankIsTotal();
    Sorting.SortSorted(RankLe, Matches(score, values));
    Sorting.SortIsUnique(RankLe, Matches(score, other), Ranked(score, values));
  }

  /** The ranking depends on the values only as a multiset: their order is irrelevant. */
  lemma TopRankedIgnoresOrder(lower: char -> char, values: seq<string>, other: seq<string>, query: string, limit: int)
    requires multiset(values) == multiset(other)
    ensures TopRanked(lower, values, query, limit) == TopRanked(lower, other, query, limit)
  {
    RankedIgnoresOrder(ScoreFor(lower, Wanted(query)), values, other);
  }

  /** `Ranked` holds an accepted value as often as the list does, with its score, and nothing else, in rank order. */
  lemma RankedIsSortedMatches(score: Scorer, values: seq<string>)
    ensures Sorting.Sorted(RankLe, Ranked(score, values))
    ensures forall m: Match :: multiset(Ranked(score, values))[m] ==
                        if score(m.value) == Some(m.score) then multiset(values)[m.value] else 0
    ensures |Ranked(score, values)| <= |values|
  {
    RankIsTotal();
    var matches := Matches(score, values);
    Sorting.SortSorted(RankLe, matches);
    forall m: Match ensures multiset(matches)[m] == if score(m.value) == Some(m.score) then multiset(values)[m.value] else 0 {
      CountOfMatch(score, values, m);
    }
    MatchesLength(score, values);
    assert |Ranked(score, values)| == |multiset(Ranked(score, values))| == |multiset(matches)| == |matches|;
  }

  lemma {:induction false} MatchesLength(score: Scorer, values: seq<string>)
    ensures |Matches(score, values)| <= |values|
  {
    if values != [] {
      MatchesLength(score, values[..|values| - 1]);
    }
  }

  lemma RankedOnlyAccepted(score: Scorer, values: seq<string>, limit: int)
    ensures forall v | v in Values(Take(Ranked(score, values), limit)) :: v in values && score(v).Some?
  {
    var ranked := Ranked(score, values);
    var top := Take(ranked, limit);
    RankedIsSortedMatches(score, values);
    forall v | v in Values(top) ensures v in values && score(v).Some? {
      var i :| 0 <= i < |top| && top[i].value == v;
      assert ranked[i] in multiset(ranked);
      assert v in multiset(values);
    }
  }

  lemma RankedAllAccepted(score: Scorer, values: seq<string>, limit: int, v: string)
    requires limit <= 0 || limit >= |values|
    requires v in values && score(v).Some?
    ensures v in Values(Take(Ranked(score, values), limit))
  {
    var ranked := Ranked(score, values);
    RankedIsSortedMatches(score, values);
    var m := Match(v, score(v).value);
    assert v in multiset(values);
    assert m in multiset(ranked);
    var i :| 0 <= i < |ranked| && ranked[i] == m;
    assert Values(Take(ranked, limit))[i] == v;
  }

  /** Everything returned is an accepted value of the list, and unless a limit cuts it every accepted value is returned. */
  lemma TopRankedMembers(lower: char -> char, values: seq<string>, query: string, limit: int)
    ensures forall v | v in TopRanked(lower, values, query, limit) ::
              v in values && Score(lower, v, Wanted(query)).Some?
    ensures limit <= 0 || limit >= |values| ==>
              forall v | v in values && Score(lower, v, Wanted(query)).Some? :: v in TopRanked(lower, values, query, limit)
  {
    var score := ScoreFor(lower, Wanted(query));
    RankedOnlyAccepted(score, values, limit);
    if limit <= 0 || limit >= |values| {
      forall v | v in values && score(v).Some? ensures v in TopRanked(lower, values, query, limit) {
        RankedAllAccepted(score, values, limit, v);
      }
    }
  }

  /** A limit cuts by rank: an accepted value that is left out scores no better than any that is returned. */
  lemma CutIsByRank(score: Scorer, values: seq<string>, limit: int, kept: string, dropped: string)
    requires kept in Values(Take(Ranked(score, values), limit))
    requires dropped in values && score(dropped).Some? && dropped !in Values(Take(Ranked(score, values), limit))
    ensures score(kept).Some?
    ensures score(kept).value < score(dropped).value ||
            (score(kept).value == score(dropped).value && LexLe(kept, dropped))
  {
    hide Ranked, LexLe;
    var ranked := Ranked(score, values);
    var top := Take(ranked, limit);
    RankedIsSortedMatches(score, values);
    var m := Match(dropped, score(dropped).value);
    assert dropped in multiset(values);
    assert m in multiset(ranked);
    var i :| 0 <= i < |top| && Values(top)[i] == kept;
    var j :| 0 <= j < |ranked| && ranked[j] == m;
    assert ranked[i] in multiset(ranked);
    assert RankLe(ranked[i], ranked[j]);
  }

  /** How often the matches return a value. */
  function Times(s: seq<Match>, value: string): nat {
    multiset(Values(s))[value]
  }

  lemma TimesOfCons(m: Match, s: seq<Match>, value: string)
    ensures Times([m] + s, value) == (if m.value == value then 1 else 0) + Times(s, value)
  {
    assert Values([m] + s) == [m.value] + Values(s);
  }

  lemma {:induction false} TimesOfInsert(m: Match, s: seq<Match>, value: string)
    ensures Times(Sorting.Insert(RankLe, m, s), value) == (if m.value == value then 1 else 0) + Times(s, value)
  {
    hide RankLe, Times;
    TimesOfCons(m, s, value);
    if s == [] {
      assert [m] + s == [m];
    } else if !RankLe(m, s[0]) {
      TimesOfInsert(m, s[1..], value);
      TimesOfCons(s[0], Sorting.Insert(RankLe, m, s[1..]), value);
      TimesOfCons(s[0], s[1..], value);
      assert s == [s[0]] + s[1..];
    }
  }

  lemma {:induction false} TimesOfSort(s: seq<Match>, value: string)
    ensures Times(Sorting.Sort(RankLe, s), value) == Times(s, value)
  {
    hide Times, Sorting.Insert;
    if s != [] {
      TimesOfSort(s[1..], value);
      TimesOfInsert(s[0], Sorting.Sort(RankLe, s[1..]), value);
      TimesOfCons(s[0], s[1..], value);
      assert s == [s[0]] + s[1..];
    }
  }

  lemma ValuesOfSort(s: seq<Match>)
    ensures multiset(Values(Sorting.Sort(RankLe, s))) == multiset(Values(s))
  {
    hide Sorting.Sort, Values;
    forall value ensures multiset(Values(Sorting.Sort(RankLe, s)))[value] == multiset(Values(s))[value] {
      TimesOfSort(s, value);
    }
  }

  lemma {:induction false} MatchedValues(score: Scorer, values: seq<string>)
    ensures multiset(Values(Matches(score, values))) <= multiset(values)
  {
    if values != [] {
      var init, last := values[..|values| - 1], values[|values| - 1];
      assert values == init + [last];
      MatchedValues(score, init);
      assert Values(Matches(score, values)) ==
             Values(Matches(score, init)) + if score(last).Some? then [last] else [];
    }
  }

  lemma RankedMultiplicity(score: Scorer, values: seq<string>)
    ensures multiset(Values(Ranked(score, values))) <= multiset(values)
  {
    hide Matches, Sorting.Sort, RankLe;
    ValuesOfSort(Matches(score, values));
    MatchedValues(score, values);
  }

  /** A cut returns the front of the values, and so none more often. */
  lemma TakenMultiplicity(ranked: seq<Match>, limit: int)
    ensures multiset(Values(Take(ranked, limit))) <= multiset(Values(ranked))
  {
    var top := Take(ranked, limit);
    assert Values(ranked) == Values(top) + Values(ranked[|top|..]);
  }

  /** Whatever the limit, no value is returned more often than the list holds it. */
  lemma TopRankedMultiplicity(lower: char -> char, values: seq<string>, query: string, limit: int)
    ensures multiset(TopRanked(lower, values, query, limit)) <= multiset(values)
  {
    hide Ranked, Take, Values;
    var ranked := Ranked(ScoreFor(lower, Wanted(query)), values);
    RankedMultiplicity(ScoreFor(lower, Wanted(query)), values);
    TakenMultiplicity(ranked, limit);
  }

  function ZeroScored(values: seq<string>): (r: seq<Match>)
    ensures |r| == |values| && forall i | 0 <= i < |r| :: r[i] == Match(values[i], 0)
  {
    seq(|values|, i requires 0 <= i < |values| => Match(values[i], 0))
  }

  lemma {:induction false} AllScoreZero(score: Scorer, values: seq<string>)
    requires forall v | v in values :: score(v) == Some(0)
    ensures Matches(score, values) == ZeroScored(values)
  {
    if values != [] {
      AllScoreZero(score, values[..|values| - 1]);
    }
  }

  /** When every value scores 0, ranking is plain sorting. */
  lemma RankingZeroIsSorting(score: Scorer, values: seq<string>)
    requires forall v | v in values :: score(v) == Some(0)
    ensures Ranked(score, values) == ZeroScored(Sorting.Sort(LexLe, values))
  {
    var sorted := Sorting.Sort(LexLe, values);
    assert forall v | v in sorted :: v in multiset(values);
    SameMatches(score, values, sorted);
    AllScoreZero(score, sorted);
    ZeroScoredSorted(values);
    RankIsTotal();
    Sorting.SortIsUnique(RankLe, Matches(score, values), ZeroScored(sorted));
  }

  lemma TakingZeroIsTaking(score: Scorer, values: seq<string>, limit: int)
    requires forall v | v in values :: score(v) == Some(0)
    ensures Values(Take(Ranked(score, values), limit)) == Take(Sorting.Sort(LexLe, values), limit)
  {
    RankingZeroIsSorting(score, values);
  }

  lemma ZeroScoredSorted(values: seq<string>)
    ensures Sorting.Sorted(RankLe, ZeroScored(Sorting.Sort(LexLe, values)))
  {
    LexIsTotal();
    Sorting.SortSorted(LexLe, values);
  }

  lemma EmptyQueryScoresZero(lower: char -> char, value: string)
    ensures ScoreFor(lower, "")(value) == Some(0)
  {
    assert MapRunes(lower, StripCommandPrefix("")) == "";
  }

  /** The branch for an empty query returns what the general one would: the values in order, up to the limit. */
  lemma EmptyQueryIsSort(lower: char -> char, values: seq<string>, query: string, limit: int)
    requires Wanted(query) == ""
    ensures TopRanked(lower, values, query, limit) == Take(Sorting.Sort(LexLe, values), limit)
  {
    forall v | v in values ensures ScoreFor(lower, "")(v) == Some(0) {
      EmptyQueryScoresZero(lower, v);
    }
    TakingZeroIsTaking(ScoreFor(lower, ""), values, limit);
  }

  /** fuzzyFilterStrings; the branch for an empty query returns what the general one would. */
  method FuzzyFilterStrings(lower: char -> char, values: seq<string>, query: string, limit: int)
    returns (out: seq<string>)
    ensures out == TopRanked(lower, values, query, limit)
  {
    var wanted := Wanted(query);
    if wanted == "" {
      EmptyQueryIsSort(lower, values, query, limit);
      out := Sorting.Sort(LexLe, values);
      if limit > 0 && |out| > limit {
        return out[..limit];
      }
      return out;
    }
    var matches := ScoreAll(lower, values, wanted);
    matches := Sorting.Sort(RankLe, matches);
    out := TopValues(matches, limit);
  }

  method ScoreAll(lower: char -> char, values: seq<string>, wanted: string) returns (matches: seq<Match>)
    ensures matches == Matches(ScoreFor(lower, wanted), values)
  {
    hide Score;
    ghost var score := ScoreFor(lower, wanted);
    matches := [];
    for i := 0 to |values|
      invariant matches == Matches(score, values[..i])
    {
      var n, ok := FuzzyStringScore(lower, values[i], wanted);
      assert ok == score(values[i]).Some? && (ok ==> n == score(values[i]).value);
      if ok {
        matches := matches + [Match(values[i], n)];
      }
      assert values[..i + 1][..i] == values[..i];
    }
    assert values[..|values|] == values;
  }

  /** The values of the first `limit` ranked matches, copied out one by one. */
  method TopValues(matches: seq<Match>, limit: int) returns (out: seq<string>)
    ensures out == Values(Take(matches, limit))
  {
    var count := limit;
    if count <= 0 || count > |matches| {
      count := |matches|;
    }
    out := [];
    for i := 0 to count
      invariant out == Values(matches[..i])
    {
      out := out + [matches[i].value];
    }
    assert matches[..count] == Take(matches, limit);
  }
}
