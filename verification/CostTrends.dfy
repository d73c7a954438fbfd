/** The cost report by agent (buildCLICostTrends) and the summaries over the whole session. */
module CostTrends {
  import opened Text
  import opened Sums
  import Sorting

  // ---- Samples and their measures ------------------------------------------------------------

  /** The fields of schema.PromptBudget that the report reads. */
  datatype Budget = Budget(
    agentId: string, estimatedPromptTokens: int, cacheablePrefixTokens: int,
    historyEstimatedSavedTokens: int,
    historyPromptDeduplicatedItems: int, historyToolDeduplicatedItems: int,
    historyPromptCompactedOlderItems: int, historyToolCompactedOlderItems: int,
    memoryBlockCount: int, memoryEstimatedSavedTokens: int,
    artifactRefCount: int, artifactOmittedTokens: int, skillOmittedTokens: int,
    promptPrefixHash: string)

  datatype Usage = Usage(agentId: string, promptTokens: int, outputTokens: int, cachedTokens: int, totalTokens: int)

  function AgentKey(agentId: string): string {
    if TrimSpace(agentId) == "" then "(unknown)" else TrimSpace(agentId)
  }

  /** An agent is known by its trimmed name, and a blank name stands for nobody. */
  lemma AgentIsKnownAs(before: string, name: string, after: string)
    requires AllSpace(before) && AllSpace(after) && IsTrimmed(name)
    ensures AgentKey(before + name + after) == if name == "" then "(unknown)" else name
  {
    hide IsSpace, TrimSpace;
    TrimSpaceTakesOff(before, name, after);
  }

  function BudgetKey(b: Budget): string { AgentKey(b.agentId) }
  function UsageKey(u: Usage): string { AgentKey(u.agentId) }

  function Estimated(b: Budget): int { b.estimatedPromptTokens }
  function Cacheable(b: Budget): int { b.cacheablePrefixTokens }
  function NonCacheable(b: Budget): int {
    var value := b.estimatedPromptTokens - b.cacheablePrefixTokens;
    if value < 0 then 0 else value
  }
  function Saved(b: Budget): int { b.historyEstimatedSavedTokens }
  function Deduplicated(b: Budget): int { b.historyPromptDeduplicatedItems + b.historyToolDeduplicatedItems }
  function Compacted(b: Budget): int { b.historyPromptCompactedOlderItems + b.historyToolCompactedOlderItems }
  function MemoryBlocks(b: Budget): int { b.memoryBlockCount }
  function MemorySaved(b: Budget): int { b.memoryEstimatedSavedTokens }
  function ArtifactRefs(b: Budget): int { b.artifactRefCount }
  function ArtifactOmitted(b: Budget): int { b.artifactOmittedTokens }
  function SkillOmitted(b: Budget): int { b.skillOmittedTokens }

  function Prompt(u: Usage): int { u.promptTokens }
  function Output(u: Usage): int { u.outputTokens }
  function Cached(u: Usage): int { u.cachedTokens }
  function Total(u: Usage): int {
    if u.totalTokens > 0 then u.totalTokens else u.promptTokens + u.outputTokens
  }

  // ---- One agent -----------------------------------------------------------------------------------

  datatype Trend = Trend(
    key: string, promptBudgetSamples: nat, tokenUsageSamples: nat,
    averageEstimatedPromptTokens: int, maxEstimatedPromptTokens: int, averageNonCacheableTokens: int,
    historyEstimatedSavedTokens: int, historyDeduplicatedItems: int, historyCompactedOlderItems: int,
    memoryBlockSamples: int, memoryEstimatedSavedTokens: int, artifactRefSamples: int,
    artifactOmittedTokens: int, skillOmittedTokens: int,
    totalPromptTokens: int, totalOutputTokens: int, totalCachedTokens: int, totalTokens: int)

  /** What is gathered for an agent from its own samples, before the averages are taken. */
  function Gathered(key: string, bs: seq<Budget>, us: seq<Usage>): Trend {
    Trend(key, |bs|, |us|, Sum(bs, Estimated), Largest(bs, Estimated), Sum(bs, NonCacheable),
          Sum(bs, Saved), Sum(bs, Deduplicated), Sum(bs, Compacted),
          Sum(bs, MemoryBlocks), Sum(bs, MemorySaved), Sum(bs, ArtifactRefs),
          Sum(bs, ArtifactOmitted), Sum(bs, SkillOmitted),
          Sum(us, Prompt), Sum(us, Output), Sum(us, Cached), Sum(us, Total))
  }

  /** Go's division, which truncates towards zero. */
  function Quotient(a: int, n: nat): int
    requires n > 0
  {
    if a < 0 then -(-a / n) else a / n
  }

  /** The multiple of the divisor next to the dividend on the side of zero. */
  lemma QuotientTruncates(a: int, n: nat)
    requires n > 0
    ensures a >= 0 ==> n * Quotient(a, n) <= a < n * Quotient(a, n) + n
    ensures a <= 0 ==> n * Quotient(a, n) - n < a <= n * Quotient(a, n)
  {
    assert a == 0 ==> Quotient(a, n) == 0;
    if a < 0 {
      WholeTimes(-a, n);
      NegativeTimes(n, -a / n);
    } else {
      WholeTimes(a, n);
    }
  }

  lemma WholeTimes(size: nat, n: nat)
    requires n > 0
    ensures n * (size / n) <= size < n * (size / n) + n
  {
    assert size == n * (size / n) + size % n;
  }

  lemma NegativeTimes(n: int, q: int)
    ensures n * -q == -(n * q)
  {}

  function Averaged(t: Trend): Trend {
    if t.promptBudgetSamples > 0 then
      t.(averageEstimatedPromptTokens := Quotient(t.averageEstimatedPromptTokens, t.promptBudgetSamples),
         averageNonCacheableTokens := Quotient(t.averageNonCacheableTokens, t.promptBudgetSamples))
    else t
  }

  /** The line of the report for an agent. */
  function Report(budgets: seq<Budget>, usages: seq<Usage>, key: string): Trend {
    Averaged(Gathered(key, Select(budgets, BudgetKey, key), Select(usages, UsageKey, key)))
  }

  function AddBudget(t: Trend, b: Budget): Trend {
    t.(promptBudgetSamples := t.promptBudgetSamples + 1,
       averageEstimatedPromptTokens := t.averageEstimatedPromptTokens + b.estimatedPromptTokens,
       averageNonCacheableTokens := t.averageNonCacheableTokens + NonCacheable(b),
       historyEstimatedSavedTokens := t.historyEstimatedSavedTokens + b.historyEstimatedSavedTokens,
       historyDeduplicatedItems := t.historyDeduplicatedItems + Deduplicated(b),
       historyCompactedOlderItems := t.historyCompactedOlderItems + Compacted(b),
       memoryBlockSamples := t.memoryBlockSamples + b.memoryBlockCount,
       memoryEstimatedSavedTokens := t.memoryEstimatedSavedTokens + b.memoryEstimatedSavedTokens,
       artifactRefSamples := t.artifactRefSamples + b.artifactRefCount,
       artifactOmittedTokens := t.artifactOmittedTokens + b.artifactOmittedTokens,
       skillOmittedTokens := t.skillOmittedTokens + b.skillOmittedTokens,
       maxEstimatedPromptTokens :=
         if b.estimatedPromptTokens > t.maxEstimatedPromptTokens then b.estimatedPromptTokens
         else t.maxEstimatedPromptTokens)
  }

  function AddUsage(t: Trend, u: Usage): Trend {
    t.(tokenUsageSamples := t.tokenUsageSamples + 1,
       totalPromptTokens := t.totalPromptTokens + u.promptTokens,
       totalOutputTokens := t.totalOutputTokens + u.outputTokens,
       totalCachedTokens := t.totalCachedTokens + u.cachedTokens,
       totalTokens := t.totalTokens + if u.totalTokens > 0 then u.totalTokens else u.promptTokens + u.outputTokens)
  }

  lemma GatherBudget(key: string, bs: seq<Budget>, us: seq<Usage>, b: Budget)
    ensures AddBudget(Gathered(key, bs, us), b) == Gathered(key, bs + [b], us)
  {
    hide Sum, Largest;
    SumSnoc(bs, b, Estimated);
    SumSnoc(bs, b, NonCacheable);
    SumSnoc(bs, b, Saved);
    SumSnoc(bs, b, Deduplicated);
    SumSnoc(bs, b, Compacted);
    SumSnoc(bs, b, MemoryBlocks);
    SumSnoc(bs, b, MemorySaved);
    SumSnoc(bs, b, ArtifactRefs);
    SumSnoc(bs, b, ArtifactOmitted);
    SumSnoc(bs, b, SkillOmitted);
  }

  lemma GatherUsage(key: string, bs: seq<Budget>, us: seq<Usage>, u: Usage)
    ensures AddUsage(Gathered(key, bs, us), u) == Gathered(key, bs, us + [u])
  {
    hide Sum, Largest;
    SumSnoc(us, u, Prompt);
    SumSnoc(us, u, Output);
    SumSnoc(us, u, Cached);
    SumSnoc(us, u, Total);
  }

  // ---- The report ----------------------------------------------------------------------------------

  /** Most tokens first, then the larger average prompt, then the key. */
  predicate TrendLe(a: Trend, b: Trend) {
    if a.totalTokens != b.totalTokens then a.totalTokens > b.totalTokens
    else if a.averageEstimatedPromptTokens != b.averageEstimatedPromptTokens then
      a.averageEstimatedPromptTokens > b.averageEstimatedPromptTokens
    else LexLe(a.key, b.key)
  }

  predicate HasSamples(budgets: seq<Budget>, usages: seq<Usage>, key: string) {
    (exists i :: 0 <= i < |budgets| && BudgetKey(budgets[i]) == key) ||
    (exists i :: 0 <= i < |usages| && UsageKey(usages[i]) == key)
  }

  function KeysOf(out: seq<Trend>): (r: seq<string>)
    ensures |r| == |out| && forall i | 0 <= i < |out| :: r[i] == out[i].key
  {
    seq(|out|, i requires 0 <= i < |out| => out[i].key)
  }

  /** Sorted lines, one for every agent with samples and no others. */
  ghost predicate IsReport(budgets: seq<Budget>, usages: seq<Usage>, out: seq<Trend>) {
    && (forall i | 0 <= i < |out| :: out[i] == Report(budgets, usages, out[i].key))
    && Distinct(KeysOf(out))
    && (forall k :: k in KeysOf(out) <==> HasSamples(budgets, usages, k))
    && Sorting.Sorted(TrendLe, out)
  }

  function ByReport(budgets: seq<Budget>, usages: seq<Usage>): (string, string) -> bool {
    (a, b) => TrendLe(Report(budgets, usages, a), Report(budgets, usages, b))
  }

  lemma TrendLeIsPreorder()
    ensures Sorting.TotalPreorder(TrendLe)
  {
    forall a, b ensures TrendLe(a, b) || TrendLe(b, a) {
      LexTotal(a.key, b.key);
    }
    forall a, b, c | TrendLe(a, b) && TrendLe(b, c) ensures TrendLe(a, c) {
      if LexLe(a.key, b.key) && LexLe(b.key, c.key) {
        LexTransitive(a.key, b.key, c.key);
      }
    }
  }

  lemma ReportKey(budgets: seq<Budget>, usages: seq<Usage>, key: string)
    ensures Report(budgets, usages, key).key == key
  {
    hide Sum, Largest, Select;
  }

  lemma ByReportIsTotal(budgets: seq<Budget>, usages: seq<Usage>)
    ensures Sorting.TotalOrder(ByReport(budgets, usages))
  {
    hide Report;
    TrendLeIsPreorder();
    var le := ByReport(budgets, usages);
    forall a, b | le(a, b) && le(b, a) ensures a == b {
      ReportKey(budgets, usages, a);
      ReportKey(budgets, usages, b);
      LexTotal(a, b);
    }
  }

  lemma {:induction false} DistinctCount<K>(keys: seq<K>, k: K)
    requires Distinct(keys)
    ensures multiset(keys)[k] == if k in keys then 1 else 0
  {
    if keys != [] {
      var init := keys[..|keys| - 1];
      assert keys == init + [keys[|keys| - 1]];
      DistinctCount(init, k);
    }
  }

  lemma SameKeys<K>(a: seq<K>, b: seq<K>)
    requires Distinct(a) && Distinct(b) && forall k :: k in a <==> k in b
    ensures multiset(a) == multiset(b)
  {
    forall k ensures multiset(a)[k] == multiset(b)[k] {
      DistinctCount(a, k);
      DistinctCount(b, k);
    }
  }

  /** The report is determined by the samples: no order of a map can change it. */
  lemma ReportIsUnique(budgets: seq<Budget>, usages: seq<Usage>, a: seq<Trend>, b: seq<Trend>)
    requires IsReport(budgets, usages, a) && IsReport(budgets, usages, b)
    ensures a == b
  {
    hide Report, TrendLe, HasSamples;
    var le := ByReport(budgets, usages);
    ByReportIsTotal(budgets, usages);
    assert forall k :: k in KeysOf(a) <==> k in KeysOf(b);
    SameKeys(KeysOf(a), KeysOf(b));
    KeysAreSorted(budgets, usages, a);
    KeysAreSorted(budgets, usages, b);
    Sorting.SortedUnique(le, KeysOf(a), KeysOf(b));
    assert |a| == |KeysOf(a)| == |KeysOf(b)| == |b|;
    forall i | 0 <= i < |a| ensures a[i] == b[i] {
      assert KeysOf(a)[i] == KeysOf(b)[i];
    }
  }

  lemma KeysAreSorted(budgets: seq<Budget>, usages: seq<Usage>, out: seq<Trend>)
    requires IsReport(budgets, usages, out)
    ensures Sorting.Sorted(ByReport(budgets, usages), KeysOf(out))
  {
    hide Report, TrendLe, HasSamples;
  }

  /** Lines are ordered by tokens, among equals by the average prompt, both the larger first, and then by name. */
  lemma LinesAreOrdered(budgets: seq<Budget>, usages: seq<Usage>, out: seq<Trend>, i: nat, j: nat)
    requires IsReport(budgets, usages, out) && i < j < |out|
    ensures var a, b := out[i], out[j];
            || a.totalTokens > b.totalTokens
            || (a.totalTokens == b.totalTokens && a.averageEstimatedPromptTokens > b.averageEstimatedPromptTokens)
            || (a.totalTokens == b.totalTokens && a.averageEstimatedPromptTokens == b.averageEstimatedPromptTokens &&
                LexLe(a.key, b.key) && a.key != b.key)
  {
    hide Report, HasSamples, LexLe;
    assert TrendLe(out[i], out[j]);
    assert KeysOf(out)[i] != KeysOf(out)[j];
  }

  /** No agent has more tokens than the one on the first line, and later lines never have more than earlier ones. */
  lemma HeaviestFirst(budgets: seq<Budget>, usages: seq<Usage>, out: seq<Trend>)
    requires IsReport(budgets, usages, out)
    ensures forall i, j | 0 <= i < j < |out| :: out[i].totalTokens >= out[j].totalTokens
    ensures forall k | HasSamples(budgets, usages, k) ::
              out != [] && Report(budgets, usages, k).totalTokens <= out[0].totalTokens
  {
    hide Report, HasSamples;
    forall i, j | 0 <= i < j < |out| ensures out[i].totalTokens >= out[j].totalTokens {
      assert TrendLe(out[i], out[j]);
    }
    forall k | HasSamples(budgets, usages, k)
      ensures out != [] && Report(budgets, usages, k).totalTokens <= out[0].totalTokens
    {
      assert k in KeysOf(out);
      var i :| 0 <= i < |out| && KeysOf(out)[i] == k;
      assert out[i] == Report(budgets, usages, k);
    }
  }

  // ---- Conservation --------------------------------------------------------------------------------

  function TrendTotal(t: Trend): int { t.totalTokens }
  function TrendPrompt(t: Trend): int { t.totalPromptTokens }
  function TrendOutput(t: Trend): int { t.totalOutputTokens }
  function TrendCached(t: Trend): int { t.totalCachedTokens }
  function TrendSaved(t: Trend): int { t.historyEstimatedSavedTokens }
  function TrendDeduplicated(t: Trend): int { t.historyDeduplicatedItems }
  function TrendCompacted(t: Trend): int { t.historyCompactedOlderItems }
  function TrendMemoryBlocks(t: Trend): int { t.memoryBlockSamples }
  function TrendMemorySaved(t: Trend): int { t.memoryEstimatedSavedTokens }
  function TrendArtifactRefs(t: Trend): int { t.artifactRefSamples }
  function TrendArtifactOmitted(t: Trend): int { t.artifactOmittedTokens }
  function TrendSkillOmitted(t: Trend): int { t.skillOmittedTokens }
  function TrendBudgetSamples(t: Trend): int { t.promptBudgetSamples }
  function TrendUsageSamples(t: Trend): int { t.tokenUsageSamples }
  function TrendMax(t: Trend): int { t.maxEstimatedPromptTokens }
  function One<T>(x: T): int { 1 }

  /** A measure of the lines, when it is the sum of a measure over the samples of each line's agent. */
  lemma {:induction false} SumOverLines<T>(out: seq<Trend>, s: seq<T>, key: T -> string, f: T -> int, measure: Trend -> int)
    requires forall i | 0 <= i < |out| :: measure(out[i]) == SumOf(s, key, f)(out[i].key)
    ensures Sum(out, measure) == Sum(KeysOf(out), SumOf(s, key, f))
  {
    if out != [] {
      var init := out[..|out| - 1];
      SumOverLines(init, s, key, f, measure);
      assert KeysOf(out)[..|out| - 1] == KeysOf(init);
    }
  }

  lemma {:induction false} LargestOverLines<T>(out: seq<Trend>, s: seq<T>, key: T -> string, f: T -> int, measure: Trend -> int)
    requires forall i | 0 <= i < |out| :: measure(out[i]) == LargestOf(s, key, f)(out[i].key)
    ensures Largest(out, measure) == Largest(KeysOf(out), LargestOf(s, key, f))
  {
    if out != [] {
      var init := out[..|out| - 1];
      LargestOverLines(init, s, key, f, measure);
      assert KeysOf(out)[..|out| - 1] == KeysOf(init);
    }
  }

  lemma {:induction false} SumOfOnes<T>(s: seq<T>)
    ensures Sum(s, One<T>) == |s|
  {
    if s != [] {
      SumOfOnes(s[..|s| - 1]);
    }
  }

  lemma UsageSumsAdd(budgets: seq<Budget>, usages: seq<Usage>, out: seq<Trend>, f: Usage -> int, measure: Trend -> int)
    requires IsReport(budgets, usages, out)
    requires forall i | 0 <= i < |out| :: measure(out[i]) == SumOf(usages, UsageKey, f)(out[i].key)
    ensures Sum(out, measure) == Sum(usages, f)
  {
    hide Report, Sum, SumOf, UsageKey, BudgetKey;
    SumOverLines(out, usages, UsageKey, f, measure);
    forall i | 0 <= i < |usages| ensures UsageKey(usages[i]) in KeysOf(out) {
      assert HasSamples(budgets, usages, UsageKey(usages[i]));
    }
    SumsPerKey(KeysOf(out), usages, UsageKey, f);
  }

  lemma BudgetSumsAdd(budgets: seq<Budget>, usages: seq<Usage>, out: seq<Trend>, f: Budget -> int, measure: Trend -> int)
    requires IsReport(budgets, usages, out)
    requires forall i | 0 <= i < |out| :: measure(out[i]) == SumOf(budgets, BudgetKey, f)(out[i].key)
    ensures Sum(out, measure) == Sum(budgets, f)
  {
    hide Report, Sum, SumOf, UsageKey, BudgetKey;
    SumOverLines(out, budgets, BudgetKey, f, measure);
    forall i | 0 <= i < |budgets| ensures BudgetKey(budgets[i]) in KeysOf(out) {
      assert HasSamples(budgets, usages, BudgetKey(budgets[i]));
    }
    SumsPerKey(KeysOf(out), budgets, BudgetKey, f);
  }

  /** What a line says, agent by agent. */
  lemma LineSums(budgets: seq<Budget>, usages: seq<Usage>, key: string)
    ensures var t := Report(budgets, usages, key);
            && t.totalTokens == SumOf(usages, UsageKey, Total)(key)
            && t.totalPromptTokens == SumOf(usages, UsageKey, Prompt)(key)
            && t.totalOutputTokens == SumOf(usages, UsageKey, Output)(key)
            && t.totalCachedTokens == SumOf(usages, UsageKey, Cached)(key)
            && t.tokenUsageSamples == SumOf(usages, UsageKey, One<Usage>)(key)
            && t.historyEstimatedSavedTokens == SumOf(budgets, BudgetKey, Saved)(key)
            && t.historyDeduplicatedItems == SumOf(budgets, BudgetKey, Deduplicated)(key)
            && t.historyCompactedOlderItems == SumOf(budgets, BudgetKey, Compacted)(key)
            && t.promptBudgetSamples == SumOf(budgets, BudgetKey, One<Budget>)(key)
            && t.maxEstimatedPromptTokens == LargestOf(budgets, BudgetKey, Estimated)(key)
            && t.memoryBlockSamples == SumOf(budgets, BudgetKey, MemoryBlocks)(key)
            && t.memoryEstimatedSavedTokens == SumOf(budgets, BudgetKey, MemorySaved)(key)
            && t.artifactRefSamples == SumOf(budgets, BudgetKey, ArtifactRefs)(key)
            && t.artifactOmittedTokens == SumOf(budgets, BudgetKey, ArtifactOmitted)(key)
            && t.skillOmittedTokens == SumOf(budgets, BudgetKey, SkillOmitted)(key)
  {
    hide Sum, Largest, Select;
    SumOfOnes(Select(usages, UsageKey, key));
    SumOfOnes(Select(budgets, BudgetKey, key));
  }

  /** The averages of a line are those over its agent's budgets, truncated towards zero. */
  lemma LineAverages(budgets: seq<Budget>, usages: seq<Usage>, key: string)
    ensures var t := Report(budgets, usages, key);
            var n, e, c := t.promptBudgetSamples, SumOf(budgets, BudgetKey, Estimated)(key),
                           SumOf(budgets, BudgetKey, NonCacheable)(key);
            && (n == 0 ==> t.averageEstimatedPromptTokens == t.averageNonCacheableTokens == 0)
            && (n > 0 && e >= 0 ==> n * t.averageEstimatedPromptTokens <= e < n * t.averageEstimatedPromptTokens + n)
            && (n > 0 && e <= 0 ==> n * t.averageEstimatedPromptTokens - n < e <= n * t.averageEstimatedPromptTokens)
            && (n > 0 ==> n * t.averageNonCacheableTokens <= c < n * t.averageNonCacheableTokens + n)
  {
    hide Quotient, Select, Largest, BudgetKey, UsageKey;
    var own := Select(budgets, BudgetKey, key);
    if own != [] {
      hide Sum;
      QuotientTruncates(Sum(own, Estimated), |own|);
      QuotientTruncates(Sum(own, NonCacheable), |own|);
      NonCacheableIsPositive(own);
    }
  }

  lemma {:induction false} NonCacheableIsPositive(bs: seq<Budget>)
    ensures Sum(bs, NonCacheable) >= 0
  {
    if bs != [] {
      NonCacheableIsPositive(bs[..|bs| - 1]);
    }
  }

  /** The line of an agent with one budget holds the fields of that budget. */
  lemma OneBudgetLine(b: Budget)
    ensures Report([b], [], BudgetKey(b)) ==
            Trend(BudgetKey(b), 1, 0, b.estimatedPromptTokens,
                  if b.estimatedPromptTokens > 0 then b.estimatedPromptTokens else 0,
                  if b.estimatedPromptTokens > b.cacheablePrefixTokens then b.estimatedPromptTokens - b.cacheablePrefixTokens else 0,
                  b.historyEstimatedSavedTokens,
                  b.historyPromptDeduplicatedItems + b.historyToolDeduplicatedItems,
                  b.historyPromptCompactedOlderItems + b.historyToolCompactedOlderItems,
                  b.memoryBlockCount, b.memoryEstimatedSavedTokens, b.artifactRefCount,
                  b.artifactOmittedTokens, b.skillOmittedTokens, 0, 0, 0, 0)
  {
    hide BudgetKey, UsageKey, Select, Sum, Largest, Quotient;
    OnlyOne(b);
    NothingGathered();
    GatherBudget(BudgetKey(b), [], [], b);
    assert [] + [b] == [b];
    QuotientByOne(b.estimatedPromptTokens);
    QuotientByOne(NonCacheable(b));
  }

  lemma OnlyOne(b: Budget)
    ensures Select([b], BudgetKey, BudgetKey(b)) == [b]
    ensures Select<Usage, string>([], UsageKey, BudgetKey(b)) == []
  {
    hide BudgetKey, UsageKey;
    assert [b][..0] == [];
  }

  lemma NothingGathered()
    ensures forall key :: Gathered(key, [], []) == Trend(key, 0, 0, 0, 0, 0, 0, 0, 0, 0, 0, 0, 0, 0, 0, 0, 0, 0)
  {}

  lemma QuotientByOne(a: int)
    ensures Quotient(a, 1) == a
  {}

  /** The line of an agent with one usage holds the fields of that usage; a total that was not reported is the sum of
      its parts. */
  lemma OneUsageLine(u: Usage)
    ensures Report([], [u], UsageKey(u)) ==
            Trend(UsageKey(u), 0, 1, 0, 0, 0, 0, 0, 0, 0, 0, 0, 0, 0, u.promptTokens, u.outputTokens, u.cachedTokens,
                  if u.totalTokens > 0 then u.totalTokens else u.promptTokens + u.outputTokens)
  {
    hide BudgetKey, UsageKey, Select, Sum, Largest;
    OnlyOneUsage(u);
    NothingGathered();
    GatherUsage(UsageKey(u), [], [], u);
    assert [] + [u] == [u];
  }

  lemma OnlyOneUsage(u: Usage)
    ensures Select([u], UsageKey, UsageKey(u)) == [u]
    ensures Select<Budget, string>([], BudgetKey, UsageKey(u)) == []
  {
    hide BudgetKey, UsageKey;
    assert [u][..0] == [];
  }

  /** A sample counts on the line of its own agent only. */
  lemma OthersDoNotCount(budgets: seq<Budget>, usages: seq<Usage>, b: Budget, u: Usage, key: string)
    ensures AgentKey(b.agentId) != key ==> Report(budgets + [b], usages, key) == Report(budgets, usages, key)
    ensures AgentKey(u.agentId) != key ==> Report(budgets, usages + [u], key) == Report(budgets, usages, key)
  {
    hide Sum, Largest, Select, AgentKey;
    SelectSnoc(budgets, b, BudgetKey, key);
    SelectSnoc(usages, u, UsageKey, key);
  }

  /** Tokens and samples over the lines of the report are those of the whole session. */
  lemma UsageIsConserved(budgets: seq<Budget>, usages: seq<Usage>, out: seq<Trend>)
    requires IsReport(budgets, usages, out)
    ensures Sum(out, TrendTotal) == Sum(usages, Total)
    ensures Sum(out, TrendPrompt) == Sum(usages, Prompt)
    ensures Sum(out, TrendOutput) == Sum(usages, Output)
    ensures Sum(out, TrendCached) == Sum(usages, Cached)
    ensures Sum(out, TrendUsageSamples) == |usages|
  {
    hide Report, Sum, SumOf, LargestOf;
    forall i | 0 <= i < |out| ensures
      && out[i].totalTokens == SumOf(usages, UsageKey, Total)(out[i].key)
      && out[i].totalPromptTokens == SumOf(usages, UsageKey, Prompt)(out[i].key)
      && out[i].totalOutputTokens == SumOf(usages, UsageKey, Output)(out[i].key)
      && out[i].totalCachedTokens == SumOf(usages, UsageKey, Cached)(out[i].key)
      && out[i].tokenUsageSamples == SumOf(usages, UsageKey, One<Usage>)(out[i].key)
    {
      LineSums(budgets, usages, out[i].key);
    }
    UsageSumsAdd(budgets, usages, out, Total, TrendTotal);
    UsageSumsAdd(budgets, usages, out, Prompt, TrendPrompt);
    UsageSumsAdd(budgets, usages, out, Output, TrendOutput);
    UsageSumsAdd(budgets, usages, out, Cached, TrendCached);
    UsageSumsAdd(budgets, usages, out, One<Usage>, TrendUsageSamples);
    SumOfOnes(usages);
  }

  /** History savings, samples and the largest prompt over the lines are those of the whole session. */
  lemma BudgetsAreConserved(budgets: seq<Budget>, usages: seq<Usage>, out: seq<Trend>)
    requires IsReport(budgets, usages, out)
    ensures Sum(out, TrendSaved) == Sum(budgets, Saved)
    ensures Sum(out, TrendDeduplicated) == Sum(budgets, Deduplicated)
    ensures Sum(out, TrendCompacted) == Sum(budgets, Compacted)
    ensures Sum(out, TrendBudgetSamples) == |budgets|
    ensures Largest(out, TrendMax) == Largest(budgets, Estimated)
    ensures Sum(out, TrendMemoryBlocks) == Sum(budgets, MemoryBlocks)
    ensures Sum(out, TrendMemorySaved) == Sum(budgets, MemorySaved)
    ensures Sum(out, TrendArtifactRefs) == Sum(budgets, ArtifactRefs)
    ensures Sum(out, TrendArtifactOmitted) == Sum(budgets, ArtifactOmitted)
    ensures Sum(out, TrendSkillOmitted) == Sum(budgets, SkillOmitted)
  {
    hide Report, Sum, SumOf, Largest, LargestOf, BudgetKey, UsageKey;
    forall i | 0 <= i < |out| ensures
      && out[i].historyEstimatedSavedTokens == SumOf(budgets, BudgetKey, Saved)(out[i].key)
      && out[i].historyDeduplicatedItems == SumOf(budgets, BudgetKey, Deduplicated)(out[i].key)
      && out[i].historyCompactedOlderItems == SumOf(budgets, BudgetKey, Compacted)(out[i].key)
      && out[i].promptBudgetSamples == SumOf(budgets, BudgetKey, One<Budget>)(out[i].key)
      && out[i].maxEstimatedPromptTokens == LargestOf(budgets, BudgetKey, Estimated)(out[i].key)
      && out[i].memoryBlockSamples == SumOf(budgets, BudgetKey, MemoryBlocks)(out[i].key)
      && out[i].memoryEstimatedSavedTokens == SumOf(budgets, BudgetKey, MemorySaved)(out[i].key)
      && out[i].artifactRefSamples == SumOf(budgets, BudgetKey, ArtifactRefs)(out[i].key)
      && out[i].artifactOmittedTokens == SumOf(budgets, BudgetKey, ArtifactOmitted)(out[i].key)
      && out[i].skillOmittedTokens == SumOf(budgets, BudgetKey, SkillOmitted)(out[i].key)
    {
      LineSums(budgets, usages, out[i].key);
    }
    BudgetSumsAdd(budgets, usages, out, Saved, TrendSaved);
    BudgetSumsAdd(budgets, usages, out, Deduplicated, TrendDeduplicated);
    BudgetSumsAdd(budgets, usages, out, Compacted, TrendCompacted);
    BudgetSumsAdd(budgets, usages, out, One<Budget>, TrendBudgetSamples);
    SumOfOnes(budgets);
    BudgetSumsAdd(budgets, usages, out, MemoryBlocks, TrendMemoryBlocks);
    BudgetSumsAdd(budgets, usages, out, MemorySaved, TrendMemorySaved);
    BudgetSumsAdd(budgets, usages, out, ArtifactRefs, TrendArtifactRefs);
    BudgetSumsAdd(budgets, usages, out, ArtifactOmitted, TrendArtifactOmitted);
    BudgetSumsAdd(budgets, usages, out, SkillOmitted, TrendSkillOmitted);
    LargestOverLines(out, budgets, BudgetKey, Estimated, TrendMax);
    forall x | x in budgets ensures BudgetKey(x) in KeysOf(out) {
      var i :| 0 <= i < |budgets| && budgets[i] == x;
      assert HasSamples(budgets, usages, BudgetKey(budgets[i]));
    }
    LargestPerKey(KeysOf(out), budgets, BudgetKey, Estimated);
  }

  // ---- The program: summaries ----------------------------------------------------------------------

  method SummarizeTokenUsages(usages: seq<Usage>) returns (prompt: int, output: int, cached: int, total: int)
    ensures prompt == Sum(usages, Prompt) && output == Sum(usages, Output)
    ensures cached == Sum(usages, Cached) && total == Sum(usages, Total)
  {
    prompt, output, cached, total := 0, 0, 0, 0;
    for i := 0 to |usages|
      invariant prompt == Sum(usages[..i], Prompt) && output == Sum(usages[..i], Output)
      invariant cached == Sum(usages[..i], Cached) && total == Sum(usages[..i], Total)
    {
      assert usages[..i + 1][..i] == usages[..i];
      var usage := usages[i];
      prompt := prompt + usage.promptTokens;
      output := output + usage.outputTokens;
      cached := cached + usage.cachedTokens;
      if usage.totalTokens > 0 {
        total := total + usage.totalTokens;
      } else {
        total := total + usage.promptTokens + usage.outputTokens;
      }
    }
    assert usages[..|usages|] == usages;
  }

  method SummarizePromptHistorySavings(budgets: seq<Budget>) returns (saved: int, deduplicated: int, compacted: int)
    ensures saved == Sum(budgets, Saved) && deduplicated == Sum(budgets, Deduplicated)
    ensures compacted == Sum(budgets, Compacted)
  {
    saved, deduplicated, compacted := 0, 0, 0;
    for i := 0 to |budgets|
      invariant saved == Sum(budgets[..i], Saved) && deduplicated == Sum(budgets[..i], Deduplicated)
      invariant compacted == Sum(budgets[..i], Compacted)
    {
      assert budgets[..i + 1][..i] == budgets[..i];
      var budget := budgets[i];
      saved := saved + budget.historyEstimatedSavedTokens;
      deduplicated := deduplicated + (budget.historyPromptDeduplicatedItems + budget.historyToolDeduplicatedItems);
      compacted := compacted + (budget.historyPromptCompactedOlderItems + budget.historyToolCompactedOlderItems);
    }
    assert budgets[..|budgets|] == budgets;
  }

  /** The prefix hashes that are not blank. */
  function Prefixes(budgets: seq<Budget>): set<string> {
    set i | 0 <= i < |budgets| && TrimSpace(budgets[i].promptPrefixHash) != "" :: budgets[i].promptPrefixHash
  }

  method SummarizePromptBudgets(budgets: seq<Budget>)
    returns (avgPrompt: int, maxPrompt: int, avgCacheable: int, avgNonCacheable: int, uniquePrefixes: nat)
    ensures budgets == [] ==> avgPrompt == avgCacheable == avgNonCacheable == 0
    ensures budgets != [] ==> avgPrompt == Quotient(Sum(budgets, Estimated), |budgets|)
    ensures budgets != [] ==> avgCacheable == Quotient(Sum(budgets, Cacheable), |budgets|)
    ensures budgets != [] ==> avgNonCacheable == Quotient(Sum(budgets, NonCacheable), |budgets|)
    ensures maxPrompt == Largest(budgets, Estimated) && uniquePrefixes == |Prefixes(budgets)|
  {
    hide TrimSpace;
    maxPrompt := 0;
    if |budgets| == 0 {
      return 0, 0, 0, 0, 0;
    }
    var prefixes: set<string> := {};
    var totalPrompt, totalCacheable, totalNonCacheable := 0, 0, 0;
    for i := 0 to |budgets|
      invariant totalPrompt == Sum(budgets[..i], Estimated) && totalCacheable == Sum(budgets[..i], Cacheable)
      invariant totalNonCacheable == Sum(budgets[..i], NonCacheable) && maxPrompt == Largest(budgets[..i], Estimated)
      invariant prefixes == Prefixes(budgets[..i])
    {
      assert budgets[..i + 1][..i] == budgets[..i];
      var budget := budgets[i];
      totalPrompt := totalPrompt + budget.estimatedPromptTokens;
      totalCacheable := totalCacheable + budget.cacheablePrefixTokens;
      totalNonCacheable := totalNonCacheable + NonCacheable(budget);
      if budget.estimatedPromptTokens > maxPrompt {
        maxPrompt := budget.estimatedPromptTokens;
      }
      PrefixesSnoc(budgets, i);
      if TrimSpace(budget.promptPrefixHash) != "" {
        prefixes := prefixes + {budget.promptPrefixHash};
      }
    }
    assert budgets[..|budgets|] == budgets;
    avgPrompt, avgCacheable := Quotient(totalPrompt, |budgets|), Quotient(totalCacheable, |budgets|);
    avgNonCacheable, uniquePrefixes := Quotient(totalNonCacheable, |budgets|), |prefixes|;
  }

  lemma PrefixesSnoc(budgets: seq<Budget>, i: nat)
    requires i < |budgets|
    ensures Prefixes(budgets[..i + 1]) ==
            Prefixes(budgets[..i]) +
            if TrimSpace(budgets[i].promptPrefixHash) != "" then {budgets[i].promptPrefixHash} else {}
  {
    hide TrimSpace;
    var before, after := budgets[..i], budgets[..i + 1];
    assert after[i] == budgets[i] && forall j | 0 <= j < i :: after[j] == before[j];
  }

  // ---- The program: the report -----------------------------------------------------------------------

  /** What a pointer of the map of items points to. */
  class TrendItem {
    var trend: Trend

    constructor (key: string)
      ensures trend == Gathered(key, [], [])
    {
      trend := Gathered(key, [], []);
    }
  }

  type Items = map<string, TrendItem>

  /** Every agent seen so far has its own item, which holds what was gathered from its samples. */
  ghost predicate Holding(items: Items, budgets: seq<Budget>, usages: seq<Usage>)
    reads items.Values
  {
    && (forall k :: k in items <==> HasSamples(budgets, usages, k))
    && (forall j, k | j in items && k in items && j != k :: items[j] != items[k])
    && (forall k | k in items ::
          items[k].trend == Gathered(k, Select(budgets, BudgetKey, k), Select(usages, UsageKey, k)))
  }

  lemma SelectNone<T>(s: seq<T>, key: T -> string, k: string)
    requires forall i | 0 <= i < |s| :: key(s[i]) != k
    ensures Select(s, key, k) == []
  {
    SelectMembers(s, key, k);
  }

  /** ensureCLICostTrend: the item of the key, a new one if there is none. */
  method EnsureCliCostTrend(items: Items, key: string) returns (item: TrendItem, more: Items)
    ensures key in more && more[key] == item && more.Keys == items.Keys + {key}
    ensures forall k | k in items :: more[k] == items[k]
    ensures key !in items ==> fresh(item) && item.trend == Gathered(key, [], [])
  {
    if key in items {
      return items[key], items;
    }
    item := new TrendItem(key);
    more := items[key := item];
  }

  method AddBudgetSample(items: Items, ghost budgets: seq<Budget>, ghost usages: seq<Usage>, budget: Budget)
    returns (more: Items)
    requires Holding(items, budgets, usages)
    modifies items.Values
    ensures Holding(more, budgets + [budget], usages) && fresh(more.Values - items.Values)
  {
    hide Gathered, AgentKey, HasSamples, TrimSpace, Select, AddBudget;
    var key := BudgetKey(budget);
    NewSampleKeys(budgets, usages, budget);
    var item;
    item, more := EnsureCliCostTrend(items, key);
    ghost var bs, us := Select(budgets, BudgetKey, key), Select(usages, UsageKey, key);
    if key !in items {
      NoSamplesNothing(budgets, usages, key);
    }
    assert item.trend == Gathered(key, bs, us);
    item.trend := AddBudget(item.trend, budget);
    GatherBudget(key, bs, us, budget);
    forall k | k in more
      ensures more[k].trend == Gathered(k, Select(budgets + [budget], BudgetKey, k), Select(usages, UsageKey, k))
    {
      SelectSnoc(budgets, budget, BudgetKey, k);
      assert k != key ==> more[k] == items[k] != item;
    }
  }

  method AddUsageSample(items: Items, ghost budgets: seq<Budget>, ghost usages: seq<Usage>, usage: Usage)
    returns (more: Items)
    requires Holding(items, budgets, usages)
    modifies items.Values
    ensures Holding(more, budgets, usages + [usage]) && fresh(more.Values - items.Values)
  {
    hide Gathered, AgentKey, HasSamples, TrimSpace, Select, AddUsage;
    var key := UsageKey(usage);
    NewUsageKeys(budgets, usages, usage);
    var item;
    item, more := EnsureCliCostTrend(items, key);
    ghost var bs, us := Select(budgets, BudgetKey, key), Select(usages, UsageKey, key);
    if key !in items {
      NoSamplesNothing(budgets, usages, key);
    }
    assert item.trend == Gathered(key, bs, us);
    item.trend := AddUsage(item.trend, usage);
    GatherUsage(key, bs, us, usage);
    forall k | k in more
      ensures more[k].trend == Gathered(k, Select(budgets, BudgetKey, k), Select(usages + [usage], UsageKey, k))
    {
      SelectSnoc(usages, usage, UsageKey, k);
      assert k != key ==> more[k] == items[k] != item;
    }
  }

  lemma SelectSnoc<T>(s: seq<T>, x: T, key: T -> string, k: string)
    ensures Select(s + [x], key, k) == if key(x) == k then Select(s, key, k) + [x] else Select(s, key, k)
  {
    assert (s + [x])[..|s|] == s;
    assert Select(s, key, k) + [] == Select(s, key, k);
  }

  lemma NewSampleKeys(budgets: seq<Budget>, usages: seq<Usage>, budget: Budget)
    ensures forall k :: HasSamples(budgets + [budget], usages, k) <==> HasSamples(budgets, usages, k) || k == BudgetKey(budget)
  {
    hide BudgetKey, UsageKey;
    var more := budgets + [budget];
    assert more[|budgets|] == budget && forall i | 0 <= i < |budgets| :: more[i] == budgets[i];
  }

  lemma NewUsageKeys(budgets: seq<Budget>, usages: seq<Usage>, usage: Usage)
    ensures forall k :: HasSamples(budgets, usages + [usage], k) <==> HasSamples(budgets, usages, k) || k == UsageKey(usage)
  {
    hide BudgetKey, UsageKey;
    var more := usages + [usage];
    assert more[|usages|] == usage && forall i | 0 <= i < |usages| :: more[i] == usages[i];
  }

  lemma NoSamplesNothing(budgets: seq<Budget>, usages: seq<Usage>, key: string)
    requires !HasSamples(budgets, usages, key)
    ensures Select(budgets, BudgetKey, key) == [] && Select(usages, UsageKey, key) == []
  {
    hide BudgetKey, UsageKey;
    SelectNone(budgets, BudgetKey, key);
    SelectNone(usages, UsageKey, key);
  }

  /** The lines of the items, in whatever order the keys of the map are visited. */
  method CollectLines(items: Items, ghost budgets: seq<Budget>, ghost usages: seq<Usage>) returns (out: seq<Trend>)
    requires Holding(items, budgets, usages)
    ensures forall i | 0 <= i < |out| :: out[i] == Report(budgets, usages, out[i].key)
    ensures Distinct(KeysOf(out)) && forall k :: k in KeysOf(out) <==> k in items
  {
    hide Gathered, HasSamples, Select;
    out := [];
    var rest := items.Keys;
    while rest != {}
      invariant rest <= items.Keys
      invariant forall i | 0 <= i < |out| :: out[i] == Report(budgets, usages, out[i].key)
      invariant Distinct(KeysOf(out))
      invariant forall k :: k in KeysOf(out) <==> k in items && k !in rest
      decreases rest
    {
      var key :| key in rest;
      ghost var before := KeysOf(out);
      ReportKey(budgets, usages, key);
      out := out + [Averaged(items[key].trend)];
      assert KeysOf(out) == before + [key];
      rest := rest - {key};
    }
  }

  method GatherBudgets(budgets: seq<Budget>) returns (items: Items)
    ensures Holding(items, budgets, []) && fresh(items.Values)
  {
    hide HasSamples, Gathered, Select;
    items := map[];
    NothingHeld(items);
    assert budgets[..0] == [];
    for i := 0 to |budgets|
      invariant Holding(items, budgets[..i], []) && fresh(items.Values)
    {
      items := AddBudgetSample(items, budgets[..i], [], budgets[i]);
      assert budgets[..i + 1] == budgets[..i] + [budgets[i]];
    }
    assert budgets[..|budgets|] == budgets;
  }

  method GatherUsages(start: Items, ghost budgets: seq<Budget>, usages: seq<Usage>) returns (items: Items)
    requires Holding(start, budgets, [])
    modifies start.Values
    ensures Holding(items, budgets, usages) && fresh(items.Values - start.Values)
  {
    hide HasSamples, Gathered, Select;
    items := start;
    assert usages[..0] == [];
    for i := 0 to |usages|
      invariant Holding(items, budgets, usages[..i]) && fresh(items.Values - start.Values)
    {
      items := AddUsageSample(items, budgets, usages[..i], usages[i]);
      assert usages[..i + 1] == usages[..i] + [usages[i]];
    }
    assert usages[..|usages|] == usages;
  }

  /** buildCLICostTrends */
  method BuildCliCostTrends(budgets: seq<Budget>, usages: seq<Usage>) returns (out: seq<Trend>)
    ensures IsReport(budgets, usages, out)
  {
    hide Report, TrendLe;
    var items := GatherBudgets(budgets);
    items := GatherUsages(items, budgets, usages);
    out := CollectLines(items, budgets, usages);
    out := SortLines(budgets, usages, out);
  }

  lemma NothingHeld(items: Items)
    requires items == map[]
    ensures Holding(items, [], [])
  {}

  method SortLines(ghost budgets: seq<Budget>, ghost usages: seq<Usage>, lines: seq<Trend>) returns (out: seq<Trend>)
    requires forall i | 0 <= i < |lines| :: lines[i] == Report(budgets, usages, lines[i].key)
    requires Distinct(KeysOf(lines)) && forall k :: k in KeysOf(lines) <==> HasSamples(budgets, usages, k)
    ensures IsReport(budgets, usages, out)
  {
    hide Report, HasSamples, TrendLe;
    out := Sorting.Sort(TrendLe, lines);
    TrendLeIsPreorder();
    Sorting.SortSorted(TrendLe, lines);
    PermutedLines(budgets, usages, lines, out);
  }

  lemma PermutedLines(budgets: seq<Budget>, usages: seq<Usage>, lines: seq<Trend>, out: seq<Trend>)
    requires multiset(out) == multiset(lines) && Distinct(KeysOf(lines))
    requires forall i | 0 <= i < |lines| :: lines[i] == Report(budgets, usages, lines[i].key)
    ensures forall i | 0 <= i < |out| :: out[i] == Report(budgets, usages, out[i].key)
    ensures Distinct(KeysOf(out))
    ensures forall k :: k in KeysOf(out) <==> k in KeysOf(lines)
  {
    hide Report;
    forall x ensures x in out <==> x in lines {
      assert x in multiset(out) <==> x in multiset(lines);
    }
    forall i | 0 <= i < |out| ensures out[i] == Report(budgets, usages, out[i].key) {
      assert out[i] in lines;
    }
    forall k ensures k in KeysOf(out) <==> k in KeysOf(lines) {
      LineOfKey(budgets, usages, lines, k);
      LineOfKey(budgets, usages, out, k);
    }
    LinesDistinct(lines);
    forall i, j | 0 <= i < j < |out| ensures KeysOf(out)[i] != KeysOf(out)[j] {
      if out[i] == out[j] {
        assert multiset(out)[out[i]] >= 2 by { TwiceCounted(out, i, j); }
        DistinctCount(lines, out[i]);
      }
    }
  }

  lemma LineOfKey(budgets: seq<Budget>, usages: seq<Usage>, lines: seq<Trend>, k: string)
    requires forall i | 0 <= i < |lines| :: lines[i] == Report(budgets, usages, lines[i].key)
    ensures k in KeysOf(lines) <==> Report(budgets, usages, k) in lines
  {
    hide Report;
    ReportKey(budgets, usages, k);
    if Report(budgets, usages, k) in lines {
      var i :| 0 <= i < |lines| && lines[i] == Report(budgets, usages, k);
      assert KeysOf(lines)[i] == k;
    }
    if k in KeysOf(lines) {
      var i :| 0 <= i < |lines| && KeysOf(lines)[i] == k;
      assert lines[i] in lines;
    }
  }

  lemma LinesDistinct(lines: seq<Trend>)
    requires Distinct(KeysOf(lines))
    ensures Distinct(lines)
  {
    forall i, j | 0 <= i < j < |lines| ensures lines[i] != lines[j] {
      assert KeysOf(lines)[i] != KeysOf(lines)[j];
    }
  }

  lemma TwiceCounted<T>(s: seq<T>, i: nat, j: nat)
    requires i < j < |s| && s[i] == s[j]
    ensures multiset(s)[s[i]] >= 2
  {
    assert s == s[..i] + [s[i]] + s[i + 1..j] + [s[j]] + s[j + 1..];
  }
}
