/** Normalising the names of new resources (normalizeNewSkillName) and the names under which they are
    looked up (normalizeCLIResourceName). */
module ResourceNames {
  import opened Text

  predicate IsSlugRune(c: char) {
    'a' <= c <= 'z' || '0' <= c <= '9'
  }

  predicate IsUpper(c: char) {
    'A' <= c <= 'Z'
  }

  predicate IsWordRune(c: char) {
    IsSlugRune(c) || IsUpper(c)
  }

  predicate IsSeparator(c: char) {
    c == '-' || c == '_' || IsSpace(c)
  }

  predicate IsDash(c: char) {
    c == '-'
  }

  function Lowered(c: char): char {
    if IsUpper(c) then (c as int + 32) as char else c
  }

  // ---- What a name consists of -----------------------------------------------------------------

  /** The maximal runs of letters and digits, lowered. */
  function Words(s: string): (r: seq<string>)
    ensures forall i | 0 <= i < |r| :: r[i] != ""
    ensures s != "" && IsWordRune(s[|s| - 1]) ==> r != []
  {
    if s == "" then []
    else
      var init, c := s[..|s| - 1], s[|s| - 1];
      if !IsWordRune(c) then Words(init)
      else if init != "" && IsWordRune(init[|init| - 1]) then
        var before := Words(init);
        before[..|before| - 1] + [before[|before| - 1] + [Lowered(c)]]
      else Words(init) + [[Lowered(c)]]
  }

  function Slug(s: string): string {
    Join(Words(s), "-")
  }

  /** [a-z0-9]+(-[a-z0-9]+)* */
  predicate IsSlug(s: string) {
    && s != "" && s[0] != '-' && s[|s| - 1] != '-'
    && (forall i | 0 <= i < |s| :: IsSlugRune(s[i]) || s[i] == '-')
    && (forall i | 0 < i < |s| :: s[i - 1] != '-' || s[i] != '-')
  }

  datatype Name = Ok(name: string) | Required | Unsupported(c: char) | NoLetters

  /** The first rune that is neither part of a word nor a separator, or -1. */
  function FirstUnsupported(s: string, i: nat): (at: int)
    ensures at == -1 || (i <= at < |s| && !IsWordRune(s[at]) && !IsSeparator(s[at]))
    ensures forall k | i <= k < |s| && (at == -1 || k < at) :: IsWordRune(s[k]) || IsSeparator(s[k])
    decreases |s| - i
  {
    if i >= |s| then -1
    else if !IsWordRune(s[i]) && !IsSeparator(s[i]) then i
    else FirstUnsupported(s, i + 1)
  }

  function Normalized(input: string): Name {
    var s := TrimSpace(input);
    if s == "" then Required
    else if FirstUnsupported(s, 0) >= 0 then Unsupported(s[FirstUnsupported(s, 0)])
    else if Slug(s) == "" then NoLetters
    else Ok(Slug(s))
  }

  // ---- Properties of slugs ---------------------------------------------------------------------

  predicate WordsOk(words: seq<string>) {
    forall i | 0 <= i < |words| :: words[i] != "" && forall k | 0 <= k < |words[i]| :: IsSlugRune(words[i][k])
  }

  lemma {:induction false} WordsAreOk(s: string)
    ensures WordsOk(Words(s))
  {
    if s != "" {
      WordsAreOk(s[..|s| - 1]);
    }
  }

  lemma {:induction false} JoinIsSlug(words: seq<string>)
    requires WordsOk(words) && words != []
    ensures IsSlug(Join(words, "-"))
  {
    if |words| > 1 {
      var init, last := words[..|words| - 1], words[|words| - 1];
      JoinIsSlug(init);
      var front := Join(init, "-");
      var s := front + "-" + last;
      assert Join(words, "-") == s;
      assert s[|front|] == '-' && s[|front| + 1] == last[0];
      assert forall i | 0 <= i < |front| :: s[i] == front[i];
      assert forall i | |front| < i < |s| :: s[i] == last[i - |front| - 1];
    }
  }

  /** Joining the words of a text that is a slug up to a last dash gives the text without the dash. */
  lemma {:induction false} SlugOfSlug(s: string)
    requires s != "" ==> s[0] != '-'
    requires forall i | 0 <= i < |s| :: IsSlugRune(s[i]) || s[i] == '-'
    requires forall i | 0 < i < |s| :: s[i - 1] != '-' || s[i] != '-'
    ensures Slug(s) == if s != "" && s[|s| - 1] == '-' then s[..|s| - 1] else s
  {
    hide Join;
    NoWordsIffEmpty([]);
    if s != "" {
      var init, c := s[..|s| - 1], s[|s| - 1];
      SlugOfSlug(init);
      assert s == init + [c];
      var before := Words(init);
      if c != '-' {
        if init == "" {
          JoinSnoc([], "-", [c]);
        } else if init[|init| - 1] == '-' {
          assert Slug(init) != "";
          JoinSnoc(before, "-", [c]);
          assert Slug(init) + "-" == init;
          assert Slug(s) == Slug(init) + "-" + [c];
        } else {
          JoinLonger(before, c);
        }
      }
    }
  }

  lemma JoinLonger(words: seq<string>, c: char)
    requires words != []
    ensures Join(words[..|words| - 1] + [words[|words| - 1] + [c]], "-") == Join(words, "-") + [c]
  {
    hide Join;
    var init, last := words[..|words| - 1], words[|words| - 1];
    assert words == init + [last];
    LastWordGrows(init, last, c);
  }

  lemma LastWordGrows(init: seq<string>, last: string, c: char)
    ensures Join(init + [last + [c]], "-") == Join(init + [last], "-") + [c]
  {
    hide Join;
    JoinSnoc(init, "-", last);
    JoinSnoc(init, "-", last + [c]);
    AppendAssociates(Join(init, "-") + "-", last, [c]);
  }

  /** Every accepted name is a slug. */
  lemma AcceptedIsSlug(input: string)
    requires Normalized(input).Ok?
    ensures IsSlug(Normalized(input).name)
  {
    hide Words, IsSlug;
    var words := Words(TrimSpace(input));
    WordsAreOk(TrimSpace(input));
    JoinIsSlug(words);
  }

  lemma SlugRuneIsNoSpace(c: char)
    requires IsSlugRune(c) || c == '-'
    ensures !IsSpace(c)
  {}

  lemma SlugIsTrimmed(name: string)
    requires IsSlug(name)
    ensures TrimSpace(name) == name && Trim(name, IsDash) == name
  {
    hide IsSpace, Trim;
    SlugRuneIsNoSpace(name[0]);
    SlugRuneIsNoSpace(name[|name| - 1]);
    TrimFixed(name, IsSpace);
    TrimFixed(name, IsDash);
  }

  lemma SlugIsSupported(name: string)
    requires IsSlug(name)
    ensures FirstUnsupported(name, 0) == -1
  {
    hide FirstUnsupported, IsSpace;
  }

  /** The names that are left as they are are exactly the slugs. */
  lemma FixedIffSlug(name: string)
    ensures Normalized(name) == Ok(name) <==> IsSlug(name)
  {
    hide TrimSpace, FirstUnsupported, Words, Join;
    if IsSlug(name) {
      SlugOfSlug(name);
      SlugIsTrimmed(name);
      SlugIsSupported(name);
    }
    if Normalized(name) == Ok(name) {
      AcceptedIsSlug(name);
    }
  }

  /** Normalising twice is normalising once. */
  lemma NormalizedIsFixed(input: string)
    requires Normalized(input).Ok?
    ensures Normalized(Normalized(input).name) == Normalized(input)
  {
    hide Normalized, IsSlug;
    AcceptedIsSlug(input);
    FixedIffSlug(Normalized(input).name);
  }

  /** The letters and digits of a text, lowered. */
  function Letters(s: string): string {
    if s == "" then ""
    else Letters(s[..|s| - 1]) + if IsWordRune(s[|s| - 1]) then [Lowered(s[|s| - 1])] else ""
  }

  lemma LettersSnoc(s: string, c: char)
    ensures Letters(s + [c]) == Letters(s) + if IsWordRune(c) then [Lowered(c)] else ""
  {
    assert (s + [c])[..|s|] == s;
  }

  /** A lowered letter or digit that joins the last word, or starts a new one after a dash. */
  lemma LettersOfJoin(words: seq<string>, c: char)
    requires IsSlugRune(c)
    ensures words != [] ==>
              Letters(Join(words[..|words| - 1] + [words[|words| - 1] + [c]], "-")) == Letters(Join(words, "-")) + [c]
    ensures Letters(Join(words + [[c]], "-")) == Letters(Join(words, "-")) + [c]
  {
    hide Join;
    if words != [] {
      JoinLonger(words, c);
      LettersSnoc(Join(words, "-"), c);
      LettersSnoc(Join(words, "-"), '-');
      LettersSnoc(Join(words, "-") + "-", c);
    } else {
      LettersSnoc("", c);
      assert "" + [c] == [c] && Join([], "-") == "" by { NoWordsIffEmpty([]); }
    }
    JoinSnoc(words, "-", [c]);
  }

  /** No letter or digit is lost or reordered. */
  lemma {:induction false} SlugKeepsLetters(s: string)
    ensures Letters(Slug(s)) == Letters(s)
  {
    hide Join;
    if s != "" {
      var init, c := s[..|s| - 1], s[|s| - 1];
      SlugKeepsLetters(init);
      if IsWordRune(c) {
        LettersOfJoin(Words(init), Lowered(c));
      }
    } else {
      NoWordsIffEmpty([]);
    }
  }

  // ---- Every input ---------------------------------------------------------------------------------

  predicate IsLetterOrDigit(c: char) {
    'a' <= c <= 'z' || 'A' <= c <= 'Z' || '0' <= c <= '9'
  }

  predicate AllLettersOrDigits(s: string) {
    forall i | 0 <= i < |s| :: IsLetterOrDigit(s[i])
  }

  /** Dashes, underscores and white space. */
  predicate AllBetween(s: string) {
    forall i | 0 <= i < |s| :: s[i] == '-' || s[i] == '_' || IsSpace(s[i])
  }

  /** The same letters and digits with the capitals made small. */
  predicate IsSmallOf(small: string, word: string) {
    |small| == |word| && forall i | 0 <= i < |word| ::
      small[i] as int == word[i] as int + if 'A' <= word[i] <= 'Z' then 'a' as int - 'A' as int else 0
  }

  lemma RuneClasses(c: char)
    ensures IsWordRune(c) <==> IsLetterOrDigit(c)
    ensures IsSeparator(c) <==> c == '-' || c == '_' || IsSpace(c)
    ensures !(IsWordRune(c) && IsSeparator(c))
  {}

  lemma {:induction false} GapIsSkipped(s: string, gap: string)
    requires AllBetween(gap)
    ensures Words(s + gap) == Words(s)
  {
    if gap == "" {
      assert s + gap == s;
    } else {
      var init, c := gap[..|gap| - 1], gap[|gap| - 1];
      assert (s + gap)[..|s + gap| - 1] == s + init && (s + gap)[|s + gap| - 1] == c;
      RuneClasses(c);
      GapIsSkipped(s, init);
    }
  }

  lemma RuneStartsWord(s: string, c: char)
    requires (s == "" || !IsWordRune(s[|s| - 1])) && IsWordRune(c)
    ensures Words(s + [c]) == Words(s) + [[Lowered(c)]]
  {
    assert (s + [c])[..|s|] == s;
  }

  lemma RuneGrowsWord(s: string, words: seq<string>, word: string, c: char)
    requires s != "" && IsWordRune(s[|s| - 1]) && IsWordRune(c) && Words(s) == words + [word]
    ensures Words(s + [c]) == words + [word + [Lowered(c)]]
  {
    assert (s + [c])[..|s|] == s && (words + [word])[..|words|] == words;
  }

  lemma LastIsSmall(word: string, small: string)
    requires word != "" && AllLettersOrDigits(word) && IsSmallOf(small, word)
    ensures var init, front, c := word[..|word| - 1], small[..|small| - 1], word[|word| - 1];
            && |small| == |word| && AllLettersOrDigits(init) && IsSmallOf(front, init) && small == front + [Lowered(c)] && IsWordRune(c)
            && (init != "" ==> IsWordRune(init[|init| - 1]))
  {}

  lemma EndsOutsideWord(s: string)
    requires s == "" || !IsLetterOrDigit(s[|s| - 1])
    ensures s == "" || !IsWordRune(s[|s| - 1])
  {}

  /** A run of letters and digits that follows something else is one more word. */
  lemma {:induction false} WordIsAdded(s: string, word: string, small: string)
    requires s == "" || !IsLetterOrDigit(s[|s| - 1])
    requires word != "" && AllLettersOrDigits(word) && IsSmallOf(small, word)
    ensures Words(s + word) == Words(s) + [small]
  {
    hide Words, AllLettersOrDigits, IsSmallOf, IsWordRune, IsLetterOrDigit, Lowered;
    LastIsSmall(word, small);
    var init, c, front := word[..|word| - 1], word[|word| - 1], small[..|small| - 1];
    if init == "" {
      assert s + word == s + [c] && small == [Lowered(c)] by {
        assert front == "";
      }
      EndsOutsideWord(s);
      RuneStartsWord(s, c);
    } else {
      WordIsAdded(s, init, front);
      assert s + word == (s + init) + [c] && (s + init)[|s + init| - 1] == init[|init| - 1];
      RuneGrowsWord(s + init, Words(s), front, c);
    }
  }

  lemma {:induction false} LeadIsSkipped(gap: string, s: string)
    requires AllBetween(gap)
    ensures Words(gap + s) == Words(s)
  {
    if s == "" {
      GapIsSkipped("", gap);
      assert gap + s == "" + gap;
    } else {
      var init, c := s[..|s| - 1], s[|s| - 1];
      var text := gap + s;
      assert text[..|text| - 1] == gap + init && text[|text| - 1] == c;
      LeadIsSkipped(gap, init);
      if init == "" && gap != "" {
        RuneClasses(gap[|gap| - 1]);
        assert gap + init == gap;
      } else if init != "" {
        assert (gap + init)[|gap + init| - 1] == init[|init| - 1];
      }
    }
  }

  /** A word, what stands before it, and how it is written small. */
  datatype Part = Part(gap: string, word: string, small: string)

  predicate PartsOk(parts: seq<Part>) {
    forall i | 0 <= i < |parts| ::
      && AllBetween(parts[i].gap) && (i > 0 ==> parts[i].gap != "")
      && parts[i].word != "" && AllLettersOrDigits(parts[i].word) && IsSmallOf(parts[i].small, parts[i].word)
  }

  function Spread(parts: seq<Part>): string {
    if parts == [] then ""
    else Spread(parts[..|parts| - 1]) + parts[|parts| - 1].gap + parts[|parts| - 1].word
  }

  function Smalls(parts: seq<Part>): (r: seq<string>)
    ensures |r| == |parts| && forall i | 0 <= i < |r| :: r[i] == parts[i].small
  {
    seq(|parts|, i requires 0 <= i < |parts| => parts[i].small)
  }

  lemma {:induction false} WordsOfParts(parts: seq<Part>)
    requires PartsOk(parts)
    ensures Words(Spread(parts)) == Smalls(parts)
  {
    hide AllBetween, AllLettersOrDigits, IsSmallOf, Words;
    if parts == [] {
      NoWords();
    } else {
      var init, last := parts[..|parts| - 1], parts[|parts| - 1];
      WordsOfParts(init);
      var front := Spread(init) + last.gap;
      GapIsSkipped(Spread(init), last.gap);
      GapEnds(Spread(init), last.gap, init == []);
      WordIsAdded(front, last.word, last.small);
      assert Smalls(parts) == Smalls(init) + [last.small];
    }
  }

  lemma NoWords()
    ensures Words("") == []
  {}

  lemma GapEnds(s: string, gap: string, first: bool)
    requires AllBetween(gap) && (if first then s == "" else gap != "")
    ensures s + gap == "" || !IsLetterOrDigit((s + gap)[|s + gap| - 1])
  {
    if gap != "" {
      RuneClasses(gap[|gap| - 1]);
    } else {
      assert s + gap == "";
    }
  }

  predicate AllSupported(s: string) {
    forall i | 0 <= i < |s| :: IsLetterOrDigit(s[i]) || s[i] == '-' || s[i] == '_' || IsSpace(s[i])
  }

  lemma {:induction false} SupportedParts(parts: seq<Part>)
    requires PartsOk(parts)
    ensures AllSupported(Spread(parts))
  {
    hide IsSpace, IsLetterOrDigit;
    if parts != [] {
      SupportedParts(parts[..|parts| - 1]);
    }
  }

  lemma NothingUnsupported(s: string)
    requires AllSupported(s)
    ensures FirstUnsupported(s, 0) == -1
  {
    hide IsSpace, IsLetterOrDigit, FirstUnsupported;
    forall i | 0 <= i < |s| ensures IsWordRune(s[i]) || IsSeparator(s[i]) {
      RuneClasses(s[i]);
    }
  }

  /** Trimming changes neither the words nor what is unsupported. */
  lemma TrimmedHasSameWords(input: string)
    ensures Words(TrimSpace(input)) == Words(input)
    ensures AllSupported(input) ==> FirstUnsupported(TrimSpace(input), 0) == -1
  {
    hide IsSpace, TrimSpace, Words, FirstUnsupported, IsLetterOrDigit;
    var before, after := TrimSplits(input);
    var core := TrimSpace(input);
    GapIsSkipped(before + core, after);
    LeadIsSkipped(before, core);
    if AllSupported(input) {
      forall i | 0 <= i < |core|
        ensures IsLetterOrDigit(core[i]) || core[i] == '-' || core[i] == '_' || IsSpace(core[i])
      {
        assert core[i] == input[|before| + i];
      }
      NothingUnsupported(core);
    }
  }

  /** Words of letters and digits with anything of dashes, underscores and white space around and between them become
      their small forms with single dashes between them. */
  lemma WordsAreJoined(parts: seq<Part>, trail: string)
    requires PartsOk(parts) && parts != [] && AllBetween(trail)
    ensures Normalized(Spread(parts) + trail) == Ok(Join(Smalls(parts), "-"))
  {
    hide IsSpace, TrimSpace, Words, FirstUnsupported, Join, IsLetterOrDigit;
    var input := Spread(parts) + trail;
    TrimmedHasSameWords(input);
    GapIsSkipped(Spread(parts), trail);
    WordsOfParts(parts);
    SupportedParts(parts);
    NoWordsIffEmpty(Smalls(parts));
    NoWords();
    assert TrimSpace(input) != "";
  }

  /** Blank input has no name, other separators have no letters, and the first rune that is neither a letter, a digit
      nor a separator is reported. */
  lemma OtherInputsAreErrors(input: string, before: string, c: char, after: string)
    ensures AllSpace(input) ==> Normalized(input) == Required
    ensures AllBetween(input) && !AllSpace(input) ==> Normalized(input) == NoLetters
    ensures AllSupported(before) && !IsLetterOrDigit(c) && c != '-' && c != '_' && !IsSpace(c) ==>
              Normalized(before + [c] + after) == Unsupported(c)
  {
    hide IsSpace, TrimSpace, Words, FirstUnsupported, Join, IsLetterOrDigit, Normalized;
    BlankIsRequired(input);
    if AllBetween(input) && !AllSpace(input) {
      SeparatorsHaveNoLetters(input);
    }
    if AllSupported(before) && !IsLetterOrDigit(c) && c != '-' && c != '_' && !IsSpace(c) {
      FirstBadRuneIsReported(before, c, after);
    }
  }

  lemma BlankIsRequired(input: string)
    ensures AllSpace(input) ==> Normalized(input) == Required
  {
    hide IsSpace, TrimSpace, Words, FirstUnsupported, Join;
    BlankIsTrimmed(input);
  }

  lemma SeparatorsHaveNoLetters(input: string)
    requires AllBetween(input) && !AllSpace(input)
    ensures Normalized(input) == NoLetters
  {
    hide IsSpace, TrimSpace, Words, FirstUnsupported, Join;
    BlankIsTrimmed(input);
    TrimmedHasSameWords(input);
    GapIsSkipped("", input);
    assert "" + input == input;
    NoWords();
    NoWordsIffEmpty([]);
  }

  lemma FirstBadRuneIsReported(before: string, c: char, after: string)
    requires AllSupported(before) && !IsLetterOrDigit(c) && c != '-' && c != '_' && !IsSpace(c)
    ensures Normalized(before + [c] + after) == Unsupported(c)
  {
    hide IsSpace, TrimSpace, Words, FirstUnsupported, Join, IsLetterOrDigit;
    var input := before + [c] + after;
    var left, right := TrimSplits(input);
    var s := TrimSpace(input);
    assert input[|before|] == c;
    assert forall i | 0 <= i < |left| :: left[i] == input[i];
    assert forall i | |left| + |s| <= i < |input| :: input[i] == right[i - |left| - |s|];
    assert |left| <= |before| < |left| + |s|;
    var at := |before| - |left|;
    assert s[at] == c;
    RuneClasses(c);
    forall k | 0 <= k < at ensures IsWordRune(s[k]) || IsSeparator(s[k]) {
      assert s[k] == input[|left| + k] == before[|left| + k];
      RuneClasses(s[k]);
    }
  }

  // ---- Looking names up --------------------------------------------------------------------------

  function DashForSpace(s: string): (r: string)
    ensures |r| == |s| && forall i | 0 <= i < |s| :: r[i] == if s[i] == ' ' then '-' else s[i]
  {
    seq(|s|, i requires 0 <= i < |s| => if s[i] == ' ' then '-' else s[i])
  }

  /** normalizeCLIResourceName */
  function CliResourceName(lower: char -> char, name: string): string {
    Trim(MapRunes(lower, DashForSpace(TrimSpace(name))), IsDash)
  }

  /** A name is looked up without blanks and dashes around it, lowered, with a dash for every space in it. */
  lemma NameIsLookedUpAs(lower: char -> char, before: string, front: string, core: string, back: string, after: string)
    requires AllSpace(before) && AllSpace(after) && IsTrimmed(front + core + back)
    requires lower('-') == '-'
    requires (forall i | 0 <= i < |front| :: front[i] == '-' || front[i] == ' ') &&
             (forall i | 0 <= i < |back| :: back[i] == '-' || back[i] == ' ')
    requires core != "" ==> core[0] != ' ' && lower(core[0]) != '-' && core[|core| - 1] != ' ' && lower(core[|core| - 1]) != '-'
    ensures CliResourceName(lower, before + (front + core + back) + after) == MapRunes(lower, DashForSpace(core))
  {
    hide IsSpace, TrimSpace, Trim;
    TrimSpaceTakesOff(before, front + core + back, after);
    var dashed := MapRunes(lower, DashForSpace(front + core + back));
    var f, m, b := MapRunes(lower, DashForSpace(front)), MapRunes(lower, DashForSpace(core)), MapRunes(lower, DashForSpace(back));
    assert dashed == f + m + b;
    TrimTakesOff(f, m, b, IsDash);
  }

  /** What is created under an accepted name is looked up under the same name. */
  lemma AcceptedIsFoundByName(lower: char -> char, input: string)
    requires forall c | IsSlugRune(c) || c == '-' :: lower(c) == c
    requires Normalized(input).Ok?
    ensures CliResourceName(lower, Normalized(input).name) == Normalized(input).name
  {
    hide Normalized;
    AcceptedIsSlug(input);
    SlugIsFoundByName(lower, Normalized(input).name);
  }

  lemma SlugIsFoundByName(lower: char -> char, name: string)
    requires forall c | IsSlugRune(c) || c == '-' :: lower(c) == c
    requires IsSlug(name)
    ensures CliResourceName(lower, name) == name
  {
    hide TrimSpace, Trim, IsSlug;
    SlugIsTrimmed(name);
    SlugIsUnchanged(lower, name);
  }

  lemma SlugIsUnchanged(lower: char -> char, name: string)
    requires forall c | IsSlugRune(c) || c == '-' :: lower(c) == c
    requires IsSlug(name)
    ensures MapRunes(lower, DashForSpace(name)) == name
  {
    assert DashForSpace(name) == name;
  }

  // ---- The program -------------------------------------------------------------------------------

  /** The builder after the runes of `s`: the joined words, and a dash that waits for the next word. */
  ghost predicate Built(s: string, b: string, lastDash: bool) {
    && b == Slug(s) + (if lastDash then "-" else "")
    && (lastDash ==> Slug(s) != "")
    && (!lastDash && b != "" ==> s != "" && IsWordRune(s[|s| - 1]))
    && (lastDash || b == "" ==> s == "" || !IsWordRune(s[|s| - 1]))
  }

  lemma BuiltWord(s: string, b: string, lastDash: bool, c: char)
    requires Built(s, b, lastDash) && IsWordRune(c)
    ensures Built(s + [c], b + [Lowered(c)], false)
  {
    var words, low := Words(s), Lowered(c);
    assert (s + [c])[..|s|] == s;
    if s != "" && IsWordRune(s[|s| - 1]) {
      JoinLonger(words, low);
    } else {
      NoWordsIffEmpty(words);
      JoinSnoc(words, "-", [low]);
    }
  }

  lemma NoWordsIffEmpty(words: seq<string>)
    requires forall i | 0 <= i < |words| :: words[i] != ""
    ensures Join(words, "-") == "" <==> words == []
  {}

  lemma BuiltSeparator(s: string, b: string, lastDash: bool, c: char)
    requires Built(s, b, lastDash) && !IsWordRune(c)
    ensures Built(s + [c], if !lastDash && b != "" then b + "-" else b, lastDash || b != "")
  {
    assert (s + [c])[..|s|] == s;
    assert Slug(s + [c]) == Slug(s);
  }

  /** Trimming the dashes of the builder leaves the joined words. */
  lemma BuiltTrimmed(s: string, b: string, lastDash: bool)
    requires Built(s, b, lastDash)
    ensures Trim(b, IsDash) == Slug(s)
  {
    hide Words, Join, Trim, IsSlug;
    var words := Words(s);
    if words == [] {
      assert Slug(s) == "" by { NoWordsIffEmpty(words); }
      NothingToTrim();
    } else {
      WordsAreOk(s);
      JoinIsSlug(words);
      TrimLastDash(Slug(s));
    }
  }

  lemma NothingToTrim()
    ensures Trim("", IsDash) == ""
  {}

  lemma TrimLastDash(slug: string)
    requires IsSlug(slug)
    ensures Trim(slug, IsDash) == slug && Trim(slug + "-", IsDash) == slug
    ensures slug + "" == slug
  {
    hide TrimLeft, TrimRight;
    assert slug + "" == slug && (slug + "-")[0] == slug[0];
    TrimLeftNone(slug, IsDash);
    TrimLeftNone(slug + "-", IsDash);
    TrimRightNone(slug, IsDash);
    TrimRightOne(slug, '-', IsDash);
  }

  method NormalizeNewSkillName(input: string) returns (r: Name)
    ensures r == Normalized(input)
  {
    hide Words, Join, TrimSpace, Built, IsSeparator;
    var s := TrimSpace(input);
    if s == "" {
      return Required;
    }
    var b, lastDash := "", false;
    BuiltNothing();
    for i := 0 to |s|
      invariant Built(s[..i], b, lastDash)
      invariant FirstUnsupported(s, 0) == FirstUnsupported(s, i)
    {
      var c := s[i];
      assert s[..i + 1] == s[..i] + [c];
      if 'a' <= c <= 'z' {
        BuiltWord(s[..i], b, lastDash, c);
        b, lastDash := b + [c], false;
      } else if 'A' <= c <= 'Z' {
        BuiltWord(s[..i], b, lastDash, c);
        b, lastDash := b + [Lowered(c)], false;
      } else if '0' <= c <= '9' {
        BuiltWord(s[..i], b, lastDash, c);
        b, lastDash := b + [c], false;
      } else if IsSeparator(c) {
        BuiltSeparator(s[..i], b, lastDash, c);
        if !lastDash && |b| > 0 {
          b, lastDash := b + "-", true;
        } else {
          DashOrNothing(s[..i], b, lastDash);
        }
      } else {
        return Unsupported(c);
      }
    }
    assert s[..|s|] == s;
    BuiltTrimmed(s, b, lastDash);
    var name := Trim(b, IsDash);
    if name == "" {
      return NoLetters;
    }
    return Ok(name);
  }

  lemma BuiltNothing()
    ensures Built("", "", false)
  {}

  lemma DashOrNothing(s: string, b: string, lastDash: bool)
    requires Built(s, b, lastDash)
    ensures lastDash ==> b != ""
  {}
}
