/** Choosing the nearest command by edit distance (closeEditDistanceCommandMatch, suggestCommand). */
module CommandMatching {
  import opened Text
  import opened Levenshtein
  import opened Fuzzy

  type Metric = string -> nat

  /** How far a typed query is from a command name, both lowered and the name without its slash. */
  function ToCommand(lower: char -> char, query: string): Metric {
    command => Distance(MapRunes(lower, query), MapRunes(lower, StripCommandPrefix(command)))
  }

  function ToText(text: string): Metric {
    command => Distance(text, command)
  }

  ghost function Distances(metric: Metric, names: seq<string>): (r: seq<nat>)
    ensures |r| == |names| && forall i | 0 <= i < |names| :: r[i] == metric(names[i])
  {
    seq(|names|, i requires 0 <= i < |names| => metric(names[i]))
  }

  // ---- The unique nearest match --------------------------------------------------------------

  ghost predicate UniqueNearest(metric: Metric, names: seq<string>, i: int) {
    && 0 <= i < |names| && metric(names[i]) < 3
    && forall j | 0 <= j < |names| && j != i :: metric(names[i]) < metric(names[j])
  }

  /** The one name strictly nearer than every other and less than three edits away, or "". */
  ghost function Nearest(metric: Metric, names: seq<string>): (r: string)
    ensures r != "" ==> r in names
  {
    if exists i :: UniqueNearest(metric, names, i) then
      var i :| UniqueNearest(metric, names, i);
      names[i]
    else ""
  }

  lemma NearestIsUnique(metric: Metric, names: seq<string>, i: int)
    requires UniqueNearest(metric, names, i)
    ensures Nearest(metric, names) == names[i]
  {
    assert forall j | UniqueNearest(metric, names, j) :: j == i;
  }

  ghost function NearestMatch(lower: char -> char, matches: seq<string>, prefix: string): string {
    var query := StripCommandPrefix(prefix);
    if TrimSpace(query) == "" then "" else Nearest(ToCommand(lower, query), matches)
  }

  /** A name is the nearest one exactly when it is at most two edits away and every other one is farther. */
  lemma NearestIs(metric: Metric, names: seq<string>, i: int)
    requires 0 <= i < |names| && names[i] != ""
    requires forall j | 0 <= j < |names| && j != i :: names[j] != names[i]
    ensures Nearest(metric, names) == names[i] <==>
            metric(names[i]) <= 2 && forall j | 0 <= j < |names| && j != i :: metric(names[i]) < metric(names[j])
  {
    if UniqueNearest(metric, names, i) {
      NearestIsUnique(metric, names, i);
    }
    if Nearest(metric, names) == names[i] {
      var k :| UniqueNearest(metric, names, k);
      NearestIsUnique(metric, names, k);
      assert k == i;
    }
  }

  /** A query that is more than a slash is matched by its name without the slash. */
  lemma QueryIsMatched(lower: char -> char, matches: seq<string>, query: string)
    requires IsTrimmed(query) && query != ""
    ensures NearestMatch(lower, matches, "/" + query) == Nearest(ToCommand(lower, query), matches)
  {
    hide IsSpace, TrimSpace, StripCommandPrefix, ToCommand, Nearest;
    TokenIsStripped("", query, "");
    assert "" + ("/" + query) + "" == "/" + query;
    BlankIsTrimmed(query);
  }

  lemma BlankQueryHasNoMatch(lower: char -> char, matches: seq<string>, blank: string)
    requires AllSpace(blank)
    ensures NearestMatch(lower, matches, "/" + blank) == "" && NearestMatch(lower, matches, blank) == ""
  {
    hide IsSpace, TrimSpace;
    NothingToStrip(blank);
    BlankIsTrimmed("");
  }

  /** The running minimum below 3 over the first `n` distances, and how often it was met. */
  ghost predicate Best(distances: seq<nat>, n: nat, at: nat, bestDistance: nat, ties: nat)
    requires n <= |distances|
  {
    && bestDistance <= 3
    && (forall j | 0 <= j < n :: bestDistance <= distances[j])
    && (bestDistance < 3 ==>
          && at < n && distances[at] == bestDistance && ties >= 1
          && (ties == 1 <==> forall j | 0 <= j < n && j != at :: bestDistance < distances[j]))
  }

  lemma CommandDistanceAt(lower: char -> char, query: string, names: seq<string>, i: nat)
    requires i < |names|
    ensures Distances(ToCommand(lower, query), names)[i] ==
            Distance(MapRunes(lower, query), MapRunes(lower, StripCommandPrefix(names[i])))
  {
    hide Distance, MapRunes, StripCommandPrefix;
  }

  lemma BestStart(distances: seq<nat>)
    ensures Best(distances, 0, 0, 3, 0)
  {}

  lemma BestStep(distances: seq<nat>, n: nat, at: nat, bestDistance: nat, ties: nat)
    requires n < |distances| && Best(distances, n, at, bestDistance, ties)
    ensures if distances[n] < bestDistance then Best(distances, n + 1, n, distances[n], 1)
            else Best(distances, n + 1, at, bestDistance, if distances[n] == bestDistance then ties + 1 else ties)
  {}

  method CloseEditDistanceCommandMatch(lower: char -> char, matches: seq<string>, prefix: string)
    returns (closest: string)
    ensures closest == NearestMatch(lower, matches, prefix)
  {
    var query := StripCommandPrefix(prefix);
    if TrimSpace(query) == "" {
      return "";
    }
    closest := NearestLoop(lower, matches, query);
  }

  method NearestLoop(lower: char -> char, matches: seq<string>, query: string) returns (closest: string)
    ensures closest == Nearest(ToCommand(lower, query), matches)
  {
    hide *;
    ghost var metric := ToCommand(lower, query);
    ghost var distances := Distances(metric, matches);
    var best, bestDistance: nat, ties: nat := "", 3, 0;
    ghost var at: nat := 0;
    BestStart(distances);
    for i := 0 to |matches|
      invariant Best(distances, i, at, bestDistance, ties)
      invariant bestDistance < 3 ==> at < i
      invariant best == if bestDistance < 3 then matches[at] else ""
    {
      var distance := EditDistance(MapRunes(lower, query), MapRunes(lower, StripCommandPrefix(matches[i])));
      CommandDistanceAt(lower, query, matches, i);
      BestStep(distances, i, at, bestDistance, ties);
      if distance < bestDistance {
        best, bestDistance, ties, at := matches[i], distance, 1, i;
        continue;
      }
      if distance == bestDistance {
        ties := ties + 1;
      }
    }
    BestIsNearest(metric, matches, distances, at, bestDistance, ties);
    if best != "" && ties == 1 {
      return best;
    }
    return "";
  }

  lemma BestIsNearest(metric: Metric, names: seq<string>, distances: seq<nat>, at: nat, bestDistance: nat, ties: nat)
    requires distances == Distances(metric, names)
    requires Best(distances, |names|, at, bestDistance, ties)
    ensures Nearest(metric, names) == if bestDistance < 3 && ties == 1 then names[at] else ""
  {
    if bestDistance < 3 && ties == 1 {
      assert UniqueNearest(metric, names, at);
    }
    forall i | UniqueNearest(metric, names, i) ensures bestDistance < 3 && ties == 1 && i == at {
      assert distances[i] < 3;
    }
  }

  // ---- Did you mean ------------------------------------------------------------------------

  /** The first of the names nearest to the text, if it is less than four edits away. */
  ghost predicate FirstNearest(metric: Metric, names: seq<string>, i: int) {
    && 0 <= i < |names| && metric(names[i]) < 4
    && (forall j | 0 <= j < |names| :: metric(names[i]) <= metric(names[j]))
    && (forall j | 0 <= j < i :: metric(names[i]) < metric(names[j]))
  }

  ghost predicate FirstBelow4(distances: seq<nat>, n: nat, at: nat, bestDistance: nat)
    requires n <= |distances|
  {
    && bestDistance <= 4
    && (forall j | 0 <= j < n :: bestDistance <= distances[j])
    && (bestDistance < 4 ==>
          at < n && distances[at] == bestDistance && forall j | 0 <= j < at :: bestDistance < distances[j])
  }

  lemma TextDistanceAt(text: string, names: seq<string>, i: nat)
    requires i < |names|
    ensures Distances(ToText(text), names)[i] == Distance(text, names[i])
  {
    hide Distance;
  }

  lemma FirstBelow4Start(distances: seq<nat>)
    ensures FirstBelow4(distances, 0, 0, 4)
  {}

  lemma FirstBelow4Step(distances: seq<nat>, n: nat, at: nat, bestDistance: nat)
    requires n < |distances| && FirstBelow4(distances, n, at, bestDistance)
    ensures if distances[n] < bestDistance then FirstBelow4(distances, n + 1, n, distances[n])
            else FirstBelow4(distances, n + 1, at, bestDistance)
  {}

  method SuggestCommand(lower: char -> char, command: string, commands: seq<string>) returns (best: string)
    ensures var text := MapRunes(lower, TrimSpace(command));
            || (text != "" && exists i :: FirstNearest(ToText(text), commands, i) && best == commands[i])
            || (best == "" && (text == "" || forall c | c in commands :: ToText(text)(c) >= 4))
    ensures best != "" ==>
              var text := MapRunes(lower, TrimSpace(command));
              Distance(text, best) <= 3 && forall c | c in commands :: Distance(text, best) <= Distance(text, c)
  {
    var text := MapRunes(lower, TrimSpace(command));
    if text == "" {
      return "";
    }
    hide Distance, Distances, ToText, FirstBelow4, FirstNearest, TrimSpace, MapRunes;
    ghost var distances := Distances(ToText(text), commands);
    FirstBelow4Start(distances);
    best := "";
    var bestDistance: nat := 4;
    ghost var at: nat := 0;
    for i := 0 to |commands|
      invariant FirstBelow4(distances, i, at, bestDistance)
      invariant best == if bestDistance < 4 then commands[at] else ""
    {
      var distance := EditDistance(text, commands[i]);
      TextDistanceAt(text, commands, i);
      FirstBelow4Step(distances, i, at, bestDistance);
      if distance < bestDistance {
        best, bestDistance, at := commands[i], distance, i;
      }
    }
    FirstBelow4IsNearest(ToText(text), commands, distances, at, bestDistance);
    if bestDistance < 4 {
      FirstIsNear(text, commands, at);
    }
  }

  lemma FirstIsNear(text: string, commands: seq<string>, i: int)
    requires FirstNearest(ToText(text), commands, i)
    ensures Distance(text, commands[i]) <= 3 && forall c | c in commands :: Distance(text, commands[i]) <= Distance(text, c)
  {
    hide Distance;
  }

  lemma FirstBelow4IsNearest(metric: Metric, names: seq<string>, distances: seq<nat>, at: nat, bestDistance: nat)
    requires distances == Distances(metric, names)
    requires FirstBelow4(distances, |names|, at, bestDistance)
    ensures bestDistance < 4 ==> FirstNearest(metric, names, at)
    ensures bestDistance == 4 ==> forall c | c in names :: metric(c) >= 4
  {}

  /** A command that is typed exactly is its own suggestion, wherever it stands in the list. */
  lemma ExactCommandIsNearest(text: string, commands: seq<string>, i: int)
    requires text in commands && FirstNearest(ToText(text), commands, i)
    ensures commands[i] == text
  {
    var k :| 0 <= k < |commands| && commands[k] == text;
    ZeroIffEqual(text, commands[k]);
    ZeroIffEqual(text, commands[i]);
    assert ToText(text)(commands[k]) == 0;
  }
}
