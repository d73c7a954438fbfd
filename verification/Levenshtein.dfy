/** The Levenshtein distance of the command suggestions: the two-row array loop, the minimum over
    all edit scripts and over all chains of single edits that it computes, and its metric laws. */
module Levenshtein {
  import opened Integers

  // ---- What is minimised -------------------------------------------------------------------

  datatype Edit = Keep(c: char) | Insert(c: char) | Delete(c: char) | Substitute(from: char, to: char)

  /** The text a left-to-right script reads. */
  ghost function Source(script: seq<Edit>): string {
    if script == [] then [] else
    Source(script[..|script| - 1]) +
    match script[|script| - 1]
    case Keep(c) => [c]
    case Insert(_) => []
    case Delete(c) => [c]
    case Substitute(from, _) => [from]
  }

  /** The text a left-to-right script writes. */
  ghost function Target(script: seq<Edit>): string {
    if script == [] then [] else
    Target(script[..|script| - 1]) +
    match script[|script| - 1]
    case Keep(c) => [c]
    case Insert(c) => [c]
    case Delete(_) => []
    case Substitute(_, to) => [to]
  }

  ghost function Cost(script: seq<Edit>): nat {
    if script == [] then 0 else
    Cost(script[..|script| - 1]) + if script[|script| - 1].Keep? then 0 else 1
  }

  ghost predicate Inserts(u: string, v: string, at: int) {
    0 <= at <= |u| && |v| == |u| + 1 && v == u[..at] + [v[at]] + u[at..]
  }

  ghost predicate Substitutes(u: string, v: string, at: int) {
    0 <= at < |u| == |v| && v == u[at := v[at]]
  }

  /** One insertion, deletion or substitution of one rune anywhere in the text. */
  ghost predicate OneEdit(u: string, v: string) {
    exists at :: Inserts(u, v, at) || Inserts(v, u, at) || Substitutes(u, v, at)
  }

  /** A chain of texts, each one edit away from the one before it. */
  ghost predicate Chain(texts: seq<string>, left: string, right: string) {
    && |texts| > 0 && texts[0] == left && texts[|texts| - 1] == right
    && forall i | 0 <= i < |texts| - 1 :: OneEdit(texts[i], texts[i + 1])
  }

  // ---- The recurrence ----------------------------------------------------------------------

  function Distance(left: string, right: string): nat
    decreases |left| + |right|
  {
    if left == [] then |right|
    else if right == [] then |left|
    else
      var l, r := left[..|left| - 1], right[..|right| - 1];
      var cost := if left[|l|] != right[|r|] then 1 else 0;
      Min(Min(Distance(l, right) + 1, Distance(left, r) + 1), Distance(l, r) + cost)
  }

  lemma Snoc(s: string, c: char)
    ensures (s + [c])[..|s + [c]| - 1] == s
  {}

  lemma StepBounds(left: string, right: string, x: char, y: char)
    ensures Distance(left + [x], right) <= Distance(left, right) + 1
    ensures Distance(left, right + [y]) <= Distance(left, right) + 1
    ensures Distance(left + [x], right + [y]) <= Distance(left, right) + if x != y then 1 else 0
  {
    Snoc(left, x);
    Snoc(right, y);
  }

  // ---- The least cost of a script ------------------------------------------------------------

  /** No script that turns one text into another is cheaper than the distance. */
  lemma {:induction false} NoCheaperScript(script: seq<Edit>)
    ensures Distance(Source(script), Target(script)) <= Cost(script)
  {
    if script != [] {
      var init := script[..|script| - 1];
      NoCheaperScript(init);
      var s, t := Source(init), Target(init);
      match script[|script| - 1]
      case Keep(c) => StepBounds(s, t, c, c);
      case Insert(c) => StepBounds(s, t, c, c); assert Source(script) == s;
      case Delete(c) => StepBounds(s, t, c, c); assert Target(script) == t;
      case Substitute(x, y) => StepBounds(s, t, x, y);
    }
  }

  ghost function Extend(script: seq<Edit>, e: Edit): (r: seq<Edit>)
    ensures Cost(r) == Cost(script) + if e.Keep? then 0 else 1
    ensures Source(r) == Source(script) + if e.Keep? || e.Delete? then [e.c] else if e.Substitute? then [e.from] else []
    ensures Target(r) == Target(script) + if e.Keep? || e.Insert? then [e.c] else if e.Substitute? then [e.to] else []
  {
    var r := script + [e];
    assert r[..|r| - 1] == script;
    r
  }

  /** Some script has exactly the distance as its cost. */
  lemma {:induction false} CheapestScript(left: string, right: string) returns (script: seq<Edit>)
    ensures Source(script) == left && Target(script) == right
    ensures Cost(script) == Distance(left, right)
    decreases |left| + |right|
  {
    if left == [] && right == [] {
      return [];
    }
    var l, x := if left == [] then [] else left[..|left| - 1], if left == [] then ' ' else left[|left| - 1];
    var r, y := if right == [] then [] else right[..|right| - 1], if right == [] then ' ' else right[|right| - 1];
    assert left != [] ==> left == l + [x];
    assert right != [] ==> right == r + [y];
    if left == [] || (right != [] && Distance(left, right) == Distance(left, r) + 1) {
      script := CheapestScript(left, r);
      script := Extend(script, Insert(y));
    } else if right == [] || Distance(left, right) == Distance(l, right) + 1 {
      script := CheapestScript(l, right);
      script := Extend(script, Delete(x));
    } else {
      script := CheapestScript(l, r);
      script := Extend(script, if x == y then Keep(x) else Substitute(x, y));
    }
  }

  // ---- Metric laws -------------------------------------------------------------------------

  lemma {:induction false} Bounds(left: string, right: string)
    ensures |left| - |right| <= Distance(left, right)
    ensures |right| - |left| <= Distance(left, right)
    ensures Distance(left, right) <= if |left| < |right| then |right| else |left|
    decreases |left| + |right|
  {
    if left != [] && right != [] {
      var l, r := left[..|left| - 1], right[..|right| - 1];
      Bounds(l, right);
      Bounds(left, r);
      Bounds(l, r);
    }
  }

  lemma {:induction false} ZeroIffEqual(left: string, right: string)
    ensures Distance(left, right) == 0 <==> left == right
    decreases |left| + |right|
  {
    if left != [] && right != [] {
      var l, r := left[..|left| - 1], right[..|right| - 1];
      ZeroIffEqual(l, r);
      assert left == l + [left[|l|]] && right == r + [right[|r|]];
    }
  }

  lemma {:induction false} Symmetric(left: string, right: string)
    ensures Distance(left, right) == Distance(right, left)
    decreases |left| + |right|
  {
    if left != [] && right != [] {
      var l, r := left[..|left| - 1], right[..|right| - 1];
      Symmetric(l, right);
      Symmetric(left, r);
      Symmetric(l, r);
    }
  }

  /** Going through a third text never makes the way shorter. */
  lemma {:induction false} Triangle(a: string, b: string, c: string)
    ensures Distance(a, c) <= Distance(a, b) + Distance(b, c)
    decreases |a| + |b| + |c|
  {
    if a == [] || c == [] || b == [] {
      Bounds(a, b);
      Bounds(b, c);
      Bounds(a, c);
    } else {
      var a', b', c' := a[..|a| - 1], b[..|b| - 1], c[..|c| - 1];
      assert a == a' + [a[|a'|]] && c == c' + [c[|c'|]];
      StepBounds(a', c', a[|a'|], c[|c'|]);
      StepBounds(a', c, a[|a'|], c[|c'|]);
      StepBounds(a, c', a[|a'|], c[|c'|]);
      Triangle(a', b, c);
      Triangle(a, b, c');
      Triangle(a', b', c);
      Triangle(a, b', c');
      Triangle(a, b', c);
      Triangle(a', b', c');
    }
  }

  // ---- The least length of a chain of single edits -----------------------------------------

  lemma {:induction false} SharedTail(u: string, v: string, tail: string)
    ensures Distance(u + tail, v + tail) <= Distance(u, v)
    decreases |tail|
  {
    if tail == [] {
      assert u + tail == u && v + tail == v;
    } else {
      var init, last := tail[..|tail| - 1], tail[|tail| - 1];
      assert tail == init + [last];
      var u', v' := u + init, v + init;
      assert u + tail == u' + [last];
      assert v + tail == v' + [last];
      SharedTail(u, v, init);
      StepBounds(u', v', last, last);
    }
  }

  lemma InsertionIsClose(u: string, v: string, at: int)
    requires Inserts(u, v, at)
    ensures Distance(u, v) <= 1 && Distance(v, u) <= 1
  {
    var p, c, q := u[..at], v[at], u[at..];
    assert u == p + q;
    ZeroIffEqual(p, p);
    StepBounds(p, p, c, c);
    SharedTail(p, p + [c], q);
    SharedTail(p + [c], p, q);
  }

  lemma SubstitutionIsClose(u: string, v: string, at: int)
    requires Substitutes(u, v, at)
    ensures Distance(u, v) <= 1
  {
    var p, q := u[..at], u[at + 1..];
    assert u == p + [u[at]] + q && v == p + [v[at]] + q;
    ZeroIffEqual(p, p);
    StepBounds(p, p, u[at], v[at]);
    SharedTail(p + [u[at]], p + [v[at]], q);
  }

  lemma OneEditIsClose(u: string, v: string)
    requires OneEdit(u, v)
    ensures Distance(u, v) <= 1
  {
    var at :| Inserts(u, v, at) || Inserts(v, u, at) || Substitutes(u, v, at);
    if Inserts(u, v, at) {
      InsertionIsClose(u, v, at);
    } else if Inserts(v, u, at) {
      InsertionIsClose(v, u, at);
    } else {
      SubstitutionIsClose(u, v, at);
    }
  }

  /** No chain of single edits, in whatever order and at whatever positions, is shorter. */
  lemma {:induction false} NoShorterChain(texts: seq<string>, left: string, right: string)
    requires Chain(texts, left, right)
    ensures Distance(left, right) <= |texts| - 1
    decreases |texts|
  {
    if |texts| == 1 {
      ZeroIffEqual(left, right);
    } else {
      var init := texts[..|texts| - 1];
      var mid := init[|init| - 1];
      assert OneEdit(texts[|init| - 1], texts[|init|]);
      forall i | 0 <= i < |init| - 1 ensures OneEdit(init[i], init[i + 1]) {
        assert OneEdit(texts[i], texts[i + 1]);
      }
      NoShorterChain(init, left, mid);
      OneEditIsClose(mid, right);
      Triangle(left, mid, right);
    }
  }

  lemma InsertsUnderTail(u: string, v: string, at: int, c: char)
    requires Inserts(u, v, at)
    ensures Inserts(u + [c], v + [c], at)
  {
    assert (u + [c])[..at] == u[..at] && (u + [c])[at..] == u[at..] + [c];
  }

  lemma OneEditUnderTail(u: string, v: string, c: char)
    requires OneEdit(u, v)
    ensures OneEdit(u + [c], v + [c])
  {
    var at :| Inserts(u, v, at) || Inserts(v, u, at) || Substitutes(u, v, at);
    if Inserts(u, v, at) {
      InsertsUnderTail(u, v, at, c);
    } else if Inserts(v, u, at) {
      InsertsUnderTail(v, u, at, c);
    } else {
      assert Substitutes(u + [c], v + [c], at);
    }
  }

  ghost function UnderTail(texts: seq<string>, c: char): (r: seq<string>)
    ensures |r| == |texts| && forall i | 0 <= i < |texts| :: r[i] == texts[i] + [c]
  {
    seq(|texts|, i requires 0 <= i < |texts| => texts[i] + [c])
  }

  lemma ChainUnderTail(texts: seq<string>, left: string, right: string, c: char)
    requires Chain(texts, left, right)
    ensures Chain(UnderTail(texts, c), left + [c], right + [c])
  {
    forall i | 0 <= i < |texts| - 1 ensures OneEdit(texts[i] + [c], texts[i + 1] + [c]) {
      OneEditUnderTail(texts[i], texts[i + 1], c);
    }
  }

  lemma ChainThenInsert(texts: seq<string>, left: string, right: string, c: char)
    requires Chain(texts, left, right)
    ensures Chain(texts + [right + [c]], left, right + [c])
  {
    assert Inserts(right, right + [c], |right|);
    var longer := texts + [right + [c]];
    forall i | 0 <= i < |longer| - 1 ensures OneEdit(longer[i], longer[i + 1]) {
      if i < |texts| - 1 {
        assert OneEdit(texts[i], texts[i + 1]);
      }
    }
  }

  lemma DeleteThenChain(texts: seq<string>, left: string, right: string, c: char)
    requires Chain(texts, left, right)
    ensures Chain([left + [c]] + texts, left + [c], right)
  {
    assert Inserts(left, left + [c], |left|);
    var longer := [left + [c]] + texts;
    forall i | 0 <= i < |longer| - 1 ensures OneEdit(longer[i], longer[i + 1]) {
      if i > 0 {
        assert OneEdit(texts[i - 1], texts[i]);
      }
    }
  }

  lemma ChainThenSubstitute(texts: seq<string>, left: string, right: string, x: char, y: char)
    requires Chain(texts, left, right + [x])
    ensures Chain(texts + [right + [y]], left, right + [y])
  {
    assert Substitutes(right + [x], right + [y], |right|);
    var longer := texts + [right + [y]];
    forall i | 0 <= i < |longer| - 1 ensures OneEdit(longer[i], longer[i + 1]) {
      if i < |texts| - 1 {
        assert OneEdit(texts[i], texts[i + 1]);
      }
    }
  }

  /** Some chain of single edits has exactly the distance as its length. */
  lemma {:induction false} ShortestChain(left: string, right: string) returns (texts: seq<string>)
    ensures Chain(texts, left, right)
    ensures |texts| - 1 == Distance(left, right)
    decreases |left| + |right|
  {
    if left == [] && right == [] {
      return [left];
    }
    var l, x := if left == [] then [] else left[..|left| - 1], if left == [] then ' ' else left[|left| - 1];
    var r, y := if right == [] then [] else right[..|right| - 1], if right == [] then ' ' else right[|right| - 1];
    assert left != [] ==> left == l + [x];
    assert right != [] ==> right == r + [y];
    if left == [] || (right != [] && Distance(left, right) == Distance(left, r) + 1) {
      texts := ShortestChain(left, r);
      ChainThenInsert(texts, left, r, y);
      texts := texts + [right];
    } else if right == [] || Distance(left, right) == Distance(l, right) + 1 {
      texts := ShortestChain(l, right);
      DeleteThenChain(texts, l, right, x);
      texts := [left] + texts;
    } else {
      texts := ShortestChain(l, r);
      ChainUnderTail(texts, l, r, x);
      texts := UnderTail(texts, x);
      if x != y {
        ChainThenSubstitute(texts, left, r, x, y);
        texts := texts + [right];
      }
    }
  }

  // ---- The program -------------------------------------------------------------------------

  method MinInt(values: seq<int>) returns (minimum: int)
    ensures values == [] ==> minimum == 0
    ensures values != [] ==> minimum in values && forall v | v in values :: minimum <= v
  {
    if |values| == 0 {
      return 0;
    }
    minimum := values[0];
    for i := 1 to |values|
      invariant minimum in values
      invariant forall k | 0 <= k < i :: minimum <= values[k]
    {
      if values[i] < minimum {
        minimum := values[i];
      }
    }
  }

  /** Row `i` of the table up to column `n`. */
  ghost predicate Row(left: string, right: string, i: nat, row: seq<int>, n: nat) {
    && i <= |left| && n <= |right| + 1 && n <= |row|
    && forall k | 0 <= k < n :: row[k] == Distance(left[..i], right[..k])
  }

  lemma FirstRow(left: string, right: string, row: seq<int>)
    requires |row| == |right| + 1 && forall k | 0 <= k <= |right| :: row[k] == k
    ensures Row(left, right, 0, row, |right| + 1)
  {
    assert left[..0] == [];
  }

  lemma FirstCell(left: string, right: string, i: nat, row: seq<int>)
    requires i <= |left| && |row| > 0 && row[0] == i
    ensures Row(left, right, i, row, 1)
  {
    assert right[..0] == [];
  }

  lemma LastCell(left: string, right: string, row: seq<int>)
    requires |row| == |right| + 1 && Row(left, right, |left|, row, |right| + 1)
    ensures row[|right|] == Distance(left, right)
  {
    assert left[..|left|] == left && right[..|right|] == right;
  }

  lemma NextCell(left: string, right: string, i: nat, j: nat, above: seq<int>, row: seq<int>, least: int)
    requires i < |left| && j < |right| && |row| == |right| + 1
    requires Row(left, right, i, above, |right| + 1) && Row(left, right, i + 1, row, j + 1)
    requires least == Min(Min(above[j + 1] + 1, row[j] + 1), above[j] + if left[i] != right[j] then 1 else 0)
    ensures Row(left, right, i + 1, row[j + 1 := least], j + 2)
  {
    assert left[..i + 1][..i] == left[..i] && right[..j + 1][..j] == right[..j];
  }

  /** The inner loop: one row of the table from the row above it. */
  method FillRow(left: string, right: string, i: nat, previous: array<int>, current: array<int>)
    requires i < |left| && previous != current && previous.Length == current.Length == |right| + 1
    requires Row(left, right, i, previous[..], |right| + 1)
    modifies current
    ensures Row(left, right, i + 1, current[..], |right| + 1)
  {
    hide Distance, Row;
    current[0] := i + 1;
    FirstCell(left, right, i + 1, current[..]);
    for j := 0 to |right|
      invariant Row(left, right, i + 1, current[..], j + 1)
    {
      var cost := 0;
      if left[i] != right[j] {
        cost := 1;
      }
      ghost var row := current[..];
      var least := MinInt([previous[j + 1] + 1, current[j] + 1, previous[j] + cost]);
      LeastOfThree(previous[j + 1] + 1, current[j] + 1, previous[j] + cost, least);
      NextCell(left, right, i, j, previous[..], row, least);
      current[j + 1] := least;
      assert current[..] == row[j + 1 := least];
    }
  }

  /** Two rows of the table are kept and swapped after every rune of `left`. */
  method EditDistance(left: string, right: string) returns (distance: nat)
    ensures distance == Distance(left, right)
  {
    if |left| == 0 {
      return |right|;
    }
    if |right| == 0 {
      return |left|;
    }
    var previous := new int[|right| + 1];
    var current := new int[|right| + 1];
    for j := 0 to previous.Length
      invariant forall k | 0 <= k < j :: previous[k] == k
    {
      previous[j] := j;
    }
    FirstRow(left, right, previous[..]);
    hide Distance, Row;
    for i := 0 to |left|
      invariant previous != current && previous.Length == current.Length == |right| + 1
      invariant fresh(previous) && fresh(current)
      invariant Row(left, right, i, previous[..], |right| + 1)
    {
      FillRow(left, right, i, previous, current);
      previous, current := current, previous;
    }
    LastCell(left, right, previous[..]);
    return previous[|right|];
  }

  lemma LeastOfThree(a: int, b: int, c: int, least: int)
    requires least in [a, b, c] && forall v | v in [a, b, c] :: least <= v
    ensures least == Min(Min(a, b), c)
  {
    assert a in [a, b, c] && b in [a, b, c] && c in [a, b, c];
  }
}
