/** The scanner for the body of a JavaScript object literal (block_after) and the loops that collect
    every object assigned after a marker. */
module BlockScanner {
  import opened Text
  import opened Wrappers

  // ---- The scanner ---------------------------------------------------------------------------

  /** `quote` is the quote of the string the scanner is in. */
  datatype Scan = Scan(depth: int, quote: Option<char>, escaped: bool)

  const OUTSIDE := Scan(0, None, false)

  predicate IsStringQuote(c: char) {
    c == '"' || c == '\'' || c == '`'
  }

  function Step(s: Scan, c: char): Scan {
    if s.quote.Some? then
      if s.escaped then s.(escaped := false)
      else if c == '\\' then s.(escaped := true)
      else if c == s.quote.value then s.(quote := None)
      else s
    else if IsStringQuote(c) then s.(quote := Some(c))
    else if c == '{' then s.(depth := s.depth + 1)
    else if c == '}' then s.(depth := s.depth - 1)
    else s
  }

  function Over(s: Scan, text: string): Scan {
    if text == "" then s else Step(Over(s, text[..|text| - 1]), text[|text| - 1])
  }

  /** Every opened brace outside strings is closed again. */
  predicate Balanced(s: Scan) {
    s.depth == 0 && s.quote == None
  }

  lemma {:induction false} OverAppend(s: Scan, a: string, b: string)
    ensures Over(s, a + b) == Over(Over(s, a), b)
  {
    if b == "" {
      assert a + b == a;
    } else {
      assert (a + b)[..|a + b| - 1] == a + b[..|b| - 1];
      OverAppend(s, a, b[..|b| - 1]);
    }
  }

  lemma OverOne(s: Scan, c: char)
    ensures Over(s, [c]) == Step(s, c)
  {
    assert [c][..0] == "";
  }

  /** The first position from `i` on whose brace closes the outermost one, or -1; `s` is the state before it. */
  function CloseAt(text: string, i: nat, s: Scan): (at: int)
    ensures at == -1 || i <= at < |text|
    decreases |text| - i
  {
    if i >= |text| then -1
    else
      var s' := Step(s, text[i]);
      if s.quote == None && text[i] == '}' && s'.depth == 0 then i else CloseAt(text, i + 1, s')
  }

  /** Something is open, so that only a closing brace can balance the text. */
  predicate Open(s: Scan) {
    s.depth > 0
  }

  /** CloseAt is the least position at which the text from the opening brace on is balanced. */
  lemma {:induction false} CloseAtIsLeast(text: string, from: nat, i: nat)
    requires from < i <= |text| && Open(Over(OUTSIDE, text[from..i]))
    ensures var at := CloseAt(text, i, Over(OUTSIDE, text[from..i]));
            && (at >= 0 ==> Balanced(Over(OUTSIDE, text[from..at + 1])))
            && (forall k | i < k <= |text| && (at < 0 || k <= at) :: !Balanced(Over(OUTSIDE, text[from..k])))
    decreases |text| - i
  {
    if i < |text| {
      var s := Over(OUTSIDE, text[from..i]);
      assert text[from..i + 1][..i - from] == text[from..i];
      var s' := Step(s, text[i]);
      assert Over(OUTSIDE, text[from..i + 1]) == s';
      if !(s.quote == None && text[i] == '}' && s'.depth == 0) {
        CloseAtIsLeast(text, from, i + 1);
      }
    }
  }

  // ---- block_after ---------------------------------------------------------------------------

  /** NoMarker is the pair of an empty body and -1; the other two are raised. */
  datatype Block = NoMarker | NoBody | NotClosed | Body(text: string, next: nat)

  function BlockAt(text: string, brace: nat): Block
    requires brace < |text|
  {
    var end := CloseAt(text, brace, OUTSIDE);
    if end <= brace then NotClosed else Body(text[brace + 1..end], end + 1)
  }

  function BlockAfter(text: string, marker: string, start: nat): Block {
    var markerAt := IndexFrom(text, marker, start);
    if markerAt < 0 then NoMarker
    else
      var brace := IndexRune(text, '{', markerAt);
      if brace < 0 then NoBody else BlockAt(text, brace)
  }

  /** A body is the shortest text after the first brace that leaves everything closed. */
  lemma BodyIsShortest(text: string, brace: nat)
    requires brace < |text| && text[brace] == '{'
    ensures var r := BlockAt(text, brace);
            && (r.Body? ==> brace + 1 < r.next <= |text| && r.text == text[brace + 1..r.next - 1] && text[r.next - 1] == '}')
            && (r.Body? ==> Balanced(Over(OUTSIDE, text[brace..r.next])))
            && (forall k | brace < k <= |text| && (r.Body? ==> k < r.next) :: !Balanced(Over(OUTSIDE, text[brace..k])))
            && (r.Body? || r.NotClosed?)
  {
    var withOne := OUTSIDE.(depth := 1);
    assert text[brace..brace + 1] == ['{'];
    OverOne(OUTSIDE, '{');
    assert CloseAt(text, brace, OUTSIDE) == CloseAt(text, brace + 1, withOne);
    CloseAtIsLeast(text, brace, brace + 1);
    CloseAtIsBrace(text, brace + 1, withOne);
  }

  lemma {:induction false} CloseAtIsBrace(text: string, i: nat, s: Scan)
    ensures CloseAt(text, i, s) >= 0 ==> text[CloseAt(text, i, s)] == '}'
    decreases |text| - i
  {
    if i < |text| {
      CloseAtIsBrace(text, i + 1, Step(s, text[i]));
    }
  }

  /** The opened braces that are not closed again. */
  function Depth(text: string): int {
    if text == "" then 0
    else
      var c := text[|text| - 1];
      Depth(text[..|text| - 1]) + if c == '{' then 1 else if c == '}' then -1 else 0
  }

  /** Without a quote in it, text is scanned by counting its braces. */
  lemma {:induction false} PlainTextIsCounted(text: string)
    requires forall i | 0 <= i < |text| :: text[i] != '"' && text[i] != '\'' && text[i] != '`'
    ensures Over(OUTSIDE, text) == Scan(Depth(text), None, false)
  {
    if text != "" {
      PlainTextIsCounted(text[..|text| - 1]);
    }
  }

  /** Its body ends at the first place where as many braces are closed as opened, and at none if there is none. */
  lemma PlainBodyIsBraceMatched(text: string, brace: nat, end: nat)
    requires brace < end < |text| && text[brace] == '{'
    requires forall i | 0 <= i < |text| :: text[i] != '"' && text[i] != '\'' && text[i] != '`'
    ensures BlockAt(text, brace) == Body(text[brace + 1..end], end + 1) <==>
            Depth(text[brace..end + 1]) == 0 && forall k | brace < k <= end :: Depth(text[brace..k]) != 0
    ensures BlockAt(text, brace) == NotClosed ==> Depth(text[brace..end + 1]) != 0
  {
    hide CloseAt, Over, Depth, BlockAt;
    BodyIsShortest(text, brace);
    forall k | brace < k <= |text| ensures Balanced(Over(OUTSIDE, text[brace..k])) <==> Depth(text[brace..k]) == 0 {
      PlainTextIsCounted(text[brace..k]);
    }
    var r := BlockAt(text, brace);
    if r == Body(text[brace + 1..end], end + 1) {
      assert Balanced(Over(OUTSIDE, text[brace..r.next]));
    }
    if Depth(text[brace..end + 1]) == 0 && forall k | brace < k <= end :: Depth(text[brace..k]) != 0 {
      assert Balanced(Over(OUTSIDE, text[brace..end + 1]));
      assert r.Body? && r.next <= end + 1;
      assert Balanced(Over(OUTSIDE, text[brace..r.next]));
    }
  }

  method BlockAfterMarker(text: string, marker: string, start: nat) returns (r: Block)
    ensures r == BlockAfter(text, marker, start)
    ensures r.Body? ==> start < r.next <= |text|
  {
    var markerAt := IndexFrom(text, marker, start);
    if markerAt < 0 {
      return NoMarker;
    }
    var braceAt := IndexRune(text, '{', markerAt);
    if braceAt < 0 {
      return NoBody;
    }
    r := ScanBody(text, braceAt);
  }

  /** The loop over the runes from the first brace on. */
  method ScanBody(text: string, braceAt: nat) returns (r: Block)
    requires braceAt < |text| && text[braceAt] == '{'
    ensures r == BlockAt(text, braceAt)
    ensures r.Body? ==> braceAt < r.next <= |text|
  {
    hide CloseAt;
    var depth, quote: Option<char>, escaped := 0, None, false;
    for index := braceAt to |text|
      invariant CloseAt(text, braceAt, OUTSIDE) == CloseAt(text, index, Scan(depth, quote, escaped))
      invariant index > braceAt ==> CloseAt(text, braceAt, OUTSIDE) != braceAt
    {
      var c := text[index];
      CloseAtStep(text, index, Scan(depth, quote, escaped));
      if quote.Some? {
        if escaped {
          escaped := false;
        } else if c == '\\' {
          escaped := true;
        } else if c == quote.value {
          quote := None;
        }
        continue;
      }
      if IsStringQuote(c) {
        quote := Some(c);
        continue;
      }
      if c == '{' {
        depth := depth + 1;
      } else if c == '}' {
        depth := depth - 1;
        if depth == 0 {
          return Body(text[braceAt + 1..index], index + 1);
        }
      }
    }
    CloseAtStep(text, |text|, Scan(depth, quote, escaped));
    return NotClosed;
  }

  lemma CloseAtStep(text: string, i: nat, s: Scan)
    ensures CloseAt(text, i, s) ==
            if i >= |text| then -1
            else if s.quote == None && text[i] == '}' && Step(s, text[i]).depth == 0 then i
            else CloseAt(text, i + 1, Step(s, text[i]))
  {}

  // ---- Rendered objects --------------------------------------------------------------------------

  /** A rune of a string literal, written as it is or after a backslash. */
  datatype Unit = Raw(c: char) | Escaped(c: char)

  /** What stands between two braces: other runes, string literals and nested bodies. */
  datatype Source =
    | Nothing
    | Rune(c: char, rest: Source)
    | Literal(quote: char, units: seq<Unit>, rest: Source)
    | Braces(inner: Source, rest: Source)

  /** Text between quotes of any of the three kinds is passed over, whatever it holds, up to the same quote without a
      backslash before it. */
  lemma StringsAreOpaque(s: Scan, quote: char, units: seq<Unit>)
    requires quote == '"' || quote == '\'' || quote == '`'
    requires s.quote == None && !s.escaped && s.depth > 0
    requires forall i | 0 <= i < |units| && units[i].Raw? :: units[i].c != quote && units[i].c != '\\'
    ensures Over(s, [quote] + RenderUnits(units) + [quote]) == s
  {
    hide RenderUnits;
    var inside := s.(quote := Some(quote));
    UnitsPass(inside, quote, units);
    OverOne(s, quote);
    OverAppend(s, [quote], RenderUnits(units));
    OverOne(inside, quote);
    OverAppend(s, [quote] + RenderUnits(units), [quote]);
  }

  predicate UnitsOk(quote: char, units: seq<Unit>) {
    forall i | 0 <= i < |units| && units[i].Raw? :: units[i].c != quote && units[i].c != '\\'
  }

  predicate WellFormed(b: Source) {
    match b
    case Nothing => true
    case Rune(c, rest) => !IsStringQuote(c) && c != '{' && c != '}' && WellFormed(rest)
    case Literal(quote, units, rest) => IsStringQuote(quote) && UnitsOk(quote, units) && WellFormed(rest)
    case Braces(inner, rest) => WellFormed(inner) && WellFormed(rest)
  }

  function RenderUnits(units: seq<Unit>): string {
    if units == [] then ""
    else (if units[0].Raw? then [units[0].c] else ['\\', units[0].c]) + RenderUnits(units[1..])
  }

  function Render(b: Source): string {
    match b
    case Nothing => ""
    case Rune(c, rest) => [c] + Render(rest)
    case Literal(quote, units, rest) => [quote] + RenderUnits(units) + [quote] + Render(rest)
    case Braces(inner, rest) => ['{'] + Render(inner) + ['}'] + Render(rest)
  }

  /** Scanning `text` from `s` ends in `t` and never balances on the way. */
  ghost predicate Passes(s: Scan, text: string, t: Scan) {
    Over(s, text) == t && forall k | 0 <= k <= |text| :: !Balanced(Over(s, text[..k]))
  }

  lemma PassesAppend(s: Scan, a: string, t: Scan, b: string, u: Scan)
    requires Passes(s, a, t) && Passes(t, b, u)
    ensures Passes(s, a + b, u)
  {
    OverAppend(s, a, b);
    forall k | 0 <= k <= |a + b| ensures !Balanced(Over(s, (a + b)[..k])) {
      if k <= |a| {
        assert (a + b)[..k] == a[..k];
      } else {
        assert (a + b)[..k] == a + b[..k - |a|];
        OverAppend(s, a, b[..k - |a|]);
      }
    }
  }

  lemma PassesOne(s: Scan, c: char)
    requires !Balanced(s) && !Balanced(Step(s, c))
    ensures Passes(s, [c], Step(s, c))
  {
    OverOne(s, c);
    assert [c][..0] == "" && [c][..1] == [c];
  }

  lemma {:induction false} UnitsPass(s: Scan, quote: char, units: seq<Unit>)
    requires s.quote == Some(quote) && !s.escaped && UnitsOk(quote, units)
    ensures Passes(s, RenderUnits(units), s)
  {
    if units != [] {
      var c := units[0].c;
      UnitsPass(s, quote, units[1..]);
      if units[0].Raw? {
        PassesOne(s, c);
        PassesAppend(s, [c], s, RenderUnits(units[1..]), s);
      } else {
        PassesOne(s, '\\');
        PassesOne(s.(escaped := true), c);
        PassesAppend(s, ['\\'], s.(escaped := true), [c], s);
        assert ['\\'] + [c] == ['\\', c];
        PassesAppend(s, ['\\', c], s, RenderUnits(units[1..]), s);
      }
    }
  }

  lemma {:induction false} SourcePasses(s: Scan, b: Source)
    requires s.quote == None && !s.escaped && s.depth > 0 && WellFormed(b)
    ensures Passes(s, Render(b), s)
    decreases b
  {
    hide Passes;
    match b
    case Nothing => EmptyPasses(s);
    case Rune(c, rest) =>
      PassesOne(s, c);
      SourcePasses(s, rest);
      PassesAppend(s, [c], s, Render(rest), s);
    case Literal(quote, units, rest) =>
      var inside := s.(quote := Some(quote));
      PassesOne(s, quote);
      UnitsPass(inside, quote, units);
      PassesOne(inside, quote);
      SourcePasses(s, rest);
      PassesAppend(s, [quote], inside, RenderUnits(units), inside);
      PassesAppend(s, [quote] + RenderUnits(units), inside, [quote], s);
      PassesAppend(s, [quote] + RenderUnits(units) + [quote], s, Render(rest), s);
    case Braces(inner, rest) =>
      var deeper := s.(depth := s.depth + 1);
      PassesOne(s, '{');
      SourcePasses(deeper, inner);
      PassesOne(deeper, '}');
      SourcePasses(s, rest);
      PassesAppend(s, ['{'], deeper, Render(inner), deeper);
      PassesAppend(s, ['{'] + Render(inner), deeper, ['}'], s);
      PassesAppend(s, ['{'] + Render(inner) + ['}'], s, Render(rest), s);
  }

  lemma EmptyPasses(s: Scan)
    requires !Balanced(s)
    ensures Passes(s, "", s)
  {}

  /** A rendered object comes back exactly, whatever text follows it. */
  lemma RenderedBodyIsFound(b: Source, before: string, rest: string)
    requires WellFormed(b)
    ensures var text := before + ("{" + Render(b) + "}") + rest;
            BlockAt(text, |before|) == Body(Render(b), |before| + |Render(b)| + 2)
  {
    hide Over, Render, CloseAt;
    var whole := "{" + Render(b) + "}";
    var text, brace, end := before + whole + rest, |before|, |before| + |Render(b)| + 2;
    var withOne := OUTSIDE.(depth := 1);
    OverOne(OUTSIDE, '{');
    SourcePasses(withOne, b);
    OverOne(withOne, '}');
    OverAppend(OUTSIDE, "{", Render(b));
    OverAppend(OUTSIDE, "{" + Render(b), "}");
    assert text[brace..end] == whole;
    BodyIsShortest(text, brace);
    var r := BlockAt(text, brace);
    forall k | brace < k < end ensures !Balanced(Over(OUTSIDE, text[brace..k])) {
      assert text[brace..k] == "{" + Render(b)[..k - brace - 1];
      OverAppend(OUTSIDE, "{", Render(b)[..k - brace - 1]);
    }
    assert r.Body? && r.next == end;
    assert text[brace + 1..end - 1] == Render(b);
  }

  // ---- Every object after a marker -----------------------------------------------------------------

  /** The bodies found one after the other, or the error that was raised on the way. */
  datatype Collected = Bodies(bodies: seq<string>) | Raised(error: Block)

  function Before(body: string, more: Collected): Collected {
    match more
    case Bodies(bodies) => Bodies([body] + bodies)
    case Raised(_) => more
  }

  lemma NextIsLater(text: string, marker: string, start: nat)
    ensures BlockAfter(text, marker, start).Body? ==> start < BlockAfter(text, marker, start).next <= |text|
  {}

  function Blocks(text: string, marker: string, offset: nat): Collected
    decreases |text| - offset
  {
    NextIsLater(text, marker, offset);
    match BlockAfter(text, marker, offset)
    case NoMarker => Bodies([])
    case Body(body, next) => Before(body, Blocks(text, marker, next))
    case error => Raised(error)
  }

  /** The loop of dictionary_keys and dictionary_strings; the offset grows, so it ends. */
  method CollectBlocks(text: string, marker: string) returns (r: Collected)
    ensures r == Blocks(text, marker, 0)
  {
    hide BlockAfter;
    var bodies: seq<string> := [];
    var offset := 0;
    ghost var all := Blocks(text, marker, 0);
    while true
      invariant all == Prepend(bodies, Blocks(text, marker, offset))
      decreases |text| - offset
    {
      var block := BlockAfterMarker(text, marker, offset);
      if block == NoMarker {
        return Bodies(bodies);
      }
      if block.NoBody? || block.NotClosed? {
        return Raised(block);
      }
      PrependBefore(bodies, block.text, Blocks(text, marker, block.next));
      bodies := bodies + [block.text];
      offset := block.next;
    }
  }

  function Prepend(bodies: seq<string>, more: Collected): Collected {
    match more
    case Bodies(others) => Bodies(bodies + others)
    case Raised(_) => more
  }

  lemma PrependBefore(bodies: seq<string>, body: string, more: Collected)
    ensures Prepend(bodies, Before(body, more)) == Prepend(bodies + [body], more)
  {}

  /** Text up to a marker that first occurs at its end, then text without a brace, then an object. */
  datatype Assignment = Assignment(filler: string, between: string, body: Source)

  predicate FirstOccursAtEnd(filler: string, marker: string) {
    IndexFrom(filler + marker, marker, 0) == |filler|
  }

  predicate AssignmentsOk(assignments: seq<Assignment>, marker: string) {
    && '{' !in marker
    && forall i | 0 <= i < |assignments| ::
         && FirstOccursAtEnd(assignments[i].filler, marker)
         && '{' !in assignments[i].between && WellFormed(assignments[i].body)
  }

  function RenderOne(a: Assignment, marker: string): string {
    a.filler + marker + a.between + ("{" + Render(a.body) + "}")
  }

  function RenderAll(assignments: seq<Assignment>, marker: string): string {
    if assignments == [] then "" else RenderOne(assignments[0], marker) + RenderAll(assignments[1..], marker)
  }

  function BodiesOf(assignments: seq<Assignment>): (r: seq<string>)
    ensures |r| == |assignments| && forall i | 0 <= i < |r| :: r[i] == Render(assignments[i].body)
  {
    seq(|assignments|, i requires 0 <= i < |assignments| => Render(assignments[i].body))
  }

  /** An occurrence is the same wherever the text around it starts and ends. */
  lemma OccursWithin(done: string, s: string, rest: string, sub: string, i: nat)
    requires i + |sub| <= |s|
    ensures OccursAt(done + s + rest, sub, |done| + i) <==> OccursAt(s, sub, i)
  {
    assert (done + s + rest)[|done| + i..|done| + i + |sub|] == s[i..i + |sub|];
  }

  lemma MarkerIsFound(done: string, filler: string, marker: string, rest: string)
    requires FirstOccursAtEnd(filler, marker)
    ensures IndexFrom(done + (filler + marker) + rest, marker, |done|) == |done| + |filler|
  {
    hide OccursAt;
    var text, lead := done + (filler + marker) + rest, filler + marker;
    OccursWithin(done, lead, rest, marker, |filler|);
    forall i | |done| <= i < |done| + |filler| ensures !OccursAt(text, marker, i) {
      OccursWithin(done, lead, rest, marker, i - |done|);
    }
  }

  lemma BraceIsFound(before: string, from: nat, rest: string)
    requires from <= |before| && '{' !in before[from..]
    ensures IndexRune(before + "{" + rest, '{', from) == |before|
  {
    var text := before + "{" + rest;
    forall i | from <= i < |before| ensures text[i] != '{' {
      assert text[i] == before[from..][i - from];
    }
    assert text[|before|] == '{';
  }

  lemma FirstAssignmentIsFound(done: string, a: Assignment, marker: string, rest: string)
    requires AssignmentsOk([a], marker)
    ensures BlockAfter(done + RenderOne(a, marker) + rest, marker, |done|) ==
            Body(Render(a.body), |done| + |RenderOne(a, marker)|)
  {
    hide WellFormed, Render, BlockAt, IndexFrom, IndexRune, FirstOccursAtEnd;
    assert [a][0] == a;
    var body, before := Render(a.body), done + a.filler + marker + a.between;
    var behind := a.between + ("{" + body + "}") + rest;
    Regroup(done, a.filler, marker, a.between, body, rest);
    MarkerIsFound(done, a.filler, marker, behind);
    assert before[|done| + |a.filler|..] == marker + a.between;
    BraceIsFound(before, |done| + |a.filler|, body + "}" + rest);
    RenderedBodyIsFound(a.body, before, rest);
  }

  lemma Regroup(done: string, filler: string, marker: string, between: string, body: string, rest: string)
    ensures var text := done + (filler + marker + between + ("{" + body + "}")) + rest;
            var before := done + filler + marker + between;
            && text == done + (filler + marker) + (between + ("{" + body + "}") + rest)
            && text == before + "{" + (body + "}" + rest)
            && text == before + ("{" + body + "}") + rest
  {}

  lemma NoMarkerInTail(done: string, tail: string, marker: string)
    requires IndexFrom(tail, marker, 0) == -1
    ensures IndexFrom(done + tail, marker, |done|) == -1
  {
    hide IndexFrom;
    assert done + tail + "" == done + tail;
    forall i | |done| <= i ensures !OccursAt(done + tail, marker, i) {
      if i + |marker| <= |done + tail| {
        OccursWithin(done, tail, "", marker, i - |done|);
      }
    }
  }

  lemma PrependTwice(first: string, others: seq<string>, more: Collected)
    ensures Before(first, Prepend(others, more)) == Prepend([first] + others, more)
    ensures Prepend([], more) == more
  {}

  /** The bodies of assignments come first, whatever is found behind them. */
  lemma {:induction false} AssignmentsComeFirst(done: string, assignments: seq<Assignment>, marker: string, tail: string)
    requires AssignmentsOk(assignments, marker)
    ensures var text := done + RenderAll(assignments, marker) + tail;
            Blocks(text, marker, |done|) ==
            Prepend(BodiesOf(assignments), Blocks(text, marker, |done| + |RenderAll(assignments, marker)|))
    decreases |assignments|
  {
    hide RenderOne, BlockAfter, WellFormed, Render, IndexFrom, Prepend, Before;
    var text := done + RenderAll(assignments, marker) + tail;
    if assignments == [] {
      PrependTwice("", [], Blocks(text, marker, |done|));
      assert BodiesOf(assignments) == [];
    } else {
      var a, others := assignments[0], assignments[1..];
      var first, rest := RenderOne(a, marker), RenderAll(others, marker) + tail;
      assert AssignmentsOk([a], marker);
      assert text == done + first + rest;
      FirstAssignmentIsFound(done, a, marker, rest);
      assert text == (done + first) + RenderAll(others, marker) + tail;
      AssignmentsComeFirst(done + first, others, marker, tail);
      assert |done + first| + |RenderAll(others, marker)| == |done| + |RenderAll(assignments, marker)|;
      PrependTwice(Render(a.body), BodiesOf(others), Blocks(text, marker, |done| + |RenderAll(assignments, marker)|));
      assert [Render(a.body)] + BodiesOf(others) == BodiesOf(assignments);
    }
  }

  /** The loop collects exactly the bodies of the assignments of a file, in order. */
  lemma AssignmentsAreCollected(done: string, assignments: seq<Assignment>, marker: string, tail: string)
    requires AssignmentsOk(assignments, marker) && IndexFrom(tail, marker, 0) == -1
    ensures Blocks(done + RenderAll(assignments, marker) + tail, marker, |done|) == Bodies(BodiesOf(assignments))
  {
    hide IndexFrom, RenderAll, Blocks, AssignmentsOk, Prepend;
    var front := done + RenderAll(assignments, marker);
    AssignmentsComeFirst(done, assignments, marker, tail);
    NoMarkerInTail(front, tail, marker);
    NothingToCollect(front + tail, marker, |front|);
    PrependToNone(BodiesOf(assignments));
  }

  lemma NothingToCollect(text: string, marker: string, start: nat)
    requires IndexFrom(text, marker, start) == -1
    ensures Blocks(text, marker, start) == Bodies([])
  {
    hide IndexFrom;
  }

  lemma PrependToNone(bodies: seq<string>)
    ensures Prepend(bodies, Bodies([])) == Bodies(bodies)
  {}

  /** A marker behind them that has no brace after it raises its error, and so does one whose object is not closed. */
  lemma ErrorIsRaised(done: string, assignments: seq<Assignment>, marker: string, filler: string, rest: string)
    requires AssignmentsOk(assignments, marker) && FirstOccursAtEnd(filler, marker)
    requires '{' !in rest || (rest != "" && rest[0] == '{' && BlockAt(rest, 0) == NotClosed)
    ensures Blocks(done + RenderAll(assignments, marker) + ((filler + marker) + rest), marker, |done|) ==
            Raised(if '{' in rest then NotClosed else NoBody)
  {
    hide BlockAfter, IndexFrom, RenderAll, BlockAt, FirstOccursAtEnd;
    var front := done + RenderAll(assignments, marker);
    var tail := (filler + marker) + rest;
    AssignmentsComeFirst(done, assignments, marker, tail);
    assert AssignmentsOk(assignments, marker);
    MarkerHasNoBody(front, filler, marker, rest);
  }

  lemma MarkerHasNoBody(done: string, filler: string, marker: string, rest: string)
    requires FirstOccursAtEnd(filler, marker) && '{' !in marker
    requires '{' !in rest || (rest != "" && rest[0] == '{' && BlockAt(rest, 0) == NotClosed)
    ensures BlockAfter(done + ((filler + marker) + rest), marker, |done|) == if '{' in rest then NotClosed else NoBody
  {
    hide IndexFrom, IndexRune, BlockAt, FirstOccursAtEnd;
    var front, from := done + (filler + marker), |done| + |filler|;
    AppendAssociates(done, filler + marker, rest);
    MarkerIsFound(done, filler, marker, rest);
    assert front[from..] == marker;
    if '{' in rest {
      assert rest == "{" + rest[1..];
      AppendAssociates(front, "{", rest[1..]);
      BraceIsFound(front, from, rest[1..]);
      UnclosedWithin(front, rest);
    } else {
      NoBraceAhead(front + rest, from, marker + rest);
    }
  }

  lemma NoBraceAhead(text: string, from: nat, behind: string)
    requires from <= |text| && text[from..] == behind && '{' !in behind
    ensures IndexRune(text, '{', from) == -1
  {
    hide IndexRune;
    assert forall i | from <= i < |text| :: text[i] == behind[i - from];
  }

  /** Where an object starts does not matter for how it is scanned. */
  lemma UnclosedWithin(front: string, rest: string)
    requires rest != "" && BlockAt(rest, 0) == NotClosed && rest[0] == '{'
    ensures BlockAt(front + rest, |front|) == NotClosed
  {
    ScanIsShifted(front, rest, 0, OUTSIDE);
    var withOne := OUTSIDE.(depth := 1);
    assert CloseAt(rest, 0, OUTSIDE) == CloseAt(rest, 1, withOne);
    assert CloseAt(rest, 0, OUTSIDE) != 0;
  }

  lemma {:induction false} ScanIsShifted(front: string, rest: string, i: nat, s: Scan)
    ensures CloseAt(front + rest, |front| + i, s) ==
            if CloseAt(rest, i, s) == -1 then -1 else |front| + CloseAt(rest, i, s)
    decreases |rest| - i
  {
    if i < |rest| {
      assert (front + rest)[|front| + i] == rest[i];
      ScanIsShifted(front, rest, i + 1, Step(s, rest[i]));
    }
  }
}
