/** Quoting a list of values for a YAML flow sequence (quotedYAMLList), and a reader of double-quoted
    scalars (section 7.3.1 of YAML 1.2.2) that undoes it. */
module YamlQuoting {
  import opened Text
  import opened Wrappers

  // ---- The writer ------------------------------------------------------------------------------

  /** strings.ReplaceAll for a single rune. */
  function ReplaceAll(s: string, c: char, with: string): string {
    if s == "" then "" else (if s[0] == c then with else [s[0]]) + ReplaceAll(s[1..], c, with)
  }

  function EscapeRune(c: char): string {
    if c == '\\' || c == '"' then ['\\', c] else [c]
  }

  function Escape(s: string): string {
    if s == "" then "" else EscapeRune(s[0]) + Escape(s[1..])
  }

  lemma {:induction false} ReplaceAllAppend(a: string, b: string, c: char, with: string)
    ensures ReplaceAll(a + b, c, with) == ReplaceAll(a, c, with) + ReplaceAll(b, c, with)
  {
    if a == "" {
      assert a + b == b;
    } else {
      assert (a + b)[1..] == a[1..] + b;
      ReplaceAllAppend(a[1..], b, c, with);
    }
  }

  /** Replacing backslashes first and quotes after them escapes rune by rune. */
  lemma {:induction false} TwoReplacementsEscape(s: string)
    ensures ReplaceAll(ReplaceAll(s, '\\', "\\\\"), '"', "\\\"") == Escape(s)
  {
    if s != "" {
      var first := if s[0] == '\\' then "\\\\" else [s[0]];
      TwoReplacementsEscape(s[1..]);
      ReplaceAllAppend(first, ReplaceAll(s[1..], '\\', "\\\\"), '"', "\\\"");
      FirstIsEscaped(s[0]);
    }
  }

  lemma FirstIsEscaped(c: char)
    ensures ReplaceAll(if c == '\\' then "\\\\" else [c], '"', "\\\"") == EscapeRune(c)
  {
    if c == '\\' {
      assert "\\\\"[1..] == "\\";
      assert ReplaceAll("\\", '"', "\\\"") == "\\" + ReplaceAll("", '"', "\\\"");
      assert ReplaceAll("\\\\", '"', "\\\"") == "\\" + ReplaceAll("\\", '"', "\\\"");
    } else {
      assert [c][1..] == "";
      assert EscapeRune(c) + "" == EscapeRune(c);
    }
  }

  function Quote(s: string): string {
    "\"" + Escape(s) + "\""
  }

  /** The trimmed values that are not empty. */
  function Kept(values: seq<string>): seq<string> {
    if values == [] then []
    else Kept(values[..|values| - 1]) + if TrimSpace(values[|values| - 1]) == "" then [] else [TrimSpace(values[|values| - 1])]
  }

  /** Every value is kept without the blanks around it, unless it is blank. */
  lemma ValueIsKept(values: seq<string>, before: string, core: string, after: string)
    requires AllSpace(before) && AllSpace(after) && IsTrimmed(core)
    ensures Kept(values + [before + core + after]) == Kept(values) + if core == "" then [] else [core]
    ensures Kept([]) == []
  {
    hide IsSpace, TrimSpace;
    TrimSpaceTakesOff(before, core, after);
    assert (values + [before + core + after])[..|values|] == values;
  }

  function QuoteEach(values: seq<string>): (r: seq<string>)
    ensures |r| == |values| && forall i | 0 <= i < |r| :: r[i] == Quote(values[i])
  {
    seq(|values|, i requires 0 <= i < |values| => Quote(values[i]))
  }

  method QuotedYamlList(values: seq<string>) returns (r: string)
    ensures r == Join(QuoteEach(Kept(values)), ", ")
  {
    hide ReplaceAll, Escape, TrimSpace;
    var quoted: seq<string> := [];
    for i := 0 to |values|
      invariant quoted == QuoteEach(Kept(values[..i]))
    {
      assert values[..i + 1][..i] == values[..i];
      var value := TrimSpace(values[i]);
      if value == "" {
        continue;
      }
      TwoReplacementsEscape(value);
      value := ReplaceAll(value, '\\', "\\\\");
      value := ReplaceAll(value, '"', "\\\"");
      quoted := quoted + ["\"" + value + "\""];
    }
    assert values[..|values|] == values;
    return Join(quoted, ", ");
  }

  // ---- The reader ------------------------------------------------------------------------------

  /** The escape sequences of one character after the backslash. */
  function Unescape(c: char): Option<char> {
    match c
    case '0' => Some('\0')
    case 'a' => Some('\U{7}')
    case 'b' => Some('\U{8}')
    case 't' => Some('\t')
    case '\t' => Some('\t')
    case 'n' => Some('\n')
    case 'v' => Some('\U{B}')
    case 'f' => Some('\U{C}')
    case 'r' => Some('\r')
    case 'e' => Some('\U{1B}')
    case ' ' => Some(' ')
    case '"' => Some('"')
    case '/' => Some('/')
    case '\\' => Some('\\')
    case 'N' => Some('\U{85}')
    case '_' => Some('\U{A0}')
    case 'L' => Some('\U{2028}')
    case 'P' => Some('\U{2029}')
    case _ => None
  }

  predicate IsBreak(c: char) {
    c == '\n' || c == '\r'
  }

  predicate IsWhite(c: char) {
    c == ' ' || c == '\t'
  }

  /** A character that may stand for itself on one line: a tab or anything from the space up. */
  predicate IsReadable(c: char) {
    c == '\t' || c >= ' '
  }

  predicate IsControl(c: char) {
    !IsReadable(c) && !IsBreak(c)
  }

  predicate Readable(s: string) {
    forall i | 0 <= i < |s| :: IsReadable(s[i])
  }

  predicate StartsWithBreak(s: string) {
    s != "" && IsBreak(s[0])
  }

  function AfterBreak(s: string): (r: string)
    requires StartsWithBreak(s)
    ensures |r| < |s|
  {
    if |s| > 1 && s[0] == '\r' && s[1] == '\n' then s[2..] else s[1..]
  }

  /** The number of empty lines, and the text of the first line that is not empty. */
  function EmptyLines(s: string): (r: (nat, string))
    ensures |r.1| <= |s|
    decreases |s|
  {
    var line := TrimLeft(s, IsWhite);
    if StartsWithBreak(line) then
      var more := EmptyLines(AfterBreak(line));
      (more.0 + 1, more.1)
    else (0, line)
  }

  /** The line ends here, perhaps after blanks. */
  predicate Folds(s: string) {
    StartsWithBreak(TrimLeft(s, IsWhite))
  }

  function LineFeeds(n: nat): string {
    seq(n, _ => '\n')
  }

  /** Line folding: a line break with the blanks around it reads as a space, or as one line feed for every
      empty line that follows. */
  function Fold(s: string): (r: (string, string))
    requires Folds(s)
    ensures |r.1| < |s|
  {
    var (empty, rest) := EmptyLines(AfterBreak(TrimLeft(s, IsWhite)));
    (if empty == 0 then " " else LineFeeds(empty), rest)
  }

  datatype Scalar = Scalar(value: string, rest: string)

  function Before(read: string, more: Option<Scalar>): Option<Scalar> {
    match more
    case None => None
    case Some(scalar) => Some(Scalar(read + scalar.value, scalar.rest))
  }

  /** The rest of a scalar after its opening quote, up to its closing one. */
  function ReadBody(s: string): Option<Scalar>
    decreases |s|
  {
    if s == "" then None
    else if s[0] == '"' then Some(Scalar("", s[1..]))
    else if s[0] == '\\' then
      if StartsWithBreak(s[1..]) then
        var (empty, rest) := EmptyLines(AfterBreak(s[1..]));
        Before(LineFeeds(empty), ReadBody(rest))
      else if |s| < 2 || Unescape(s[1]) == None then None
      else Before([Unescape(s[1]).value], ReadBody(s[2..]))
    else if Folds(s) then
      var (read, rest) := Fold(s);
      Before(read, ReadBody(rest))
    else if IsReadable(s[0]) then Before([s[0]], ReadBody(s[1..]))
    else None
  }

  /** Scalars separated by a comma and a space. */
  function ReadList(s: string): Option<seq<string>>
    decreases |s|
  {
    if s == "" then Some([])
    else if s[0] != '"' then None
    else
      BodyIsShorter(s[1..]);
      match ReadBody(s[1..])
      case None => None
      case Some(first) =>
        if first.rest == "" then Some([first.value])
        else if ", " <= first.rest && |first.rest| > 2 then
          match ReadList(first.rest[2..])
          case None => None
          case Some(others) => Some([first.value] + others)
        else None
  }

  lemma {:induction false} BodyIsShorter(s: string)
    ensures ReadBody(s).Some? ==> |ReadBody(s).value.rest| < |s|
    decreases |s|
  {
    if s != "" && s[0] != '"' {
      if s[0] == '\\' {
        if StartsWithBreak(s[1..]) {
          BodyIsShorter(EmptyLines(AfterBreak(s[1..])).1);
        } else if |s| >= 2 {
          BodyIsShorter(s[2..]);
        }
      } else if Folds(s) {
        BodyIsShorter(Fold(s).1);
      } else {
        BodyIsShorter(s[1..]);
      }
    }
  }

  // ---- What is read of a value that was written --------------------------------------------------

  /** The value with its lines folded, unless it holds a control character. */
  function Folded(s: string): Option<string>
    decreases |s|
  {
    if s == "" then Some("")
    else if Folds(s) then
      var (read, rest) := Fold(s);
      match Folded(rest)
      case None => None
      case Some(more) => Some(read + more)
    else if IsReadable(s[0]) then
      match Folded(s[1..])
      case None => None
      case Some(more) => Some([s[0]] + more)
    else None
  }

  function Closed(s: string, rest: string): string {
    Escape(s) + "\"" + rest
  }

  lemma ClosedStep(s: string, rest: string)
    requires s != ""
    ensures Closed(s, rest) == EscapeRune(s[0]) + Closed(s[1..], rest)
  {
    AppendAssociates(EscapeRune(s[0]), Escape(s[1..]), "\"");
    AppendAssociates(EscapeRune(s[0]), Escape(s[1..]) + "\"", rest);
  }

  lemma {:induction false} BlanksAreWritten(s: string, rest: string)
    ensures TrimLeft(Closed(s, rest), IsWhite) == Closed(TrimLeft(s, IsWhite), rest)
  {
    if s == "" {
      assert Closed(s, rest) == "\"" + rest;
    } else {
      ClosedStep(s, rest);
      if IsWhite(s[0]) {
        assert Closed(s, rest)[1..] == Closed(s[1..], rest);
        BlanksAreWritten(s[1..], rest);
      } else {
        assert !IsWhite(Closed(s, rest)[0]);
      }
    }
  }

  lemma BreaksAreWritten(s: string, rest: string)
    ensures StartsWithBreak(Closed(s, rest)) <==> StartsWithBreak(s)
    ensures StartsWithBreak(s) ==> AfterBreak(Closed(s, rest)) == Closed(AfterBreak(s), rest)
  {
    hide Closed;
    if s == "" {
      EmptyIsClosed(rest);
    } else {
      ClosedStep(s, rest);
      if IsBreak(s[0]) {
        assert Closed(s, rest)[1..] == Closed(s[1..], rest);
        if s[1..] == "" {
          EmptyIsClosed(rest);
        } else {
          ClosedStep(s[1..], rest);
          assert s[1..][1..] == s[2..];
          assert s[1] == '\n' ==> Closed(s, rest)[2..] == Closed(s[2..], rest);
        }
      }
    }
  }

  lemma EmptyIsClosed(rest: string)
    ensures Closed("", rest) == "\"" + rest
  {}

  lemma {:induction false} EmptyLinesAreWritten(s: string, rest: string)
    ensures EmptyLines(Closed(s, rest)) == (EmptyLines(s).0, Closed(EmptyLines(s).1, rest))
    decreases |s|
  {
    hide Closed, TrimLeft, AfterBreak;
    var line := TrimLeft(s, IsWhite);
    BlanksAreWritten(s, rest);
    BreaksAreWritten(line, rest);
    if StartsWithBreak(line) {
      EmptyLinesAreWritten(AfterBreak(line), rest);
    }
  }

  lemma FoldIsWritten(s: string, rest: string)
    ensures Folds(Closed(s, rest)) <==> Folds(s)
    ensures Folds(s) ==> Fold(Closed(s, rest)) == (Fold(s).0, Closed(Fold(s).1, rest))
  {
    hide Closed, TrimLeft, AfterBreak, EmptyLines;
    var line := TrimLeft(s, IsWhite);
    BlanksAreWritten(s, rest);
    BreaksAreWritten(line, rest);
    if StartsWithBreak(line) {
      EmptyLinesAreWritten(AfterBreak(line), rest);
    }
  }

  /** An escaped value is read up to its closing quote, with its lines folded. */
  lemma {:induction false} BodyRoundTrip(s: string, rest: string)
    ensures ReadBody(Closed(s, rest)) ==
            match Folded(s) { case None => None case Some(value) => Some(Scalar(value, rest)) }
    decreases |s|
  {
    hide Closed, Fold, Folds;
    var text := Closed(s, rest);
    if s == "" {
      EmptyIsClosed(rest);
      assert text[1..] == rest;
    } else {
      ClosedStep(s, rest);
      FoldIsWritten(s, rest);
      if Folds(s) {
        FoldStart(s);
        BodyRoundTrip(Fold(s).1, rest);
      } else {
        BodyRoundTrip(s[1..], rest);
        if s[0] == '\\' || s[0] == '"' {
          assert text[2..] == Closed(s[1..], rest);
          assert text[1] == s[0] && !StartsWithBreak(text[1..]);
        } else {
          assert text[1..] == Closed(s[1..], rest);
        }
      }
    }
  }

  lemma FoldStart(s: string)
    requires Folds(s) && s != ""
    ensures s[0] != '"' && s[0] != '\\'
  {
    hide TrimLeft;
    if s[0] == '"' || s[0] == '\\' {
      TrimLeftNone(s, IsWhite);
    }
  }

  // ---- When the value comes back -----------------------------------------------------------------

  function Count(s: string, p: char -> bool): nat {
    if s == "" then 0 else (if p(s[0]) then 1 else 0) + Count(s[1..], p)
  }

  lemma {:induction false} CountAppend(a: string, b: string, p: char -> bool)
    ensures Count(a + b, p) == Count(a, p) + Count(b, p)
  {
    if a == "" {
      assert a + b == b;
    } else {
      assert (a + b)[1..] == a[1..] + b;
      CountAppend(a[1..], b, p);
    }
  }

  lemma {:induction false} CountTrimmed(s: string, p: char -> bool)
    requires forall c | IsWhite(c) :: !p(c)
    ensures Count(TrimLeft(s, IsWhite), p) == Count(s, p)
  {
    if s != "" && IsWhite(s[0]) {
      CountTrimmed(s[1..], p);
    }
  }

  /** Reading over empty lines takes at least as many line breaks as there are, and nothing else but blanks. */
  lemma {:induction false} CountEmptyLines(s: string)
    ensures Count(s, IsControl) == Count(EmptyLines(s).1, IsControl)
    ensures Count(s, IsBreak) >= EmptyLines(s).0 + Count(EmptyLines(s).1, IsBreak)
    decreases |s|
  {
    hide TrimLeft;
    var line := TrimLeft(s, IsWhite);
    CountTrimmed(s, IsControl);
    CountTrimmed(s, IsBreak);
    if StartsWithBreak(line) {
      CountAfterBreak(line);
      CountEmptyLines(AfterBreak(line));
    }
  }

  lemma CountAfterBreak(s: string)
    requires StartsWithBreak(s)
    ensures Count(s, IsControl) == Count(AfterBreak(s), IsControl)
    ensures Count(s, IsBreak) > Count(AfterBreak(s), IsBreak)
  {
    if |s| > 1 {
      assert s[1..][1..] == s[2..] && s[1..][0] == s[1];
    }
  }

  lemma {:induction false} LineFeedsAreBreaks(n: nat)
    ensures Count(LineFeeds(n), IsBreak) == n
  {
    if n > 0 {
      LineFeedsAreBreaks(n - 1);
      assert LineFeeds(n)[1..] == LineFeeds(n - 1);
    }
  }

  /** A fold takes more line breaks than it gives. */
  lemma CountFold(s: string)
    requires Folds(s)
    ensures Count(s, IsControl) == Count(Fold(s).1, IsControl)
    ensures Count(s, IsBreak) > Count(Fold(s).0, IsBreak) + Count(Fold(s).1, IsBreak)
  {
    hide TrimLeft, AfterBreak, EmptyLines, Count, LineFeeds;
    var line := TrimLeft(s, IsWhite);
    CountTrimmed(s, IsControl);
    CountTrimmed(s, IsBreak);
    CountAfterBreak(line);
    CountEmptyLines(AfterBreak(line));
    LineFeedsAreBreaks(EmptyLines(AfterBreak(line)).0);
    SpaceIsNoBreak();
  }

  lemma SpaceIsNoBreak()
    ensures Count(" ", IsBreak) == 0
  {}

  /** Nothing is read of a value with a control character, line breaks get lost from one that holds them, and
      any other value is read as it is. */
  lemma {:induction false} FoldedValue(s: string)
    ensures Folded(s) == None <==> Count(s, IsControl) > 0
    ensures Folded(s).Some? && Count(s, IsBreak) == 0 ==> Folded(s).value == s
    ensures Folded(s).Some? && Count(s, IsBreak) > 0 ==> Count(Folded(s).value, IsBreak) < Count(s, IsBreak)
    decreases |s|
  {
    hide Fold, Folds;
    if s != "" {
      if Folds(s) {
        CountFold(s);
        FoldedValue(Fold(s).1);
        if Folded(s).Some? {
          CountAppend(Fold(s).0, Folded(Fold(s).1).value, IsBreak);
        }
      } else {
        FoldedValue(s[1..]);
        NoBreakHere(s);
        assert s == [s[0]] + s[1..];
        if Folded(s).Some? {
          CountAppend([s[0]], Folded(s[1..]).value, IsBreak);
          assert [s[0]][1..] == "";
        }
      }
    }
  }

  lemma NoBreakHere(s: string)
    requires s != "" && !Folds(s)
    ensures !IsBreak(s[0])
  {
    hide TrimLeft;
    if IsBreak(s[0]) {
      TrimLeftNone(s, IsWhite);
    }
  }

  lemma {:induction false} ReadableIsPlain(s: string)
    ensures Readable(s) <==> Count(s, IsControl) == 0 && Count(s, IsBreak) == 0
  {
    if s != "" {
      ReadableIsPlain(s[1..]);
      assert forall i | 0 < i < |s| :: s[i] == s[1..][i - 1];
      assert Readable(s[1..]) ==> forall i | 0 < i < |s| :: IsReadable(s[i]);
    }
  }

  /** A value is read back as it is exactly when all its characters are readable on one line. */
  lemma FoldedIsSame(s: string)
    ensures Folded(s) == Some(s) <==> Readable(s)
  {
    hide Readable, Folded, Count;
    FoldedValue(s);
    ReadableIsPlain(s);
  }

  // ---- The list ----------------------------------------------------------------------------------

  predicate AllReadable(values: seq<string>) {
    forall i | 0 <= i < |values| :: Readable(values[i])
  }

  function FoldedEach(values: seq<string>): Option<seq<string>> {
    if values == [] then Some([])
    else
      match (Folded(values[0]), FoldedEach(values[1..]))
      case (Some(first), Some(others)) => Some([first] + others)
      case _ => None
  }

  /** A quoted list is read value by value. */
  lemma {:induction false} ListRoundTrip(values: seq<string>)
    ensures ReadList(Join(QuoteEach(values), ", ")) == FoldedEach(values)
    decreases |values|
  {
    hide ReadBody, Folded, Closed, Join, QuoteEach;
    if values == [] {
      NothingToJoin();
    } else {
      var first, others := values[0], values[1..];
      var more := Join(QuoteEach(others), ", ");
      var rest := if others == [] then "" else ", " + more;
      var text := Join(QuoteEach(values), ", ");
      FirstIsQuoted(first, others);
      assert values == [first] + others;
      assert text[1..] == Closed(first, rest);
      BodyRoundTrip(first, rest);
      ListRoundTrip(others);
      assert Folded(first).Some? ==> [Folded(first).value] + [] == [Folded(first).value];
      if others != [] {
        JoinIsLong(others);
        assert rest[2..] == more && ", " <= rest;
      }
    }
  }

  lemma NothingToJoin()
    ensures Join(QuoteEach([]), ", ") == ""
  {}

  lemma FirstIsQuoted(first: string, others: seq<string>)
    ensures Join(QuoteEach([first] + others), ", ") ==
            "\"" + Closed(first, if others == [] then "" else ", " + Join(QuoteEach(others), ", "))
  {
    hide Join, Escape;
    JoinCons(Quote(first), QuoteEach(others), ", ");
    assert QuoteEach([first] + others) == [Quote(first)] + QuoteEach(others);
    var rest := if others == [] then "" else ", " + Join(QuoteEach(others), ", ");
    assert Quote(first) + rest == "\"" + Closed(first, rest);
    assert others == [] ==> Quote(first) + "" == Quote(first);
    if others != [] {
      AppendAssociates(Quote(first), ", ", Join(QuoteEach(others), ", "));
    }
  }

  lemma JoinIsLong(values: seq<string>)
    requires values != []
    ensures |Join(QuoteEach(values), ", ")| >= 2
  {
    FirstIsQuoted(values[0], values[1..]);
    assert values == [values[0]] + values[1..];
  }

  lemma {:induction false} FoldedEachIsSame(values: seq<string>)
    ensures FoldedEach(values) == Some(values) <==> AllReadable(values)
  {
    hide Folded, Readable;
    if values != [] {
      FoldedIsSame(values[0]);
      FoldedEachIsSame(values[1..]);
      assert values == [values[0]] + values[1..];
      assert AllReadable(values) <==> Readable(values[0]) && AllReadable(values[1..]) by { AllReadableParts(values); }
    }
  }

  lemma AllReadableParts(values: seq<string>)
    requires values != []
    ensures AllReadable(values) <==> Readable(values[0]) && AllReadable(values[1..])
  {
    hide Readable;
    if Readable(values[0]) && AllReadable(values[1..]) {
      forall i | 0 <= i < |values| ensures Readable(values[i]) {
        assert i > 0 ==> values[1..][i - 1] == values[i];
      }
    }
  }

  /** The quoted list is read back as the trimmed non-empty values if and only if these are free of line
      breaks and other control characters. */
  lemma QuotedListIsReadIffReadable(values: seq<string>)
    ensures ReadList(Join(QuoteEach(Kept(values)), ", ")) == Some(Kept(values)) <==> AllReadable(Kept(values))
  {
    hide ReadList, AllReadable, Join, Kept, FoldedEach;
    ListRoundTrip(Kept(values));
    FoldedEachIsSame(Kept(values));
  }

  predicate IsLine(s: string) {
    s != "" && Readable(s) && !IsWhite(s[0]) && !IsWhite(s[|s| - 1])
  }

  lemma FoldOneBreak(line: string)
    requires IsLine(line)
    ensures Folds("\n" + line) && Fold("\n" + line) == (" ", line)
  {
    hide TrimLeft, Readable;
    var s := "\n" + line;
    assert IsReadable(line[0]) by {
      assert Readable(line);
      FirstIsReadable(line);
    }
    TrimLeftNone(s, IsWhite);
    TrimLeftNone(line, IsWhite);
    assert AfterBreak(s) == line;
  }

  lemma FirstIsReadable(s: string)
    requires s != "" && Readable(s)
    ensures IsReadable(s[0])
  {}

  lemma LineGoesOn(s: string, back: string)
    requires s != "" && Readable(s) && !IsWhite(s[|s| - 1])
    ensures !Folds(s + back)
  {
    var line := TrimLeft(s + back, IsWhite);
    var skipped := |s + back| - |line|;
    assert (s + back)[|s| - 1] == s[|s| - 1];
    if skipped < |s| {
      assert line[0] == (s + back)[skipped] == s[skipped];
    }
  }

  lemma {:induction false} SecondLineFolds(front: string, line: string)
    requires Readable(front) && (front != "" ==> !IsWhite(front[|front| - 1])) && IsLine(line)
    ensures Folded(front + ("\n" + line)) == Some(front + (" " + line))
  {
    hide Folds, Fold;
    var s := front + ("\n" + line);
    if front == "" {
      assert s == "\n" + line && front + (" " + line) == " " + line;
      FoldOneBreak(line);
      FoldedIsSame(line);
    } else {
      LineGoesOn(front, "\n" + line);
      assert s[1..] == front[1..] + ("\n" + line);
      SecondLineFolds(front[1..], line);
      assert [front[0]] + (front[1..] + (" " + line)) == front + (" " + line);
    }
  }

  /** A value of two lines is read as one line, since the writer does not escape the break between them. */
  lemma TwoLinesAreReadAsOne(first: string, second: string)
    requires IsLine(first) && IsLine(second)
    ensures ReadList(Join(QuoteEach([first + ("\n" + second)]), ", ")) == Some([first + (" " + second)])
  {
    hide ReadList, Join, Folded, IsLine, QuoteEach;
    ListRoundTrip([first + ("\n" + second)]);
    LineEnds(first);
    SecondLineFolds(first, second);
    assert [first + ("\n" + second)][1..] == [];
    assert [first + (" " + second)] + [] == [first + (" " + second)];
  }

  lemma LineEnds(s: string)
    requires IsLine(s)
    ensures Readable(s) && s != "" && !IsWhite(s[|s| - 1])
  {}
}
