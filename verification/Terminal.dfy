/** The line of the terminal the cursor is on, driven rune by rune by what is written to it: CR, LF
    and the control sequences CUB, CUF and EL of ECMA-48 (sections 8.3.18, 8.3.20 and 8.3.41). A
    printable rune takes one column and lines do not wrap. */
module Terminal {

  const ESC := '\U{1B}'
  const DEL := '\U{7F}'

  /** Csi holds the numeric parameter read so far. */
  datatype Mode = Ground | Escape | Csi(digits: nat)

  datatype Screen = Screen(line: string, col: nat, mode: Mode)

  const BLANK := Screen("", 0, Ground)

  predicate IsPrintable(c: char) {
    c >= ' ' && c != DEL
  }

  predicate Printable(s: string) {
    forall i | 0 <= i < |s| :: IsPrintable(s[i])
  }

  function Spaces(n: nat): string {
    seq(n, _ => ' ')
  }

  /** A printable rune replaces the column it lands on; the gap before it reads as spaces. */
  function Put(s: Screen, c: char): Screen {
    if s.col < |s.line| then s.(line := s.line[s.col := c], col := s.col + 1)
    else s.(line := s.line + Spaces(s.col - |s.line|) + [c], col := s.col + 1)
  }

  /** A parameter that is missing or 0 counts as 1. */
  function Times(digits: nat): nat {
    if digits == 0 then 1 else digits
  }

  /** ERASE IN LINE from the cursor (0), to the cursor (1) or all of the line (2); the cursor stays. */
  function EraseInLine(s: Screen, how: nat): Screen {
    if how == 0 then (if s.col < |s.line| then s.(line := s.line[..s.col]) else s)
    else if how == 1 then
      s.(line := if s.col < |s.line| then Spaces(s.col + 1) + s.line[s.col + 1..] else Spaces(|s.line|))
    else if how == 2 then s.(line := "")
    else s
  }

  /** The end of a control sequence; sequences other than the three are ignored. */
  function Control(s: Screen, digits: nat, final: char): Screen {
    var back := s.(mode := Ground);
    if final == 'D' then back.(col := if s.col < Times(digits) then 0 else s.col - Times(digits))
    else if final == 'C' then back.(col := s.col + Times(digits))
    else if final == 'K' then EraseInLine(back, digits)
    else back
  }

  function Receive(s: Screen, c: char): Screen {
    match s.mode
    case Ground =>
      if c == '\r' then s.(col := 0)
      else if c == '\n' then s.(line := "")
      else if c == ESC then s.(mode := Escape)
      else if IsPrintable(c) then Put(s, c)
      else s
    case Escape => s.(mode := if c == '[' then Csi(0) else Ground)
    case Csi(digits) =>
      if '0' <= c <= '9' then s.(mode := Csi(10 * digits + (c as int - '0' as int)))
      else if c == ';' then s.(mode := Csi(0))
      else if '@' <= c <= '~' then Control(s, digits, c)
      else s
  }

  function Feed(s: Screen, text: string): Screen {
    if text == "" then s else Receive(Feed(s, text[..|text| - 1]), text[|text| - 1])
  }

  lemma {:induction false} FeedAppend(s: Screen, a: string, b: string)
    ensures Feed(s, a + b) == Feed(Feed(s, a), b)
  {
    if b == "" {
      assert a + b == a;
    } else {
      var init := b[..|b| - 1];
      assert (a + b)[..|a + b| - 1] == a + init;
      FeedAppend(s, a, init);
    }
  }

  lemma FeedOne(s: Screen, c: char)
    ensures Feed(s, [c]) == Receive(s, c)
  {
    assert [c][..0] == "";
  }

  // ---- Printing ------------------------------------------------------------------------------

  /** At the end of the line, printable text is appended to it. */
  lemma {:induction false} FeedPrintable(s: Screen, text: string)
    requires Printable(text) && s.mode == Ground && s.col == |s.line|
    ensures Feed(s, text) == Screen(s.line + text, s.col + |text|, Ground)
  {
    if text != "" {
      var init := text[..|text| - 1];
      FeedPrintable(s, init);
      assert text == init + [text[|text| - 1]];
      assert Spaces(0) == "";
    } else {
      assert s.line + text == s.line;
    }
  }

  function Digit(d: nat): char
    requires d < 10
  {
    ('0' as int + d) as char
  }

  /** The %d of a non-negative number. */
  function Decimal(n: nat): string {
    if n < 10 then [Digit(n)] else Decimal(n / 10) + [Digit(n % 10)]
  }

  /** The terminal reads a printed number back. */
  lemma {:induction false} FeedDecimal(s: Screen, n: nat)
    requires s.mode == Csi(0)
    ensures Feed(s, Decimal(n)) == s.(mode := Csi(n))
  {
    if n < 10 {
      FeedOne(s, Digit(n));
    } else {
      FeedDecimal(s, n / 10);
      FeedAppend(s, Decimal(n / 10), [Digit(n % 10)]);
      FeedOne(s.(mode := Csi(n / 10)), Digit(n % 10));
    }
  }

  lemma FeedIntroducer(s: Screen)
    requires s.mode == Ground
    ensures Feed(s, [ESC, '[']) == s.(mode := Csi(0))
  {
    FeedOne(s, ESC);
    FeedOne(s.(mode := Escape), '[');
    assert [ESC, '['] == [ESC] + ['['];
    FeedAppend(s, [ESC], ['[']);
  }

  /** A control sequence with one printed number. */
  lemma FeedControl(s: Screen, n: nat, final: char)
    requires s.mode == Ground && '@' <= final <= '~'
    ensures Feed(s, [ESC, '['] + Decimal(n) + [final]) == Control(s, n, final)
  {
    var csi := s.(mode := Csi(0));
    FeedIntroducer(s);
    FeedAppend(s, [ESC, '['], Decimal(n));
    FeedDecimal(csi, n);
    FeedAppend(s, [ESC, '['] + Decimal(n), [final]);
    FeedOne(csi.(mode := Csi(n)), final);
  }

  /** A control sequence without a number. */
  lemma FeedBareControl(s: Screen, final: char)
    requires s.mode == Ground && '@' <= final <= '~'
    ensures Feed(s, [ESC, '[', final]) == Control(s, 0, final)
  {
    FeedIntroducer(s);
    assert [ESC, '[', final] == [ESC, '['] + [final];
    FeedAppend(s, [ESC, '['], [final]);
    FeedOne(s.(mode := Csi(0)), final);
  }

  /** CR and EL 2 leave an empty line, whatever was on it. */
  lemma FeedClear(s: Screen)
    requires s.mode == Ground
    ensures Feed(s, ['\r', ESC, '[', '2', 'K']) == BLANK
  {
    FeedOne(s, '\r');
    assert Decimal(2) == "2";
    FeedControl(s.(col := 0), 2, 'K');
    assert ['\r', ESC, '[', '2', 'K'] == ['\r'] + ([ESC, '['] + Decimal(2) + ['K']);
    FeedAppend(s, ['\r'], [ESC, '['] + Decimal(2) + ['K']);
  }

  // ---- Text that leaves the terminal ready ------------------------------------------------------

  /** The modes do not depend on what is on the line. */
  lemma {:induction false} ModeIsIndependent(s: Screen, t: Screen, text: string)
    requires s.mode == t.mode
    ensures Feed(s, text).mode == Feed(t, text).mode
  {
    if text != "" {
      ModeIsIndependent(s, t, text[..|text| - 1]);
    }
  }

  /** Text that does not stop in the middle of a control sequence. */
  predicate Settles(text: string) {
    Feed(BLANK, text).mode == Ground
  }

  /** A prompt fits when the line it draws ends at the cursor. */
  predicate Fits(prompt: string) {
    var s := Feed(BLANK, prompt);
    s.mode == Ground && s.col == |s.line|
  }

  /** The runes of the prompt that can be seen. */
  function Visible(prompt: string): string {
    Feed(BLANK, prompt).line
  }

  /** Control sequences that set graphic renditions, one after the other. */
  function Renditions(codes: seq<nat>): string {
    if codes == [] then "" else Renditions(codes[..|codes| - 1]) + ([ESC, '['] + Decimal(codes[|codes| - 1]) + ['m'])
  }

  /** Text between the renditions that style it and the one that resets them. */
  function Styled(codes: seq<nat>, text: string): string {
    Renditions(codes) + text + [ESC, '[', '0', 'm']
  }

  lemma {:induction false} RenditionsAreInvisible(s: Screen, codes: seq<nat>)
    requires s.mode == Ground
    ensures Feed(s, Renditions(codes)) == s
  {
    if codes != [] {
      var init, last := codes[..|codes| - 1], codes[|codes| - 1];
      RenditionsAreInvisible(s, init);
      FeedAppend(s, Renditions(init), [ESC, '['] + Decimal(last) + ['m']);
      FeedControl(s, last, 'm');
    }
  }

  /** Styling is invisible: a prompt that fits still fits with a styled text after it. */
  lemma StyledFits(prompt: string, codes: seq<nat>, text: string)
    requires Fits(prompt) && Printable(text)
    ensures Fits(prompt + Styled(codes, text))
    ensures Visible(prompt + Styled(codes, text)) == Visible(prompt) + text
  {
    hide Renditions;
    var s, on := Feed(BLANK, prompt), Renditions(codes);
    RenditionsAreInvisible(s, codes);
    FeedPrintable(s, text);
    FeedAppend(s, on, text);
    FeedReset(Feed(s, on + text));
    FeedAppend(s, on + text, [ESC, '[', '0', 'm']);
    FeedAppend(BLANK, prompt, Styled(codes, text));
  }

  lemma FeedReset(s: Screen)
    requires s.mode == Ground
    ensures Feed(s, [ESC, '[', '0', 'm']) == s
  {
    assert Decimal(0) == "0";
    FeedControl(s, 0, 'm');
    assert [ESC, '['] + Decimal(0) + ['m'] == [ESC, '[', '0', 'm'];
  }

  /** Plain text makes a prompt wider by itself. */
  lemma PlainFits(prompt: string, text: string)
    requires Fits(prompt) && Printable(text)
    ensures Fits(prompt + text) && Visible(prompt + text) == Visible(prompt) + text
  {
    FeedAppend(BLANK, prompt, text);
    FeedPrintable(Feed(BLANK, prompt), text);
  }
}
