/** The interactive line editor as a state machine: a zipper for the buffer and its cursor, the walk
    through the input history with its saved draft, what each key writes to the terminal, and the
    properties of whole runs. */
module LineModel {
  import opened Text
  import opened Wrappers
  import opened Terminal

  // ---- State and keys ------------------------------------------------------------------------

  /** The runes before and after the cursor. */
  datatype Zipper = Zipper(left: string, right: string) {
    function Text(): string {
      left + right
    }
  }

  /** `index` is the history entry shown, or the length of the history for the line being drafted. */
  datatype State = State(line: Zipper, index: nat, draft: string)

  datatype Action = Unknown | Left | Right | Up | Down | Home | End | Delete

  /** A key with what the workspace contributed to it: Typed carries the suggestions shown after an
      `@` or a leading `/`, Tab the completion and the message below the line. */
  datatype Event =
    | Typed(c: char, hint: string)
    | Backspace
    | Tab(next: string, changed: bool, message: string)
    | Arrow(action: Action)

  // ---- What a key does to the state --------------------------------------------------------------

  function Recalled(history: seq<string>, st: State, action: Action): Option<State> {
    if history == [] then None
    else if action == Up then
      var draft := if st.index == |history| then st.line.Text() else st.draft;
      if st.index == 0 || st.index > |history| then None
      else Some(State(Zipper(history[st.index - 1], ""), st.index - 1, draft))
    else if action == Down then
      if st.index >= |history| then None
      else if st.index + 1 == |history| then Some(State(Zipper(st.draft, ""), st.index + 1, st.draft))
      else Some(State(Zipper(history[st.index + 1], ""), st.index + 1, st.draft))
    else None
  }

  function Move(z: Zipper, action: Action): Zipper {
    match action
    case Left => if z.left == "" then z else Zipper(z.left[..|z.left| - 1], [z.left[|z.left| - 1]] + z.right)
    case Right => if z.right == "" then z else Zipper(z.left + [z.right[0]], z.right[1..])
    case Home => Zipper("", z.left + z.right)
    case End => Zipper(z.left + z.right, "")
    case Delete => if z.right == "" then z else Zipper(z.left, z.right[1..])
    case _ => z
  }

  function Step(history: seq<string>, st: State, ev: Event): State {
    match ev
    case Typed(c, _) => if c < ' ' then st else st.(line := Zipper(st.line.left + [c], st.line.right))
    case Backspace =>
      if st.line.left == "" then st
      else st.(line := Zipper(st.line.left[..|st.line.left| - 1], st.line.right))
    case Tab(next, changed, _) => if changed then st.(line := Zipper(next, "")) else st
    case Arrow(action) =>
      if action == Up || action == Down then
        match Recalled(history, st, action)
        case Some(st') => st'
        case None => st
      else st.(line := Move(st.line, action))
  }

  /** Backspace takes back what was typed. */
  lemma TypedIsErased(history: seq<string>, st: State, c: char, hint: string)
    requires c >= ' '
    ensures Step(history, st, Typed(c, hint)).line.Text() == st.line.left + [c] + st.line.right
    ensures Step(history, Step(history, st, Typed(c, hint)), Backspace) == st
  {
    assert (st.line.left + [c])[..|st.line.left|] == st.line.left;
  }

  /** Left and Right undo each other, and Left followed by Delete is Backspace. */
  lemma LeftAndRight(z: Zipper)
    ensures z.left != "" ==> Move(Move(z, Left), Right) == z
    ensures z.right != "" ==> Move(Move(z, Right), Left) == z
    ensures z.left != "" ==> Move(Move(z, Left), Delete) == Zipper(z.left[..|z.left| - 1], z.right)
  {
    if z.left != "" {
      assert z.left == z.left[..|z.left| - 1] + [z.left[|z.left| - 1]];
    }
    if z.right != "" {
      assert z.right == [z.right[0]] + z.right[1..];
      assert (z.left + [z.right[0]])[..|z.left|] == z.left;
    }
  }

  /** Moving the cursor never changes the text, and Home and End go all the way. */
  lemma MoveKeepsText(z: Zipper, action: Action)
    requires action != Delete
    ensures Move(z, action).Text() == z.Text()
    ensures action == Home ==> Move(z, action).left == ""
    ensures action == End ==> Move(z, action).right == ""
  {
    if z.left != "" {
      AppendAssociates(z.left[..|z.left| - 1], [z.left[|z.left| - 1]], z.right);
      assert z.left == z.left[..|z.left| - 1] + [z.left[|z.left| - 1]];
    }
    if z.right != "" {
      AppendAssociates(z.left, [z.right[0]], z.right[1..]);
      assert z.right == [z.right[0]] + z.right[1..];
    }
  }

  /** Keys that have nothing to act on change nothing, and neither do control runes. */
  lemma NothingToDo(history: seq<string>, st: State, c: char, hint: string)
    ensures st.line.left == "" ==>
              Step(history, st, Backspace) == Step(history, st, Arrow(Left)) == Step(history, st, Arrow(Home)) == st
    ensures st.line.right == "" ==>
              Step(history, st, Arrow(Right)) == Step(history, st, Arrow(Delete)) == Step(history, st, Arrow(End)) == st
    ensures Step(history, st, Arrow(Unknown)) == st && (c < ' ' ==> Step(history, st, Typed(c, hint)) == st)
    ensures st.index == |history| ==> Step(history, st, Arrow(Down)) == st
    ensures st.index == 0 ==> Step(history, st, Arrow(Up)).line == st.line && Step(history, st, Arrow(Up)).index == 0
  {
    var z := st.line;
    assert z.left == "" ==> z.left + z.right == z.right;
    assert z.right == "" ==> z.left + z.right == z.left;
  }

  // ---- What a key writes -------------------------------------------------------------------------

  /** redrawInputLineWithCursor: clear the line, print prompt and buffer, step back to the cursor. */
  function Redraw(prompt: string, buffer: string, cursor: int): string {
    var at := if cursor < 0 then 0 else if cursor > |buffer| then |buffer| else cursor;
    ['\r', ESC, '[', '2', 'K'] + prompt + buffer +
    if |buffer| - at > 0 then [ESC, '['] + Decimal(|buffer| - at) + ['D'] else ""
  }

  /** A cursor outside the buffer counts as its nearer end. */
  lemma CursorIsClamped(prompt: string, buffer: string, cursor: int)
    ensures cursor <= 0 ==> Redraw(prompt, buffer, cursor) == Redraw(prompt, buffer, 0)
    ensures cursor >= |buffer| ==>
              Redraw(prompt, buffer, cursor) == ['\r', ESC, '[', '2', 'K'] + prompt + buffer + ""
  {}

  function RedrawState(prompt: string, st: State): string {
    Redraw(prompt, st.line.Text(), |st.line.left|)
  }

  const CRLF := "\r\n"

  /** A message below the line, if there is one, and the line again under it. */
  function Below(prompt: string, st: State, message: string): string {
    if message == "" then "" else CRLF + message + RedrawState(prompt, st)
  }

  predicate AsksForHint(c: char, left: string) {
    c == '@' || (c == '/' && |left| == 1)
  }

  function Emitted(prompt: string, history: seq<string>, st: State, ev: Event): string {
    var st' := Step(history, st, ev);
    match ev
    case Typed(c, hint) =>
      if c < ' ' then ""
      else
        (if st.line.right == "" then [c] else RedrawState(prompt, st')) +
        if AsksForHint(c, st'.line.left) then Below(prompt, st', hint) else ""
    case Backspace => if st.line.left == "" then "" else RedrawState(prompt, st')
    case Tab(_, changed, message) =>
      (if message != "" then CRLF + message else "") +
      if changed || message != "" then RedrawState(prompt, st') else ""
    case Arrow(action) =>
      match action
      case Left => if st.line.left == "" then "" else [ESC, '[', 'D']
      case Right => if st.line.right == "" then "" else [ESC, '[', 'C']
      case Home => if st.line.left == "" then "" else RedrawState(prompt, st')
      case End => if st.line.right == "" then "" else RedrawState(prompt, st')
      case Delete => if st.line.right == "" then "" else RedrawState(prompt, st')
      case Unknown => ""
      case _ => if Recalled(history, st, action).Some? then RedrawState(prompt, st') else ""
  }

  /** After an `@`, and after a slash at the very start, the suggestions are shown on the lines below and the line
      again under them. After any other rune they are not. */
  lemma HintIsShown(prompt: string, history: seq<string>, st: State, c: char, hint: string)
    requires c >= ' ' && hint != ""
    ensures var plain := Emitted(prompt, history, st, Typed(c, ""));
            Emitted(prompt, history, st, Typed(c, hint)) ==
            if c == '@' || (c == '/' && st.line.left == "") then
              plain + (CRLF + hint + RedrawState(prompt, Step(history, st, Typed(c, hint))))
            else plain
  {
    hide RedrawState;
    var drawn := if st.line.right == "" then [c] else RedrawState(prompt, Step(history, st, Typed(c, "")));
    assert drawn + "" == drawn;
  }

  /** Keys that change nothing write nothing, a rune at the end of the line only itself, and Tab its message
      before the line. */
  lemma OutputIsIncremental(prompt: string, history: seq<string>, st: State, c: char, next: string, message: string)
    ensures c >= ' ' && st.line.right == "" ==> Emitted(prompt, history, st, Typed(c, "")) == [c]
    ensures c < ' ' ==> Emitted(prompt, history, st, Typed(c, message)) == ""
    ensures st.line.left == "" ==> Emitted(prompt, history, st, Backspace) == Emitted(prompt, history, st, Arrow(Left)) ==
                                   Emitted(prompt, history, st, Arrow(Home)) == ""
    ensures st.line.right == "" ==> Emitted(prompt, history, st, Arrow(Right)) == Emitted(prompt, history, st, Arrow(End)) ==
                                    Emitted(prompt, history, st, Arrow(Delete)) == ""
    ensures st.index == 0 ==> Emitted(prompt, history, st, Arrow(Up)) == ""
    ensures st.index == |history| ==> Emitted(prompt, history, st, Arrow(Down)) == ""
    ensures Emitted(prompt, history, st, Arrow(Unknown)) == Emitted(prompt, history, st, Tab(next, false, "")) == ""
    ensures message != "" ==> CRLF + message <= Emitted(prompt, history, st, Tab(next, false, message)) &&
                              CRLF + message <= Emitted(prompt, history, st, Tab(next, true, message))
  {
    hide RedrawState;
    assert [c] + "" == [c] && "" + "" == "";
  }

  // ---- The terminal shows the state ---------------------------------------------------------------

  /** Prompt and buffer on one line, the cursor at the width of the prompt plus the cursor position. */
  function Shown(prompt: string, st: State): Screen {
    Screen(Visible(prompt) + st.line.Text(), |Visible(prompt)| + |st.line.left|, Ground)
  }

  predicate PrintableAll(history: seq<string>) {
    forall i | 0 <= i < |history| :: Printable(history[i])
  }

  predicate PrintableState(st: State) {
    Printable(st.line.left) && Printable(st.line.right) && Printable(st.draft)
  }

  predicate EventOk(ev: Event) {
    match ev
    case Typed(c, hint) => c != DEL && Settles(hint)
    case Tab(next, changed, message) => (changed ==> Printable(next)) && Settles(message)
    case _ => true
  }

  lemma StepKeepsPrintable(history: seq<string>, st: State, ev: Event)
    requires PrintableAll(history) && PrintableState(st) && EventOk(ev)
    ensures PrintableState(Step(history, st, ev))
  {
    if ev.Arrow? && ev.action == Up && st.index == |history| {
      assert Printable(st.line.Text());
    }
  }

  lemma RedrawShows(s: Screen, prompt: string, st: State)
    requires s.mode == Ground && Fits(prompt) && PrintableState(st)
    ensures Feed(s, RedrawState(prompt, st)) == Shown(prompt, st)
  {
    var text, back := st.line.Text(), |st.line.right|;
    var clear := ['\r', ESC, '[', '2', 'K'];
    FeedClear(s);
    FeedAppend(s, clear, prompt);
    FeedAppend(s, clear + prompt, text);
    FeedPrintable(Feed(BLANK, prompt), text);
    var drawn := Feed(s, clear + prompt + text);
    if back > 0 {
      FeedControl(drawn, back, 'D');
      FeedAppend(s, clear + prompt + text, [ESC, '['] + Decimal(back) + ['D']);
    } else {
      assert clear + prompt + text + "" == clear + prompt + text;
    }
  }

  /** CR and LF end the line, whatever was on it. */
  lemma NewLineIsBlank(s: Screen)
    requires s.mode == Ground
    ensures Feed(s, CRLF) == BLANK
  {
    assert CRLF == ['\r'] + ['\n'];
    FeedAppend(s, ['\r'], ['\n']);
    FeedOne(s, '\r');
    FeedOne(s.(col := 0), '\n');
  }

  lemma MessageThenRedrawShows(s: Screen, prompt: string, st: State, message: string)
    requires s.mode == Ground && Fits(prompt) && PrintableState(st) && Settles(message)
    ensures Feed(s, CRLF + message + RedrawState(prompt, st)) == Shown(prompt, st)
  {
    FeedAppend(s, CRLF, message);
    NewLineIsBlank(s);
    FeedAppend(s, CRLF + message, RedrawState(prompt, st));
    RedrawShows(Feed(s, CRLF + message), prompt, st);
  }

  lemma TypedShows(prompt: string, history: seq<string>, st: State, ev: Event)
    requires Fits(prompt) && PrintableAll(history) && PrintableState(st) && EventOk(ev) && ev.Typed?
    ensures Feed(Shown(prompt, st), Emitted(prompt, history, st, ev)) == Shown(prompt, Step(history, st, ev))
  {
    var st', s := Step(history, st, ev), Shown(prompt, st);
    StepKeepsPrintable(history, st, ev);
    if ev.c >= ' ' {
      var drawn := if st.line.right == "" then [ev.c] else RedrawState(prompt, st');
      if st.line.right == "" {
        FeedOne(s, ev.c);
        assert Spaces(0) == "";
        assert s.line + [ev.c] == Shown(prompt, st').line;
      } else {
        RedrawShows(s, prompt, st');
      }
      assert Feed(s, drawn) == Shown(prompt, st');
      if AsksForHint(ev.c, st'.line.left) && ev.hint != "" {
        FeedAppend(s, drawn, Below(prompt, st', ev.hint));
        MessageThenRedrawShows(Shown(prompt, st'), prompt, st', ev.hint);
      } else {
        assert drawn + "" == drawn;
      }
    }
  }

  lemma BackspaceShows(prompt: string, history: seq<string>, st: State)
    requires Fits(prompt) && PrintableAll(history) && PrintableState(st)
    ensures Feed(Shown(prompt, st), Emitted(prompt, history, st, Backspace)) == Shown(prompt, Step(history, st, Backspace))
  {
    hide RedrawState, Fits, PrintableState;
    StepKeepsPrintable(history, st, Backspace);
    RedrawShows(Shown(prompt, st), prompt, Step(history, st, Backspace));
  }

  lemma TabShows(prompt: string, history: seq<string>, st: State, ev: Event)
    requires Fits(prompt) && PrintableAll(history) && PrintableState(st) && EventOk(ev) && ev.Tab?
    ensures Feed(Shown(prompt, st), Emitted(prompt, history, st, ev)) == Shown(prompt, Step(history, st, ev))
  {
    hide RedrawState, Fits, PrintableState;
    var st', s := Step(history, st, ev), Shown(prompt, st);
    StepKeepsPrintable(history, st, ev);
    if ev.message != "" {
      MessageThenRedrawShows(s, prompt, st', ev.message);
    } else {
      RedrawShows(s, prompt, st');
      assert "" + RedrawState(prompt, st') == RedrawState(prompt, st');
    }
  }

  /** Left and Right echo a cursor movement over the text that stays. */
  lemma MovementShows(prompt: string, history: seq<string>, st: State, action: Action)
    requires action == Left || action == Right
    ensures Feed(Shown(prompt, st), Emitted(prompt, history, st, Arrow(action))) ==
            Shown(prompt, Step(history, st, Arrow(action)))
  {
    hide Feed, Visible;
    var s := Shown(prompt, st);
    FeedBareControl(s, if action == Left then 'D' else 'C');
    FeedNothing(s);
    MoveKeepsText(st.line, action);
  }

  lemma FeedNothing(s: Screen)
    ensures Feed(s, "") == s
  {}

  lemma ArrowShows(prompt: string, history: seq<string>, st: State, action: Action)
    requires Fits(prompt) && PrintableAll(history) && PrintableState(st)
    requires action != Left && action != Right
    ensures Feed(Shown(prompt, st), Emitted(prompt, history, st, Arrow(action))) ==
            Shown(prompt, Step(history, st, Arrow(action)))
  {
    hide RedrawState, Fits, PrintableState, Recalled, Feed;
    StepKeepsPrintable(history, st, Arrow(action));
    RedrawShows(Shown(prompt, st), prompt, Step(history, st, Arrow(action)));
    FeedNothing(Shown(prompt, st));
    if action == Home || action == End {
      AtTheEdge(st.line);
    }
  }

  lemma AtTheEdge(z: Zipper)
    ensures z.left == "" ==> Move(z, Home) == z
    ensures z.right == "" ==> Move(z, End) == z
  {
    assert z.left == "" ==> z.left + z.right == z.right;
    assert z.right == "" ==> z.left + z.right == z.left;
  }

  /** What one key writes turns a line that shows the state into one that shows the next state. */
  lemma StepShows(prompt: string, history: seq<string>, st: State, ev: Event)
    requires Fits(prompt) && PrintableAll(history) && PrintableState(st) && EventOk(ev)
    ensures Feed(Shown(prompt, st), Emitted(prompt, history, st, ev)) == Shown(prompt, Step(history, st, ev))
  {
    hide Shown, Step, Emitted, Feed, Fits, EventOk, PrintableState;
    match ev
    case Typed(_, _) => TypedShows(prompt, history, st, ev);
    case Backspace => BackspaceShows(prompt, history, st);
    case Tab(_, _, _) => TabShows(prompt, history, st, ev);
    case Arrow(action) =>
      if action == Left || action == Right {
        MovementShows(prompt, history, st, action);
      } else {
        ArrowShows(prompt, history, st, action);
      }
  }

  // ---- Runs ----------------------------------------------------------------------------------------

  function After(history: seq<string>, st: State, events: seq<Event>): State {
    if events == [] then st
    else Step(history, After(history, st, events[..|events| - 1]), events[|events| - 1])
  }

  function Written(prompt: string, history: seq<string>, st: State, events: seq<Event>): string {
    if events == [] then ""
    else
      var init := events[..|events| - 1];
      Written(prompt, history, st, init) +
      Emitted(prompt, history, After(history, st, init), events[|events| - 1])
  }

  function Fresh(history: seq<string>): State {
    State(Zipper("", ""), |history|, "")
  }

  predicate EventsOk(events: seq<Event>) {
    forall i | 0 <= i < |events| :: EventOk(events[i])
  }

  lemma PromptShowsFresh(prompt: string, history: seq<string>)
    requires Fits(prompt)
    ensures PrintableState(Fresh(history)) && Feed(BLANK, prompt) == Shown(prompt, Fresh(history))
  {
    assert Visible(prompt) + ("" + "") == Visible(prompt);
  }

  /** After every key of every run the line is what a full redraw of the state would show. */
  lemma {:induction false} RunShows(prompt: string, history: seq<string>, events: seq<Event>)
    requires Fits(prompt) && PrintableAll(history) && EventsOk(events)
    ensures PrintableState(After(history, Fresh(history), events))
    ensures Feed(BLANK, prompt + Written(prompt, history, Fresh(history), events)) ==
            Shown(prompt, After(history, Fresh(history), events))
  {
    hide Step, Emitted, Shown, Feed, PrintableState, EventOk, Fits;
    if events == [] {
      PromptShowsFresh(prompt, history);
      assert prompt + "" == prompt;
    } else {
      var init, last := events[..|events| - 1], events[|events| - 1];
      RunShows(prompt, history, init);
      var before, st := Written(prompt, history, Fresh(history), init), After(history, Fresh(history), init);
      var more := Emitted(prompt, history, st, last);
      StepKeepsPrintable(history, st, last);
      StepShows(prompt, history, st, last);
      FeedAppend(BLANK, prompt + before, more);
      assert prompt + (before + more) == (prompt + before) + more;
    }
  }

  lemma {:induction false} AfterAppend(history: seq<string>, st: State, a: seq<Event>, b: seq<Event>)
    ensures After(history, st, a + b) == After(history, After(history, st, a), b)
  {
    if b == [] {
      assert a + b == a;
    } else {
      assert (a + b)[..|a + b| - 1] == a + b[..|b| - 1];
      AfterAppend(history, st, a, b[..|b| - 1]);
    }
  }

  lemma StepKeepsIndex(history: seq<string>, st: State, ev: Event)
    requires st.index <= |history|
    ensures Step(history, st, ev).index <= |history|
    ensures st.index < |history| ==> Step(history, st, ev).draft == st.draft
    ensures st.index == |history| && Step(history, st, ev).index < |history| ==>
              Step(history, st, ev).draft == st.line.Text()
    ensures st.index < |history| && Step(history, st, ev).index == |history| ==>
              Step(history, st, ev).line.Text() == st.draft
  {
    assert Zipper(st.draft, "").Text() == st.draft;
  }

  /** Between leaving the draft and returning to it, the draft is kept, whatever is done in between. */
  lemma {:induction false} DraftIsKept(history: seq<string>, st: State, events: seq<Event>)
    requires st.index == |history| && events != []
    requires forall k | 0 < k <= |events| :: After(history, st, events[..k]).index < |history|
    ensures After(history, st, events).draft == st.line.Text()
  {
    assert events[..|events|] == events;
    var init, last := events[..|events| - 1], events[|events| - 1];
    var mid := After(history, st, init);
    if |events| > 1 {
      forall k | 0 < k <= |init| ensures After(history, st, init[..k]).index < |history| {
        assert init[..k] == events[..k];
      }
      DraftIsKept(history, st, init);
      assert init == events[..|init|];
      StepKeepsIndex(history, mid, last);
    } else {
      assert init == [];
      StepKeepsIndex(history, st, last);
    }
  }

  /** A run that leaves the draft position and next comes back to it shows the draft as it was left. */
  lemma DraftIsRestored(history: seq<string>, st: State, events: seq<Event>)
    requires st.index == |history| && |events| >= 2
    requires forall k | 0 < k < |events| :: After(history, st, events[..k]).index < |history|
    requires After(history, st, events).index == |history|
    ensures After(history, st, events).line.Text() == st.line.Text()
  {
    var init, last := events[..|events| - 1], events[|events| - 1];
    forall k | 0 < k <= |init| ensures After(history, st, init[..k]).index < |history| {
      assert init[..k] == events[..k];
    }
    DraftIsKept(history, st, init);
    assert init[..|init|] == init;
    StepKeepsIndex(history, After(history, st, init), last);
  }

  function Repeat(ev: Event, n: nat): (r: seq<Event>)
    ensures |r| == n && forall i | 0 <= i < n :: r[i] == ev
  {
    seq(n, _ => ev)
  }

  /** Going up stops at the oldest entry and keeps the line that was left as the draft. */
  lemma {:induction false} Ups(history: seq<string>, st: State, k: nat)
    requires history != [] && st.index == |history|
    ensures var top := After(history, st, Repeat(Arrow(Up), k));
            && top.index == (if k < |history| then |history| - k else 0)
            && (k == 0 ==> top == st)
            && (k > 0 ==> top.draft == st.line.Text())
  {
    if k > 0 {
      Ups(history, st, k - 1);
      assert Repeat(Arrow(Up), k)[..k - 1] == Repeat(Arrow(Up), k - 1);
    }
  }

  lemma {:induction false} Downs(history: seq<string>, st: State, k: nat)
    requires history != [] && st.index < |history| && k >= |history| - st.index
    ensures After(history, st, Repeat(Arrow(Down), k)).line.Text() == st.draft
    ensures After(history, st, Repeat(Arrow(Down), k)).index == |history|
  {
    DownsWalk(history, st, k);
  }

  lemma {:induction false} DownsWalk(history: seq<string>, st: State, k: nat)
    requires history != [] && st.index < |history|
    ensures var end := After(history, st, Repeat(Arrow(Down), k));
            && end.draft == st.draft
            && end.index == (if st.index + k < |history| then st.index + k else |history|)
            && (end.index == |history| ==> end.line.Text() == st.draft)
  {
    if k > 0 {
      DownsWalk(history, st, k - 1);
      assert Repeat(Arrow(Down), k)[..k - 1] == Repeat(Arrow(Down), k - 1);
      assert Zipper(st.draft, "").Text() == st.draft;
    }
  }

  lemma {:induction false} UpsShow(history: seq<string>, st: State, k: nat)
    requires history != [] && st.index == |history| && k > 0
    ensures var top := if k < |history| then |history| - k else 0;
            var shown := After(history, st, Repeat(Arrow(Up), k));
            shown.line == Zipper(history[top], "") && shown.index == top
  {
    assert Repeat(Arrow(Up), k)[..k - 1] == Repeat(Arrow(Up), k - 1);
    if k > 1 {
      UpsShow(history, st, k - 1);
    } else {
      assert After(history, st, Repeat(Arrow(Up), 0)) == st;
    }
  }

  lemma {:induction false} DownsShow(history: seq<string>, st: State, j: nat)
    requires st.index + j < |history| && st.line == Zipper(history[st.index], "")
    ensures var shown := After(history, st, Repeat(Arrow(Down), j));
            shown.line == Zipper(history[st.index + j], "") && shown.index == st.index + j
  {
    if j > 0 {
      assert Repeat(Arrow(Down), j)[..j - 1] == Repeat(Arrow(Down), j - 1);
      DownsShow(history, st, j - 1);
    }
  }

  /** From the draft, k Ups show the k-th last entry, or the oldest one when there are fewer, with the cursor at its
      end; each Down then goes one entry on, as long as there is one. */
  lemma WalkShowsEntry(history: seq<string>, st: State, k: nat, j: nat)
    requires history != [] && st.index == |history| && k > 0
    requires j < k && j < |history|
    ensures var top := if k < |history| then |history| - k else 0;
            After(history, st, Repeat(Arrow(Up), k) + Repeat(Arrow(Down), j)).line == Zipper(history[top + j], "")
  {
    hide After;
    var ups, downs := Repeat(Arrow(Up), k), Repeat(Arrow(Down), j);
    AfterAppend(history, st, ups, downs);
    UpsShow(history, st, k);
    DownsShow(history, After(history, st, ups), j);
  }

  /** Any number of Ups followed by as many Downs gives the text of the drafted line back. */
  lemma UpsThenDowns(history: seq<string>, st: State, k: nat)
    requires st.index == |history|
    ensures After(history, st, Repeat(Arrow(Up), k) + Repeat(Arrow(Down), k)).line.Text() == st.line.Text()
  {
    var ups, downs := Repeat(Arrow(Up), k), Repeat(Arrow(Down), k);
    AfterAppend(history, st, ups, downs);
    if history == [] {
      NothingToRecall(st, ups);
      NothingToRecall(st, downs);
    } else {
      Ups(history, st, k);
      if k > 0 {
        Downs(history, After(history, st, ups), k);
      }
    }
  }

  lemma {:induction false} NothingToRecall(st: State, events: seq<Event>)
    requires forall i | 0 <= i < |events| :: events[i] == Arrow(Up) || events[i] == Arrow(Down)
    ensures After([], st, events) == st
  {
    if events != [] {
      NothingToRecall(st, events[..|events| - 1]);
    }
  }

  // ---- The input history -----------------------------------------------------------------------------

  const MAX_INTERACTIVE_INPUT_HISTORY := 100

  function Last<T>(s: seq<T>, n: nat): (r: seq<T>)
    ensures |r| == if |s| > n then n else |s|
    ensures r == s[|s| - |r|..]
  {
    if |s| > n then s[|s| - n..] else s
  }

  /** rememberInput. */
  function Remember(history: seq<string>, line: string): seq<string> {
    var kept := TrimSpace(line);
    if kept == "" then history
    else if history != [] && history[|history| - 1] == kept then history
    else Last(history + [kept], MAX_INTERACTIVE_INPUT_HISTORY)
  }

  /** A line is remembered without the blanks around it, unless it is blank or the last one again; of a hundred
      and one lines the oldest is forgotten. */
  lemma LineIsRemembered(history: seq<string>, before: string, line: string, after: string)
    requires AllSpace(before) && AllSpace(after) && IsTrimmed(line) && |history| <= 100
    ensures Remember(history, before + line + after) ==
            if line == "" || (history != [] && history[|history| - 1] == line) then history
            else if |history| == 100 then history[1..] + [line]
            else history + [line]
  {
    hide IsSpace, TrimSpace;
    TrimSpaceTakesOff(before, line, after);
    assert |history| == 100 ==> (history + [line])[1..] == history[1..] + [line];
  }

  function RememberAll(lines: seq<string>): seq<string> {
    if lines == [] then [] else Remember(RememberAll(lines[..|lines| - 1]), lines[|lines| - 1])
  }

  /** The trimmed lines that are not blank. */
  function Spoken(lines: seq<string>): seq<string> {
    if lines == [] then [] else
    Spoken(lines[..|lines| - 1]) +
    if TrimSpace(lines[|lines| - 1]) == "" then [] else [TrimSpace(lines[|lines| - 1])]
  }

  /** Every line that differs from the one before it. */
  function Runs(lines: seq<string>): (r: seq<string>)
    ensures lines == [] <==> r == []
    ensures lines != [] ==> r[|r| - 1] == lines[|lines| - 1]
  {
    if lines == [] then [] else
    var init, last := lines[..|lines| - 1], lines[|lines| - 1];
    if init != [] && init[|init| - 1] == last then Runs(init) else Runs(init) + [last]
  }

  lemma LastSnoc<T>(s: seq<T>, x: T, n: nat)
    requires n > 0
    ensures Last(Last(s, n) + [x], n) == Last(s + [x], n)
    ensures s != [] ==> Last(s, n) != [] && Last(s, n)[|Last(s, n)| - 1] == s[|s| - 1]
  {}

  lemma RunsSnoc(lines: seq<string>, line: string)
    ensures Runs(lines + [line]) ==
            if lines != [] && lines[|lines| - 1] == line then Runs(lines) else Runs(lines) + [line]
  {
    RunsLast(lines + [line]);
    assert (lines + [line])[..|lines|] == lines && (lines + [line])[|lines|] == line;
  }

  lemma RunsLast(lines: seq<string>)
    requires lines != []
    ensures var init, last := lines[..|lines| - 1], lines[|lines| - 1];
            Runs(lines) == if init != [] && init[|init| - 1] == last then Runs(init) else Runs(init) + [last]
  {}

  /** Over all submissions the history is the last hundred of the trimmed, non-blank lines without adjacent repeats. */
  lemma {:induction false} HistoryIsLastRuns(lines: seq<string>)
    ensures RememberAll(lines) == Last(Runs(Spoken(lines)), MAX_INTERACTIVE_INPUT_HISTORY)
  {
    hide TrimSpace, Runs, Last;
    if lines == [] {
      NothingRemembered();
    } else {
      var init, kept := lines[..|lines| - 1], TrimSpace(lines[|lines| - 1]);
      HistoryIsLastRuns(init);
      var spoken := Spoken(init);
      TrimIdempotentSpace(lines[|lines| - 1]);
      if kept == "" {
        assert spoken + [] == spoken;
      } else {
        RunsSnoc(spoken, kept);
        LastSnoc(Runs(spoken), kept, MAX_INTERACTIVE_INPUT_HISTORY);
        LastOfNothing();
      }
    }
  }

  lemma TrimIdempotentSpace(line: string)
    ensures TrimSpace(TrimSpace(line)) == TrimSpace(line)
  {
    TrimIdempotent(line, IsSpace);
  }

  lemma LastOfNothing()
    ensures Last<string>([], MAX_INTERACTIVE_INPUT_HISTORY) == []
  {}

  lemma NothingRemembered()
    ensures Last(Runs(Spoken([])), MAX_INTERACTIVE_INPUT_HISTORY) == []
  {}

  lemma TrimKeepsPrintable(line: string)
    requires Printable(line)
    ensures Printable(TrimSpace(line))
  {
    hide TrimLeft, TrimRight, IsPrintable;
    var left := TrimLeft(line, IsSpace);
    var kept := TrimRight(left, IsSpace);
    forall i | 0 <= i < |kept| ensures IsPrintable(kept[i]) {
      assert kept[i] == left[i] == line[|line| - |left| + i];
    }
  }

  lemma RememberKeepsPrintable(history: seq<string>, line: string)
    requires PrintableAll(history) && Printable(line)
    ensures PrintableAll(Remember(history, line))
  {
    hide TrimSpace, Printable;
    TrimKeepsPrintable(line);
    LastPrintable(history + [TrimSpace(line)]);
  }

  lemma LastPrintable(lines: seq<string>)
    ensures PrintableAll(lines) ==> PrintableAll(Last(lines, MAX_INTERACTIVE_INPUT_HISTORY))
  {
    hide Printable;
    var last := Last(lines, MAX_INTERACTIVE_INPUT_HISTORY);
    assert forall i | 0 <= i < |last| :: last[i] == lines[|lines| - |last| + i];
  }
}
