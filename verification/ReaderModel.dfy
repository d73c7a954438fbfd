/** One call of ReadLine as a machine over the runes typed: escape sequences are decoded, every key
    becomes an event of the line model, and a few keys end the call. */
module ReaderModel {
  import opened Text
  import opened Terminal
  import opened LineModel

  // ---- Escape sequences ----------------------------------------------------------------------

  predicate IsFinal(c: char) {
    '@' <= c <= '~'
  }

  /** The runes up to the first final one, at most `budget`, and whether the input ended before that. */
  function Sequence(input: string, budget: nat): (r: (string, bool))
    ensures r.0 <= input && |r.0| <= budget
  {
    if budget == 0 then ("", false)
    else if input == "" then ("", true)
    else if IsFinal(input[0]) then ([input[0]], false)
    else
      var (more, ended) := Sequence(input[1..], budget - 1);
      ([input[0]] + more, ended)
  }

  function ActionOf(sequence: string): Action {
    if sequence == "D" then Left
    else if sequence == "C" then Right
    else if sequence == "A" then Up
    else if sequence == "B" then Down
    else if sequence == "H" || sequence == "1~" || sequence == "7~" then Home
    else if sequence == "F" || sequence == "4~" || sequence == "8~" then End
    else if sequence == "3~" then Delete
    else Unknown
  }

  /** readInputEscapeAction: the action, and how many runes after the introducer it took. */
  function EscapeAction(introducer: char, input: string): (r: (Action, nat))
    ensures r.1 <= |input|
  {
    if introducer == 'O' then
      if input == "" then (Unknown, 0)
      else (if input[0] == 'H' then Home else if input[0] == 'F' then End else Unknown, 1)
    else if introducer != '[' then (Unknown, 0)
    else
      var (sequence, ended) := Sequence(input, 8);
      (if ended then Unknown else ActionOf(sequence), |sequence|)
  }

  /** A control sequence of up to eight runes is taken as a whole, whatever follows it. */
  lemma {:induction false} SequenceIsRead(body: string, final: char, rest: string, budget: nat)
    requires IsFinal(final) && |body| < budget
    requires forall i | 0 <= i < |body| :: !IsFinal(body[i])
    ensures Sequence(body + [final] + rest, budget) == (body + [final], false)
  {
    var input := body + [final] + rest;
    if body != "" {
      SequenceIsRead(body[1..], final, rest, budget - 1);
      assert input[1..] == body[1..] + [final] + rest;
      assert [body[0]] + (body[1..] + [final]) == body + [final];
    } else {
      assert input[0] == final && body + [final] == [input[0]];
    }
  }

  /** A sequence whose only final rune is its last is decoded whole, and nothing after it is taken. */
  lemma SequenceDecodes(body: string, final: char, rest: string)
    requires IsFinal(final) && |body| < 8
    requires forall i | 0 <= i < |body| :: !IsFinal(body[i])
    ensures EscapeAction('[', body + [final] + rest) == (ActionOf(body + [final]), |body| + 1)
  {
    SequenceIsRead(body, final, rest, 8);
  }

  /** The sequences terminals send for the editing keys, whatever is typed after them. */
  lemma EditingKeysAreDecoded(rest: string)
    ensures EscapeAction('[', "A" + rest) == (Up, 1) && EscapeAction('[', "B" + rest) == (Down, 1)
    ensures EscapeAction('[', "C" + rest) == (Right, 1) && EscapeAction('[', "D" + rest) == (Left, 1)
    ensures EscapeAction('[', "H" + rest) == (Home, 1) && EscapeAction('[', "F" + rest) == (End, 1)
    ensures EscapeAction('O', "H" + rest) == (Home, 1) && EscapeAction('O', "F" + rest) == (End, 1)
    ensures EscapeAction('[', "1~" + rest) == (Home, 2) && EscapeAction('[', "7~" + rest) == (Home, 2)
    ensures EscapeAction('[', "4~" + rest) == (End, 2) && EscapeAction('[', "8~" + rest) == (End, 2)
    ensures EscapeAction('[', "3~" + rest) == (Delete, 2)
  {
    OneRuneDecodes('A', rest);
    OneRuneDecodes('B', rest);
    OneRuneDecodes('C', rest);
    OneRuneDecodes('D', rest);
    OneRuneDecodes('H', rest);
    OneRuneDecodes('F', rest);
    TildeDecodes('1', rest);
    TildeDecodes('3', rest);
    TildeDecodes('4', rest);
    TildeDecodes('7', rest);
    TildeDecodes('8', rest);
  }

  lemma OneRuneDecodes(final: char, rest: string)
    requires IsFinal(final)
    ensures EscapeAction('[', [final] + rest) == (ActionOf([final]), 1)
  {
    SequenceDecodes("", final, rest);
    assert "" + [final] == [final];
  }

  lemma TildeDecodes(digit: char, rest: string)
    requires !IsFinal(digit)
    ensures EscapeAction('[', [digit, '~'] + rest) == (ActionOf([digit, '~']), 2)
  {
    SequenceDecodes([digit], '~', rest);
    assert [digit] + ['~'] == [digit, '~'];
  }

  /** Any other sequence stands for no key, also one that is cut off or has no final rune among its first eight. */
  lemma OtherSequencesAreUnknown(sequence: string, rest: string)
    ensures sequence !in {"A", "B", "C", "D", "H", "F", "1~", "7~", "4~", "8~", "3~"} ==> ActionOf(sequence) == Unknown
    ensures |sequence| == 8 && (forall i | 0 <= i < 8 :: !IsFinal(sequence[i])) ==>
              EscapeAction('[', sequence + rest) == (Unknown, 8)
    ensures |sequence| < 8 && (forall i | 0 <= i < |sequence| :: !IsFinal(sequence[i])) ==>
              EscapeAction('[', sequence) == (Unknown, |sequence|)
    ensures rest != "" && rest[0] != 'H' && rest[0] != 'F' ==> EscapeAction('O', rest) == (Unknown, 1)
    ensures EscapeAction('O', "") == (Unknown, 0)
    ensures rest != "" && rest[0] != '[' && rest[0] != 'O' ==> EscapeAction(rest[0], sequence) == (Unknown, 0)
  {
    if forall i | 0 <= i < |sequence| :: !IsFinal(sequence[i]) {
      if |sequence| == 8 {
        NoFinalRune(sequence, rest, 8);
        NoActionWithoutFinal(sequence);
      } else if |sequence| < 8 {
        NoFinalRune(sequence, "", 8);
        assert sequence + "" == sequence;
      }
    }
  }

  lemma {:induction false} NoFinalRune(sequence: string, rest: string, budget: nat)
    requires |sequence| <= budget && forall i | 0 <= i < |sequence| :: !IsFinal(sequence[i])
    requires |sequence| == budget || rest == ""
    ensures Sequence(sequence + rest, budget) == (sequence, |sequence| < budget)
  {
    if sequence != "" {
      assert (sequence + rest)[1..] == sequence[1..] + rest;
      NoFinalRune(sequence[1..], rest, budget - 1);
      assert [sequence[0]] + sequence[1..] == sequence;
    } else {
      assert sequence + rest == rest;
    }
  }

  lemma NoActionWithoutFinal(sequence: string)
    requires |sequence| == 8
    ensures ActionOf(sequence) == Unknown
  {}

  // ---- The machine -----------------------------------------------------------------------------

  datatype Completion = Completion(next: string, changed: bool, message: string)

  /** What the workspace answers; the first argument is the number of runes still to come, so that
      the files may change between keys. */
  datatype Workspace = Workspace(
    complete: (nat, string, nat) -> Completion,
    atHint: (nat, string) -> string,
    commandHint: string -> string)

  datatype Status = Running | Submitted(line: string) | Interrupted | EndOfInput

  datatype Machine = Machine(state: State, awaiting: bool, input: string, output: string,
                             history: seq<string>, status: Status)

  function Start(prompt: string, input: string, output: string, history: seq<string>): Machine {
    Machine(Fresh(history), false, input, output + prompt, history, Running)
  }

  /** The event of a key that does not end the call. */
  function EventOf(ws: Workspace, st: State, c: char, tick: nat): Event {
    if c == '\U{8}' || c == DEL then Backspace
    else if c == '\t' then
      var r := ws.complete(tick, st.line.Text(), |st.line.left|);
      Tab(r.next, r.changed, r.message)
    else
      var left := st.line.left + [c];
      Typed(c, if c == '@' then ws.atHint(tick, left) else if c == '/' && |left| == 1 then ws.commandHint(left) else "")
  }

  function Apply(prompt: string, m: Machine, ev: Event): Machine {
    m.(state := Step(m.history, m.state, ev), output := m.output + Emitted(prompt, m.history, m.state, ev))
  }

  /** One turn of the loop of ReadLine. */
  function KeyStep(prompt: string, ws: Workspace, m: Machine): Machine {
    if m.status != Running then m
    else if m.input == "" then m.(status := EndOfInput)
    else
      var c, next := m.input[0], m.(input := m.input[1..], awaiting := false);
      if m.awaiting && (c == '[' || c == 'O') then
        var (action, taken) := EscapeAction(c, next.input);
        Apply(prompt, next.(input := next.input[taken..]), Arrow(action))
      else if c == '\r' || c == '\n' then
        var line := TrimSpace(m.state.line.Text());
        next.(output := m.output + CRLF, history := Remember(m.history, line), status := Submitted(line))
      else if c == '\U{3}' then next.(output := m.output + "^C\r\n", status := Interrupted)
      else if c == ESC then next.(awaiting := true)
      else Apply(prompt, next, EventOf(ws, m.state, c, |next.input|))
  }

  function Run(prompt: string, ws: Workspace, m: Machine, n: nat): Machine {
    if n == 0 then m else KeyStep(prompt, ws, Run(prompt, ws, m, n - 1))
  }

  // ---- What each key does ------------------------------------------------------------------------

  /** No escape sequence starts or goes on with this key. */
  predicate Plain(m: Machine, c: char) {
    m.status == Running && m.input != "" && m.input[0] == c && (m.awaiting ==> c != '[' && c != 'O')
  }

  /** The rest of the machine goes on as it was, with the rune taken. */
  predicate GoesOn(m: Machine, r: Machine) {
    r.status == Running && !r.awaiting && r.history == m.history && m.input != "" && r.input == m.input[1..]
  }

  /** Both runes that terminals send for Backspace take away exactly the rune before the cursor. */
  lemma BackspaceErases(prompt: string, ws: Workspace, m: Machine)
    requires Plain(m, '\U{8}') || Plain(m, '\U{7F}')
    ensures var r, z := KeyStep(prompt, ws, m), m.state.line;
            && GoesOn(m, r)
            && r.state == m.state.(line := if z.left == "" then z else Zipper(z.left[..|z.left| - 1], z.right))
  {
    hide Emitted;
  }

  /** A printable rune lands at the cursor; the draft and the place in the history stay. */
  lemma RuneIsInserted(prompt: string, ws: Workspace, m: Machine, c: char)
    requires Plain(m, c) && c >= ' ' && c != '\U{7F}'
    ensures var r, z := KeyStep(prompt, ws, m), m.state.line;
            GoesOn(m, r) && r.state == m.state.(line := Zipper(z.left + [c], z.right))
  {
    hide Emitted;
  }

  /** Tab asks the workspace about the line as it stands, writes its message, and takes its completion, if there is one. */
  lemma TabCompletes(prompt: string, ws: Workspace, m: Machine)
    requires Plain(m, '\t')
    ensures var r := KeyStep(prompt, ws, m);
            var answer := ws.complete(|m.input| - 1, m.state.line.Text(), |m.state.line.left|);
            && GoesOn(m, r)
            && r.state == (if answer.changed then m.state.(line := Zipper(answer.next, "")) else m.state)
            && (answer.message != "" ==> m.output + (CRLF + answer.message) <= r.output)
  {
    hide RedrawState;
  }

  /** Suggestions come from the workspace, for the line up to the rune that asks for them. */
  lemma SuggestionsAreShown(prompt: string, ws: Workspace, m: Machine, c: char)
    requires Plain(m, c) && (c == '@' || (c == '/' && m.state.line.left == ""))
    ensures var left := m.state.line.left + [c];
            var hint := if c == '@' then ws.atHint(|m.input| - 1, left) else ws.commandHint(left);
            var r := KeyStep(prompt, ws, m);
            hint != "" ==>
              r.output == m.output + (Emitted(prompt, m.history, m.state, Typed(c, "")) +
                                      (CRLF + hint + RedrawState(prompt, r.state)))
  {
    var left := m.state.line.left + [c];
    var hint := if c == '@' then ws.atHint(|m.input| - 1, left) else ws.commandHint(left);
    if hint != "" {
      HintIsShown(prompt, m.history, m.state, c, hint);
    }
    hide RedrawState, Emitted;
  }

  /** The other control runes do nothing at all. */
  lemma ControlIsIgnored(prompt: string, ws: Workspace, m: Machine, c: char)
    requires Plain(m, c) && c < ' '
    requires c != '\U{3}' && c != '\U{8}' && c != '\t' && c != '\n' && c != '\r' && c != '\U{1B}'
    ensures var r := KeyStep(prompt, ws, m); GoesOn(m, r) && r.state == m.state && r.output == m.output
  {}

  /** CR and LF submit the trimmed line and remember it; the line and its cursor are given up. */
  lemma EnterSubmits(prompt: string, ws: Workspace, m: Machine)
    requires Plain(m, '\r') || Plain(m, '\n')
    ensures var line := TrimSpace(m.state.line.Text());
            KeyStep(prompt, ws, m) ==
            m.(input := m.input[1..], awaiting := false, output := m.output + "\r\n",
               history := Remember(m.history, line), status := Submitted(line))
  {
    hide TrimSpace, Remember;
  }

  /** Ctrl-C ends the call without a line, and so does the end of the input. */
  lemma CallIsGivenUp(prompt: string, ws: Workspace, m: Machine)
    ensures Plain(m, '\U{3}') ==>
              KeyStep(prompt, ws, m) ==
              m.(input := m.input[1..], awaiting := false, output := m.output + "^C\r\n", status := Interrupted)
    ensures m.status == Running && m.input == "" ==> KeyStep(prompt, ws, m) == m.(status := EndOfInput)
  {}

  /** ESC and a control sequence act as the key they stand for; two turns take the whole sequence. */
  lemma SequenceActs(prompt: string, ws: Workspace, m: Machine, body: string, final: char, rest: string)
    requires m.status == Running && m.input == [ESC, '['] + (body + [final] + rest)
    requires '@' <= final <= '~' && |body| < 8 && forall i | 0 <= i < |body| :: body[i] < '@' || body[i] > '~'
    ensures var r := Run(prompt, ws, m, 2);
            && r.status == Running && !r.awaiting && r.history == m.history && r.input == rest
            && r.state == Step(m.history, m.state, Arrow(ActionOf(body + [final])))
  {
    hide Emitted, Step, EscapeAction;
    var once := KeyStep(prompt, ws, m);
    assert Run(prompt, ws, m, 1) == once by {
      assert Run(prompt, ws, m, 0) == m;
    }
    assert m.input[1..] == ['['] + (body + [final] + rest) && m.input[1..][1..] == body + [final] + rest;
    SequenceDecodes(body, final, rest);
    assert (body + [final] + rest)[|body| + 1..] == rest;
  }

  /** ESC O H and ESC O F are Home and End; after ESC O any rune is taken. */
  lemma KeypadActs(prompt: string, ws: Workspace, m: Machine, c: char, rest: string)
    requires m.status == Running && m.input == [ESC, 'O', c] + rest
    ensures var r := Run(prompt, ws, m, 2);
            && r.status == Running && !r.awaiting && r.history == m.history && r.input == rest
            && r.state == Step(m.history, m.state, Arrow(if c == 'H' then Home else if c == 'F' then End else Unknown))
  {
    hide Emitted, Step;
    var once := KeyStep(prompt, ws, m);
    assert Run(prompt, ws, m, 1) == once by {
      assert Run(prompt, ws, m, 0) == m;
    }
    assert m.input[1..] == ['O', c] + rest && m.input[1..][1..] == [c] + rest && ([c] + rest)[1..] == rest;
  }

  // ---- What runs of keys do ------------------------------------------------------------------------

  lemma {:induction false} RunAppend(prompt: string, ws: Workspace, m: Machine, a: nat, b: nat)
    ensures Run(prompt, ws, m, a + b) == Run(prompt, ws, Run(prompt, ws, m, a), b)
  {
    hide KeyStep;
    if b > 0 {
      RunAppend(prompt, ws, m, a, b - 1);
    }
  }

  predicate IsTyped(text: string) {
    forall i | 0 <= i < |text| :: text[i] >= ' ' && text[i] != '\U{7F}'
  }

  predicate IsErasing(keys: string) {
    forall i | 0 <= i < |keys| :: keys[i] == '\U{8}' || keys[i] == '\U{7F}'
  }

  /** Typed text is inserted at the cursor as a whole. */
  lemma {:induction false} TextIsTyped(prompt: string, ws: Workspace, m: Machine, text: string, rest: string)
    requires m.status == Running && !m.awaiting && m.input == text + rest && IsTyped(text)
    ensures var z := m.state.line;
            Run(prompt, ws, m, |text|) ==
            m.(input := rest, state := m.state.(line := Zipper(z.left + text, z.right)),
               output := Run(prompt, ws, m, |text|).output)
  {
    hide KeyStep;
    var z := m.state.line;
    if text == "" {
      assert z.left + "" == z.left && text + rest == rest;
    } else {
      var init, c := text[..|text| - 1], text[|text| - 1];
      assert m.input == init + ([c] + rest) && text == init + [c];
      TextIsTyped(prompt, ws, m, init, [c] + rest);
      var before := Run(prompt, ws, m, |init|);
      RuneIsInserted(prompt, ws, before, c);
      assert before.input[1..] == rest && (z.left + init) + [c] == z.left + text;
    }
  }

  /** Each Backspace takes one rune more. */
  lemma {:induction false} TextIsErased(prompt: string, ws: Workspace, m: Machine, keys: string, rest: string)
    requires m.status == Running && !m.awaiting && m.input == keys + rest && IsErasing(keys)
    requires |keys| <= |m.state.line.left|
    ensures var z := m.state.line;
            Run(prompt, ws, m, |keys|) ==
            m.(input := rest, state := m.state.(line := Zipper(z.left[..|z.left| - |keys|], z.right)),
               output := Run(prompt, ws, m, |keys|).output)
  {
    hide KeyStep;
    var z := m.state.line;
    if keys == "" {
      assert z.left[..|z.left|] == z.left && keys + rest == rest;
    } else {
      var init, c := keys[..|keys| - 1], keys[|keys| - 1];
      assert m.input == init + ([c] + rest) && keys == init + [c];
      TextIsErased(prompt, ws, m, init, [c] + rest);
      var before := Run(prompt, ws, m, |init|);
      BackspaceErases(prompt, ws, before);
      var left := before.state.line.left;
      assert before.input[1..] == rest && left[..|left| - 1] == z.left[..|z.left| - |keys|];
    }
  }

  /** A line that is typed, cut back with Backspace and entered is submitted as it was left, whatever the workspace
      suggests meanwhile. */
  lemma EditedLineIsSubmitted(prompt: string, ws: Workspace, text: string, keys: string, rest: string,
                              output: string, history: seq<string>)
    requires IsTyped(text) && IsErasing(keys) && |keys| <= |text|
    ensures var line := TrimSpace(text[..|text| - |keys|]);
            var end := Run(prompt, ws, Start(prompt, text + (keys + ("\r" + rest)), output, history), |text| + |keys| + 1);
            end.status == Submitted(line) && end.history == Remember(history, line) && end.input == rest
  {
    hide KeyStep, Run, Remember, TrimSpace;
    var m := Start(prompt, text + (keys + ("\r" + rest)), output, history);
    TextIsTyped(prompt, ws, m, text, keys + ("\r" + rest));
    var typed := Run(prompt, ws, m, |text|);
    assert typed.state.line == Zipper(text, "") by { assert "" + text == text; }
    TextIsErased(prompt, ws, typed, keys, "\r" + rest);
    var erased := Run(prompt, ws, typed, |keys|);
    RunAppend(prompt, ws, m, |text|, |keys|);
    EnterSubmits(prompt, ws, erased);
    assert erased.input[1..] == rest && erased.state.line.Text() == text[..|text| - |keys|];
    OneMore(prompt, ws, m, |text| + |keys|);
  }

  /** Typed text is given up by Ctrl-C, and by the end of the input, without changing the history. */
  lemma TypedLineIsGivenUp(prompt: string, ws: Workspace, text: string, rest: string, output: string, history: seq<string>)
    requires IsTyped(text)
    ensures var end := Run(prompt, ws, Start(prompt, text + ("\U{3}" + rest), output, history), |text| + 1);
            end.status == Interrupted && end.history == history && end.input == rest
    ensures var end := Run(prompt, ws, Start(prompt, text, output, history), |text| + 1);
            end.status == EndOfInput && end.history == history && end.input == ""
  {
    hide KeyStep, Run;
    var m := Start(prompt, text + ("\U{3}" + rest), output, history);
    TextIsTyped(prompt, ws, m, text, "\U{3}" + rest);
    CallIsGivenUp(prompt, ws, Run(prompt, ws, m, |text|));
    OneMore(prompt, ws, m, |text|);
    assert ("\U{3}" + rest)[1..] == rest && ("\U{3}" + rest)[0] == '\U{3}';
    var n := Start(prompt, text, output, history);
    assert text + "" == text;
    TextIsTyped(prompt, ws, n, text, "");
    CallIsGivenUp(prompt, ws, Run(prompt, ws, n, |text|));
    OneMore(prompt, ws, n, |text|);
  }

  lemma OneMore(prompt: string, ws: Workspace, m: Machine, n: nat)
    ensures Run(prompt, ws, m, n + 1) == KeyStep(prompt, ws, Run(prompt, ws, m, n))
  {}

  // ---- Every run -------------------------------------------------------------------------------

  /** Completions insert printable runes, and no message stops inside a control sequence. */
  ghost predicate WorkspaceOk(ws: Workspace) {
    && (forall t, b, c :: (ws.complete(t, b, c).changed ==> Printable(ws.complete(t, b, c).next)) &&
                          Settles(ws.complete(t, b, c).message))
    && (forall t, b :: Settles(ws.atHint(t, b)))
    && (forall b :: Settles(ws.commandHint(b)))
  }

  ghost predicate Faithful(prompt: string, m: Machine) {
    && PrintableAll(m.history) && PrintableState(m.state) && m.state.index <= |m.history|
    && Feed(BLANK, m.output) == Shown(prompt, m.state)
  }

  lemma EventOfIsOk(ws: Workspace, st: State, c: char, tick: nat)
    requires WorkspaceOk(ws)
    ensures EventOk(EventOf(ws, st, c, tick))
  {
    var left := st.line.left + [c];
    assert Settles(ws.atHint(tick, left)) && Settles(ws.commandHint(left));
    assert Settles("");
  }

  lemma ApplyIsFaithful(prompt: string, m: Machine, ev: Event)
    requires Fits(prompt) && Faithful(prompt, m) && EventOk(ev)
    ensures Faithful(prompt, Apply(prompt, m, ev))
  {
    hide Step, Emitted, Shown, Feed, PrintableState, EventOk, Fits;
    StepKeepsPrintable(m.history, m.state, ev);
    StepKeepsIndex(m.history, m.state, ev);
    StepShows(prompt, m.history, m.state, ev);
    FeedAppend(BLANK, m.output, Emitted(prompt, m.history, m.state, ev));
  }

  lemma KeyStepIsFaithful(prompt: string, ws: Workspace, m: Machine)
    requires Fits(prompt) && WorkspaceOk(ws)
    requires m.status == Running && Faithful(prompt, m)
    ensures KeyStep(prompt, ws, m).status == Running ==> Faithful(prompt, KeyStep(prompt, ws, m))
    ensures PrintableAll(KeyStep(prompt, ws, m).history)
  {
    hide Apply, EventOf, EscapeAction, Shown, Feed, Fits, WorkspaceOk, EventOk, Remember, TrimSpace, Printable;
    if m.input != "" {
      var c, next := m.input[0], m.(input := m.input[1..], awaiting := false);
      if m.awaiting && (c == '[' || c == 'O') {
        var (action, taken) := EscapeAction(c, next.input);
        ArrowIsOk(action);
        ApplyIsFaithful(prompt, next.(input := next.input[taken..]), Arrow(action));
        ApplyKeepsRest(prompt, next.(input := next.input[taken..]), Arrow(action));
      } else if c == '\r' || c == '\n' {
        SubmittedIsPrintable(m.state);
        RememberKeepsPrintable(m.history, TrimSpace(m.state.line.Text()));
      } else if c != '\U{3}' && c != ESC {
        EventOfIsOk(ws, m.state, c, |next.input|);
        ApplyIsFaithful(prompt, next, EventOf(ws, m.state, c, |next.input|));
        ApplyKeepsRest(prompt, next, EventOf(ws, m.state, c, |next.input|));
      }
    }
  }

  lemma ArrowIsOk(action: Action)
    ensures EventOk(Arrow(action))
  {}

  lemma ApplyKeepsRest(prompt: string, m: Machine, ev: Event)
    ensures Apply(prompt, m, ev).history == m.history && Apply(prompt, m, ev).status == m.status
    ensures Apply(prompt, m, ev).input == m.input
  {}

  lemma SubmittedIsPrintable(st: State)
    requires PrintableState(st)
    ensures Printable(TrimSpace(st.line.Text()))
  {
    TrimKeepsPrintable(st.line.Text());
  }

  /** The key that submits or interrupts a call leaves an empty line behind. */
  lemma LastKeyEndsLine(prompt: string, ws: Workspace, m: Machine)
    requires m.status == Running && Feed(BLANK, m.output).mode == Ground
    requires KeyStep(prompt, ws, m).status.Submitted? || KeyStep(prompt, ws, m).status == Interrupted
    ensures Feed(BLANK, KeyStep(prompt, ws, m).output) == BLANK
  {
    hide Apply, EventOf, EscapeAction, Remember, TrimSpace, Feed;
    var echo := if m.input[0] == '\U{3}' then "^C" else "";
    assert KeyStep(prompt, ws, m).output == m.output + (echo + CRLF) by {
      assert "^C\r\n" == "^C" + CRLF && "" + CRLF == CRLF;
      ApplyKeepsStatus(prompt, ws, m);
    }
    FeedAppend(BLANK, m.output, echo + CRLF);
    EchoSettles(Feed(BLANK, m.output), echo);
    FeedAppend(Feed(BLANK, m.output), echo, CRLF);
    NewLineIsBlank(Feed(Feed(BLANK, m.output), echo));
  }

  lemma ApplyKeepsStatus(prompt: string, ws: Workspace, m: Machine)
    requires m.status == Running && m.input != ""
    ensures var c, r := m.input[0], KeyStep(prompt, ws, m);
            r.status != Running ==> !(m.awaiting && (c == '[' || c == 'O')) && (c == '\r' || c == '\n' || c == '\U{3}')
  {
    hide Step, Emitted, EventOf, EscapeAction, Remember, TrimSpace;
  }

  lemma EchoSettles(s: Screen, echo: string)
    requires s.mode == Ground && (echo == "" || echo == "^C")
    ensures Feed(s, echo).mode == Ground
  {
    if echo == "^C" {
      FeedOne(s, '^');
      FeedOne(Receive(s, '^'), 'C');
      FeedAppend(s, ['^'], ['C']);
      assert echo == ['^'] + ['C'];
    }
  }

  /** A call that starts at the beginning of an empty line keeps the line and the state together
      after every key, whatever is typed. When it is submitted or interrupted it leaves an empty
      line, and in any case a history that can be shown again. */
  lemma {:induction false} EveryKeyIsFaithful(prompt: string, ws: Workspace, input: string, output: string,
                                              history: seq<string>, n: nat)
    requires Fits(prompt) && WorkspaceOk(ws) && PrintableAll(history)
    requires Feed(BLANK, output) == BLANK
    ensures var m := Run(prompt, ws, Start(prompt, input, output, history), n);
            && PrintableAll(m.history)
            && (m.status == Running ==> Faithful(prompt, m))
            && (m.status.Submitted? || m.status == Interrupted ==> Feed(BLANK, m.output) == BLANK)
  {
    hide KeyStep, Shown, Feed, Fits, WorkspaceOk, PrintableState;
    var start := Start(prompt, input, output, history);
    if n == 0 {
      FeedAppend(BLANK, output, prompt);
      PromptShowsFresh(prompt, history);
    } else {
      EveryKeyIsFaithful(prompt, ws, input, output, history, n - 1);
      var m := Run(prompt, ws, start, n - 1);
      if m.status == Running {
        KeyStepIsFaithful(prompt, ws, m);
        ShownIsSettled(prompt, m.state);
        if KeyStep(prompt, ws, m).status.Submitted? || KeyStep(prompt, ws, m).status == Interrupted {
          LastKeyEndsLine(prompt, ws, m);
        }
      } else {
        StoppedStays(prompt, ws, m);
      }
    }
  }

  lemma ShownIsSettled(prompt: string, st: State)
    ensures Shown(prompt, st).mode == Ground
  {}

  /** Only the key that submits a call changes the history, by the line it submits. */
  lemma {:induction false} RunRemembers(prompt: string, ws: Workspace, m: Machine, n: nat)
    requires m.status == Running
    ensures var r := Run(prompt, ws, m, n);
            r.history == if r.status.Submitted? then Remember(m.history, r.status.line) else m.history
  {
    hide KeyStep, Remember;
    if n > 0 {
      RunRemembers(prompt, ws, m, n - 1);
      var before := Run(prompt, ws, m, n - 1);
      if before.status == Running {
        KeyRemembers(prompt, ws, before);
      } else {
        StoppedStays(prompt, ws, before);
      }
    }
  }

  lemma KeyRemembers(prompt: string, ws: Workspace, m: Machine)
    requires m.status == Running
    ensures var r := KeyStep(prompt, ws, m);
            r.history == if r.status.Submitted? then Remember(m.history, r.status.line) else m.history
  {
    hide Step, Emitted, EventOf, EscapeAction, Remember, TrimSpace;
  }

  lemma StoppedStays(prompt: string, ws: Workspace, m: Machine)
    requires m.status != Running
    ensures KeyStep(prompt, ws, m) == m
  {}

  /** Every turn takes at least one rune, so the call ends at the latest one turn after the last one. */
  lemma {:induction false} RunEnds(prompt: string, ws: Workspace, m: Machine, n: nat)
    ensures var r := Run(prompt, ws, m, n); r.status == Running ==> |r.input| + n <= |m.input|
    ensures n > |m.input| ==> Run(prompt, ws, m, n).status != Running
  {
    if n > 0 {
      RunEnds(prompt, ws, m, n - 1);
      KeyTakesInput(prompt, ws, Run(prompt, ws, m, n - 1));
    }
  }

  lemma KeyTakesInput(prompt: string, ws: Workspace, m: Machine)
    ensures var r := KeyStep(prompt, ws, m); r.status == Running ==> |r.input| < |m.input|
  {
    hide Step, Emitted, EventOf, EscapeAction, Remember, TrimSpace;
  }

  lemma {:induction false} RunStops(prompt: string, ws: Workspace, m: Machine, n: nat, more: nat)
    requires Run(prompt, ws, m, n).status != Running
    ensures Run(prompt, ws, m, n + more) == Run(prompt, ws, m, n)
  {
    if more > 0 {
      RunStops(prompt, ws, m, n, more - 1);
      StoppedStays(prompt, ws, Run(prompt, ws, m, n));
    }
  }
}
