/** interactiveInputLineReader: the editor over mutable rune slices, writing to the terminal as it goes.
    Every method is proved to make exactly the step of the machine it stands for. */
module LineReader {
  import opened Text
  import opened Wrappers
  import opened Terminal
  import opened LineModel
  import opened ReaderModel
  import opened RuneSlices

  /** The runes a bufio.Reader holds at most. */
  const BUFFER_SIZE := 4096

  class InteractiveInputLineReader {
    var input: string            // the runes that were not delivered yet
    var buffered: string         // the runes that the buffered reader of the call has read ahead
    var output: string           // everything written so far
    var history: seq<string>
    var buffer: RuneSlice
    var cursor: nat
    var awaitingEscape: bool
    var historyIndex: nat
    var historyDraft: RuneSlice

    ghost function Footprint(): set<object>
      reads this`buffer, this`historyDraft, buffer, historyDraft
    {
      {this, buffer, buffer.data, historyDraft, historyDraft.data}
    }

    ghost predicate Valid()
      reads this`buffer, this`cursor, this`history, this`historyIndex, this`historyDraft, buffer, historyDraft
    {
      && buffer != historyDraft && buffer.data != historyDraft.data
      && buffer.Valid() && historyDraft.Valid()
      && cursor <= buffer.len && historyIndex <= |history| <= MAX_INTERACTIVE_INPUT_HISTORY
    }

    /** The zipper, the history position and the draft that the fields stand for. */
    ghost function View(): State
      requires Valid()
      reads this`buffer, this`cursor, this`history, this`historyIndex, this`historyDraft
      reads buffer, buffer.data, historyDraft, historyDraft.data
    {
      var text := buffer.Contents();
      State(Zipper(text[..cursor], text[cursor..]), historyIndex, historyDraft.Contents())
    }

    /** The runes still to come in this call. */
    ghost function Ahead(): string
      reads this`input, this`buffered
    {
      buffered + input
    }

    ghost function Now(status: Status): Machine
      requires Valid()
      reads this, buffer, buffer.data, historyDraft, historyDraft.data
    {
      Machine(View(), awaitingEscape, Ahead(), output, history, status)
    }

    constructor (input: string, output: string)
      ensures Valid() && fresh(Footprint())
      ensures this.input == input && this.output == output && history == []
    {
      this.input := input;
      this.buffered := "";
      this.output := output;
      history := [];
      buffer := new RuneSlice(128);
      cursor := 0;
      awaitingEscape := false;
      historyIndex := 0;
      historyDraft := new RuneSlice(0);
    }

    method Write(text: string)
      modifies this`output
      ensures output == old(output) + text
    {
      output := output + text;
    }

    /** redrawInputLineWithCursor */
    method RedrawInputLineWithCursor(prompt: string)
      requires Valid()
      modifies this`output
      ensures output == old(output) + RedrawState(prompt, View())
    {
      var runes := buffer.data[..buffer.len];
      assert View().line.Text() == runes;
      Write(['\r', ESC, '[', '2', 'K'] + prompt + runes);
      var delta := |runes| - cursor;
      if delta > 0 {
        Write([ESC, '['] + Decimal(delta) + ['D']);
      }
    }

    /** Shows a message on the lines below and the edited line again under it. */
    method ShowBelow(prompt: string, message: string)
      requires Valid()
      modifies this`output
      ensures output == old(output) + Below(prompt, View(), message)
    {
      if message != "" {
        Write(CRLF + message);
        RedrawInputLineWithCursor(prompt);
      }
    }

    // ---- Changing the buffer and the cursor --------------------------------------------------

    method AppendRune(c: char)
      requires Valid() && cursor == buffer.len
      modifies this`cursor, buffer, buffer.data
      ensures Valid() && (buffer.data == old(buffer.data) || fresh(buffer.data))
      ensures View() == old(View()).(line := Zipper(old(View()).line.left + [c], ""))
    {
      ghost var text := buffer.Contents();
      buffer.Append(c);
      cursor := cursor + 1;
      assert buffer.Contents()[..cursor] == text[..cursor - 1] + [c];
      assert buffer.Contents()[cursor..] == "";
    }

    method InsertAtCursor(c: char)
      requires Valid()
      modifies this`cursor, buffer, buffer.data
      ensures Valid() && (buffer.data == old(buffer.data) || fresh(buffer.data))
      ensures View() == old(View()).(line := Zipper(old(View()).line.left + [c], old(View()).line.right))
    {
      ghost var text := buffer.Contents();
      buffer.InsertAt(cursor, c);
      cursor := cursor + 1;
      assert buffer.Contents()[..cursor] == text[..cursor - 1] + [c];
      assert buffer.Contents()[cursor..] == text[cursor - 1..];
    }

    method RemoveBeforeCursor()
      requires Valid() && cursor > 0
      modifies this`cursor, buffer, buffer.data
      ensures Valid() && buffer.data == old(buffer.data)
      ensures View() == old(View()).(line := Zipper(old(View()).line.left[..old(cursor) - 1], old(View()).line.right))
    {
      ghost var text := buffer.Contents();
      buffer.RemoveAt(cursor - 1);
      cursor := cursor - 1;
      assert buffer.Contents()[..cursor] == text[..cursor + 1][..cursor];
      assert buffer.Contents()[cursor..] == text[cursor + 1..];
    }

    method RemoveAtCursor()
      requires Valid() && cursor < buffer.len
      modifies buffer, buffer.data
      ensures Valid() && buffer.data == old(buffer.data)
      ensures View() == old(View()).(line := Zipper(old(View()).line.left, old(View()).line.right[1..]))
    {
      ghost var text := buffer.Contents();
      buffer.RemoveAt(cursor);
      assert buffer.Contents()[..cursor] == text[..cursor];
      assert buffer.Contents()[cursor..] == text[cursor..][1..];
    }

    method ReplaceLine(next: string)
      requires Valid()
      modifies this`cursor, buffer, buffer.data
      ensures Valid() && (buffer.data == old(buffer.data) || fresh(buffer.data))
      ensures View() == old(View()).(line := Zipper(next, ""))
    {
      buffer.Assign(next);
      cursor := buffer.len;
      assert buffer.Contents()[..cursor] == next && buffer.Contents()[cursor..] == "";
    }

    /** The text stays, and with the position of the cursor it determines the zipper. */
    method MoveCursor(to: nat, ghost target: Zipper)
      requires Valid() && to == |target.left| && target.Text() == View().line.Text()
      modifies this`cursor
      ensures Valid()
      ensures View() == old(View()).(line := target)
    {
      assert View().line.Text() == buffer.Contents();
      assert buffer.Contents()[..to] == target.left && buffer.Contents()[to..] == target.right;
      cursor := to;
    }

    // ---- Keys ----------------------------------------------------------------------------------

    /** Inserts the rune and echoes it at the end of the line, or redraws. */
    method PutRune(prompt: string, c: char)
      requires Valid()
      modifies this`cursor, this`output, buffer, buffer.data
      ensures Valid() && (buffer.data == old(buffer.data) || fresh(buffer.data))
      ensures View() == old(View()).(line := Zipper(old(View()).line.left + [c], old(View()).line.right))
      ensures output == old(output) + if old(View()).line.right == "" then [c] else RedrawState(prompt, View())
    {
      hide RedrawState;
      if cursor == buffer.len {
        AppendRune(c);
        Write([c]);
      } else {
        InsertAtCursor(c);
        RedrawInputLineWithCursor(prompt);
      }
    }

    /** The default branch: insert the rune, then show suggestions. */
    method InsertRune(prompt: string, c: char, hint: string)
      requires Valid()
      modifies this`cursor, this`output, buffer, buffer.data
      ensures Valid() && (buffer.data == old(buffer.data) || fresh(buffer.data))
      ensures Now(Running) == Apply(prompt, old(Now(Running)), Typed(c, hint))
    {
      hide RedrawState, Below, Emitted, Ahead;
      TypedEmits(prompt, history, View(), c, hint, output);
      if c < ' ' {
        return;
      }
      PutRune(prompt, c);
      assert |View().line.left| == cursor;
      hide View;
      if c == '@' {
        ShowBelow(prompt, hint);
      } else if c == '/' && cursor == 1 {
        ShowBelow(prompt, hint);
      }
    }

    method EraseBack(prompt: string)
      requires Valid()
      modifies this`cursor, this`output, buffer, buffer.data
      ensures Valid() && (buffer.data == old(buffer.data) || fresh(buffer.data))
      ensures Now(Running) == Apply(prompt, old(Now(Running)), Backspace)
    {
      hide RedrawState;
      ghost var was := View();
      if cursor > 0 {
        RemoveBeforeCursor();
        RedrawInputLineWithCursor(prompt);
      }
      assert View() == Step(history, was, Backspace);
      assert output == old(output) + Emitted(prompt, history, was, Backspace);
    }

    method CompleteToken(prompt: string, next: string, changed: bool, message: string)
      requires Valid()
      modifies this`cursor, this`output, buffer, buffer.data
      ensures Valid() && (buffer.data == old(buffer.data) || fresh(buffer.data))
      ensures Now(Running) == Apply(prompt, old(Now(Running)), Tab(next, changed, message))
    {
      hide RedrawState, Emitted;
      ghost var was := View();
      TabEmits(prompt, history, was, next, changed, message, output);
      if message != "" {
        Write(CRLF + message);
      }
      if changed {
        ReplaceLine(next);
      }
      assert View() == Step(history, was, Tab(next, changed, message));
      if changed || message != "" {
        RedrawInputLineWithCursor(prompt);
      }
    }

    /** navigateInputHistory: the line to show instead, if there is one; leaving the draft saves a copy of it. */
    method NavigateInputHistory(action: Action) returns (next: string, changed: bool)
      requires Valid() && (action == Up || action == Down)
      modifies this`historyIndex, historyDraft, historyDraft.data
      ensures Valid() && buffer == old(buffer) && historyDraft == old(historyDraft)
      ensures historyDraft.data == old(historyDraft.data) || fresh(historyDraft.data)
      ensures cursor == old(cursor) && buffer.data == old(buffer.data) && buffer.Contents() == old(buffer.Contents())
      ensures changed <==> Recalled(history, old(View()), action).Some?
      ensures changed ==> Recalled(history, old(View()), action).value ==
                          State(Zipper(next, ""), historyIndex, historyDraft.Contents())
      ensures !changed ==> View() == old(View())
    {
      if |history| == 0 {
        return "", false;
      }
      ghost var text := View().line.Text();
      assert text == buffer.Contents();
      if action == Up {
        if historyIndex == |history| {
          historyDraft.Assign(buffer.data[..buffer.len]);
        }
        if historyIndex == 0 {
          return "", false;
        }
        historyIndex := historyIndex - 1;
        return history[historyIndex], true;
      } else {
        if historyIndex >= |history| {
          return "", false;
        }
        historyIndex := historyIndex + 1;
        if historyIndex == |history| {
          return historyDraft.data[..historyDraft.len], true;
        }
        return history[historyIndex], true;
      }
    }

    /** The arrow keys up and down. */
    method Recall(prompt: string, action: Action)
      requires Valid() && (action == Up || action == Down)
      modifies this`cursor, this`output, this`historyIndex, buffer, buffer.data, historyDraft, historyDraft.data
      ensures Valid() && (buffer.data == old(buffer.data) || fresh(buffer.data))
      ensures historyDraft.data == old(historyDraft.data) || fresh(historyDraft.data)
      ensures Now(Running) == Apply(prompt, old(Now(Running)), Arrow(action))
    {
      hide RedrawState, Recalled;
      ghost var was := View();
      var next, changed := NavigateInputHistory(action);
      if changed {
        ReplaceLine(next);
        RedrawInputLineWithCursor(prompt);
      }
      assert View() == Step(history, was, Arrow(action));
      assert output == old(output) + Emitted(prompt, history, was, Arrow(action));
    }

    /** The arrow keys left and right echo a cursor movement. */
    method StepLeft(prompt: string)
      requires Valid()
      modifies this`cursor, this`output
      ensures Valid()
      ensures Now(Running) == Apply(prompt, old(Now(Running)), Arrow(Left))
    {
      hide Apply, Move;
      ghost var line := View().line;
      ApplyStep(prompt, Now(Running), Left);
      MoveKeepsText(line, Left);
      if cursor > 0 {
        MoveCursor(cursor - 1, Move(line, Left));
        Write([ESC, '[', 'D']);
      }
    }

    method StepRight(prompt: string)
      requires Valid()
      modifies this`cursor, this`output
      ensures Valid()
      ensures Now(Running) == Apply(prompt, old(Now(Running)), Arrow(Right))
    {
      hide Apply, Move;
      ghost var line := View().line;
      ApplyStep(prompt, Now(Running), Right);
      MoveKeepsText(line, Right);
      if cursor < buffer.len {
        MoveCursor(cursor + 1, Move(line, Right));
        Write([ESC, '[', 'C']);
      }
    }

    method GoHome(prompt: string)
      requires Valid()
      modifies this`cursor, this`output
      ensures Valid()
      ensures Now(Running) == Apply(prompt, old(Now(Running)), Arrow(Home))
    {
      hide RedrawState, Apply;
      ghost var line := View().line;
      ApplyJump(prompt, Now(Running), Home);
      MoveKeepsText(line, Home);
      if cursor != 0 {
        MoveCursor(0, Move(line, Home));
        RedrawInputLineWithCursor(prompt);
      }
    }

    method GoEnd(prompt: string)
      requires Valid()
      modifies this`cursor, this`output
      ensures Valid()
      ensures Now(Running) == Apply(prompt, old(Now(Running)), Arrow(End))
    {
      hide RedrawState, Apply;
      ghost var line := View().line;
      ApplyJump(prompt, Now(Running), End);
      MoveKeepsText(line, End);
      if cursor != buffer.len {
        MoveCursor(buffer.len, Move(line, End));
        RedrawInputLineWithCursor(prompt);
      }
    }

    method DeleteRune(prompt: string)
      requires Valid()
      modifies this`cursor, this`output, buffer, buffer.data
      ensures Valid() && (buffer.data == old(buffer.data) || fresh(buffer.data))
      ensures Now(Running) == Apply(prompt, old(Now(Running)), Arrow(Delete))
    {
      hide RedrawState;
      if cursor < buffer.len {
        RemoveAtCursor();
        RedrawInputLineWithCursor(prompt);
      }
    }

    /** applyInputEscapeAction */
    method ApplyInputEscapeAction(prompt: string, action: Action)
      requires Valid() && action != Up && action != Down
      modifies this`cursor, this`output, buffer, buffer.data
      ensures Valid() && (buffer.data == old(buffer.data) || fresh(buffer.data))
      ensures Now(Running) == Apply(prompt, old(Now(Running)), Arrow(action))
    {
      if action == Left {
        StepLeft(prompt);
      } else if action == Right {
        StepRight(prompt);
      } else if action == Home {
        GoHome(prompt);
      } else if action == End {
        GoEnd(prompt);
      } else if action == Delete {
        DeleteRune(prompt);
      }
    }

    method RememberInput(line: string)
      requires |history| <= MAX_INTERACTIVE_INPUT_HISTORY
      modifies this`history
      ensures history == Remember(old(history), line)
      ensures |old(history)| <= |history| <= MAX_INTERACTIVE_INPUT_HISTORY
    {
      var kept := TrimSpace(line);
      if kept == "" {
        return;
      }
      if |history| > 0 && history[|history| - 1] == kept {
        return;
      }
      history := history + [kept];
      if |history| > MAX_INTERACTIVE_INPUT_HISTORY {
        history := history[|history| - MAX_INTERACTIVE_INPUT_HISTORY..];
      }
    }

    // ---- Reading runes -------------------------------------------------------------------------

    /** Reads ahead as much as happens to be delivered: something, unless the input has ended. */
    method Fill()
      requires buffered == ""
      modifies this`input, this`buffered
      ensures Ahead() == old(Ahead())
      ensures (buffered == "" <==> old(input) == "") && |buffered| <= 4096
    {
      if input != "" {
        var n :| 1 <= n <= |input| && n <= BUFFER_SIZE;
        buffered, input := input[..n], input[n..];
      }
    }

    /** ReadRune of the buffered reader; no rune at the end of the input. */
    method ReadRune() returns (r: Option<char>)
      modifies this`input, this`buffered
      ensures r == if old(Ahead()) == "" then None else Some(old(Ahead())[0])
      ensures Ahead() == if old(Ahead()) == "" then "" else old(Ahead())[1..]
    {
      if buffered == "" {
        Fill();
      }
      if buffered == "" {
        return None;
      }
      r := Some(buffered[0]);
      buffered := buffered[1..];
    }

    /** readInputEscapeAction */
    method ReadInputEscapeAction(introducer: char) returns (action: Action)
      modifies this`input, this`buffered
      ensures var (decoded, taken) := EscapeAction(introducer, old(Ahead()));
              action == decoded && Ahead() == old(Ahead())[taken..]
    {
      if introducer == 'O' {
        var c := ReadRune();
        return if c == Some('H') then Home else if c == Some('F') then End else Unknown;
      }
      if introducer != '[' {
        return Unknown;
      }
      var sequence, ended := ReadSequence();
      return if ended then Unknown else ActionOf(sequence);
    }

    /** Reads up to a final rune, but no more than eight runes. */
    method ReadSequence() returns (sequence: string, ended: bool)
      modifies this`input, this`buffered
      ensures (sequence, ended) == Sequence(old(Ahead()), 8)
      ensures old(Ahead()) == sequence + Ahead()
    {
      hide Sequence;
      sequence := "";
      ghost var was := Ahead();
      assert sequence + Sequence(was, 8).0 == Sequence(was, 8).0;
      for i := 0 to 8
        invariant |sequence| == i && was == sequence + Ahead()
        invariant Sequence(was, 8).0 == sequence + Sequence(Ahead(), 8 - i).0
        invariant Sequence(was, 8).1 == Sequence(Ahead(), 8 - i).1
      {
        SequenceEdges(Ahead(), 8 - i);
        SequenceStep(sequence, Ahead(), 8 - i);
        var c := ReadRune();
        if c == None {
          assert sequence + "" == sequence;
          return sequence, true;
        }
        sequence := sequence + [c.value];
        if IsFinal(c.value) {
          return sequence, false;
        }
      }
      SequenceEdges(Ahead(), 0);
      assert sequence + "" == sequence;
      return sequence, false;
    }

    // ---- The loop ------------------------------------------------------------------------------

    /** The key an escape sequence stands for. */
    method Act(prompt: string, action: Action)
      requires Valid()
      modifies Footprint()
      ensures Valid() && fresh(Footprint() - old(Footprint()))
      ensures Now(Running) == Apply(prompt, old(Now(Running)), Arrow(action))
    {
      hide Apply, View;
      if action == Up || action == Down {
        Recall(prompt, action);
      } else {
        ApplyInputEscapeAction(prompt, action);
      }
    }

    /** Takes the runes of an escape sequence; everything else stays. */
    method TakeAction(introducer: char) returns (action: Action)
      requires Valid()
      modifies this`input, this`buffered
      ensures Valid() && action == EscapeAction(introducer, old(Ahead())).0
      ensures var m := old(Now(Running));
              Now(Running) == m.(input := m.input[EscapeAction(introducer, m.input).1..])
    {
      hide EscapeAction, View, Valid, Ahead;
      action := ReadInputEscapeAction(introducer);
    }

    /** A key after ESC [ or ESC O. */
    method EscapedKey(prompt: string, introducer: char)
      requires Valid() && (introducer == '[' || introducer == 'O')
      modifies Footprint()
      ensures Valid() && fresh(Footprint() - old(Footprint()))
      ensures var m := old(Now(Running));
              var (action, taken) := EscapeAction(introducer, m.input);
              Now(Running) == Apply(prompt, m.(input := m.input[taken..]), Arrow(action))
    {
      hide EscapeAction, Apply, View, Valid, Ahead;
      var action := TakeAction(introducer);
      Act(prompt, action);
    }

    /** A key that edits the line. */
    method EditingKey(prompt: string, ws: Workspace, c: char)
      requires Valid()
      modifies Footprint()
      ensures Valid() && fresh(Footprint() - old(Footprint()))
      ensures var m := old(Now(Running));
              Now(Running) == Apply(prompt, m, EventOf(ws, m.state, c, |m.input|))
    {
      hide Step, Emitted;
      var runes := buffer.data[..buffer.len];
      assert View().line.Text() == runes;
      if c == '\U{8}' || c == DEL {
        EraseBack(prompt);
      } else if c == '\t' {
        var r := ws.complete(|buffered + input|, runes, cursor);
        CompleteToken(prompt, r.next, r.changed, r.message);
      } else {
        var left := runes[..cursor] + [c];
        assert left == View().line.left + [c];
        var hint := "";
        if c == '@' {
          hint := ws.atHint(|buffered + input|, left);
        } else if c == '/' && |left| == 1 {
          hint := ws.commandHint(left);
        }
        InsertRune(prompt, c, hint);
      }
    }

    /** Enter. */
    method SubmitLine() returns (line: string)
      requires Valid()
      modifies this`output, this`history
      ensures Valid() && line == TrimSpace(View().line.Text())
      ensures View() == old(View()) && output == old(output) + CRLF && history == Remember(old(history), line)
    {
      hide TrimSpace, Remember;
      Write(CRLF);
      line := TrimSpace(buffer.data[..buffer.len]);
      assert View().line.Text() == buffer.data[..buffer.len];
      RememberInput(line);
    }

    method Turn(prompt: string, ws: Workspace) returns (status: Status)
      requires Valid()
      modifies Footprint()
      ensures Valid() && fresh(Footprint() - old(Footprint()))
      ensures Now(status) == KeyStep(prompt, ws, old(Now(Running)))
    {
      hide Apply, EventOf, EscapeAction, Remember, View, Valid, TrimSpace, Ahead;
      ghost var m := Now(Running);
      var next := ReadRune();
      if next == None {
        return EndOfInput;
      }
      var c := next.value;
      assert Now(Running) == m.(input := m.input[1..]);
      if awaitingEscape {
        awaitingEscape := false;
        if c == '[' || c == 'O' {
          EscapedKey(prompt, c);
          return Running;
        }
      }
      if c == '\r' || c == '\n' {
        var line := SubmitLine();
        return Submitted(line);
      } else if c == '\U{3}' {
        Write("^C\r\n");
        return Interrupted;
      } else if c == ESC {
        awaitingEscape := true;
        return Running;
      } else {
        EditingKey(prompt, ws, c);
        return Running;
      }
    }

    /** Two new slices, the one for the line and the one for the draft. */
    method ClearSlices()
      modifies this`buffer, this`historyDraft, this`cursor
      ensures fresh({buffer, buffer.data, historyDraft, historyDraft.data})
      ensures buffer != historyDraft && buffer.data != historyDraft.data
      ensures buffer.Valid() && historyDraft.Valid()
      ensures cursor == 0 && buffer.Contents() == historyDraft.Contents() == ""
    {
      cursor := 0;
      buffer := new RuneSlice(128);
      historyDraft := new RuneSlice(0);
    }

    /** A fresh line after the prompt, with nothing recalled, nothing drafted and a new buffered reader:
        what the one of the last call had read ahead is lost. */
    method Begin(prompt: string)
      requires |history| <= MAX_INTERACTIVE_INPUT_HISTORY
      modifies this
      ensures Valid() && fresh(Footprint() - {this})
      ensures Now(Running) == Start(prompt, old(input), old(output), old(history))
    {
      hide View, Ahead;
      Write(prompt);
      ClearSlices();
      buffered := "";
      awaitingEscape := false;
      historyIndex := |history|;
      BeginsEmpty();
    }

    lemma BeginsEmpty()
      requires Valid() && cursor == 0 && buffered == ""
      requires buffer.Contents() == historyDraft.Contents() == ""
      ensures View() == State(Zipper("", ""), historyIndex, "") && Ahead() == input
    {
      assert "" + input == input;
    }

    method Loop(prompt: string, ws: Workspace) returns (status: Status)
      requires Valid()
      modifies Footprint()
      ensures Valid() && fresh(Footprint() - old(Footprint())) && status != Running
      ensures Now(status) == Run(prompt, ws, old(Now(Running)), |old(Ahead())| + 1)
    {
      hide KeyStep, View, Valid, Ahead;
      ghost var start := Now(Running);
      ghost var turns: nat := 0;
      status := Running;
      while status == Running
        invariant Valid() && fresh(Footprint() - old(Footprint()))
        invariant Now(status) == Run(prompt, ws, start, turns)
        decreases status == Running, |Ahead()|
      {
        KeyTakesInput(prompt, ws, Now(Running));
        status := Turn(prompt, ws);
        turns := turns + 1;
      }
      StoppedByThen(prompt, ws, start, turns);
    }

    /** ReadLine: how the call ended, after running the machine from the prompt until it stops, however
        the input was delivered. What is left of the input in `buffered` is lost with the next call. */
    method ReadLine(prompt: string, ws: Workspace) returns (status: Status)
      requires |history| <= MAX_INTERACTIVE_INPUT_HISTORY
      modifies this
      ensures |history| <= MAX_INTERACTIVE_INPUT_HISTORY && status != Running
      ensures var end := Run(prompt, ws, Start(prompt, old(input), old(output), old(history)), |old(input)| + 1);
              && status == end.status && output == end.output && history == end.history
              && Ahead() == end.input && (input == end.input <==> buffered == "")
    {
      hide Run, View;
      Begin(prompt);
      status := Loop(prompt, ws);
    }
  }

  /** A run that has stopped is the run of one turn per rune and one for the end of the input. */
  lemma StoppedByThen(prompt: string, ws: Workspace, m: Machine, n: nat)
    requires Run(prompt, ws, m, n).status != Running
    ensures Run(prompt, ws, m, |m.input| + 1) == Run(prompt, ws, m, n)
  {
    RunEnds(prompt, ws, m, |m.input| + 1);
    if n <= |m.input| + 1 {
      RunStops(prompt, ws, m, n, |m.input| + 1 - n);
    } else {
      RunStops(prompt, ws, m, |m.input| + 1, n - (|m.input| + 1));
    }
  }

  lemma SequenceEdges(input: string, budget: nat)
    ensures Sequence(input, 0) == ("", false)
    ensures input == "" && budget > 0 ==> Sequence(input, budget) == ("", true)
  {}

  lemma TypedEmits(prompt: string, history: seq<string>, st: State, c: char, hint: string, out: string)
    ensures var st' := Step(history, st, Typed(c, hint));
            var drawn := out + if st.line.right == "" then [c] else RedrawState(prompt, st');
            out + Emitted(prompt, history, st, Typed(c, hint)) ==
            if c < ' ' then out
            else if AsksForHint(c, st'.line.left) then drawn + Below(prompt, st', hint) else drawn
  {
    hide RedrawState, Below;
  }

  lemma ApplyStep(prompt: string, m: Machine, action: Action)
    requires action == Left || action == Right
    ensures var z := m.state.line;
            var st' := m.state.(line := Move(z, action));
            var movement := [ESC, '[', if action == Left then 'D' else 'C'];
            Apply(prompt, m, Arrow(action)) ==
            if (if action == Left then z.left else z.right) == "" then m
            else m.(state := st', output := m.output + movement)
    ensures action == Left && m.state.line.left != "" ==> |Move(m.state.line, Left).left| == |m.state.line.left| - 1
    ensures action == Right && m.state.line.right != "" ==> |Move(m.state.line, Right).left| == |m.state.line.left| + 1
  {
    assert m.output + "" == m.output;
  }

  lemma ApplyJump(prompt: string, m: Machine, action: Action)
    requires action == Home || action == End
    ensures var z := m.state.line;
            var st' := m.state.(line := if action == Home then Zipper("", z.left + z.right) else Zipper(z.left + z.right, ""));
            Apply(prompt, m, Arrow(action)) ==
            if (if action == Home then z.left else z.right) == "" then m
            else m.(state := st', output := m.output + RedrawState(prompt, st'))
  {
    hide RedrawState;
    var z := m.state.line;
    assert m.output + "" == m.output;
    assert z.right == "" ==> z.left + z.right == z.left;
    assert z.left == "" ==> z.left + z.right == z.right;
  }

  lemma TabEmits(prompt: string, history: seq<string>, st: State, next: string, changed: bool, message: string, out: string)
    ensures var st' := Step(history, st, Tab(next, changed, message));
            var told := if message != "" then out + (CRLF + message) else out;
            out + Emitted(prompt, history, st, Tab(next, changed, message)) ==
            if changed || message != "" then told + RedrawState(prompt, st') else told
  {
    hide RedrawState;
  }

  lemma SequenceStep(read: string, input: string, budget: nat)
    requires budget > 0
    ensures input != "" && IsFinal(input[0]) ==> read + Sequence(input, budget).0 == read + [input[0]] && !Sequence(input, budget).1
    ensures input != "" && !IsFinal(input[0]) ==>
              read + Sequence(input, budget).0 == (read + [input[0]]) + Sequence(input[1..], budget - 1).0 &&
              Sequence(input, budget).1 == Sequence(input[1..], budget - 1).1
  {
    if input != "" && !IsFinal(input[0]) {
      AppendAssociates(read, [input[0]], Sequence(input[1..], budget - 1).0);
    }
  }
}
