/** The interactive loop of the program: one ReadLine after the other with the program's own prompt, the
    input history carried from call to call. */
module Session {
  import opened Text
  import opened Wrappers
  import opened Terminal
  import opened Prompt
  import opened LineModel
  import opened ReaderModel
  import opened LineReader

  /** A turn of the loop: what the program wrote since the last call, the runtime that names the prompt
      and the workspace. */
  datatype Turn = Turn(before: string, runtime: Option<Runtime>, ws: Workspace) {
    function Prompt(): string {
      FormatPrompt(runtime)
    }
  }

  /** The call of a turn with the runes that are still to come for it. */
  datatype Call = Call(turn: Turn, input: string)

  /** `open` until a call ends otherwise than by a submitted line. */
  datatype Session = Session(output: string, history: seq<string>, submitted: seq<string>, open: bool)

  const OPENED := Session("", [], [], true)

  /** The machine of a call after `n` keys. */
  function Keys(s: Session, call: Call, n: nat): Machine {
    var prompt := call.turn.Prompt();
    Run(prompt, call.turn.ws, Start(prompt, call.input, s.output + call.turn.before, s.history), n)
  }

  function AfterCall(s: Session, call: Call): Session {
    if !s.open then s
    else
      var end := Keys(s, call, |call.input| + 1);
      Session(end.output, end.history,
              if end.status.Submitted? then s.submitted + [end.status.line] else s.submitted, end.status.Submitted?)
  }

  function AfterCalls(calls: seq<Call>): Session {
    if calls == [] then OPENED else AfterCall(AfterCalls(calls[..|calls| - 1]), calls[|calls| - 1])
  }

  /** What the program writes between calls ends its last line. */
  ghost predicate TurnOk(turn: Turn) {
    Feed(BLANK, turn.before) == BLANK && RuntimeOk(turn.runtime) && WorkspaceOk(turn.ws)
  }

  ghost predicate CallsOk(calls: seq<Call>) {
    forall i | 0 <= i < |calls| :: TurnOk(calls[i].turn)
  }

  lemma KeysAreFaithful(s: Session, call: Call, n: nat)
    requires TurnOk(call.turn) && PrintableAll(s.history) && Feed(BLANK, s.output) == BLANK
    ensures var m := Keys(s, call, n);
            && PrintableAll(m.history)
            && (m.status == Running ==> Faithful(call.turn.Prompt(), m))
            && (m.status.Submitted? ==> Feed(BLANK, m.output) == BLANK)
  {
    hide Feed, FormatPrompt, Run, WorkspaceOk, Faithful, Fits, Visible, RuntimeOk, PrintableAll;
    FeedAppend(BLANK, s.output, call.turn.before);
    PromptFits(call.turn.runtime);
    EveryKeyIsFaithful(call.turn.Prompt(), call.turn.ws, call.input, s.output + call.turn.before, s.history, n);
  }

  /** As long as a session is open its line is empty between calls, and the remembered lines can be shown. */
  lemma {:induction false} SessionStaysBlank(calls: seq<Call>)
    requires CallsOk(calls)
    ensures PrintableAll(AfterCalls(calls).history)
    ensures AfterCalls(calls).open ==> Feed(BLANK, AfterCalls(calls).output) == BLANK
  {
    hide Feed, Keys, TurnOk;
    if calls == [] {
      NothingIsBlank();
    } else {
      var init, last := calls[..|calls| - 1], calls[|calls| - 1];
      SessionStaysBlank(init);
      if AfterCalls(init).open {
        KeysAreFaithful(AfterCalls(init), last, |last.input| + 1);
      }
    }
  }

  lemma NothingIsBlank()
    ensures Feed(BLANK, "") == BLANK
  {}

  /** In every session, after every key of every call, the line shows the program's prompt and the buffer with
      the cursor in its place, whatever was typed, remembered and answered before. */
  lemma EveryCallIsFaithful(calls: seq<Call>, i: nat, n: nat)
    requires CallsOk(calls) && i < |calls| && AfterCalls(calls[..i]).open
    ensures var m := Keys(AfterCalls(calls[..i]), calls[i], n);
            && PrintableAll(m.history)
            && (m.status == Running ==> Faithful(calls[i].turn.Prompt(), m))
  {
    hide Feed, Keys, TurnOk, Faithful, PrintableAll;
    SessionStaysBlank(calls[..i]);
    KeysAreFaithful(AfterCalls(calls[..i]), calls[i], n);
  }

  lemma {:induction false} SessionRemembers(calls: seq<Call>)
    ensures AfterCalls(calls).history == RememberAll(AfterCalls(calls).submitted)
  {
    hide Run, Remember, FormatPrompt;
    if calls != [] {
      var s, last := AfterCalls(calls[..|calls| - 1]), calls[|calls| - 1];
      SessionRemembers(calls[..|calls| - 1]);
      if s.open {
        var prompt := last.turn.Prompt();
        var start := Start(prompt, last.input, s.output + last.turn.before, s.history);
        RunRemembers(prompt, last.turn.ws, start, |last.input| + 1);
        var after := AfterCalls(calls).submitted;
        assert after != s.submitted ==> after[..|after| - 1] == s.submitted;
      }
    }
  }

  /** Over all calls of any session the history holds the last hundred submitted lines, trimmed, without blank
      ones and adjacent repeats. */
  lemma SessionHistory(calls: seq<Call>)
    ensures AfterCalls(calls).history ==
            Last(Runs(Spoken(AfterCalls(calls).submitted)), MAX_INTERACTIVE_INPUT_HISTORY)
  {
    hide AfterCalls, Last, Runs, Spoken, RememberAll;
    SessionRemembers(calls);
    HistoryIsLastRuns(AfterCalls(calls).submitted);
  }

  // ---- What a session submits ----------------------------------------------------------------------

  /** A call that is typed, cut back and entered adds its trimmed line, and the session goes on. */
  lemma EnteredLineIsSubmitted(s: Session, turn: Turn, text: string, keys: string, rest: string)
    requires s.open && IsTyped(text) && IsErasing(keys) && |keys| <= |text|
    ensures var r := AfterCall(s, Call(turn, text + (keys + ("\r" + rest))));
            var line := TrimSpace(text[..|text| - |keys|]);
            r.open && r.submitted == s.submitted + [line] && r.history == Remember(s.history, line)
  {
    hide Run, TrimSpace, Remember;
    var input := text + (keys + ("\r" + rest));
    var start := Start(turn.Prompt(), input, s.output + turn.before, s.history);
    EditedLineIsSubmitted(turn.Prompt(), turn.ws, text, keys, rest, s.output + turn.before, s.history);
    RunStops(turn.Prompt(), turn.ws, start, |text| + |keys| + 1, |input| + 1 - (|text| + |keys| + 1));
  }

  /** A call that is given up, by Ctrl-C or by the end of the input, ends the session without a line. */
  lemma GivenUpCallEndsSession(s: Session, turn: Turn, text: string, rest: string)
    requires s.open && IsTyped(text)
    ensures var r := AfterCall(s, Call(turn, text + ("\U{3}" + rest)));
            !r.open && r.submitted == s.submitted && r.history == s.history
    ensures var r := AfterCall(s, Call(turn, text));
            !r.open && r.submitted == s.submitted && r.history == s.history
  {
    hide Run, TrimSpace;
    var input := text + ("\U{3}" + rest);
    TypedLineIsGivenUp(turn.Prompt(), turn.ws, text, rest, s.output + turn.before, s.history);
    var start := Start(turn.Prompt(), input, s.output + turn.before, s.history);
    RunStops(turn.Prompt(), turn.ws, start, |text| + 1, |input| + 1 - (|text| + 1));
  }

  /** A session starts open and empty, and when it has ended it makes no more calls. */
  lemma SessionStartsAndEnds(s: Session, call: Call)
    ensures AfterCalls([]) == Session("", [], [], true)
    ensures !s.open ==> AfterCall(s, call) == s
  {}

  // ---- The loop ----------------------------------------------------------------------------------

  predicate IsSuffix(s: string, of: string) {
    |s| <= |of| && of[|of| - |s|..] == s
  }

  /** What the last of the calls left of the input. */
  function LeftOver(calls: seq<Call>): string
    requires calls != []
  {
    var last := calls[|calls| - 1];
    Keys(AfterCalls(calls[..|calls| - 1]), last, |last.input| + 1).input
  }

  /** Each call gets an end of what the one before it left: a rune may be lost between calls, but none
      is read twice or out of order. */
  predicate Served(calls: seq<Call>, input: string) {
    forall i | 0 <= i < |calls| :: IsSuffix(calls[i].input, if i == 0 then input else LeftOver(calls[..i]))
  }

  lemma ServedSnoc(calls: seq<Call>, input: string, call: Call)
    requires Served(calls, input) && IsSuffix(call.input, if calls == [] then input else LeftOver(calls))
    ensures Served(calls + [call], input)
  {
    hide IsSuffix, LeftOver;
    var more := calls + [call];
    forall i | 0 <= i < |more| ensures IsSuffix(more[i].input, if i == 0 then input else LeftOver(more[..i])) {
      assert more[..i] == calls[..i];
      assert i == |calls| ==> calls[..i] == calls;
    }
  }

  lemma AfterSnoc(calls: seq<Call>, call: Call)
    ensures AfterCalls(calls + [call]) == AfterCall(AfterCalls(calls), call)
    ensures LeftOver(calls + [call]) == Keys(AfterCalls(calls), call, |call.input| + 1).input
  {
    assert (calls + [call])[..|calls|] == calls;
  }

  lemma NothingServed(input: string)
    ensures Served([], input) && AfterCalls([]) == OPENED && IsSuffix(input, input)
  {}

  /** One turn, made in the state that the session has reached. */
  method Serve(reader: InteractiveInputLineReader, turn: Turn, ghost s: Session) returns (status: Status)
    requires reader.output == s.output && reader.history == s.history
    requires |reader.history| <= MAX_INTERACTIVE_INPUT_HISTORY
    modifies reader
    ensures |reader.history| <= MAX_INTERACTIVE_INPUT_HISTORY
    ensures var end := Keys(s, Call(turn, old(reader.input)), |old(reader.input)| + 1);
            && status == end.status && reader.output == end.output && reader.history == end.history
            && IsSuffix(reader.input, end.input)
  {
    hide Run, Start;
    reader.Write(turn.before);
    status := reader.ReadLine(turn.Prompt(), turn.ws);
  }

  /** The loop over the reader: until a call is not submitted, the lines, the output and the history are
      those of the session made of the calls. */
  method Converse(reader: InteractiveInputLineReader, turns: seq<Turn>)
    returns (lines: seq<string>, ghost calls: seq<Call>)
    requires reader.output == "" && reader.history == []
    modifies reader
    ensures lines == AfterCalls(calls).submitted
    ensures reader.output == AfterCalls(calls).output && reader.history == AfterCalls(calls).history
    ensures |calls| <= |turns| && forall i | 0 <= i < |calls| :: calls[i].turn == turns[i]
    ensures |calls| < |turns| ==> !AfterCalls(calls).open
    ensures Served(calls, old(reader.input))
  {
    hide Keys, AfterCalls, LeftOver, Served, IsSuffix;
    lines, calls := [], [];
    NothingServed(reader.input);
    for i := 0 to |turns|
      invariant |calls| == i && forall j | 0 <= j < i :: calls[j].turn == turns[j]
      invariant AfterCalls(calls) == Session(reader.output, reader.history, lines, true)
      invariant |reader.history| <= MAX_INTERACTIVE_INPUT_HISTORY
      invariant Served(calls, old(reader.input))
      invariant IsSuffix(reader.input, if calls == [] then old(reader.input) else LeftOver(calls))
    {
      ghost var call := Call(turns[i], reader.input);
      ServedSnoc(calls, old(reader.input), call);
      AfterSnoc(calls, call);
      ghost var s := AfterCalls(calls);
      calls := calls + [call];
      var status := Serve(reader, turns[i], s);
      if !status.Submitted? {
        return;
      }
      lines := lines + [status.line];
    }
  }
}
