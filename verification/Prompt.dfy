/** The prompt of the interactive loop (formatPrompt): styled labels that take the columns of their text
    only, so that the editor finds the cursor where the prompt ends. */
module Prompt {
  import opened Text
  import opened Wrappers
  import opened Terminal

  /** The agent and mode a runtime reports. */
  datatype Runtime = Runtime(activeAgent: string, mode: string)

  const BOLD := 1
  const DIM := 2
  const CYAN := 36

  function StyleLabel(text: string): string {
    Styled([BOLD, CYAN], text)
  }

  function StyleMuted(text: string): string {
    Styled([DIM], text)
  }

  /** Labels are bold and cyan, muted text is dim, and each resets what it set. */
  lemma StylesAre(text: string)
    ensures StyleLabel(text) == "\U{1B}[1m\U{1B}[36m" + text + "\U{1B}[0m"
    ensures StyleMuted(text) == "\U{1B}[2m" + text + "\U{1B}[0m"
  {
    assert Decimal(1) == "1" && Decimal(2) == "2" && Decimal(36) == Decimal(3) + "6" == "36";
    assert [BOLD, CYAN][..1] == [BOLD] && [BOLD][..0] == [] && [DIM][..0] == [];
    assert Renditions([BOLD]) == "" + ([ESC, '['] + "1" + ['m']) == "\U{1B}[1m";
    assert Renditions([BOLD, CYAN]) == "\U{1B}[1m" + ([ESC, '['] + "36" + ['m']) == "\U{1B}[1m\U{1B}[36m";
    assert Renditions([DIM]) == "" + ([ESC, '['] + "2" + ['m']) == "\U{1B}[2m";
  }

  function FallbackDisplayText(value: string, fallback: string): string {
    if TrimSpace(value) == "" then fallback else value
  }

  /** The agent and the mode in brackets. */
  function Tag(runtime: Runtime): string {
    "[" + FallbackDisplayText(runtime.activeAgent, "agent") + "/" + FallbackDisplayText(runtime.mode, "chat") + "]"
  }

  function FormatPrompt(runtime: Option<Runtime>): string {
    match runtime
    case None => StyleLabel("goflow") + StyleMuted(">") + " "
    case Some(active) => StyleLabel("goflow") + StyleMuted(Tag(active)) + StyleMuted(">") + " "
  }

  /** The prompt rune by rune. */
  lemma PromptIs(agent: string, mode: string)
    ensures FormatPrompt(None) == "\U{1B}[1m\U{1B}[36m" + "goflow" + "\U{1B}[0m" + ("\U{1B}[2m" + ">" + "\U{1B}[0m") + " "
    ensures FormatPrompt(Some(Runtime(agent, mode))) ==
            "\U{1B}[1m\U{1B}[36m" + "goflow" + "\U{1B}[0m" +
            ("\U{1B}[2m" + ("[" + (if AllSpace(agent) then "agent" else agent) + "/" +
                            (if AllSpace(mode) then "chat" else mode) + "]") + "\U{1B}[0m") +
            ("\U{1B}[2m" + ">" + "\U{1B}[0m") + " "
  {
    hide StyleLabel, StyleMuted, TrimSpace, IsSpace;
    StylesAre("goflow");
    StylesAre(">");
    StylesAre(Tag(Runtime(agent, mode)));
    PromptNames(agent, mode);
  }

  /** What a reader of the terminal sees of the prompt. */
  function VisiblePrompt(runtime: Option<Runtime>): string {
    match runtime
    case None => "goflow> "
    case Some(active) => "goflow" + Tag(active) + "> "
  }

  /** The agent and the mode as they are named, or the words that stand for blank ones. */
  lemma PromptNames(agent: string, mode: string)
    ensures Tag(Runtime(agent, mode)) ==
            "[" + (if AllSpace(agent) then "agent" else agent) + "/" + (if AllSpace(mode) then "chat" else mode) + "]"
    ensures VisiblePrompt(Some(Runtime(agent, mode))) == "goflow" + Tag(Runtime(agent, mode)) + "> "
    ensures VisiblePrompt(None) == "goflow> "
  {
    hide TrimSpace, IsSpace;
    BlankIsTrimmed(agent);
    BlankIsTrimmed(mode);
  }

  predicate RuntimeOk(runtime: Option<Runtime>) {
    runtime.Some? ==> Printable(runtime.value.activeAgent) && Printable(runtime.value.mode)
  }

  /** The prompt ends at the cursor and shows its words without their styles. */
  lemma PromptFits(runtime: Option<Runtime>)
    requires RuntimeOk(runtime)
    ensures Fits(FormatPrompt(runtime)) && Visible(FormatPrompt(runtime)) == VisiblePrompt(runtime)
  {
    hide Fits, Visible, Styled, TrimSpace;
    LabelFits();
    var prompt := StyleLabel("goflow");
    if runtime.Some? {
      TagIsPrintable(runtime.value);
      StyledFits(prompt, [DIM], Tag(runtime.value));
      prompt := prompt + StyleMuted(Tag(runtime.value));
    }
    StyledFits(prompt, [DIM], ">");
    PlainFits(prompt + StyleMuted(">"), " ");
  }

  lemma LabelFits()
    ensures Fits(StyleLabel("goflow")) && Visible(StyleLabel("goflow")) == "goflow"
  {
    hide Styled;
    StyledFits("", [BOLD, CYAN], "goflow");
    assert "" + StyleLabel("goflow") == StyleLabel("goflow");
  }

  lemma TagIsPrintable(runtime: Runtime)
    requires RuntimeOk(Some(runtime))
    ensures Printable(Tag(runtime))
  {
    hide TrimSpace;
  }
}
