/**
 * The overthinking page: the selected mode picks one of three templates,
 * the situation fills it, and the parsed value is stored as the list of
 * interpretations, unchecked.
 */
module Overthink {
  import opened JsString
  import opened Cleanup
  import opened Pipeline

  /** The three keys of `PROMPTS`. */
  datatype Mode = Humor | Serious | Ai

  // The heads are written in short pieces so that the verifier can check
  // which characters they hold piece by piece.

  /** The text of `PROMPTS[mode]` before its `{situation}`. */
  function Head(mode: Mode): string {
    match mode
    case Humor =>
      "You are a " + "GenZ overthinking " + "expert with " + "a great sense " + "of humor. " +
      "Given this " + "situation: \'"
    case Serious =>
      "You are a " + "thoughtful " + "analyst. " + "Given this " + "situation: \'"
    case Ai =>
      "You are an " + "AI analyzer " + "using technical " + "language. " + "Given this " + "situation: \'"
  }

  /** The text of `PROMPTS[mode]` after its `{situation}`. */
  function Tail(mode: Mode): string {
    match mode
    case Humor =>
      "\', generate 10 funny, overthought interpretations. " +
      "Make them witty and include emojis. " +
      "Format as a JSON array of strings."
    case Serious =>
      "\', generate 10 serious, psychological interpretations of what it might mean. " +
      "Consider social dynamics, mental states, and communication patterns. " +
      "Format as a JSON array of strings."
    case Ai =>
      "\', generate 10 data-driven, technical analyses with made-up statistics and ML terminology. " +
      "Include confidence scores and technical jargon. " +
      "Format as a JSON array of strings."
  }

  const SituationSlot: string := "{situation}"

  /** `PROMPTS[mode]`: one `{situation}` between the mode's head and tail. */
  function Template(mode: Mode): string {
    Head(mode) + SituationSlot + Tail(mode)
  }

  const OverthinkFailed: string := "Failed to generate interpretations. Please try again."

  /** The prompt sent: the first `{situation}` of the mode's template replaced. */
  function OverthinkPrompt(mode: Mode, situation: string): string {
    ReplaceFirst(Template(mode), SituationSlot, situation)
  }

  lemma HeadFree(mode: Mode)
    ensures '{' !in Head(mode)
  {
    match mode
    case Humor =>
      assert '{' !in "You are a ";
      assert '{' !in "GenZ overthinking ";
      assert '{' !in "expert with ";
      assert '{' !in "a great sense ";
      assert '{' !in "of humor. ";
      assert '{' !in "Given this ";
      assert '{' !in "situation: \'";
    case Serious =>
      assert '{' !in "You are a ";
      assert '{' !in "thoughtful ";
      assert '{' !in "analyst. ";
      assert '{' !in "Given this ";
      assert '{' !in "situation: \'";
    case Ai =>
      assert '{' !in "You are an ";
      assert '{' !in "AI analyzer ";
      assert '{' !in "using technical ";
      assert '{' !in "language. ";
      assert '{' !in "Given this ";
      assert '{' !in "situation: \'";
  }

  /**
   * Whatever the mode, the situation lands between that mode's head and
   * tail; `$` patterns in it are expanded, and a situation without `$`
   * appears as typed.
   */
  lemma OverthinkPromptShape(mode: Mode, situation: string)
    ensures OverthinkPrompt(mode, situation) ==
            Head(mode) + Expand(situation, SituationSlot, Head(mode), Tail(mode)) + Tail(mode)
    ensures '$' !in situation ==> OverthinkPrompt(mode, situation) == Head(mode) + situation + Tail(mode)
  {
    HeadFree(mode);
    FillSlot(Head(mode), SituationSlot, Tail(mode), situation);
  }

  /** A JSON array of three one-letter strings, as text. */
  const ArrayText: string := "[\"a\",\"b\",\"c\"]"

  /** That array in a "```json" block on lines of its own. */
  const FencedArray: string := JsonFenceLine + ArrayText + "\n" + Fence

  /** The newline ends the payload and no earlier backtick can start a fence. */
  lemma ArrayUpToFence()
    ensures Before(ArrayText + "\n" + Fence, Fence) == ArrayText + "\n"
    ensures !Contains(ArrayText + "\n" + Fence, "`" + JsonFenceLine)
  {
    var w := ArrayText + "\n";
    var u := w + Fence;
    assert '`' !in w;
    NoEarlyMatchByFirstChar(w, Fence, Fence);
    assert u[|w|..|w| + 3] == Fence;
    IndexOfIsFirst(u, Fence, |w|);
    assert u[..|w|] == w;
    var p := "`" + JsonFenceLine;
    NoEarlyMatchByFirstChar(w, Fence, p);
    assert forall j: nat :: !OccursAt(u, p, j);
  }

  /** The block's payload is the array line. */
  lemma FencedArrayPayload()
    ensures ExtractFencedJson(FencedArray) == Some(ArrayText + "\n")
  {
    var u := ArrayText + "\n" + Fence;
    assert FencedArray == JsonFenceLine + u;
    assert FencedArray[..|JsonFenceLine|] == JsonFenceLine;
    IndexOfIsFirst(FencedArray, JsonFenceLine, 0);
    assert FencedArray[|JsonFenceLine|..] == u;
    ArrayUpToFence();
    FencedJsonLine(FencedArray);
  }

  /** The array text is already clean. */
  lemma ArrayTextClean()
    ensures Avoids(ArrayText, {'\n', '\\'}) && Trimmed(ArrayText)
  {
    assert !IsSpace('[') && !IsSpace(']');
  }

  /**
   * A reply holding a fenced array of strings is parsed as the bare array,
   * and the run stores exactly what the parser returns for it.
   */
  lemma FencedArrayRun(parse: string -> ParseResult, v: Json)
    requires parse(ArrayText) == Parsed(v)
    ensures PlainOutcome(Delivered(Some(FencedArray)), parse) == Success(v)
  {
    FencedArrayPayload();
    ArrayTextClean();
    CleanPlainLine(ArrayText);
  }

  /** The overthinking page's state: the form, the busy flag, the interpretations and the error. */
  class OverthinkPage {
    var situation: string
    var mode: Mode
    var isThinking: bool
    var interpretations: Json
    var error: string

    /** Between runs the page is idle, and the only error it shows is the fixed one. */
    predicate Valid()
      reads this
    {
      !isThinking && (error == "" || error == OverthinkFailed) &&
      (error != "" ==> interpretations == JArray([]))
    }

    /**
     * The state a run leaves behind: the parsed value on success, and on
     * any failure the empty list with the fixed message.
     */
    predicate Settled(c: Completion, parse: string -> ParseResult)
      reads this
    {
      var o := PlainOutcome(c, parse);
      !isThinking &&
      interpretations == (if o.Success? then o.value else JArray([])) &&
      error == (if o.Success? then "" else OverthinkFailed)
    }

    constructor()
      ensures situation == "" && mode == Humor && !isThinking
      ensures interpretations == JArray([]) && error == ""
      ensures Valid()
    {
      situation := "";
      mode := Humor;
      isThinking := false;
      interpretations := JArray([]);
      error := "";
    }

    method SetSituation(s: string)
      modifies this
      ensures situation == s
      ensures unchanged(`mode, `isThinking, `interpretations, `error)
      ensures old(Valid()) ==> Valid()
    {
      situation := s;
    }

    method SetMode(m: Mode)
      modifies this
      ensures mode == m
      ensures unchanged(`situation, `isThinking, `interpretations, `error)
      ensures old(Valid()) ==> Valid()
    {
      mode := m;
    }

    /**
     * One run: clear the error and the list, raise the busy flag, send the
     * prompt, then store the parsed value or the fixed message and lower
     * the flag. The prompt is built from the form, which the resets leave
     * alone.
     */
    method Generate(c: Completion, parse: string -> ParseResult) returns (prompt: string)
      modifies this
      ensures prompt == OverthinkPrompt(old(mode), old(situation))
      ensures unchanged(`situation, `mode)
      ensures Settled(c, parse) && Valid()
    {
      prompt := OverthinkPrompt(mode, situation);
      Settle(c, parse);
    }

    /**
     * The state changes of a run: the resets, then, once the request has
     * settled as `c`, the outcome and the lowered flag.
     */
    method Settle(c: Completion, parse: string -> ParseResult)
      modifies this
      ensures unchanged(`situation, `mode)
      ensures Settled(c, parse) && Valid()
    {
      error := "";
      isThinking := true;
      interpretations := JArray([]);
      match PlainOutcome(c, parse) {
        case Success(v) =>
          interpretations := v;
        case Failure(_) =>
          error := OverthinkFailed;
      }
      isThinking := false;
    }

    /** Submitting the form: a situation that trims to nothing starts no run. */
    method HandleSubmit(c: Completion, parse: string -> ParseResult) returns (sent: Option<string>)
      modifies this
      ensures Trim(old(situation)) == "" ==> sent == None && unchanged(this)
      ensures Trim(old(situation)) != "" ==> sent == Some(OverthinkPrompt(old(mode), old(situation)))
      ensures Trim(old(situation)) != "" ==> Settled(c, parse) && Valid()
      ensures unchanged(`situation, `mode)
      ensures old(Valid()) ==> Valid()
    {
      if Trim(situation) == "" {
        return None;
      }
      var prompt := Generate(c, parse);
      sent := Some(prompt);
    }
  }
}
