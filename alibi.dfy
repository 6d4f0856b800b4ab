/**
 * The alibi page: a situation fills `ALIBI_PROMPT`, the payload after a
 * "```json\n" fence is stripped of newlines and backslashes, and whatever
 * the parser returns is stored as the alibi.
 */
module Alibi {
  import opened JsString
  import opened Cleanup
  import opened Pipeline

  // The head is written in short pieces so that the verifier can check
  // which characters it holds piece by piece.
  const AlibiHead: string :=
    "You are a " + "creative alibi " + "generator that " + "helps people " + "explain awkward " +
    "situations. " + "Given the " + "situation: \'"
  const AlibiTail: string :=
    "\', generate:\n" +
    "1. A detailed, believable story (2-3 paragraphs)\n" +
    "2. 3-4 specific details to make it more convincing\n" +
    "3. A list of potential \"evidence\" that could support the story (like screenshots, receipts, etc.)\n" +
    "4. A short one-liner excuse for quick responses\n" +
    "\n" +
    "Format the response as a JSON object with keys:\n" +
    "{\n" +
    "  \"story\": \"detailed story here\",\n" +
    "  \"details\": [\"detail1\", \"detail2\", \"detail3\"],\n" +
    "  \"evidence\": [\"evidence1\", \"evidence2\", \"evidence3\"],\n" +
    "  \"quickExcuse\": \"short excuse here\"\n" +
    "}\n" +
    "\n" +
    "Make the story modern, relatable, and include realistic tech-related elements when appropriate."

  const SituationSlot: string := "{situation}"

  /** `ALIBI_PROMPT`: a single `{situation}` between the head and the tail. */
  const AlibiTemplate: string := AlibiHead + SituationSlot + AlibiTail

  const AlibiFailed: string := "Failed to generate alibi. Please try again."

  /** The prompt sent for a situation: the first `{situation}` of the template replaced. */
  function AlibiPrompt(situation: string): string {
    ReplaceFirst(AlibiTemplate, SituationSlot, situation)
  }

  lemma HeadFree()
    ensures '{' !in AlibiHead
  {
    assert '{' !in "You are a ";
    assert '{' !in "creative alibi ";
    assert '{' !in "generator that ";
    assert '{' !in "helps people ";
    assert '{' !in "explain awkward ";
    assert '{' !in "situations. ";
    assert '{' !in "Given the ";
    assert '{' !in "situation: \'";
  }

  /**
   * The situation lands between the head and the tail, the tail's braces
   * untouched; `$` patterns in it are expanded, and a situation without
   * `$` appears as typed.
   */
  lemma AlibiPromptShape(situation: string)
    ensures AlibiPrompt(situation) ==
            AlibiHead + Expand(situation, SituationSlot, AlibiHead, AlibiTail) + AlibiTail
    ensures '$' !in situation ==> AlibiPrompt(situation) == AlibiHead + situation + AlibiTail
  {
    HeadFree();
    FillSlot(AlibiHead, SituationSlot, AlibiTail, situation);
  }

  /** The alibi page's state: the situation, the busy flag, the alibi and the error. */
  class AlibiPage {
    var situation: string
    var isGenerating: bool
    var alibi: Json
    var error: string

    /** Between runs the page is idle, and the only error it shows is the fixed one. */
    predicate Valid()
      reads this
    {
      !isGenerating && (error == "" || error == AlibiFailed) && (error != "" ==> alibi == JNull)
    }

    /**
     * The state a run leaves behind: the parsed value on success, and on
     * any failure `null` with the fixed message.
     */
    predicate Settled(c: Completion, parse: string -> ParseResult)
      reads this
    {
      var o := PlainOutcome(c, parse);
      !isGenerating &&
      alibi == (if o.Success? then o.value else JNull) &&
      error == (if o.Success? then "" else AlibiFailed)
    }

    constructor()
      ensures situation == "" && !isGenerating && alibi == JNull && error == ""
      ensures Valid()
    {
      situation := "";
      isGenerating := false;
      alibi := JNull;
      error := "";
    }

    method SetSituation(s: string)
      modifies this
      ensures situation == s
      ensures unchanged(`isGenerating, `alibi, `error)
      ensures old(Valid()) ==> Valid()
    {
      situation := s;
    }

    /**
     * One run: clear the error and the alibi, raise the busy flag, send
     * the prompt, then store the parsed value or the fixed message and
     * lower the flag. The prompt is built from the situation, which the
     * resets leave alone.
     */
    method Generate(c: Completion, parse: string -> ParseResult) returns (prompt: string)
      modifies this
      ensures prompt == AlibiPrompt(old(situation))
      ensures unchanged(`situation)
      ensures Settled(c, parse) && Valid()
    {
      prompt := AlibiPrompt(situation);
      Settle(c, parse);
    }

    /**
     * The state changes of a run: the resets, then, once the request has
     * settled as `c`, the outcome and the lowered flag.
     */
    method Settle(c: Completion, parse: string -> ParseResult)
      modifies this
      ensures unchanged(`situation)
      ensures Settled(c, parse) && Valid()
    {
      error := "";
      isGenerating := true;
      alibi := JNull;
      match PlainOutcome(c, parse) {
        case Success(v) =>
          alibi := v;
        case Failure(_) =>
          error := AlibiFailed;
      }
      isGenerating := false;
    }

    /** Submitting the form: a situation that trims to nothing starts no run. */
    method HandleSubmit(c: Completion, parse: string -> ParseResult) returns (sent: Option<string>)
      modifies this
      ensures Trim(old(situation)) == "" ==> sent == None && unchanged(this)
      ensures Trim(old(situation)) != "" ==> sent == Some(AlibiPrompt(old(situation)))
      ensures Trim(old(situation)) != "" ==> Settled(c, parse) && Valid()
      ensures unchanged(`situation)
      ensures old(Valid()) ==> Valid()
    {
      if Trim(situation) == "" {
        return None;
      }
      var prompt := Generate(c, parse);
      sent := Some(prompt);
    }
  }
}
