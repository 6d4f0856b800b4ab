/**
 * The reply page: a message and a tone fill `REPLY_PROMPT`, the reply text
 * goes through the long cleanup chain, and the parsed value must carry an
 * array under `replies`.
 */
module Replycraft {
  import opened JsString
  import opened Cleanup
  import opened Pipeline

  /** The seven tones a reply can take. */
  datatype Tone =
    | PassiveAggressive
    | Humorous
    | Sarcastic
    | Savage
    | TechSavvy
    | HighIq
    | Peacemaker

  /** `TONES[tone].label`, the text put in place of `{tone}`. */
  function Label(t: Tone): (r: string)
    ensures r != "" && '$' !in r
  {
    match t
    case PassiveAggressive => "Passive-Aggressive"
    case Humorous => "Humorous"
    case Sarcastic => "Sarcastic"
    case Savage => "Savage Roast"
    case TechSavvy => "Tech Savvy"
    case HighIq => "High Context IQ"
    case Peacemaker => "Peacemaker"
  }

  // The head and middle are written in short pieces so that the verifier
  // can check which characters they hold piece by piece.
  const ReplyHead: string :=
    "You are an " + "expert in " + "crafting " + "perfect replies " + "with different " +
    "tones. Given " + "this message/" + "email:\n\n\""
  const ReplyMid: string := "\"\n\nGenerate " + "3 different " + "clever replies " + "in the \""
  const ReplyTail: string :=
    "\" tone. Each reply should be different in approach but maintain the same tone. Consider the context and social dynamics.\n" +
    "\n" +
    "Format your response as a JSON array of objects:\n" +
    "{\n" +
    "  \"replies\": [\n" +
    "    {\n" +
    "      \"reply\": \"the reply text\"\n" +
    "    }\n" +
    "  ]\n" +
    "}\n" +
    "\n" +
    "Make the replies creative, contextual, and true to the selected tone."

  /** Everything after the `{message}` placeholder. */
  const ReplyRest: string := ReplyMid + "{tone}" + ReplyTail

  /** `REPLY_PROMPT`: one `{message}` and, after it, one `{tone}`. */
  const ReplyTemplate: string := ReplyHead + "{message}" + ReplyRest

  const MessageSlot: string := "{message}"
  const ToneSlot: string := "{tone}"

  /**
   * The prompt sent for a message and tone: the first `{message}` of the
   * template is replaced, then the first `{tone}` of that result.
   */
  function ReplyPrompt(message: string, tone: Tone): string {
    ReplaceFirst(ReplaceFirst(ReplyTemplate, MessageSlot, message), ToneSlot, Label(tone))
  }

  /**
   * The text the message becomes inside the prompt: the message itself,
   * with `$` patterns expanded against the template around the slot.
   */
  function Inserted(message: string): string {
    Expand(message, MessageSlot, ReplyHead, ReplyRest)
  }

  /** A message without `$` is inserted as typed. */
  lemma InsertedPlain(message: string)
    requires '$' !in message
    ensures Inserted(message) == message
  {
    ExpandPlain(message, MessageSlot, ReplyHead, ReplyRest);
  }

  /** No placeholder starts in the fixed text before either slot. */
  lemma SlotsFree()
    ensures '{' !in ReplyHead && '{' !in ReplyMid
  {
    HeadFree();
    MidFree();
  }

  lemma HeadFree()
    ensures '{' !in ReplyHead
  {
    assert '{' !in "You are an ";
    assert '{' !in "expert in ";
    assert '{' !in "crafting ";
    assert '{' !in "perfect replies ";
    assert '{' !in "with different ";
    assert '{' !in "tones. Given ";
    assert '{' !in "this message/";
    assert '{' !in "email:\n\n\"";
  }

  lemma MidFree()
    ensures '{' !in ReplyMid
  {
    assert '{' !in "\"\n\nGenerate ";
    assert '{' !in "3 different ";
    assert '{' !in "clever replies ";
    assert '{' !in "in the \"";
  }

  /** The first step puts the message between the head and the rest. */
  lemma MessageStep(message: string)
    ensures ReplaceFirst(ReplyTemplate, MessageSlot, message) == ReplyHead + Inserted(message) + ReplyRest
  {
    SlotsFree();
    ReplaceAfterHead(ReplyHead, MessageSlot, ReplyRest, message);
  }

  /**
   * A `{tone}` inside the inserted message comes first, so that one is
   * replaced and the template's own `{tone}` stays in the prompt.
   */
  lemma ReplyPromptToneInMessage(message: string, tone: Tone)
    requires Contains(Inserted(message), ToneSlot)
    ensures ReplyPrompt(message, tone) ==
            ReplyHead + ReplaceFirst(Inserted(message), ToneSlot, Label(tone)) + ReplyRest
  {
    MessageStep(message);
    SlotsFree();
    ReplaceFirstInSplice(ReplyHead, Inserted(message), ReplyRest, ToneSlot, Label(tone));
  }

  /** Otherwise the template's `{tone}` is the one replaced by the label. */
  lemma ReplyPromptPlain(message: string, tone: Tone)
    requires !Contains(Inserted(message), ToneSlot)
    ensures ReplyPrompt(message, tone) == ReplyHead + Inserted(message) + ReplyMid + Label(tone) + ReplyTail
  {
    MessageStep(message);
    SlotsFree();
    assert ReplyMid[0] == '"' && ToneSlot[1..] == "tone}";
    ReplaceFirstAfterSplice(ReplyHead, Inserted(message), ReplyMid, ReplyTail, ToneSlot, Label(tone));
  }

  const NullReplies: string := "Cannot read properties of null (reading 'replies')"
  const InvalidFormat: string := "Invalid response format"
  const ReplyFallback: string := "Failed to generate replies. Please try again."

  /** The parsed value has an array under `replies`. */
  predicate HasReplies(v: Json) {
    v.JObject? && "replies" in v.members && v.members["replies"].JArray?
  }

  /**
   * The shape check: reading `replies` off `null` throws a `TypeError`; any
   * other value without an array there fails as an invalid format.
   */
  function RepliesOf(v: Json): (r: Outcome<seq<Json>>)
    ensures r.Success? <==> HasReplies(v)
    ensures r.Success? ==> r.value == v.members["replies"].items
    ensures r.Failure? ==> r.thrown == ErrorValue(if v == JNull then NullReplies else InvalidFormat)
  {
    match v
    case JNull => Failure(ErrorValue(NullReplies))
    case JObject(members) =>
      if "replies" in members && members["replies"].JArray? then Success(members["replies"].items)
      else Failure(ErrorValue(InvalidFormat))
    case _ => Failure(ErrorValue(InvalidFormat))
  }

  /** The text handed to `JSON.parse`: the extracted payload after the full cleanup. */
  function ReplyPayload(text: string): (r: string)
    ensures Trimmed(r) && OnlyPlainSpaces(r)
  {
    CleanReplyJson(ExtractReplyJson(text))
  }

  /**
   * The rest of the `try` block once the payload is clean: parse it and
   * check the shape. Every failure carries an `Error`, and only a
   * `SyntaxError` can carry an empty message.
   */
  function RepliesFrom(parse: string -> ParseResult, payload: string): (r: Outcome<seq<Json>>)
    ensures r.Success? <==> parse(payload).Parsed? && HasReplies(parse(payload).value)
    ensures r.Success? ==> r.value == parse(payload).value.members["replies"].items
    ensures parse(payload).SyntaxError? ==> r == Failure(ErrorValue(parse(payload).message))
    ensures r.Failure? ==> r.thrown.ErrorValue?
    ensures r == Failure(ErrorValue("")) ==> parse(payload) == SyntaxError("")
  {
    match ParseWith(parse, payload)
    case Failure(t) => Failure(t)
    case Success(v) => RepliesOf(v)
  }

  /**
   * The `try` block of a reply run after the request settles: it succeeds
   * exactly when there is reply text, the parser accepts its payload and
   * the parsed value has an array of replies, which is the result.
   */
  function ReplyOutcome(c: Completion, parse: string -> ParseResult): (r: Outcome<seq<Json>>)
    ensures c.Rejected? ==> r == Failure(c.reason)
    ensures c == Delivered(None) || c == Delivered(Some("")) ==> r == Failure(ErrorValue(NoResponse))
    ensures r.Success? <==>
      c.Delivered? && c.content.Some? && c.content.value != "" &&
      parse(ReplyPayload(c.content.value)).Parsed? && HasReplies(parse(ReplyPayload(c.content.value)).value)
    ensures r.Success? ==> r.value == parse(ReplyPayload(c.content.value)).value.members["replies"].items
    ensures (c.Delivered? && c.content.Some? && c.content.value != "" &&
             parse(ReplyPayload(c.content.value)).SyntaxError?) ==>
      r == Failure(ErrorValue(parse(ReplyPayload(c.content.value)).message))
    ensures r == Failure(ErrorValue("")) ==>
      c == Rejected(ErrorValue("")) ||
      (c.Delivered? && c.content.Some? && parse(ReplyPayload(c.content.value)) == SyntaxError(""))
  {
    match Received(c)
    case Failure(t) => Failure(t)
    case Success(text) => RepliesFrom(parse, ReplyPayload(text))
  }

  /** The `catch` block's message: an `Error`'s own message, else the fixed fallback. */
  function ErrorText(t: Thrown): (r: string)
    ensures t.ErrorValue? ==> r == t.message
    ensures r == "" <==> t == ErrorValue("")
  {
    match t
    case ErrorValue(m) => m
    case OtherValue => ReplyFallback
  }

  /** The reply page's state: the form fields, the busy flag, the replies and the error. */
  class ReplyCraftPage {
    var message: string
    var selectedTone: Tone
    var isGenerating: bool
    var replies: Option<seq<Json>>
    var error: string

    /** Between runs the page is idle, and replies are only ever shown with no error. */
    predicate Valid()
      reads this
    {
      !isGenerating && (replies.Some? ==> error == "")
    }

    /** The state a run leaves behind, given how its request settled. */
    predicate Settled(c: Completion, parse: string -> ParseResult)
      reads this
    {
      var o := ReplyOutcome(c, parse);
      !isGenerating &&
      replies == (if o.Success? then Some(o.value) else None) &&
      error == (if o.Success? then "" else ErrorText(o.thrown))
    }

    constructor()
      ensures message == "" && selectedTone == PassiveAggressive
      ensures !isGenerating && replies == None && error == ""
      ensures Valid()
    {
      message := "";
      selectedTone := PassiveAggressive;
      isGenerating := false;
      replies := None;
      error := "";
    }

    method SetMessage(m: string)
      modifies this
      ensures message == m
      ensures unchanged(`selectedTone, `isGenerating, `replies, `error)
      ensures old(Valid()) ==> Valid()
    {
      message := m;
    }

    method SelectTone(t: Tone)
      modifies this
      ensures selectedTone == t
      ensures unchanged(`message, `isGenerating, `replies, `error)
      ensures old(Valid()) ==> Valid()
    {
      selectedTone := t;
    }

    /**
     * One run: clear the error and the replies, raise the busy flag, send
     * the prompt, then store the replies or the error and lower the flag.
     * The prompt is built from the form fields, which the resets leave alone.
     */
    method Generate(c: Completion, parse: string -> ParseResult) returns (prompt: string)
      modifies this
      ensures prompt == ReplyPrompt(old(message), old(selectedTone))
      ensures unchanged(`message, `selectedTone)
      ensures Settled(c, parse) && Valid()
    {
      prompt := ReplyPrompt(message, selectedTone);
      Settle(c, parse);
    }

    /**
     * The state changes of a run: the resets, then, once the request has
     * settled as `c`, the outcome and the lowered flag.
     */
    method Settle(c: Completion, parse: string -> ParseResult)
      modifies this
      ensures unchanged(`message, `selectedTone)
      ensures Settled(c, parse) && Valid()
    {
      error := "";
      isGenerating := true;
      replies := None;
      match ReplyOutcome(c, parse) {
        case Success(items) =>
          replies := Some(items);
        case Failure(t) =>
          error := ErrorText(t);
      }
      isGenerating := false;
    }

    /** Submitting the form: a message that trims to nothing starts no run. */
    method HandleSubmit(c: Completion, parse: string -> ParseResult) returns (sent: Option<string>)
      modifies this
      ensures Trim(old(message)) == "" ==> sent == None && unchanged(this)
      ensures Trim(old(message)) != "" ==> sent == Some(ReplyPrompt(old(message), old(selectedTone)))
      ensures Trim(old(message)) != "" ==> Settled(c, parse) && Valid()
      ensures unchanged(`message, `selectedTone)
      ensures old(Valid()) ==> Valid()
    {
      if Trim(message) == "" {
        return None;
      }
      var prompt := Generate(c, parse);
      sent := Some(prompt);
    }
  }
}
