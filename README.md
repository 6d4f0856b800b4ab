# The prompt-to-JSON pipeline of the three generator pages

The application has three pages:

- **replycraft**: crafts replies to a message in one of seven tones.
- **alibi**: invents an alibi for a situation.
- **overthink**: offers ten interpretations of a situation in one of three modes.

Each page runs the same pipeline when its form is submitted:

1. The input is trimmed. If nothing is left, the page does nothing.
2. The page clears its error and its previous result and raises its busy flag.
3. It fills a prompt template with `String.prototype.replace`.
4. It sends the prompt to the Groq chat-completion service.
5. It takes the JSON payload out of a Markdown code fence in the reply.
6. It cleans the payload with a chain of regular-expression replacements and a trim.
7. It hands the result to `JSON.parse`.
   - The reply page also checks that the value has an array under `replies`.
   - The other two pages store whatever the parser returns.
8. It stores the result or an error message and lowers the busy flag.

This project models that pipeline as it is written.

- **`JsString`**: the JavaScript string built-ins the pages use.
  - `includes` becomes `Contains`/`IndexOf`.
  - A `replace` with a string pattern changes only the first occurrence. Its `$$`, `$&`, `` $` `` and `$'` substitution patterns are expanded; `$n` and `$<name>` stay literal because a string pattern has no captures.
  - `split(sep)[k]` is `SplitAt`. It gives `None` where JavaScript gives `undefined`.
  - `trim` and `\s` use the code points of the ECMAScript WhiteSpace and LineTerminator productions.
- **`Cleanup`**: the two cleanup chains, with each global regular expression written as a left-to-right, non-overlapping rewrite.
  - The reply page uses the long chain.
  - The other pages delete every `\n` and every `\` and then trim.
- **`Pipeline`**: what the pages share.
  - A `Json` value type.
  - How the request settles (`Completion`).
  - The two fence extractions.
  - The outcome of the alibi and overthink `try` blocks.
- **`Replycraft`**, **`Alibi`**, **`Overthink`**: one module per page.
  - The page's prompt template.
  - A class holding the page's React state.
  - `Generate`: one run of the page's `generate…` function.
  - `HandleSubmit`: the form's submit handler with its trim guard.
  - `Valid()`: the page's invariant between submissions. The busy flag is down, and an error goes with an empty result (the fixed failure message on the alibi and overthink pages). The constructor establishes it and every method keeps it.

The network call is not modelled. How it settled is an input, a `Completion`: the reply text (absent, or a string), or the value the call rejected with. `JSON.parse` is the parameter `parse`: a function from text to a value or a `SyntaxError` message. `Generate` runs a whole submission in one step, from the resets to the `finally` block, and returns the prompt it sent; `Settle` holds its state changes.

The model follows what the code does, including these behaviours a reader might not expect:

- **Placeholders.** The prompt is filled by first-occurrence replacement. Nothing checks that placeholders are filled. A `{tone}` typed into the message is replaced in place of the template's own `{tone}` (`Replycraft.ReplyPromptToneInMessage`).
- **Unclosed fence.** An opening fence with no closing fence does not fail. The rest of the text is taken.
- **Cleanup order.** The cleanup order differs between pages. The alibi and overthink pages do not collapse whitespace. Their blanket backslash deletion also removes the backslash of `\"`.
- **No shape check on two pages.** The alibi and overthink pages do not check the parsed value. An object such as `{"story":"x"}` is stored as the overthink page's interpretations.
- **Missing newline after the fence.** A reply containing "```json" with no newline right after it makes the alibi and overthink pages read `.split` of `undefined`. That throws a `TypeError`, which the pages show as their fixed failure message.
- **Trailing backtick on the reply page.** Its extraction splits on "```json" and then on "```". The payload differs from "the text up to the next ```" only when that next "```" starts one or two characters before a later "```json", as part of a longer backtick run such as "````json". The payload then keeps the extra backticks. `Pipeline.ReplyJsonOverlap` gives such an input. A stray "````json" further on, after an earlier "```", changes nothing.

## Model

| member | source | states |
|---|---|---|
| JsString.IndexFrom | src/app/replycraft/page.tsx:137 | the first index at or after `k` where the pattern occurs, with no occurrence between `k` and it; `None` exactly when there is no occurrence from `k` on |
| JsString.IndexOf | src/app/replycraft/page.tsx:137 | `includes`/`indexOf`: the least index where the pattern occurs; `None` exactly when it occurs nowhere |
| JsString.Contains | src/app/replycraft/page.tsx:137 | `includes` (also at replycraft/page.tsx:139 and alibi/page.tsx:70): true exactly when the pattern occurs at some index |
| JsString.IndexOfIsFirst | src/app/replycraft/page.tsx:137 | an occurrence with no earlier one is the index found |
| JsString.ContainsWhenOccurs | src/app/replycraft/page.tsx:137 | an occurrence anywhere makes `includes` true, at or before it |
| JsString.ReplaceFirst | src/app/replycraft/page.tsx:122-124 | `replace` with a string pattern: a text without the pattern is returned unchanged |
| JsString.ExpandPlain | src/app/replycraft/page.tsx:123 | a replacement without `$` is inserted exactly as given |
| JsString.ReplaceFirstAt | src/app/replycraft/page.tsx:123 | with the first match at `i`, the result is the text before it, the replacement, and the text after the match |
| JsString.ReplaceAfterHead | src/app/replycraft/page.tsx:123 | a slot preceded by text that cannot start it is the one replaced; its `$` patterns are expanded against the text around it |
| JsString.ReplaceFirstSkip | src/app/replycraft/page.tsx:124 | a prefix with no match starting in it is carried through unchanged |
| JsString.ReplaceFirstWithin | src/app/replycraft/page.tsx:124 | a match inside a prefix is the one replaced; the suffix is untouched |
| JsString.ReplaceFirstInSplice | src/app/replycraft/page.tsx:124 | a pattern inside an inserted piece is replaced there, and the text around the piece is untouched |
| JsString.ReplaceFirstAfterSplice | src/app/replycraft/page.tsx:124 | with no pattern inside the inserted piece, the template's own slot after it is the one replaced |
| JsString.FillSlot | src/app/alibi/page.tsx:58 | filling a template's single slot puts the (expanded) text between the template's head and tail |
| JsString.Expand | src/app/replycraft/page.tsx:123 | the replacement text of a string-pattern `replace`: `$$` gives `$`, `$&` the match, `` $` `` the text before it, `$'` the text after it, and any other two-character `$` pattern stays literal; ExpandPlain: no `$` means the text is inserted as given |
| JsString.Split | src/app/replycraft/page.tsx:138 | `split` gives at least one piece, and no piece contains the separator |
| JsString.SplitJoin | src/app/replycraft/page.tsx:138 | joining the pieces with the separator gives back the text |
| JsString.SplitPieceIsSubstring | src/app/replycraft/page.tsx:138 | every piece is a contiguous part of the text |
| JsString.Before | src/app/replycraft/page.tsx:138 | `split(sep)[0]`: a prefix free of the separator; when the separator occurs, its length is the index of the first occurrence; otherwise the whole text |
| JsString.After | src/app/replycraft/page.tsx:138 | the text is the part before the first separator, the separator and this rest |
| JsString.SplitAt | src/app/replycraft/page.tsx:138 | `[0]` is the text before the first separator; `[1]` is defined exactly when the separator occurs, and it is the text between the first and second occurrence; every piece is part of the text |
| JsString.Trim | src/app/replycraft/page.tsx:154 | `trim` gives no longer text with no whitespace at either end; it is the slice of the input after the leading whitespace run, and everything cut off after it is whitespace, so only the two ends are cut; trimmed text is unchanged |
| JsString.TrimAvoids | src/app/replycraft/page.tsx:154 | trimming adds no characters |
| JsString.TrimKeepsText | src/app/replycraft/page.tsx:154 | trimming deletes whitespace only |
| JsString.Remove | src/app/alibi/page.tsx:76-77 | a global character-class replacement by nothing never lengthens the text |
| JsString.RemoveDeletes | src/app/alibi/page.tsx:76-77 | no character of the class is left |
| JsString.RemoveNothing | src/app/alibi/page.tsx:76-77 | text without such a character is unchanged |
| JsString.RemoveAvoids | src/app/alibi/page.tsx:76-77 | deleting characters introduces no character |
| JsString.RemoveConcat | src/app/alibi/page.tsx:76-77 | deletion works piece by piece over a concatenation |
| JsString.RemoveOnly | src/app/alibi/page.tsx:76-77 | text made only of deleted characters becomes empty |
| JsString.RemoveRemove | src/app/alibi/page.tsx:76-77 | deleting one class and then another is deleting both at once |
| JsString.RemoveCommutes | src/app/alibi/page.tsx:76-77 | the order of two deletion steps does not matter |
| Cleanup.PunctuationIsNotSpace | src/app/replycraft/page.tsx:147-152 | the characters the gap rewrites look for are not whitespace |
| Cleanup.CollapseSpaces | src/app/replycraft/page.tsx:146 | `/\s+/g` by one space: no longer; every whitespace left is a plain space; empty exactly when the input is; no two spaces in a row |
| Cleanup.CollapseKeepsText | src/app/replycraft/page.tsx:146 | collapsing changes whitespace only |
| Cleanup.CollapseRun | src/app/replycraft/page.tsx:146 | a non-empty whitespace run between two non-blank neighbours becomes exactly one space, and the text on either side is collapsed on its own |
| Cleanup.DropGap | src/app/replycraft/page.tsx:147-152 | removing the whitespace between two given punctuation marks never lengthens the text and keeps its first character; DropGapIsPositionwise pins the result |
| Cleanup.DropGapKeepsText | src/app/replycraft/page.tsx:147-152 | it deletes whitespace only |
| Cleanup.DropGapAvoids | src/app/replycraft/page.tsx:147-152 | it adds no character |
| Cleanup.DropGapLead | src/app/replycraft/page.tsx:147-152 | the leading whitespace run and the character after it are copied |
| Cleanup.DropGapClears | src/app/replycraft/page.tsx:147-152 | for two different marks, no first mark, whitespace run and second mark is left |
| Cleanup.DropGapKeepsNoGap | src/app/replycraft/page.tsx:147-152 | it creates no whitespace gap between any other pair of characters |
| Cleanup.DropGapKeepsNoSpaceBefore | src/app/replycraft/page.tsx:152 | it puts whitespace before no character |
| Cleanup.GapMarks | src/app/replycraft/page.tsx:147-152 | the reference reading of `/A\s+B/`: a position is marked exactly when it lies in a whitespace run that starts right after an `a` and ends right before a `b` |
| Cleanup.DropGapIsPositionwise | src/app/replycraft/page.tsx:147-152 | for two different marks, the left-to-right rewrite deletes exactly the marked positions; every other character, whitespace included, is kept in order |
| Cleanup.DropSpacesBefore | src/app/replycraft/page.tsx:151 | `/\s+{/g` by `{` never lengthens the text; a non-empty text gives a non-empty result starting with its own first character or `{`; DropSpacesBeforeIsPositionwise pins the result |
| Cleanup.DropSpacesBeforeKeepsText | src/app/replycraft/page.tsx:151 | it deletes whitespace only |
| Cleanup.DropSpacesBeforeAvoids | src/app/replycraft/page.tsx:151 | it adds no character |
| Cleanup.DropSpacesBeforeHead | src/app/replycraft/page.tsx:151 | a result starting with `{` comes from a text whose first non-blank character is `{` |
| Cleanup.DropSpacesBeforeLead | src/app/replycraft/page.tsx:151 | a leading whitespace run that survives is the input's own, and the character after it is copied |
| Cleanup.DropSpacesBeforeClears | src/app/replycraft/page.tsx:151 | no whitespace is left right before a `{` |
| Cleanup.DropSpacesBeforeKeepsNoGap | src/app/replycraft/page.tsx:151 | it creates no whitespace gap between any pair of characters |
| Cleanup.SpaceMarks | src/app/replycraft/page.tsx:151 | the reference reading of `/\s+{/`: a position is marked exactly when it lies in a whitespace run that ends right before a `{` |
| Cleanup.DropSpacesBeforeIsPositionwise | src/app/replycraft/page.tsx:151 | the left-to-right rewrite deletes exactly the marked positions; every other character, whitespace included, is kept in order |
| Cleanup.Unescape | src/app/replycraft/page.tsx:153 | `/\\([^"\\])/g` by `$1` never lengthens the text |
| Cleanup.UnescapeIsPositionwise | src/app/replycraft/page.tsx:153 | the left-to-right scan that resumes after each match drops exactly the backslashes whose next character is neither `"` nor `\`, judged position by position |
| Cleanup.UnescapeKeepsText | src/app/replycraft/page.tsx:153 | it deletes backslashes only |
| Cleanup.UnescapeAvoids | src/app/replycraft/page.tsx:153 | it adds no character |
| Cleanup.UnescapePlain | src/app/replycraft/page.tsx:153 | text without a backslash is unchanged |
| Cleanup.Tighten | src/app/replycraft/page.tsx:147-152 | the six gap rewrites in order never lengthen the text; TightenIsPositionwise pins the result |
| Cleanup.TightenKeepsPlain | src/app/replycraft/page.tsx:147-152 | they keep "every whitespace is a plain space" |
| Cleanup.TightenKeepsText | src/app/replycraft/page.tsx:147-152 | they delete whitespace only |
| Cleanup.TightenClears | src/app/replycraft/page.tsx:147-152 | none of the six patterns is left: no whitespace run between `"` and `}`, `}` and `,`, `"` and `,`, `,` and `"`, `{` and `"`, and none right before `{` |
| Cleanup.TightenIsPositionwise | src/app/replycraft/page.tsx:147-152 | the six rewrites in order are six position-wise deletions, each of the whitespace its pattern covers in what the step before left; nothing else is deleted |
| Cleanup.CleanReplyJson | src/app/replycraft/page.tsx:144-154 | the reply page's chain gives no longer, trimmed text whose only whitespace is plain spaces, so no `\n`, `\r` or `\t` is left |
| Cleanup.CleanReplyKeepsText | src/app/replycraft/page.tsx:144-154 | the chain deletes only whitespace and backslashes: what else is left is the payload's other characters in order |
| Cleanup.CleanPlainJson | src/app/alibi/page.tsx:75-78 | the short chain gives no longer, trimmed text with no newline and no backslash |
| Cleanup.CleanPlainFixed | src/app/alibi/page.tsx:75-78 | a trimmed payload with no newline or backslash is unchanged |
| Cleanup.CleanPlainLine | src/app/alibi/page.tsx:75-78 | a clean payload followed by its line's newline comes out as the payload |
| Cleanup.CleanPlainIdempotent | src/app/alibi/page.tsx:75-78 | cleaning twice is cleaning once |
| Cleanup.CleanPlainKeepsText | src/app/alibi/page.tsx:75-78 | the short chain's result is the payload with every newline and backslash deleted, less a whitespace run at each of its two ends; the other characters stay in order |
| Pipeline.Received | src/app/replycraft/page.tsx:132-133 | the run goes on exactly when the reply text exists and is non-empty; a rejected request fails with its own reason, and a missing or empty text with "No response from Groq" |
| Pipeline.ParseWith | src/app/replycraft/page.tsx:156 | `JSON.parse` yields the parser's value, or fails with the `SyntaxError`'s message |
| Pipeline.FencedPiece | src/app/alibi/page.tsx:71 | `text.split(opener)[1].split('```')[0]` is defined exactly when the opener occurs; it is free of fences and part of the text |
| Pipeline.ExtractReplyJson | src/app/replycraft/page.tsx:136-141 | the reply page's payload contains no fence and is part of the reply; a reply without fences is taken whole |
| Pipeline.ReplyJsonFenced | src/app/replycraft/page.tsx:137-138 | with "```json" present, the payload is the text after the first "```json" up to the next "```", provided no backtick stands right before a later "```json" |
| Pipeline.ReplyJsonOverlap | src/app/replycraft/page.tsx:138 | for "```jsonab````json" the payload is "ab`", not the "ab" that lies up to the next "```" |
| Pipeline.ReplyPlainFenced | src/app/replycraft/page.tsx:139-140 | with only plain fences, the payload is the text between the first two fences |
| Pipeline.BeforeOpener | src/app/replycraft/page.tsx:138 | cutting at an opener that starts with "```" and then at "```" is cutting at "```" directly, unless a backtick precedes the opener |
| Pipeline.ExtractFencedJson | src/app/alibi/page.tsx:70-72 | the alibi and overthink payload: undefined exactly when "```json" occurs but "```json\n" does not; fence-free when "```json" occurs; the whole reply otherwise |
| Pipeline.FencedJsonLine | src/app/alibi/page.tsx:70-72 | with "```json\n" present, the payload is the text after it up to the next "```", with the same proviso about a preceding backtick |
| Pipeline.PlainOutcome | src/app/alibi/page.tsx:66-81 | the alibi/overthink `try` block succeeds exactly when there is reply text, extraction is defined and the parser accepts the cleaned payload, and it then holds that value unchecked; no text fails with "No response from Groq"; "```json" without its newline fails with the `TypeError` |
| Replycraft.Label | src/app/replycraft/page.tsx:28-85 | each tone has a non-empty label with no `$`, so it is inserted as written |
| Replycraft.ReplyPrompt | src/app/replycraft/page.tsx:122-124 | the two chained first-occurrence replacements; ReplyPromptPlain and ReplyPromptToneInMessage state what the prompt is |
| Replycraft.InsertedPlain | src/app/replycraft/page.tsx:123 | a message without `$` is inserted exactly as typed |
| Replycraft.SlotsFree | src/app/replycraft/page.tsx:87-91 | no placeholder can start in the template text before `{message}` or between it and `{tone}` |
| Replycraft.MessageStep | src/app/replycraft/page.tsx:123 | the first `replace` puts the (expanded) message between the template's head and the rest |
| Replycraft.ReplyPromptToneInMessage | src/app/replycraft/page.tsx:122-124 | when the inserted message contains `{tone}`, that one gets the label and the template's own `{tone}` stays in the prompt |
| Replycraft.ReplyPromptPlain | src/app/replycraft/page.tsx:122-124 | otherwise the prompt is the head, the message, the middle, the tone's label and the tail |
| Replycraft.RepliesOf | src/app/replycraft/page.tsx:157-159 | the shape check passes exactly when the value is an object with an array under `replies`, and yields that array; `null` fails with the `TypeError`, any other value with "Invalid response format" |
| Replycraft.HasReplies | src/app/replycraft/page.tsx:157 | the shape test: an object with an array under `replies`; RepliesOf and RepliesFrom state how it decides the outcome |
| Replycraft.ReplyPayload | src/app/replycraft/page.tsx:136-156 | the text handed to `JSON.parse` is trimmed, and its only whitespace is plain spaces |
| Replycraft.ReplyOutcome | src/app/replycraft/page.tsx:113-160 | the reply `try` block succeeds exactly when there is reply text, the parser accepts the payload and the value has an array of replies, which is the result; a rejection or a `SyntaxError` fails with its own message; an empty message comes only from an empty thrown message |
| Replycraft.ErrorText | src/app/replycraft/page.tsx:163 | an `Error` shows its own message, anything else the fixed fallback; the text is empty only for an `Error` with an empty message |
| Replycraft.RepliesFrom | src/app/replycraft/page.tsx:156-160 | parsing and the shape check succeed exactly when the parser yields an object with an array under `replies`; every failure is an `Error`, whose message is empty only for an empty `SyntaxError` |
| Replycraft.ReplyCraftPage.constructor | src/app/replycraft/page.tsx:105-109 | the page starts with an empty message, the passive-aggressive tone, no replies, no error, and idle |
| Replycraft.ReplyCraftPage.SetMessage | src/app/replycraft/page.tsx:236 | typing changes the message and nothing else, and keeps the page's invariant |
| Replycraft.ReplyCraftPage.SelectTone | src/app/replycraft/page.tsx:255 | a tone button changes the tone and nothing else, and keeps the page's invariant |
| Replycraft.ReplyCraftPage.Generate | src/app/replycraft/page.tsx:112-167 | a run sends the prompt for the current message and tone, leaves the form alone, and ends idle with the replies on success, or with no replies and the thrown value's message |
| Replycraft.ReplyCraftPage.Settle | src/app/replycraft/page.tsx:113-166 | the state changes of a run leave the form alone and end idle with the replies and no error on success, or with no replies and the thrown value's message |
| Replycraft.ReplyCraftPage.HandleSubmit | src/app/replycraft/page.tsx:169-173 | a message that trims to nothing sends nothing and changes nothing; any other message runs `Generate`; the page's invariant is kept |
| Alibi.HeadFree | src/app/alibi/page.tsx:20 | no placeholder can start in the template text before `{situation}` |
| Alibi.AlibiPrompt | src/app/alibi/page.tsx:58 | the first `{situation}` of the template replaced; AlibiPromptShape states what the prompt is |
| Alibi.AlibiPromptShape | src/app/alibi/page.tsx:58 | the prompt is the template's head, the (expanded) situation and the tail with its braces untouched; a situation without `$` appears as typed |
| Alibi.AlibiPage.constructor | src/app/alibi/page.tsx:37-45 | the page starts with an empty situation, a `null` alibi, no error, and idle |
| Alibi.AlibiPage.SetSituation | src/app/alibi/page.tsx:154 | typing changes the situation and nothing else, and keeps the page's invariant |
| Alibi.AlibiPage.Generate | src/app/alibi/page.tsx:48-88 | a run sends the prompt for the situation, and ends idle with the parsed value as the alibi, or with `null` and "Failed to generate alibi. Please try again." |
| Alibi.AlibiPage.Settle | src/app/alibi/page.tsx:49-87 | the state changes of a run leave the situation alone and end idle with the parsed value and no error, or with `null` and the fixed message |
| Alibi.AlibiPage.HandleSubmit | src/app/alibi/page.tsx:90-94 | a situation that trims to nothing sends nothing and changes nothing; any other runs `Generate`; the page's invariant is kept |
| Overthink.HeadFree | src/app/overthink/page.tsx:16-20 | for every mode, no placeholder can start in the template text before `{situation}` |
| Overthink.Template | src/app/overthink/page.tsx:16-20 | the mode's entry of `PROMPTS`, split at its `{situation}` into head and tail; HeadFree shows no earlier slot can start in the head |
| Overthink.OverthinkPrompt | src/app/overthink/page.tsx:63 | the first `{situation}` of the mode's template replaced; OverthinkPromptShape states what the prompt is |
| Overthink.OverthinkPromptShape | src/app/overthink/page.tsx:63 | for every mode, the prompt is that mode's head, the (expanded) situation and that mode's tail; a situation without `$` appears as typed |
| Overthink.ArrayUpToFence | src/app/overthink/page.tsx:76 | in the fenced-array reply, the payload ends at the closing fence with no overlap |
| Overthink.FencedArrayPayload | src/app/overthink/page.tsx:75-77 | the payload of "```json\n[\"a\",\"b\",\"c\"]\n```" is the array line |
| Overthink.ArrayTextClean | src/app/overthink/page.tsx:80-83 | the array text has no newline or backslash and no whitespace at its ends |
| Overthink.FencedArrayRun | src/app/overthink/page.tsx:71-87 | for that reply the parser is given exactly `["a","b","c"]`, and the run holds what the parser returns |
| Overthink.OverthinkPage.constructor | src/app/overthink/page.tsx:47-51 | the page starts with an empty situation, humor mode, an empty list, no error, and idle |
| Overthink.OverthinkPage.SetSituation | src/app/overthink/page.tsx:155 | typing changes the situation and nothing else, and keeps the page's invariant |
| Overthink.OverthinkPage.SetMode | src/app/overthink/page.tsx:170 | a mode button changes the mode and nothing else, and keeps the page's invariant |
| Overthink.OverthinkPage.Generate | src/app/overthink/page.tsx:53-94 | a run sends the prompt for the mode and situation, and ends idle with the parsed value as the interpretations, or with an empty list and "Failed to generate interpretations. Please try again." |
| Overthink.OverthinkPage.Settle | src/app/overthink/page.tsx:54-93 | the state changes of a run leave the form alone and end idle with the parsed value and no error, or with an empty list and the fixed message |
| Overthink.OverthinkPage.HandleSubmit | src/app/overthink/page.tsx:96-100 | a situation that trims to nothing sends nothing and changes nothing; any other runs `Generate`; the page's invariant is kept |

## Left out

- The Groq client is not modelled: the API key, `dangerouslyAllowBrowser`, the model name, `temperature: 0.9` and `max_tokens: 1024`. It is network I/O; how the request settles is an input.
- `JSON.parse` is a parameter. Its grammar and number conversion are not part of this model: numbers are kept as their literal text.
- `console.error` is console I/O and is not modelled.
- Rendering is not modelled: JSX, animation, icons, the tone and mode descriptions, and the disabled state of the submit button.
- Copying is not modelled: `handleCopy` and `handleCopyExcuse` use the clipboard and `setTimeout`, and so does the `copiedIndex`/`copiedExcuse` state.
- Asynchrony is not modelled. The `await` suspension, React's batching of state updates, and a second submission during a run are out of scope: `Generate` is one atomic step, so the busy flag is always down between calls.
- The `TypeError` wording is V8's: "Cannot read properties of undefined (reading 'split')" and "... of null (reading 'replies')". Other engines word it differently.
- JavaScript strings are UTF-16 code units, while Dafny's `char` is a Unicode scalar value. Surrogate pairs are not modelled. Every character the pipeline tests for is in the Basic Multilingual Plane.
- Pipeline.ReplyJsonFenced: states the "up to the next fence" reading only for replies without a backtick right before a later "```json". That proviso is wider than needed: the reading also holds when an earlier "```" comes first. `Pipeline.ReplyJsonOverlap` shows that the code differs when it does not.
- Pipeline.FencedJsonLine: states the same reading only under the same proviso for "```json\n".
- Replycraft.ReplyOutcome: says nothing of the shape of each item in `replies`, because the code does not check it either.
