/**
 * The steps every tool page runs after its completion request settles:
 * read the reply text, cut the JSON payload out of code fences, clean it
 * and hand it to `JSON.parse`. Failures are the values the `try` block
 * throws, so each page's `catch` can turn them into its error message.
 */
module Pipeline {
  import opened JsString
  import opened Cleanup

  /** A value `JSON.parse` can return; numbers are kept as their literal text. */
  datatype Json =
    | JNull
    | JBool(b: bool)
    | JNumber(literal: string)
    | JString(text: string)
    | JArray(items: seq<Json>)
    | JObject(members: map<string, Json>)

  /** `JSON.parse(text)`: a value, or a thrown `SyntaxError` carrying its message. */
  datatype ParseResult = Parsed(value: Json) | SyntaxError(message: string)

  /** A value thrown inside the `try` block: an `Error` with its message, or any other value. */
  datatype Thrown = ErrorValue(message: string) | OtherValue

  /**
   * How the completion request settles: it delivers
   * `completion.choices[0]?.message?.content` (absent or a string), or it
   * rejects with a thrown value.
   */
  datatype Completion = Delivered(content: Option<string>) | Rejected(reason: Thrown)

  /** The result of a run's `try` block: a value to store, or what was thrown. */
  datatype Outcome<T> = Success(value: T) | Failure(thrown: Thrown)

  const NoResponse: string := "No response from Groq"
  const Fence: string := "```"
  const JsonFence: string := "```json"
  const JsonFenceLine: string := "```json\n"

  /** The `TypeError` a property read on `undefined` raises (V8's wording). */
  const UndefinedSplit: string := "Cannot read properties of undefined (reading 'split')"

  /** `if (!result) throw new Error('No response from Groq')`: absent and empty content both fail. */
  function Received(c: Completion): (r: Outcome<string>)
    ensures r.Success? <==> c.Delivered? && c.content.Some? && c.content.value != ""
    ensures r.Success? ==> r.value == c.content.value
    ensures c.Rejected? ==> r == Failure(c.reason)
    ensures c.Delivered? && r.Failure? ==> r.thrown == ErrorValue(NoResponse)
  {
    match c
    case Rejected(t) => Failure(t)
    case Delivered(None) => Failure(ErrorValue(NoResponse))
    case Delivered(Some(text)) => if text == "" then Failure(ErrorValue(NoResponse)) else Success(text)
  }

  /** `JSON.parse(text)` inside the `try` block: a syntax error is thrown as an `Error`. */
  function ParseWith(parse: string -> ParseResult, text: string): (r: Outcome<Json>)
    ensures r.Success? <==> parse(text).Parsed?
    ensures r.Success? ==> r.value == parse(text).value
    ensures r.Failure? ==> r.thrown == ErrorValue(parse(text).message)
  {
    match parse(text)
    case Parsed(v) => Success(v)
    case SyntaxError(m) => Failure(ErrorValue(m))
  }

  /**
   * `text.split(opener)[1].split('```')[0]`: the piece after the first
   * `opener`, cut at its first "```". `None` is the `undefined` that `[1]`
   * reads when `opener` does not occur; calling `.split` on it throws.
   */
  function FencedPiece(text: string, opener: string): (r: Option<string>)
    requires |opener| > 0
    ensures r.Some? <==> Contains(text, opener)
    ensures r.Some? ==> r.value == Before(Before(After(text, opener), opener), Fence)
    ensures r.Some? ==> !Contains(r.value, Fence) && IsSubstring(r.value, text)
  {
    match SplitAt(text, opener, 1)
    case None => None
    case Some(piece) =>
      var cut := Before(piece, Fence);
      SubstringPrefix(piece, |cut|);
      assert piece[..|cut|] == cut;
      SubstringTransitive(cut, piece, text);
      Some(cut)
  }

  /**
   * The reply page's extraction: with a "```json" fence, the piece after it;
   * else with a plain fence, the piece after that; else the whole response.
   * Both `[1]` reads exist because the `includes` test just succeeded.
   */
  function ExtractReplyJson(text: string): (r: string)
    ensures !Contains(r, Fence)
    ensures IsSubstring(r, text)
    ensures !Contains(text, Fence) ==> r == text
  {
    if Contains(text, JsonFence) then
      OpenerHasFence(text, JsonFence);
      FencedPiece(text, JsonFence).value
    else if Contains(text, Fence) then FencedPiece(text, Fence).value
    else
      SubstringPrefix(text, |text|);
      assert text[..|text|] == text;
      text
  }

  /**
   * The alibi and overthink pages' extraction: with a "```json" fence, the
   * piece after the first "```json\n"; without it, the whole response,
   * other fences included. `None` stands for the `TypeError` thrown when no
   * "```json" is followed by a newline.
   */
  function ExtractFencedJson(text: string): (r: Option<string>)
    ensures r.None? <==> Contains(text, JsonFence) && !Contains(text, JsonFenceLine)
    ensures r.Some? && Contains(text, JsonFence) ==> !Contains(r.value, Fence)
    ensures r.Some? ==> IsSubstring(r.value, text)
    ensures !Contains(text, JsonFence) ==> r == Some(text)
  {
    if Contains(text, JsonFence) then FencedPiece(text, JsonFenceLine)
    else
      SubstringPrefix(text, |text|);
      assert text[..|text|] == text;
      Some(text)
  }

  /**
   * Cutting at an opener `a` that starts with "```" and then at "```" is
   * cutting at "```" directly, unless a backtick and `a` occur together,
   * where the fence found first overlaps the opener.
   */
  lemma BeforeOpener(x: string, a: string)
    requires |a| >= 3 && a[..3] == Fence
    requires !Contains(x, "`" + a)
    ensures Before(Before(x, a), Fence) == Before(x, Fence)
  {
    match IndexOf(x, a)
    case None =>
    case Some(g) =>
      assert Before(x, a) == x[..g];
      OpenerIsFence(x, a, g);
      ContainsWhenOccurs(x, Fence, g);
      var f := IndexOf(x, Fence).value;
      OccursInPrefix(x, g, Fence);
      if f + 3 <= g {
        IndexOfIsFirst(x[..g], Fence, f);
        PrefixOfPrefix(x, g, f);
      } else if f == g {
        assert !Contains(x[..g], Fence);
      } else {
        FenceNearOpener(x, a, g, f);
        assert false;
      }
  }

  lemma OpenerIsFence(x: string, a: string, g: nat)
    requires |a| >= 3 && a[..3] == Fence && OccursAt(x, a, g)
    ensures OccursAt(x, Fence, g)
  {
    assert x[g..g + 3] == x[g..g + |a|][..3];
  }

  /** Text holding an opener that starts with "```" holds "```". */
  lemma OpenerHasFence(x: string, a: string)
    requires |a| >= 3 && a[..3] == Fence && Contains(x, a)
    ensures Contains(x, Fence)
  {
    OpenerIsFence(x, a, IndexOf(x, a).value);
    ContainsWhenOccurs(x, Fence, IndexOf(x, a).value);
  }

  lemma PrefixOfPrefix(x: string, g: nat, f: nat)
    requires f <= g <= |x|
    ensures x[..g][..f] == x[..f]
  {
  }

  /** A fence starting one or two places before an opener means a backtick precedes the opener. */
  lemma FenceNearOpener(x: string, a: string, g: nat, f: nat)
    requires |a| >= 3 && a[..3] == Fence && OccursAt(x, a, g)
    requires OccursAt(x, Fence, f) && f < g < f + 3
    ensures Contains(x, "`" + a)
  {
    assert x[g - 1] == x[f..f + 3][g - 1 - f];
    var w := x[g - 1..g + |a|];
    assert w == [x[g - 1]] + x[g..g + |a|];
    assert OccursAt(x, "`" + a, g - 1);
    ContainsWhenOccurs(x, "`" + a, g - 1);
  }

  /**
   * The reply page's "```json" case is the text after the first "```json"
   * up to the next "```" (or the end), as long as no "````json" follows the
   * opener.
   */
  lemma ReplyJsonFenced(text: string)
    requires Contains(text, JsonFence)
    requires !Contains(After(text, JsonFence), "`" + JsonFence)
    ensures ExtractReplyJson(text) == Before(After(text, JsonFence), Fence)
  {
    BeforeOpener(After(text, JsonFence), JsonFence);
  }

  /**
   * Without that proviso the two readings part: in "```jsonab````json" the
   * first "```" after the opener is the start of "````json", but the split
   * on "```json" has already cut the piece one backtick later.
   */
  lemma ReplyJsonOverlap()
    ensures ExtractReplyJson("```jsonab````json") == "ab`"
    ensures Before(After("```jsonab````json", JsonFence), Fence) == "ab"
  {
    OverlapAfter();
    OverlapBefore();
    OverlapFence();
  }

  /** The piece after the opener in the overlap example. */
  lemma OverlapAfter()
    ensures Contains("```jsonab````json", JsonFence)
    ensures After("```jsonab````json", JsonFence) == "ab````json"
  {
    var t := "```jsonab````json";
    assert t[0..7] == JsonFence;
    IndexOfIsFirst(t, JsonFence, 0);
    assert t[7..] == "ab````json";
  }

  /** Splitting that piece on "```json" keeps the stray backtick. */
  lemma OverlapBefore()
    ensures Before("ab````json", JsonFence) == "ab`"
  {
    var u := "ab````json";
    assert u[3..10] == JsonFence;
    assert u[0..7][0] != JsonFence[0] && u[1..8][0] != JsonFence[0] && u[2..9][3] != JsonFence[3];
    assert !OccursAt(u, JsonFence, 0) && !OccursAt(u, JsonFence, 1) && !OccursAt(u, JsonFence, 2);
    IndexOfIsFirst(u, JsonFence, 3);
    assert u[..3] == "ab`";
  }

  /** "ab`" has no fence; the piece itself has one at index 2. */
  lemma OverlapFence()
    ensures Before("ab`", Fence) == "ab`"
    ensures Before("ab````json", Fence) == "ab"
  {
    assert "ab`"[0..3][0] != Fence[0];
    assert !OccursAt("ab`", Fence, 0);
    var u := "ab````json";
    assert u[2..5] == Fence;
    assert u[0..3][0] != Fence[0] && u[1..4][0] != Fence[0];
    assert !OccursAt(u, Fence, 0) && !OccursAt(u, Fence, 1);
    IndexOfIsFirst(u, Fence, 2);
    assert u[..2] == "ab";
  }

  /** The reply page's plain-fence case is exactly the text between the first two fences. */
  lemma ReplyPlainFenced(text: string)
    requires Contains(text, Fence) && !Contains(text, JsonFence)
    ensures ExtractReplyJson(text) == Before(After(text, Fence), Fence)
  {
  }

  /** The other pages' fenced case, with the same proviso for "````json\n". */
  lemma FencedJsonLine(text: string)
    requires Contains(text, JsonFenceLine)
    requires !Contains(After(text, JsonFenceLine), "`" + JsonFenceLine)
    ensures ExtractFencedJson(text) == Some(Before(After(text, JsonFenceLine), Fence))
  {
    OpenerIsFence(text, JsonFenceLine, IndexOf(text, JsonFenceLine).value);
    assert OccursAt(text, JsonFence, IndexOf(text, JsonFenceLine).value) by {
      var g := IndexOf(text, JsonFenceLine).value;
      assert text[g..g + 7] == text[g..g + 8][..7];
    }
    ContainsWhenOccurs(text, JsonFence, IndexOf(text, JsonFenceLine).value);
    BeforeOpener(After(text, JsonFenceLine), JsonFenceLine);
  }

  /**
   * The alibi and overthink pipeline after the request settles: receive,
   * extract with the "```json\n" split, apply the short cleanup, parse. The
   * run succeeds exactly when there is reply text, the split finds a
   * payload and the parser accepts the cleaned payload, and it then holds
   * whatever the parser returned, with no check of its shape.
   */
  function PlainOutcome(c: Completion, parse: string -> ParseResult): (r: Outcome<Json>)
    ensures r.Success? <==>
      c.Delivered? && c.content.Some? && c.content.value != "" &&
      ExtractFencedJson(c.content.value).Some? &&
      parse(CleanPlainJson(ExtractFencedJson(c.content.value).value)).Parsed?
    ensures r.Success? ==>
      r.value == parse(CleanPlainJson(ExtractFencedJson(c.content.value).value)).value
    ensures c == Delivered(None) || c == Delivered(Some("")) ==> r == Failure(ErrorValue(NoResponse))
    ensures (c.Delivered? && c.content.Some? && Contains(c.content.value, JsonFence) &&
             !Contains(c.content.value, JsonFenceLine)) ==> r == Failure(ErrorValue(UndefinedSplit))
  {
    match Received(c)
    case Failure(t) => Failure(t)
    case Success(text) =>
      match ExtractFencedJson(text)
      case None => Failure(ErrorValue(UndefinedSplit))
      case Some(payload) => ParseWith(parse, CleanPlainJson(payload))
  }
}
