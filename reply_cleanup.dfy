/** The back end's handling of the language model's reply: the markdown code fence is
    cleaned off, the text is handed to the JSON decoder, and the result record is built,
    with a fallback record when decoding fails and a fixed record when anything raises. */
module ReplyCleanup {
  import opened Json
  import Strings

  /** What the model call gave back: it raised (the call itself, or reading `.text`), the
      response has no `text` attribute, or it has one. */
  datatype Reply = Raised | NoText | Text(text: string)

  /** `json.loads` on a string: a value, or `json.JSONDecodeError`. */
  datatype Decoded = Parsed(value: Json) | DecodeError

  /** A Python dict of decoded JSON values. Key order is not part of the model. */
  type Record = map<string, Json>

  const NoExplanation: string := "No explanation provided."

  const InferenceError: string :=
    "\U{26A0}\U{FE0F} Internal inference error: The model encountered an unexpected issue " +
    "while analyzing this claim. It may have exceeded its contextual limits or " +
    "failed to converge on a stable interpretation. " +
    "Please retry after a few moments \U{2014} subsequent runs often stabilize as " +
    "the system recalibrates."

  /** `s.strip()`. */
  function PyStrip(s: string): string {
    Strings.Trim(s, Strings.PyWhitespace)
  }

  predicate IsStripped(s: string) {
    Strings.Trimmed(s, Strings.PyWhitespace)
  }

  predicate StartsWith(s: string, prefix: string) {
    |prefix| <= |s| && s[..|prefix|] == prefix
  }

  /** ASCII case mapping; the only letters the tag test compares are ASCII. */
  function Lower(c: char): char {
    if 'A' <= c <= 'Z' then (c as int + 32) as char else c
  }

  /** `s.lower().startswith("json")`. */
  predicate HasJsonTag(s: string) {
    |s| >= 4 && Lower(s[0]) == 'j' && Lower(s[1]) == 's' && Lower(s[2]) == 'o' &&
    Lower(s[3]) == 'n'
  }

  /** The fence cleanup applied to the already stripped reply text. */
  function StripFence(content: string): string {
    if StartsWith(content, "```") then
      var inner := PyStrip(Strings.Trim(content, Strings.Backtick));
      if HasJsonTag(inner) then PyStrip(inner[4..]) else inner
    else
      content
  }

  /** The text that reaches the decoder. */
  function ReplyContent(reply: Reply): string
    requires !reply.Raised?
  {
    StripFence(if reply.Text? then PyStrip(reply.text) else "")
  }

  /** A reply that does not open with three backticks reaches the decoder as stripped. */
  lemma UnfencedUnchanged(text: string)
    requires !StartsWith(PyStrip(text), "```")
    ensures ReplyContent(Text(text)) == PyStrip(text)
  {
  }

  /** Whatever path it takes, the text handed to the decoder has no whitespace at
      either end. */
  lemma ContentStripped(reply: Reply)
    requires !reply.Raised?
    ensures IsStripped(ReplyContent(reply))
  {
    var content := if reply.Text? then PyStrip(reply.text) else "";
    if StartsWith(content, "```") {
      var inner := PyStrip(Strings.Trim(content, Strings.Backtick));
      if HasJsonTag(inner) {
        assert StripFence(content) == PyStrip(inner[4..]);
      }
    }
  }

  /** The fence branch only ever removes characters at the ends: backticks and
      whitespace, and the four-letter tag. What is left is a window of the input. */
  lemma FenceKeepsWindow(content: string)
    ensures Strings.IsWindow(StripFence(content), content)
  {
    if StartsWith(content, "```") {
      var t := Strings.Trim(content, Strings.Backtick);
      var inner := PyStrip(t);
      Strings.TrimIsWindow(content, Strings.Backtick);
      Strings.TrimIsWindow(t, Strings.PyWhitespace);
      Strings.WindowTrans(inner, t, content);
      if HasJsonTag(inner) {
        Strings.SuffixIsWindow(inner, 4);
        Strings.TrimIsWindow(inner[4..], Strings.PyWhitespace);
        Strings.WindowTrans(PyStrip(inner[4..]), inner[4..], inner);
        Strings.WindowTrans(PyStrip(inner[4..]), inner, content);
      }
    } else {
      assert Strings.WindowAt(content, content, 0);
    }
  }

  /** `content[4:].strip()` on stripped text removes the four tag letters and the
      whitespace right after them, and nothing else. */
  lemma TagDropsFourAndSpace(inner: string)
    requires IsStripped(inner) && HasJsonTag(inner)
    ensures var r := PyStrip(inner[4..]);
      |r| <= |inner| - 4 && inner == inner[..|inner| - |r|] + r &&
      forall i :: 4 <= i < |inner| - |r| ==> Strings.In(inner[i], Strings.PyWhitespace)
  {
    var u := inner[4..];
    var r := PyStrip(u);
    Strings.TrimWindow(u, Strings.PyWhitespace);
    var k := Strings.Lead(u, Strings.PyWhitespace);
    if |u| > 0 {
      assert u[|u| - 1] == inner[|inner| - 1];
      assert !Strings.In(u[|u| - 1], Strings.PyWhitespace);
    }
    assert k + |r| == |u|;
    assert inner == inner[..|inner| - |r|] + r;
    forall i | 4 <= i < |inner| - |r| ensures Strings.In(inner[i], Strings.PyWhitespace) {
      assert inner[i] == u[i - 4];
    }
  }

  /** Three backticks on each side of text that neither starts nor ends with one are
      removed, and nothing more. */
  lemma UnwrapTicks(mid: string)
    requires mid != [] && mid[0] != '`' && mid[|mid| - 1] != '`'
    ensures Strings.Trim("```" + mid + "```", Strings.Backtick) == mid
  {
    Strings.TrimAround("```", mid, "```", Strings.Backtick);
  }

  /** The fence branch, one step at a time. */
  lemma FencedSteps(content: string)
    requires StartsWith(content, "```")
    ensures var inner := PyStrip(Strings.Trim(content, Strings.Backtick));
      StripFence(content) == if HasJsonTag(inner) then PyStrip(inner[4..]) else inner
  {
  }

  /** Text wrapped in one newline on each side strips back to itself. */
  lemma StripNewlines(body: string)
    requires IsStripped(body)
    ensures PyStrip("\n" + body + "\n") == body
  {
    Strings.TrimAround("\n", body, "\n", Strings.PyWhitespace);
  }

  /** The "json" line of a fence strips to the tag and the body, or the tag alone. */
  lemma StripTaggedLine(body: string)
    requires IsStripped(body)
    ensures PyStrip("json\n" + body + "\n") == if body == [] then "json" else "json\n" + body
  {
    if body == [] {
      assert "json\n" + body + "\n" == "" + "json" + "\n\n";
      Strings.TrimAround("", "json", "\n\n", Strings.PyWhitespace);
    } else {
      assert "json\n" + body + "\n" == "" + ("json\n" + body) + "\n";
      Strings.TrimAround("", "json\n" + body, "\n", Strings.PyWhitespace);
    }
  }

  /** One leading newline before stripped text is stripped away. */
  lemma StripLeadingNewline(body: string)
    requires IsStripped(body)
    ensures PyStrip("\n" + body) == body
  {
    assert "\n" + body == "\n" + body + "";
    Strings.TrimAround("\n", body, "", Strings.PyWhitespace);
  }

  /** Reply text with no whitespace at its ends goes straight to the fence cleanup. */
  lemma StrippedReply(w: string)
    requires IsStripped(w)
    ensures ReplyContent(Text(w)) == StripFence(w)
  {
    assert PyStrip(w) == w by {
      Strings.TrimOfTrimmed(w, Strings.PyWhitespace);
    }
  }

  /** The reply as the decoder sees it when it already opens with a fence. */
  lemma FencedReply(w: string)
    requires |w| >= 6 && w[..3] == "```" && w[|w| - 1] == '`'
    ensures ReplyContent(Text(w)) == StripFence(w) && StartsWith(w, "```")
  {
    assert IsStripped(w);
    StrippedReply(w);
  }

  /** A reply made of three backticks, a middle and three backticks: the decoder gets
      the stripped middle, less a leading tag. */
  lemma FenceAround(mid: string)
    requires mid != [] && mid[0] != '`' && mid[|mid| - 1] != '`'
    ensures var inner := PyStrip(mid);
      ReplyContent(Text("```" + mid + "```")) ==
        if HasJsonTag(inner) then PyStrip(inner[4..]) else inner
  {
    var w := "```" + mid + "```";
    FencedReply(w);
    UnwrapTicks(mid);
    FencedSteps(w);
  }

  /** A body fenced as "```json" on its own line is recovered exactly. */
  lemma FencedJsonRecovered(body: string)
    requires IsStripped(body)
    ensures ReplyContent(Text("```json\n" + body + "\n```")) == body
  {
    var mid := "json\n" + body + "\n";
    assert "```json\n" + body + "\n```" == "```" + mid + "```";
    FenceAround(mid);
    TagLineRecovered(body);
  }

  /** The tagged middle of a fence: the tag is found and the body is what remains. */
  lemma TagLineRecovered(body: string)
    requires IsStripped(body)
    ensures var inner := PyStrip("json\n" + body + "\n");
      HasJsonTag(inner) && PyStrip(inner[4..]) == body
  {
    StripTaggedLine(body);
    var inner := PyStrip("json\n" + body + "\n");
    if body == [] {
      assert inner[4..] == [];
    } else {
      assert inner[4..] == "\n" + body;
      StripLeadingNewline(body);
    }
  }

  /** A body fenced without a language tag is recovered exactly, unless the body itself
      begins with the letters j, s, o, n in some case, which are then taken for a tag. */
  lemma FencedPlainRecovered(body: string)
    requires IsStripped(body)
    ensures ReplyContent(Text("```\n" + body + "\n```")) ==
      if HasJsonTag(body) then PyStrip(body[4..]) else body
  {
    var mid := "\n" + body + "\n";
    assert "```\n" + body + "\n```" == "```" + mid + "```";
    FenceAround(mid);
    StripNewlines(body);
  }

  /** The record returned when anything raises. */
  function Unavailable(claim: string, timestamp: string): Record {
    map["input_text" := JStr(claim), "verdict" := JStr("System Unavailable"),
        "confidence" := JInt(0), "explanation" := JStr(InferenceError),
        "timestamp" := JStr(timestamp)]
  }

  /** The record used when the decoder rejects the content. */
  function Fallback(content: string): Record {
    map["verdict" := JStr("Uncertain"), "confidence" := JFloat(0.5),
        "explanation" := JStr(if content == "" then NoExplanation else content)]
  }

  /** `verify_claim_with_gemini` with the model's reply, the decoder and the clock given.
      A decoded value that is not an object makes the key assignment raise `TypeError`,
      which the outer handler turns into the unavailable record. */
  method VerifyClaim(claim: string, reply: Reply, decode: string -> Decoded, timestamp: string)
    returns (result: Record)
    ensures "input_text" in result && result["input_text"] == JStr(claim)
    ensures "timestamp" in result && result["timestamp"] == JStr(timestamp)
    ensures reply.Raised? ==> result == Unavailable(claim, timestamp)
    ensures !reply.Raised? && decode(ReplyContent(reply)).DecodeError? ==>
      var content := ReplyContent(reply);
      result.Keys == {"verdict", "confidence", "explanation", "input_text", "timestamp"} &&
      result["verdict"] == JStr("Uncertain") && result["confidence"] == JFloat(0.5) &&
      result["explanation"] == JStr(if content == "" then NoExplanation else content)
    ensures !reply.Raised? && decode(ReplyContent(reply)).Parsed? ==>
      var value := decode(ReplyContent(reply)).value;
      if value.JObj? then
        result.Keys == value.fields.Keys + {"input_text", "timestamp"} &&
        forall k :: k in value.fields && k != "input_text" && k != "timestamp" ==>
          result[k] == value.fields[k]
      else
        result == Unavailable(claim, timestamp)
  {
    if reply.Raised? {
      UnavailableShape(claim, timestamp);
      return Unavailable(claim, timestamp);
    }
    var content := ReplyContent(reply);
    var decoded := decode(content);
    if decoded.DecodeError? {
      FallbackShape(content);
      result := AddClaimAndTime(Fallback(content), claim, timestamp);
    } else if decoded.value.JObj? {
      result := AddClaimAndTime(decoded.value.fields, claim, timestamp);
    } else {
      UnavailableShape(claim, timestamp);
      result := Unavailable(claim, timestamp);
    }
  }

  /** `result["input_text"] = claim` and `result["timestamp"] = ...`: two keys are
      added or overwritten and every other entry is kept. */
  method AddClaimAndTime(record: Record, claim: string, timestamp: string) returns (result: Record)
    ensures result.Keys == record.Keys + {"input_text", "timestamp"}
    ensures result["input_text"] == JStr(claim) && result["timestamp"] == JStr(timestamp)
    ensures forall k :: k in record && k != "input_text" && k != "timestamp" ==>
      result[k] == record[k]
  {
    result := record;
    result := result["input_text" := JStr(claim)];
    result := result["timestamp" := JStr(timestamp)];
  }

  /** The decode-error record: verdict "Uncertain", confidence 0.5, and the content as
      explanation, or a fixed text when the content is empty. */
  lemma FallbackShape(content: string)
    ensures var r := Fallback(content);
      r.Keys == {"verdict", "confidence", "explanation"} &&
      r["verdict"] == JStr("Uncertain") && r["confidence"] == JFloat(0.5) &&
      r["explanation"] == JStr(if content == "" then NoExplanation else content)
  {
  }

  /** The record for any exception: exactly five keys, with the claim, verdict
      "System Unavailable", confidence 0, the fixed explanation and the timestamp. */
  lemma UnavailableShape(claim: string, timestamp: string)
    ensures var r := Unavailable(claim, timestamp);
      r.Keys == {"input_text", "verdict", "confidence", "explanation", "timestamp"} &&
      r["verdict"] == JStr("System Unavailable") && r["confidence"] == JInt(0) &&
      r["explanation"] == JStr(InferenceError) && r["input_text"] == JStr(claim) &&
      r["timestamp"] == JStr(timestamp)
  {
  }
}
