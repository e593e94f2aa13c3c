/** The chat page's interaction controller: the draft, the transcript, the pending flag
    and the "Analyzing..." dots, driven by discrete events. The `await` of the request
    splits `Submit` from the later `ResolveOk` / `ResolveErr`; a timer tick is `Tick`. */
module VerifyText {
  import opened Json
  import Strings

  datatype Role = User | Assistant

  /** A JavaScript property read: a value, or `undefined` when the property is missing. */
  datatype JsValue = Undefined | Value(json: Json)

  /** What an entry shows: text, or the three fields copied from a verdict response. */
  datatype Content =
    | Plain(text: string)
    | Verdict(verdict: JsValue, confidence: JsValue, explanation: JsValue)

  datatype Message = Message(role: Role, content: Content)

  /** The fixed text of every failed request, whatever the cause. */
  const ErrorText: string := "\U{274C} Error connecting to backend."

  /** `!input.trim()`: the draft is empty or only whitespace. */
  predicate IsBlank(s: string) {
    Strings.Trim(s, Strings.JsWhitespace) == ""
  }

  lemma BlankIffAllSpace(s: string)
    ensures IsBlank(s) <==> forall i :: 0 <= i < |s| ==> Strings.In(s[i], Strings.JsWhitespace)
  {
    Strings.TrimEmptyIff(s, Strings.JsWhitespace);
  }

  /** `data.verdict` and friends: reading a property of a non-null value. */
  function Property(data: Json, key: string): JsValue
    requires !data.JNull?
  {
    if data.JObj? && key in data.fields then Value(data.fields[key]) else Undefined
  }

  /** The assistant entry a successful response produces. Reading a property of `null`
      throws inside the `try`, so a `null` body ends in the error entry. */
  function ReplyMessage(data: Json): Message {
    if data.JNull? then Message(Assistant, Plain(ErrorText))
    else Message(Assistant, Verdict(Property(data, "verdict"), Property(data, "confidence"),
                                    Property(data, "explanation")))
  }

  /** The entry for every kind of body: `null` gives the error entry; any other body gives
      a verdict entry in which each field is `undefined` unless the body is an object that
      has that key, and then is that key's value, whatever the other keys. */
  lemma ReplyMessageCases(data: Json)
    ensures data.JNull? ==> ReplyMessage(data) == Message(Assistant, Plain(ErrorText))
    ensures !data.JNull? ==> ReplyMessage(data).role == Assistant && ReplyMessage(data).content.Verdict?
    ensures !data.JNull? && !data.JObj? ==>
      ReplyMessage(data).content == Verdict(Undefined, Undefined, Undefined)
    ensures data.JObj? ==>
      var c := ReplyMessage(data).content;
      ("verdict" !in data.fields ==> c.verdict == Undefined) &&
      ("confidence" !in data.fields ==> c.confidence == Undefined) &&
      ("explanation" !in data.fields ==> c.explanation == Undefined)
    ensures data.JObj? ==>
      var c := ReplyMessage(data).content;
      ("verdict" in data.fields ==> c.verdict == Value(data.fields["verdict"])) &&
      ("confidence" in data.fields ==> c.confidence == Value(data.fields["confidence"])) &&
      ("explanation" in data.fields ==> c.explanation == Value(data.fields["explanation"]))
  {
  }

  /** A verdict object's three fields are copied field for field. */
  lemma ReplyCopiesFields(fields: map<string, Json>)
    requires "verdict" in fields && "confidence" in fields && "explanation" in fields
    ensures ReplyMessage(JObj(fields)) ==
      Message(Assistant, Verdict(Value(fields["verdict"]), Value(fields["confidence"]),
                                 Value(fields["explanation"])))
  {
  }

  /** Extra keys are ignored: responses that agree on the three fields give the same entry. */
  lemma ReplyIgnoresOtherFields(a: map<string, Json>, b: map<string, Json>)
    requires forall k :: k in {"verdict", "confidence", "explanation"} ==>
      (k in a <==> k in b) && (k in a ==> a[k] == b[k])
    ensures ReplyMessage(JObj(a)) == ReplyMessage(JObj(b))
  {
    assert "verdict" in {"verdict", "confidence", "explanation"};
    assert "confidence" in {"verdict", "confidence", "explanation"};
    assert "explanation" in {"verdict", "confidence", "explanation"};
  }

  /** The updater `prev.length < 3 ? prev + "." : ""`. */
  function NextDots(d: string): (r: string)
    ensures |r| <= 3
    ensures |r| == 0 || r[..|r| - 1] == d
  {
    if |d| < 3 then d + "." else ""
  }

  /** The reference cycle: `n` dots, for `n` up to three. */
  function Dots(n: nat): (r: string)
    requires n <= 3
  {
    "..."[..n]
  }

  /** The indicator after `k` ticks of one loading interval. */
  function DotsAfter(k: nat): string {
    if k == 0 then "" else NextDots(DotsAfter(k - 1))
  }

  /** While loading, the indicator runs "", ".", "..", "...", "" and round again. */
  lemma {:induction false} DotsCycle(k: nat)
    ensures DotsAfter(k) == Dots(k % 4)
  {
    if k > 0 {
      DotsCycle(k - 1);
      var n := (k - 1) % 4;
      NextOfDots(n);
      ModStep(k);
    }
  }

  lemma ModStep(k: nat)
    requires k > 0
    ensures k % 4 == if (k - 1) % 4 < 3 then (k - 1) % 4 + 1 else 0
  {
  }

  lemma NextOfDots(n: nat)
    requires n <= 3
    ensures NextDots(Dots(n)) == Dots(if n < 3 then n + 1 else 0)
  {
  }

  /** The component's state. `sent` holds the body text of every request issued, in
      order; `outstanding` counts requests issued and not yet resolved. */
  class Chat {
    var input: string
    var messages: seq<Message>
    var loading: bool
    var loadingDots: string
    var sent: seq<string>
    var outstanding: nat

    ghost predicate Valid()
      reads this
    {
      |loadingDots| <= 3 && loadingDots == Dots(|loadingDots|) &&
      (!loading ==> loadingDots == "") &&
      (loading ==> outstanding > 0) &&
      outstanding <= |sent|
    }

    /** At most one request in flight, and it is the one `loading` shows. This holds when
        only the button submits; the Enter key can break it. */
    predicate OneInFlight()
      reads this
    {
      outstanding == if loading then 1 else 0
    }

    constructor ()
      ensures Valid() && OneInFlight()
      ensures input == "" && messages == [] && !loading && loadingDots == ""
      ensures sent == [] && outstanding == 0
    {
      input, messages, loading, loadingDots := "", [], false, "";
      sent, outstanding := [], 0;
    }

    /** The text area's `onChange`. */
    method Edit(text: string)
      requires Valid()
      modifies this`input
      ensures Valid() && input == text
    {
      input := text;
    }

    /** `handleVerify` up to the `await`. It has no check of `loading` of its own. */
    method Submit() returns (accepted: bool)
      requires Valid()
      modifies this
      ensures Valid()
      ensures accepted <==> !IsBlank(old(input))
      ensures !accepted ==> (input == old(input) && messages == old(messages) &&
        loading == old(loading) && loadingDots == old(loadingDots) &&
        sent == old(sent) && outstanding == old(outstanding))
      ensures accepted ==> (messages == old(messages) + [Message(User, Plain(old(input)))] &&
        loading && input == "" && loadingDots == old(loadingDots) &&
        sent == old(sent) + [old(input)] && outstanding == old(outstanding) + 1)
    {
      if IsBlank(input) {
        return false;
      }
      var text := input;
      messages := messages + [Message(User, Plain(text))];
      loading := true;
      input := "";
      sent := sent + [text];
      outstanding := outstanding + 1;
      accepted := true;
    }

    /** The send button: `disabled={loading}`, so a click while loading does nothing. */
    method ClickSubmit() returns (accepted: bool)
      requires Valid()
      modifies this
      ensures Valid()
      ensures accepted <==> !old(loading) && !IsBlank(old(input))
      ensures !accepted ==> (input == old(input) && messages == old(messages) &&
        loading == old(loading) && loadingDots == old(loadingDots) &&
        sent == old(sent) && outstanding == old(outstanding))
      ensures accepted ==> (messages == old(messages) + [Message(User, Plain(old(input)))] &&
        loading && input == "" && loadingDots == "" &&
        sent == old(sent) + [old(input)] && outstanding == old(outstanding) + 1)
      ensures old(OneInFlight()) ==> OneInFlight()
    {
      if loading {
        return false;
      }
      accepted := Submit();
    }

    /** The text area's `onKeyDown`: Enter without Shift calls `handleVerify`, loading or not. */
    method KeyDown(key: string, shiftKey: bool) returns (accepted: bool)
      requires Valid()
      modifies this
      ensures Valid()
      ensures accepted <==> key == "Enter" && !shiftKey && !IsBlank(old(input))
      ensures !accepted ==> (input == old(input) && messages == old(messages) &&
        loading == old(loading) && loadingDots == old(loadingDots) &&
        sent == old(sent) && outstanding == old(outstanding))
      ensures accepted ==> (messages == old(messages) + [Message(User, Plain(old(input)))] &&
        loading && input == "" && loadingDots == old(loadingDots) &&
        sent == old(sent) + [old(input)] && outstanding == old(outstanding) + 1)
    {
      if key == "Enter" && !shiftKey {
        accepted := Submit();
      } else {
        accepted := false;
      }
    }

    /** A request's response parsed: one assistant entry, then `finally` clears loading,
        and the effect on `loading` resets the dots. */
    method ResolveOk(data: Json)
      requires Valid() && outstanding > 0
      modifies this
      ensures Valid()
      ensures messages == old(messages) + [ReplyMessage(data)]
      ensures !loading && loadingDots == "" && input == old(input)
      ensures sent == old(sent) && outstanding == old(outstanding) - 1
      ensures old(OneInFlight()) ==> OneInFlight()
    {
      messages := messages + [ReplyMessage(data)];
      loading := false;
      loadingDots := "";
      outstanding := outstanding - 1;
    }

    /** A request failed (status not ok, network error, body not JSON): the fixed error
        entry, whatever the cause, then loading is cleared. */
    method ResolveErr()
      requires Valid() && outstanding > 0
      modifies this
      ensures Valid()
      ensures messages == old(messages) + [Message(Assistant, Plain(ErrorText))]
      ensures !loading && loadingDots == "" && input == old(input)
      ensures sent == old(sent) && outstanding == old(outstanding) - 1
      ensures old(OneInFlight()) ==> OneInFlight()
    {
      messages := messages + [Message(Assistant, Plain(ErrorText))];
      loading := false;
      loadingDots := "";
      outstanding := outstanding - 1;
    }

    /** One period of the interval. The interval exists only while loading; otherwise
        the tick is not delivered and nothing changes. */
    method Tick()
      requires Valid()
      modifies this`loadingDots
      ensures Valid()
      ensures loadingDots == if loading then NextDots(old(loadingDots)) else old(loadingDots)
    {
      if loading {
        var n := |loadingDots|;
        loadingDots := NextDots(loadingDots);
        assert loadingDots == Dots(if n < 3 then n + 1 else 0);
      }
    }
  }

  /** A verdict comes back: two entries, the second the verdict's fields verbatim. */
  method ScenarioVerdict() {
    var chat := new Chat();
    chat.Edit("Is this headline true?");
    assert !Strings.In('I', Strings.JsWhitespace);
    var ok := chat.ClickSubmit();
    assert ok && chat.loading && chat.sent == ["Is this headline true?"];
    var body := map["verdict" := JStr("Likely False"), "confidence" := JStr("82%"),
                    "explanation" := JStr("No credible source corroborates this claim.")];
    chat.ResolveOk(JObj(body));
    ReplyCopiesFields(body);
    assert |chat.messages| == 2 && !chat.loading;
    assert chat.messages[1].content == Verdict(Value(JStr("Likely False")), Value(JStr("82%")),
      Value(JStr("No credible source corroborates this claim.")));
  }

  /** A network error: two entries, the second the fixed error text. */
  method ScenarioNetworkError() {
    var chat := new Chat();
    chat.Edit("hello");
    assert !Strings.In('h', Strings.JsWhitespace);
    var ok := chat.ClickSubmit();
    chat.ResolveErr();
    assert |chat.messages| == 2 && chat.messages[1].content == Plain(ErrorText) && !chat.loading;
  }

  /** Whitespace only: no entry and no request. */
  method ScenarioBlank() {
    var chat := new Chat();
    chat.Edit("   ");
    BlankIffAllSpace("   ");
    var ok := chat.ClickSubmit();
    assert !ok && chat.messages == [] && chat.sent == [] && !chat.loading;
  }

  /** While "a" is pending the button ignores "b", but the Enter key sends it: two
      requests are in flight, and the first answer clears `loading` under the second. */
  method ScenarioOverlap() {
    var chat := new Chat();
    chat.Edit("a");
    assert !Strings.In('a', Strings.JsWhitespace);
    var ok := chat.ClickSubmit();
    chat.Edit("b");
    assert !Strings.In('b', Strings.JsWhitespace);
    ok := chat.ClickSubmit();
    assert !ok && chat.sent == ["a"];
    ok := chat.KeyDown("Enter", false);
    assert ok && chat.sent == ["a", "b"] && chat.outstanding == 2 && !chat.OneInFlight();
    chat.ResolveErr();
    assert !chat.loading && chat.outstanding == 1;
  }
}
