/** The web-search helper's collection of snippets from a DuckDuckGo instant-answer
    response: the abstract, then the text of each related topic, cut to the requested
    number, with a fixed item when nothing was found and an error item when anything
    raises. The HTTP request is replaced by its outcome. */
module SearchSnippets {
  import opened Json

  datatype Option<T> = None | Some(value: T)

  /** What `requests.get(...).json()` gave: it raised, or it gave a decoded value. */
  datatype Fetched = Failed | Received(data: Json)

  const NoInfo: Json := JStr("No factual info found.")

  /** The count `search_web` uses when its caller gives none. */
  const DefaultNumResults: int := 3

  /** The single item returned when an exception is caught; `message` is `str(e)`. */
  function ErrorItem(message: string): Json {
    JStr("Search error: " + message)
  }

  /** `key` occurs as a contiguous piece of `s` (Python's `key in s` on strings). */
  predicate Occurs(key: string, s: string)
    decreases |s|
  {
    |key| <= |s| && (s[..|key|] == key || (s != [] && Occurs(key, s[1..])))
  }

  /** Python's `key in data`: dict keys, list elements, substrings; any other value
      raises `TypeError` (None). */
  function Contains(data: Json, key: string): Option<bool> {
    match data
    case JObj(fields) => Some(key in fields)
    case JArr(items) => Some(JStr(key) in items)
    case JStr(s) => Some(Occurs(key, s))
    case _ => None
  }

  /** What one related topic adds: its `Text` when it is a dict that has one. */
  function TopicText(topic: Json): seq<Json> {
    if topic.JObj? && "Text" in topic.fields then [topic.fields["Text"]] else []
  }

  /** What the loop over a list of related topics adds, in order. */
  function TopicTexts(topics: seq<Json>): seq<Json>
    decreases |topics|
  {
    if topics == [] then [] else TopicTexts(topics[..|topics| - 1]) + TopicText(topics[|topics| - 1])
  }

  /** What iterating `data["RelatedTopics"]` adds: a list's qualifying elements. A dict
      iterates over its keys and a str over its characters, none of them a dict, so
      nothing is added; iterating any other value raises (None). */
  function TopicsAdded(related: Json): Option<seq<Json>> {
    match related
    case JArr(items) => Some(TopicTexts(items))
    case JObj(_) => Some([])
    case JStr(_) => Some([])
    case _ => None
  }

  /** The list collected before truncation, or None when collecting raises. Indexing
      anything but a dict with a string raises `TypeError`. */
  function Collected(data: Json): Option<seq<Json>> {
    match Contains(data, "AbstractText")
    case None => None
    case Some(hasAbstract) =>
      if hasAbstract && !data.JObj? then None
      else
        var head := if hasAbstract && Truthy(data.fields["AbstractText"])
          then [data.fields["AbstractText"]] else [];
        if Contains(data, "RelatedTopics") != Some(true) then Some(head)
        else if !data.JObj? then None
        else match TopicsAdded(data.fields["RelatedTopics"])
          case None => None
          case Some(texts) => Some(head + texts)
  }

  /** Python's `results[:n]`: a prefix, counted from the end when `n` is negative. */
  function Take(results: seq<Json>, n: int): (r: seq<Json>)
    ensures |r| == if n >= 0 then (if n <= |results| then n else |results|)
      else (if |results| + n >= 0 then |results| + n else 0)
    ensures r == results[..|r|]
  {
    if n >= 0 then (if n <= |results| then results[..n] else results)
    else if |results| + n >= 0 then results[..|results| + n] else []
  }

  /** What `search_web` returns. */
  function SearchResult(fetched: Fetched, numResults: int, errorText: string): seq<Json> {
    if fetched.Failed? then [ErrorItem(errorText)]
    else match Collected(fetched.data)
      case None => [ErrorItem(errorText)]
      case Some(results) => if results != [] then Take(results, numResults) else [NoInfo]
  }

  /** The `for topic in data["RelatedTopics"]` loop over a list. */
  method AppendTopicTexts(results: seq<Json>, topics: seq<Json>) returns (out: seq<Json>)
    ensures out == results + TopicTexts(topics)
  {
    out := results;
    var i := 0;
    while i < |topics|
      invariant 0 <= i <= |topics|
      invariant out == results + TopicTexts(topics[..i])
    {
      var topic := topics[i];
      assert topics[..i + 1][..i] == topics[..i];
      if topic.JObj? && "Text" in topic.fields {
        out := out + [topic.fields["Text"]];
      }
      i := i + 1;
    }
    assert topics[..|topics|] == topics;
  }

  /** `search_web` after the request: the `results` list built by appends, then cut. */
  method SearchWeb(fetched: Fetched, numResults: int, errorText: string) returns (r: seq<Json>)
    ensures r == SearchResult(fetched, numResults, errorText)
  {
    if fetched.Failed? {
      return [ErrorItem(errorText)];
    }
    var data := fetched.data;
    var hasAbstract := Contains(data, "AbstractText");
    if hasAbstract.None? {
      assert Collected(data).None?;
      return [ErrorItem(errorText)];
    }
    var results: seq<Json> := [];
    if hasAbstract.value {
      if !data.JObj? {
        return [ErrorItem(errorText)];
      }
      var summary := data.fields["AbstractText"];
      if Truthy(summary) {
        results := results + [summary];
      }
    }
    ghost var head := results;
    assert head == if hasAbstract.value && Truthy(data.fields["AbstractText"])
      then [data.fields["AbstractText"]] else [];
    if Contains(data, "RelatedTopics") == Some(true) {
      if !data.JObj? {
        return [ErrorItem(errorText)];
      }
      var related := data.fields["RelatedTopics"];
      match related {
        case JArr(topics) =>
          results := AppendTopicTexts(results, topics);
        case JObj(_) =>
          assert results == head + [];
        case JStr(_) =>
          assert results == head + [];
        case _ =>
          return [ErrorItem(errorText)];
      }
    }
    assert Collected(data) == Some(results);
    r := if results != [] then Take(results, numResults) else [NoInfo];
  }

  /** Topics contribute piecewise, so their texts keep the topics' order. */
  lemma {:induction false} TopicTextsAppend(a: seq<Json>, b: seq<Json>)
    ensures TopicTexts(a + b) == TopicTexts(a) + TopicTexts(b)
    decreases |b|
  {
    if b == [] {
      assert a + b == a;
    } else {
      var b' := b[..|b| - 1];
      assert (a + b)[..|a + b| - 1] == a + b';
      assert (a + b)[|a + b| - 1] == b[|b| - 1];
      TopicTextsAppend(a, b');
    }
  }

  /** `topic` is a dict whose `Text` is `x`. */
  predicate GivesText(topic: Json, x: Json) {
    topic.JObj? && "Text" in topic.fields && topic.fields["Text"] == x
  }

  /** Each collected text comes from some topic. */
  lemma {:induction false} TextSource(topics: seq<Json>, x: Json) returns (i: nat)
    requires x in TopicTexts(topics)
    ensures i < |topics| && GivesText(topics[i], x)
    decreases |topics|
  {
    var init := topics[..|topics| - 1];
    if x in TopicTexts(init) {
      i := TextSource(init, x);
      assert topics[i] == init[i];
    } else {
      i := |topics| - 1;
    }
  }

  /** Each topic that is a dict with a `Text` has that text collected. */
  lemma {:induction false} TextCollected(topics: seq<Json>, i: nat, x: Json)
    requires i < |topics| && GivesText(topics[i], x)
    ensures x in TopicTexts(topics)
    decreases |topics|
  {
    var init := topics[..|topics| - 1];
    if i < |init| {
      assert init[i] == topics[i];
      TextCollected(init, i, x);
    }
  }

  /** A value is among the topics' texts exactly when some topic is a dict whose
      `Text` is that value. */
  lemma TopicTextsMembers(topics: seq<Json>, x: Json)
    ensures x in TopicTexts(topics) <==> exists i :: 0 <= i < |topics| && GivesText(topics[i], x)
  {
    if x in TopicTexts(topics) {
      var i := TextSource(topics, x);
    }
    if exists i :: 0 <= i < |topics| && GivesText(topics[i], x) {
      var i :| 0 <= i < |topics| && GivesText(topics[i], x);
      TextCollected(topics, i, x);
    }
  }

  /** Topics that are not dicts with a `Text` are skipped: removing them changes nothing. */
  lemma {:induction false} SkippedTopics(a: seq<Json>, topic: Json, b: seq<Json>)
    requires !topic.JObj? || "Text" !in topic.fields
    ensures TopicTexts(a + [topic] + b) == TopicTexts(a + b)
  {
    var a' := a + [topic];
    assert a'[..|a'| - 1] == a;
    assert TopicTexts(a') == TopicTexts(a);
    TopicTextsAppend(a', b);
    TopicTextsAppend(a, b);
  }

  /** The abstract is collected, first, exactly when the key is present and its value is
      truthy; the rest comes from the related topics. */
  lemma AbstractFirst(fields: map<string, Json>)
    requires Collected(JObj(fields)).Some?
    ensures var results := Collected(JObj(fields)).value;
      var hasAbstract := "AbstractText" in fields && Truthy(fields["AbstractText"]);
      var rest := if "RelatedTopics" in fields then TopicsAdded(fields["RelatedTopics"]).value else [];
      results == (if hasAbstract then [fields["AbstractText"]] else []) + rest
  {
  }

  /** When nothing is collected the answer is the fixed item. */
  lemma NothingFound(data: Json, numResults: int, errorText: string)
    requires Collected(data) == Some([])
    ensures SearchResult(Received(data), numResults, errorText) == [NoInfo]
  {
  }

  /** Otherwise, for a non-negative count, the answer is the longest prefix of the
      collected list of at most that length; for zero it is empty. */
  lemma FirstResults(data: Json, numResults: nat, errorText: string)
    requires Collected(data).Some? && Collected(data).value != []
    ensures var results := Collected(data).value;
      var r := SearchResult(Received(data), numResults, errorText);
      r == results[..if numResults <= |results| then numResults else |results|] &&
      (numResults == 0 ==> r == [])
  {
  }

  /** Every item of a found answer is the abstract or some related topic's `Text`. */
  lemma ResultsFromResponse(fields: map<string, Json>, numResults: int, errorText: string, x: Json)
    requires Collected(JObj(fields)).Some? && Collected(JObj(fields)).value != []
    requires x in SearchResult(Received(JObj(fields)), numResults, errorText)
    ensures ("AbstractText" in fields && x == fields["AbstractText"]) ||
      ("RelatedTopics" in fields && fields["RelatedTopics"].JArr? &&
       exists i :: 0 <= i < |fields["RelatedTopics"].items| &&
         GivesText(fields["RelatedTopics"].items[i], x))
  {
    var results := Collected(JObj(fields)).value;
    var r := SearchResult(Received(JObj(fields)), numResults, errorText);
    assert r == Take(results, numResults);
    assert x in results;
    AbstractFirst(fields);
    var hasAbstract := "AbstractText" in fields && Truthy(fields["AbstractText"]);
    var head := if hasAbstract then [fields["AbstractText"]] else [];
    if x !in head {
      assert "RelatedTopics" in fields;
      var related := fields["RelatedTopics"];
      assert related.JArr?;
      TopicTextsMembers(related.items, x);
    }
  }

  /** Python's `in` raises on numbers, booleans and `None`, and answers on the rest. */
  lemma ContainsRaisesOnScalars(data: Json, key: string)
    ensures Contains(data, key).None? <==> data.JNull? || data.JBool? || data.JInt? || data.JFloat?
  {
  }

  /** A response that is not a dict never yields a snippet: collecting either raises or
      finds nothing, so the answer is the error item or the fixed item. */
  lemma NonObjectFindsNothing(data: Json, numResults: int, errorText: string)
    requires !data.JObj?
    ensures Collected(data) == None || Collected(data) == Some([])
    ensures SearchResult(Received(data), numResults, errorText) in
      {[ErrorItem(errorText)], [NoInfo]}
  {
  }

  /** With the default count, a found answer is the first three collected items, or all
      of them when there are fewer. */
  lemma DefaultFirstThree(data: Json, errorText: string)
    requires Collected(data).Some? && Collected(data).value != []
    ensures var results := Collected(data).value;
      SearchResult(Received(data), DefaultNumResults, errorText) ==
        results[..if |results| < 3 then |results| else 3]
  {
  }

  /** Any exception, from the request or from collecting, gives one item that starts
      with the error prefix. */
  lemma ErrorAnswer(fetched: Fetched, numResults: int, errorText: string)
    requires fetched.Failed? || Collected(fetched.data).None?
    ensures var r := SearchResult(fetched, numResults, errorText);
      |r| == 1 && r[0].JStr? && |r[0].s| >= 14 && r[0].s[..14] == "Search error: "
  {
  }
}
