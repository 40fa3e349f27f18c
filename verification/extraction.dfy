/** `extract_action_items` without the model call and the JSON parser: how
    the response text is sliced into JSON text (fenced block, then braces),
    the synthetic item when there is no JSON at all, and the id filling
    after parsing. The parser (`json.loads` followed by
    `.get("action_items", [])`) is a parameter; so is the id generator. */
module Extraction {
  import opened Items
  import opened PyStr

  /** One parsed action item: a JSON object with string values. */
  type JsonItem = map<string, string>

  const FenceOpen: string := "```json"
  const FenceClose: string := "```"

  /** Which tier of the slicing applies, with the text it hands to the
      parser. */
  datatype Tier = Fenced(json: string) | Braced(json: string) | NoJson

  /** The first tier: the stripped text after the first "```json", up to
      the next "```" (or, when there is none, up to the `-1` slice end). */
  function FencedJson(text: string): string
    requires Contains(text, FenceOpen)
  {
    var start := Find(text, FenceOpen, 0) + |FenceOpen|;
    Strip(Slice(text, start, Find(text, FenceClose, start)))
  }

  /** The second tier: from the first `{` to just after the last `}`. */
  function BracedJson(text: string): string
  {
    Slice(text, Find(text, "{", 0), RFind(text, "}") + 1)
  }

  /** The tiered choice on the stripped response text. */
  function ChooseTier(text: string): (t: Tier)
    ensures Contains(text, FenceOpen) ==> t.Fenced?
    ensures t.Braced? <==> !Contains(text, FenceOpen) && Contains(text, "{") && Contains(text, "}")
    ensures t.NoJson? <==> !Contains(text, FenceOpen) && !(Contains(text, "{") && Contains(text, "}"))
  {
    if Contains(text, FenceOpen) then Fenced(FencedJson(text))
    else if Contains(text, "{") && Contains(text, "}") then Braced(BracedJson(text))
    else NoJson
  }

  lemma FencedTier(text: string)
    requires Contains(text, FenceOpen)
    ensures ChooseTier(text) == Fenced(FencedJson(text))
  {
  }

  /** With a closing fence, the parser gets the stripped text between the
      first opening fence and the next closing fence, braces or not. */
  lemma FencedClosed(text: string, p: int, q: int)
    requires p == Find(text, FenceOpen, 0) && p >= 0
    requires q == Find(text, FenceClose, p + 7) && q >= 0
    ensures p + 7 <= q <= |text| && ChooseTier(text) == Fenced(Strip(text[p + 7..q]))
  {
    assert |FenceOpen| == 7 && |FenceClose| == 3;
    assert FencedJson(text) == Strip(Slice(text, p + 7, q));
    assert Slice(text, p + 7, q) == text[p + 7..q];
    FencedTier(text);
  }

  /** Without a closing fence, `find` gives -1 and the slice `[start:-1]`
      stops one short of the end: the last character of the response is
      lost. */
  lemma FencedUnclosedDropsLast(text: string, p: int)
    requires p == Find(text, FenceOpen, 0) && p >= 0
    requires Find(text, FenceClose, p + 7) == -1
    ensures p + 7 < |text| ==> ChooseTier(text) == Fenced(Strip(text[p + 7..|text| - 1]))
    ensures p + 7 == |text| ==> ChooseTier(text) == Fenced("")
  {
    assert |FenceOpen| == 7;
    assert FencedJson(text) == Strip(Slice(text, p + 7, -1));
    FencedTier(text);
  }

  /** The brace slice runs from the first `{` to the last `}`. */
  lemma BracedSlice(text: string, i: int, j: int)
    requires i == Find(text, "{", 0) && j == RFind(text, "}") && 0 <= i < j
    ensures BracedJson(text) == text[i..j + 1]
    ensures text[i] == '{' && text[j] == '}'
    ensures forall k :: 0 <= k < i ==> text[k] != '{'
    ensures forall k :: j < k < |text| ==> text[k] != '}'
  {
    FindChar(text, '{', i);
    RFindChar(text, '}', j);
  }

  /** Without a fence, the parser gets everything from the first `{` to the
      last `}`, both included. */
  lemma BracedSpan(text: string, i: int, j: int)
    requires !Contains(text, FenceOpen)
    requires i == Find(text, "{", 0) && j == RFind(text, "}") && 0 <= i < j
    ensures ChooseTier(text) == Braced(text[i..j + 1])
    ensures text[i] == '{' && text[j] == '}'
    ensures forall k :: 0 <= k < i ==> text[k] != '{'
    ensures forall k :: j < k < |text| ==> text[k] != '}'
  {
    BracedSlice(text, i, j);
    assert Contains(text, "{") && Contains(text, "}");
  }

  /** When every `}` comes before the first `{`, the slice is empty and the
      parser gets the empty string. */
  lemma BracedReversedIsEmpty(text: string, i: int, j: int)
    requires !Contains(text, FenceOpen)
    requires i == Find(text, "{", 0) && j == RFind(text, "}") && 0 <= j < i
    ensures ChooseTier(text) == Braced("")
  {
    assert Contains(text, "{") && Contains(text, "}");
    assert BracedJson(text) == Slice(text, i, j + 1);
  }

  const FallbackTask: string := "Review meeting transcript for action items"

  /** `text[:200] + "..."` when the text is longer than 200 characters,
      the text itself otherwise. */
  function Truncate(text: string): (r: string)
    ensures |text| <= 200 ==> r == text
    ensures |text| > 200 ==> |r| == 203 && r[..200] == text[..200] && r[200..] == "..."
  {
    if |text| > 200 then text[..200] + "..." else text
  }

  /** The single synthetic item returned when the response holds no JSON. */
  function FallbackItem(text: string, id: string): (item: JsonItem)
    ensures item.Keys == {"id", "task", "assignee", "deadline", "priority", "context"}
    ensures item["id"] == id && item["task"] == FallbackTask
    ensures item["assignee"] == "Unassigned" && item["deadline"] == "No deadline" && item["priority"] == "Medium"
    ensures |item["context"]| <= 203 && item["context"] == Truncate(text)
  {
    map["id" := id, "task" := FallbackTask, "assignee" := "Unassigned",
        "deadline" := "No deadline", "priority" := "Medium", "context" := Truncate(text)]
  }

  /** The id filling: an item that has an `id` key keeps it as it is (any
      value, duplicates included); an item without one gets `id`. */
  function WithId(item: JsonItem, id: string): (r: JsonItem)
    ensures "id" in r
    ensures "id" in item ==> r == item
    ensures "id" !in item ==> r["id"] == id && r.Keys == item.Keys + {"id"}
    ensures forall k :: k in item && k != "id" ==> k in r && r[k] == item[k]
  {
    if "id" in item then item else item["id" := id]
  }

  /** The `for item in action_items` loop that fills missing ids; the i-th
      item draws `newId(i)`. */
  method FillIds(items: seq<JsonItem>, newId: nat -> string) returns (filled: seq<JsonItem>)
    ensures |filled| == |items|
    ensures forall i :: 0 <= i < |items| ==> filled[i] == WithId(items[i], newId(i))
  {
    filled := [];
    for i := 0 to |items|
      invariant |filled| == i
      invariant forall j :: 0 <= j < i ==> filled[j] == WithId(items[j], newId(j))
    {
      var item := items[i];
      if "id" !in item {
        item := item["id" := newId(i)];
      }
      filled := filled + [item];
    }
  }

  /** `extract_action_items` after the model call. `response` is the
      model's text, `None` when the call (or reading its text) raised;
      `parse` is `json.loads` followed by `.get("action_items", [])`,
      `None` when either raised. Every failure ends in an empty list. */
  method Extract(response: Option<string>, parse: string -> Option<seq<JsonItem>>, newId: nat -> string)
    returns (items: seq<JsonItem>)
    ensures response.None? ==> items == []
    ensures response.Some? && ChooseTier(Strip(response.value)).NoJson? ==>
      items == [FallbackItem(Strip(response.value), newId(0))]
    ensures response.Some? && !ChooseTier(Strip(response.value)).NoJson? ==>
      var parsed := parse(ChooseTier(Strip(response.value)).json);
      (parsed.None? ==> items == []) &&
      (parsed.Some? ==>
         |items| == |parsed.value| &&
         forall i :: 0 <= i < |items| ==> items[i] == WithId(parsed.value[i], newId(i)))
    ensures forall i :: 0 <= i < |items| ==> "id" in items[i]
  {
    if response.None? {
      return [];
    }
    var text := Strip(response.value);
    var tier := ChooseTier(text);
    if tier.NoJson? {
      return [FallbackItem(text, newId(0))];
    }
    var parsed := parse(tier.json);
    if parsed.None? {
      return [];
    }
    items := FillIds(parsed.value, newId);
  }

  /** No backtick anywhere in `s`. */
  predicate NoBacktick(s: string)
  {
    forall k :: 0 <= k < |s| ==> s[k] != '`'
  }

  /** A reply of prose followed by a fenced JSON block. */
  function Reply(prose: string, json: string): string
  {
    prose + FenceOpen + "\n" + json + "\n" + FenceClose
  }

  /** The opening fence of such a reply is found right after the prose. */
  lemma ReplyOpenFence(prose: string, json: string)
    requires NoBacktick(prose)
    ensures Find(Reply(prose, json), FenceOpen, 0) == |prose|
  {
    var text := Reply(prose, json);
    var p := |prose|;
    assert text[p..p + 7] == FenceOpen;
    forall k | 0 <= k < p
      ensures text[k] != FenceOpen[0]
    {
      assert text[k] == prose[k];
    }
    FindFirst(text, FenceOpen, 0, p);
  }

  /** Its closing fence is found right after the JSON line, and between the
      two fences lies the JSON on a line of its own. */
  lemma ReplyCloseFence(prose: string, json: string)
    requires NoBacktick(json)
    ensures var p, q := |prose|, |prose| + 7 + |json| + 2;
      q <= |Reply(prose, json)| &&
      Find(Reply(prose, json), FenceClose, p + 7) == q &&
      Reply(prose, json)[p + 7..q] == "\n" + json + "\n"
  {
    var text := Reply(prose, json);
    var body := "\n" + json + "\n";
    var p := |prose|;
    var q := p + 7 + |body|;
    assert text == prose + FenceOpen + body + FenceClose;
    assert text[q..q + 3] == FenceClose;
    assert text[p + 7..q] == body;
    forall k | p + 7 <= k < q
      ensures text[k] != FenceClose[0]
    {
      assert text[k] == body[k - p - 7];
      if 1 <= k - p - 7 < 1 + |json| {
        assert body[k - p - 7] == json[k - p - 8];
      }
    }
    FindFirst(text, FenceClose, p + 7, q);
  }

  /** The JSON line between the fences of such a reply. */
  function ReplyBody(prose: string, json: string): string
    requires NoBacktick(json)
  {
    ReplyCloseFence(prose, json);
    Reply(prose, json)[|prose| + 7..|prose| + 7 + |json| + 2]
  }

  lemma ReplyTier(prose: string, json: string)
    requires NoBacktick(prose) && NoBacktick(json)
    ensures ChooseTier(Reply(prose, json)) == Fenced(Strip(ReplyBody(prose, json)))
  {
    ReplyOpenFence(prose, json);
    ReplyCloseFence(prose, json);
    FencedClosed(Reply(prose, json), |prose|, |prose| + 7 + |json| + 2);
  }

  lemma ReplyBodyStrips(prose: string, json: string)
    requires NoBacktick(json)
    requires json != [] && !IsSpace(json[0]) && !IsSpace(json[|json| - 1])
    ensures Strip(ReplyBody(prose, json)) == json
  {
    ReplyCloseFence(prose, json);
    StripFramed("\n", json, "\n");
  }

  /** A reply made of prose without backticks, then a fenced block whose
      JSON has no backticks and no surrounding whitespace of its own: the
      parser is handed exactly that JSON. */
  lemma FencedReply(prose: string, json: string)
    requires NoBacktick(prose) && NoBacktick(json)
    requires json != [] && !IsSpace(json[0]) && !IsSpace(json[|json| - 1])
    ensures ChooseTier(Reply(prose, json)) == Fenced(json)
  {
    ReplyTier(prose, json);
    ReplyBodyStrips(prose, json);
  }
}
