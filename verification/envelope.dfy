/** `extractOutputText`, the same in both backend variants: the generated text inside the
    provider's decoded reply. Three reply shapes are understood: a message whose content is a
    list of blocks (the first block with a text wins), a list of results carrying
    `outputText`, and a bare `completion`. */
module Envelope {
  import opened Wrappers
  import opened JsValue

  /** `content.find(item => item?.text)`: the position of the first block whose `text` is
      truthy, if any. */
  function FirstWithText(blocks: seq<Value>): (k: Option<nat>)
    ensures k.Some? ==> k.value < |blocks| && Truthy(Get(blocks[k.value], "text"))
    ensures k.Some? ==> forall j :: 0 <= j < k.value ==> !Truthy(Get(blocks[j], "text"))
    ensures k.None? <==> forall j :: 0 <= j < |blocks| ==> !Truthy(Get(blocks[j], "text"))
    decreases |blocks|
  {
    if blocks == [] then None
    else if Truthy(Get(blocks[0], "text")) then Some(0)
    else
      var rest := FirstWithText(blocks[1..]);
      if rest.None? then None else Some(rest.value + 1)
  }

  /** `decoded?.output?.message?.content`. */
  function ContentList(decoded: Value): Value {
    Get(Get(Get(decoded, "output"), "message"), "content")
  }

  /** The older reply shapes: `decoded?.results?.[0]?.outputText || decoded?.completion || ""`. */
  function Fallback(decoded: Value): (r: Value)
    ensures Truthy(r) || r == Str("")
    ensures Truthy(Get(At(Get(decoded, "results"), 0), "outputText")) ==> r == Get(At(Get(decoded, "results"), 0), "outputText")
    ensures !Truthy(Get(At(Get(decoded, "results"), 0), "outputText")) && Truthy(Get(decoded, "completion")) ==> r == Get(decoded, "completion")
    ensures !Truthy(Get(At(Get(decoded, "results"), 0), "outputText")) && !Truthy(Get(decoded, "completion")) ==> r == Str("")
  {
    Or(Get(At(Get(decoded, "results"), 0), "outputText"), Or(Get(decoded, "completion"), Str("")))
  }

  /** The reply's text: the first content block with a text when the content is a list that
      has one, otherwise the older shapes. The result is always truthy or the empty string. */
  function ExtractOutputText(decoded: Value): (r: Value)
    ensures Truthy(r) || r == Str("")
    ensures ContentList(decoded).Arr? && FirstWithText(ContentList(decoded).items).Some? ==>
      r == Get(ContentList(decoded).items[FirstWithText(ContentList(decoded).items).value], "text")
    ensures !(ContentList(decoded).Arr? && FirstWithText(ContentList(decoded).items).Some?) ==>
      r == Fallback(decoded)
  {
    var content := ContentList(decoded);
    if content.Arr? then
      var k := FirstWithText(content.items);
      if k.Some? then Get(content.items[k.value], "text") else Fallback(decoded)
    else Fallback(decoded)
  }

  /** A reply in the messages shape. */
  function MessageReply(blocks: seq<Value>): Value {
    Obj(map["output" := Obj(map["message" := Obj(map["content" := Arr(blocks)])])])
  }

  /** The text of the first block that has one is what comes back, whatever follows it. */
  lemma FirstBlockWins(t: string, u: string, rest: seq<Value>)
    requires t != ""
    ensures ExtractOutputText(MessageReply([Obj(map["text" := Str(t)]), Obj(map["text" := Str(u)])] + rest)) == Str(t)
  {
    var blocks := [Obj(map["text" := Str(t)]), Obj(map["text" := Str(u)])] + rest;
    assert ContentList(MessageReply(blocks)) == Arr(blocks);
    assert Get(blocks[0], "text") == Str(t);
  }

  /** Blocks without a text (such as tool-use blocks) are skipped. */
  lemma EmptyBlocksSkipped(t: string)
    requires t != ""
    ensures ExtractOutputText(MessageReply([Obj(map[]), Obj(map["text" := Str("")]), Obj(map["text" := Str(t)])])) == Str(t)
  {
    var blocks := [Obj(map[]), Obj(map["text" := Str("")]), Obj(map["text" := Str(t)])];
    assert ContentList(MessageReply(blocks)) == Arr(blocks);
    assert !Truthy(Get(blocks[0], "text")) && !Truthy(Get(blocks[1], "text"));
    assert FirstWithText(blocks[2..]) == Some(0);
  }

  /** The results shape and the completion shape. */
  lemma OlderShapes(t: string)
    requires t != ""
    ensures ExtractOutputText(Obj(map["results" := Arr([Obj(map["outputText" := Str(t)])])])) == Str(t)
    ensures ExtractOutputText(Obj(map["completion" := Str(t)])) == Str(t)
  {
    var titan := Obj(map["results" := Arr([Obj(map["outputText" := Str(t)])])]);
    assert Get(titan, "output") == Undefined;
    assert At(Get(titan, "results"), 0) == Obj(map["outputText" := Str(t)]);
    var plain := Obj(map["completion" := Str(t)]);
    assert Get(plain, "output") == Undefined && Get(plain, "results") == Undefined;
  }

  /** A content list in which no block has a text falls through to the older shapes: with
      nothing there either, the result is the empty string. */
  lemma NoTextAnywhere(blocks: seq<Value>)
    requires forall j :: 0 <= j < |blocks| ==> !Truthy(Get(blocks[j], "text"))
    ensures ExtractOutputText(MessageReply(blocks)) == Str("")
  {
    var d := MessageReply(blocks);
    assert ContentList(d) == Arr(blocks);
    assert Get(d, "results") == Undefined && Get(d, "completion") == Undefined;
  }
}
