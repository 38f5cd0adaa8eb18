/** The pure state transitions of the chat front end: chats and their messages, the title a
    chat takes from its first user message, what a request carries, and what the app does to
    the chat list on load, save, delete and after loading. Identifiers and clocks (`uid()`,
    `Date.now()`) are parameters: a new chat is passed in already made. */
module Chats {
  import opened Wrappers
  import opened Text
  import opened JsValue
  import opened History
  import opened Settings
  import opened Generate

  /** A message's `meta`: the flags the app reads, the model name the save step drops, and
      the other keys (latency, settings), which pass through. A message without `meta` has
      every flag false. */
  datatype Meta = Meta(thinking: bool, isError: bool, liked: bool, disliked: bool, model: Option<string>, other: map<string, Value>)

  /** A message. `lastPayload` is `Undefined` when the message has none. */
  datatype Message = Message(id: string, role: string, content: string, meta: Meta, lastPayload: Value)

  /** A chat's tool settings, as stored; an empty string stands for a missing (falsy) one. */
  datatype ChatSettings = ChatSettings(mode: string, length: string, tone: string)

  datatype Chat = Chat(id: string, title: string, createdAt: int, settings: ChatSettings, messages: seq<Message>)

  // ---------------------------------------------------------------------------------------
  // New chats and titles

  const NewChatTitle: string := "New chat"

  /** Characters of the first user message a title keeps before the ellipsis. */
  const TitleLength: nat := 32

  /** `s.mode || "general"`, `s.length || "medium"`, `s.tone || "professional"`: every
      missing setting takes its default and every present one is kept. */
  function Defaulted(s: ChatSettings): (r: ChatSettings)
    ensures r.mode != "" && r.length != "" && r.tone != ""
    ensures s.mode != "" ==> r.mode == s.mode
    ensures s.length != "" ==> r.length == s.length
    ensures s.tone != "" ==> r.tone == s.tone
  {
    ChatSettings(if s.mode != "" then s.mode else "general",
                 if s.length != "" then s.length else "medium",
                 if s.tone != "" then s.tone else "professional")
  }

  /** `defaultChat`: an empty chat titled "New chat", with the given id, time and settings. */
  function DefaultChat(id: string, now: int, s: ChatSettings): (c: Chat)
    ensures c.id == id && c.title == NewChatTitle && c.messages == []
    ensures c.settings == Defaulted(s)
  {
    Chat(id, NewChatTitle, now, Defaulted(s), [])
  }

  /** Index of the first user message, `|ms|` when there is none. */
  function FirstUser(ms: seq<Message>): (k: nat)
    ensures k <= |ms|
    ensures k < |ms| ==> ms[k].role == "user"
    ensures forall i :: 0 <= i < k ==> ms[i].role != "user"
  {
    if ms == [] then 0
    else if ms[0].role == "user" then 0
    else 1 + FirstUser(ms[1..])
  }

  /** `messages.find((m) => m.role === "user")?.content || ""`. */
  function FirstUserText(ms: seq<Message>): string {
    var k := FirstUser(ms);
    if k < |ms| then ms[k].content else ""
  }

  /** `deriveTitle`: "New chat" when the first user message is blank or missing; otherwise
      that message trimmed, cut to 32 characters and an ellipsis when it is longer. A title is
      never empty and never longer than 35 characters. */
  function DeriveTitle(ms: seq<Message>): (title: string)
    ensures 0 < |title| <= TitleLength + 3
    ensures Trim(FirstUserText(ms)) == "" ==> title == NewChatTitle
    ensures var t := Trim(FirstUserText(ms));
            t != "" ==> title == t || (|t| > TitleLength && title == t[..TitleLength] + "...")
  {
    var t := Trim(FirstUserText(ms));
    if t == "" then NewChatTitle
    else if |t| > TitleLength then t[..TitleLength] + "..."
    else t
  }

  /** Once a chat has a user message, adding messages never changes its title. */
  lemma {:induction false} TitleSettles(ms: seq<Message>, more: seq<Message>)
    requires FirstUser(ms) < |ms|
    ensures DeriveTitle(ms + more) == DeriveTitle(ms)
  {
    FirstUserPrefix(ms, more);
  }

  lemma {:induction false} FirstUserPrefix(ms: seq<Message>, more: seq<Message>)
    requires FirstUser(ms) < |ms|
    ensures FirstUser(ms + more) == FirstUser(ms)
    decreases |ms|
  {
    if ms[0].role != "user" {
      assert (ms + more)[1..] == ms[1..] + more;
      FirstUserPrefix(ms[1..], more);
    }
  }

  // ---------------------------------------------------------------------------------------
  // Meaningful chats

  /** A message that counts: not a thinking placeholder, from the user or the assistant, with
      text that is not blank. */
  predicate Meaningful(m: Message) {
    !m.meta.thinking && (m.role == "user" || m.role == "assistant") && Trim(m.content) != ""
  }

  /** `msgs.some(...)`: the scan stops at the first message that counts. */
  function AnyMeaningful(ms: seq<Message>): (b: bool)
    ensures b <==> exists i :: 0 <= i < |ms| && Meaningful(ms[i])
  {
    if ms == [] then false
    else if Meaningful(ms[0]) then true
    else
      assert forall i :: 1 <= i < |ms| ==> ms[i] == ms[1..][i - 1];
      AnyMeaningful(ms[1..])
  }

  /** `hasMeaningfulMessages`: some message of the chat is meaningful. */
  predicate HasMeaningfulMessages(c: Chat): (b: bool)
    ensures b <==> exists i :: 0 <= i < |c.messages| && Meaningful(c.messages[i])
  {
    AnyMeaningful(c.messages)
  }

  // ---------------------------------------------------------------------------------------
  // What a request carries

  /** `buildPayload`: mode, input and length always; the tone only for emails. */
  function BuildPayload(mode: string, tone: string, length: string, input: string): (p: Value)
    ensures p.Obj?
    ensures Get(p, "mode") == Str(mode) && Get(p, "input") == Str(input) && Get(p, "length") == Str(length)
    ensures "tone" in p.fields <==> mode == "email"
    ensures mode == "email" ==> Get(p, "tone") == Str(tone)
  {
    var p := map["mode" := Str(mode), "input" := Str(input), "length" := Str(length)];
    if mode == "email" then Obj(p["tone" := Str(tone)]) else Obj(p)
  }

  /** The backend reads a payload with the settings it names; the tone it reads outside email
      mode is always the default, whatever the sidebar shows. */
  lemma PayloadSettings(mode: string, tone: string, length: string, input: string)
    ensures var c := ChoiceOf(BuildPayload(mode, tone, length, input));
            && c.mode == ClampMode(Str(mode))
            && c.length == ClampLength(Str(length))
            && c.tone == (if mode == "email" then ClampTone(Str(tone)) else Professional)
  {
    var p := BuildPayload(mode, tone, length, input);
    assert Field(p, "mode") == Str(mode) && Field(p, "length") == Str(length);
    if mode != "email" {
      assert Field(p, "tone") == Undefined;
    } else {
      assert Field(p, "tone") == Str(tone);
    }
  }

  /** A message that may go into the history: from the user or the assistant, neither a
      thinking placeholder nor an error. */
  predicate Sendable(m: Message) {
    (m.role == "user" || m.role == "assistant") && !m.meta.thinking && !m.meta.isError
  }

  /** The history turn of a message that is sent, if any. */
  function TurnFor(m: Message): Option<Turn> {
    if Sendable(m) && Trim(m.content) != "" then Some(Turn(if m.role == "user" then User else Assistant, m.content))
    else None
  }

  /** The two filters of `buildHistory`, in order. */
  function Sent(ms: seq<Message>): (ts: seq<Turn>)
    ensures |ts| <= |ms|
    ensures forall i :: 0 <= i < |ts| ==> Trim(ts[i].text) != []
    decreases |ms|
  {
    if ms == [] then []
    else
      var t := TurnFor(ms[|ms| - 1]);
      Sent(ms[..|ms| - 1]) + (if t.Some? then [t.value] else [])
  }

  /** Filtering a conversation in two pieces gives the two pieces' turns, one after the other:
      the filters keep the messages' order. */
  lemma {:induction false} SentAppend(a: seq<Message>, b: seq<Message>)
    ensures Sent(a + b) == Sent(a) + Sent(b)
    decreases |b|
  {
    if b != [] {
      var b' := b[..|b| - 1];
      assert (a + b)[..|a + b| - 1] == a + b';
      SentAppend(a, b');
    } else {
      assert a + b == a;
    }
  }

  /** A turn is sent exactly when some message produces it. */
  lemma SentMembers(ms: seq<Message>, t: Turn)
    ensures t in Sent(ms) <==> exists i :: 0 <= i < |ms| && TurnFor(ms[i]) == Some(t)
  {
    if t in Sent(ms) {
      var i := SentSource(ms, t);
    }
    forall i | 0 <= i < |ms| && TurnFor(ms[i]) == Some(t) ensures t in Sent(ms) {
      SentKeeps(ms, i);
    }
  }

  /** Every sent turn comes from some message. */
  lemma {:induction false} SentSource(ms: seq<Message>, t: Turn) returns (i: nat)
    requires t in Sent(ms)
    ensures i < |ms| && TurnFor(ms[i]) == Some(t)
    decreases |ms|
  {
    var init := ms[..|ms| - 1];
    if t in Sent(init) {
      i := SentSource(init, t);
      assert ms[i] == init[i];
    } else {
      i := |ms| - 1;
      SentLast(ms, t);
    }
  }

  /** A sent turn that the earlier messages do not produce comes from the last message. */
  lemma SentLast(ms: seq<Message>, t: Turn)
    requires t in Sent(ms) && ms != [] && t !in Sent(ms[..|ms| - 1])
    ensures TurnFor(ms[|ms| - 1]) == Some(t)
  {
  }

  /** Every message that makes a turn has that turn sent. */
  lemma {:induction false} SentKeeps(ms: seq<Message>, i: nat)
    requires i < |ms| && TurnFor(ms[i]).Some?
    ensures TurnFor(ms[i]).value in Sent(ms)
    decreases |ms|
  {
    var init := ms[..|ms| - 1];
    var last := TurnFor(ms[|ms| - 1]);
    var extra := if last.Some? then [last.value] else [];
    assert Sent(ms) == Sent(init) + extra;
    if i < |init| {
      assert ms[i] == init[i];
      SentKeeps(init, i);
      assert TurnFor(ms[i]).value in Sent(init);
    } else {
      assert i == |ms| - 1;
    }
  }

  /** `buildHistory`: the last ten sendable turns with text, in order; all of them when there
      are ten or fewer. */
  function BuildHistory(ms: seq<Message>): (ts: seq<Turn>)
    ensures |ts| == if |Sent(ms)| < HistoryLimit then |Sent(ms)| else HistoryLimit
    ensures ts == Sent(ms)[|Sent(ms)| - |ts|..]
  {
    LastN(Sent(ms), HistoryLimit)
  }

  /** A turn as the request carries it: `{ role, content }`. */
  function ItemOf(t: Turn): Value {
    Obj(map["role" := Str(SpeakerName(t.role)), "content" := Str(t.text)])
  }

  function Items(ts: seq<Turn>): (vs: seq<Value>)
    ensures |vs| == |ts| && forall i :: 0 <= i < |ts| ==> vs[i] == ItemOf(ts[i])
  {
    seq(|ts|, i requires 0 <= i < |ts| => ItemOf(ts[i]))
  }

  /** The backend keeps the whole history the app sends: every turn the app builds survives
      `normalizeHistory` unchanged and in order. */
  lemma HistoryReachesModel(ms: seq<Message>)
    ensures NormalizeHistory(Arr(Items(BuildHistory(ms)))) == BuildHistory(ms)
  {
    var ts := BuildHistory(ms);
    CleanedItems(ts);
  }

  lemma {:induction false} CleanedItems(ts: seq<Turn>)
    requires forall i :: 0 <= i < |ts| ==> Trim(ts[i].text) != []
    ensures Cleaned(Items(ts)) == ts
    decreases |ts|
  {
    if ts != [] {
      var n := |ts| - 1;
      SplitLast(ts);
      var items := Items(ts);
      assert items[..n] == Items(ts[..n]);
      CleanedItems(ts[..n]);
      ItemRoundTrip(ts[n]);
      CleanedStep(items, ts[..n], ts[n]);
    }
  }

  lemma SplitLast<T>(s: seq<T>)
    requires s != []
    ensures s == s[..|s| - 1] + [s[|s| - 1]]
  {
  }

  /** One step of the loop, with the previous steps and the last item already known. */
  lemma CleanedStep(items: seq<Value>, init: seq<Turn>, t: Turn)
    requires items != [] && Cleaned(items[..|items| - 1]) == init
    requires TurnOf(items[|items| - 1]) == Some(t)
    ensures Cleaned(items) == init + [t]
  {
  }

  lemma ItemRoundTrip(t: Turn)
    requires Trim(t.text) != []
    ensures TurnOf(ItemOf(t)) == Some(t)
  {
    var item := ItemOf(t);
    assert Truthy(item) && IsObjectType(item);
    var name := SpeakerName(t.role);
    PairFields("role", Str(name), "content", Str(t.text));
    if t.role == User {
      assert Get(item, "role") == Str("user");
    } else {
      assert Get(item, "role") == Str("assistant");
      assert Str("assistant") != Str("user") by { assert |"assistant"| != |"user"|; }
    }
  }

  /** Both fields of a two-field object can be read back. */
  lemma PairFields(k1: string, v1: Value, k2: string, v2: Value)
    requires |k1| != |k2|
    ensures Get(Obj(map[k1 := v1, k2 := v2]), k1) == v1 && Get(Obj(map[k1 := v1, k2 := v2]), k2) == v2
  {
    assert k1 != k2;
  }

  // ---------------------------------------------------------------------------------------
  // Changing one chat

  /** `appendMessage`: the message goes last in every chat with that id, whose title is
      derived again; every other chat stays as it was. */
  function AppendMessage(chats: seq<Chat>, chatId: string, m: Message): (r: seq<Chat>)
    ensures |r| == |chats|
    ensures forall i :: 0 <= i < |r| && chats[i].id != chatId ==> r[i] == chats[i]
    ensures forall i :: 0 <= i < |r| && chats[i].id == chatId ==>
      && r[i].messages == chats[i].messages + [m]
      && r[i].title == DeriveTitle(r[i].messages)
      && r[i] == chats[i].(messages := r[i].messages, title := r[i].title)
  {
    seq(|chats|, i requires 0 <= i < |chats| =>
      var c := chats[i];
      if c.id != chatId then c
      else c.(messages := c.messages + [m], title := DeriveTitle(c.messages + [m])))
  }

  /** Once a chat's title comes from a user message, appending to it keeps the title. */
  lemma AppendKeepsTitle(chats: seq<Chat>, chatId: string, m: Message, i: nat)
    requires i < |chats| && chats[i].id == chatId
    requires FirstUser(chats[i].messages) < |chats[i].messages|
    requires chats[i].title == DeriveTitle(chats[i].messages)
    ensures AppendMessage(chats, chatId, m)[i].title == chats[i].title
  {
    TitleSettles(chats[i].messages, [m]);
  }

  /** The messages of a chat with every message carrying `messageId` replaced. */
  function Replaced(ms: seq<Message>, messageId: string, next: Message): (r: seq<Message>)
    ensures |r| == |ms|
    ensures forall j :: 0 <= j < |ms| ==> r[j] == if ms[j].id == messageId then next else ms[j]
  {
    seq(|ms|, j requires 0 <= j < |ms| => if ms[j].id == messageId then next else ms[j])
  }

  /** `replaceMessage`: the message with that id is replaced in the chat, whose title is
      derived again; every other chat stays as it was. */
  function ReplaceMessage(chats: seq<Chat>, chatId: string, messageId: string, next: Message): (r: seq<Chat>)
    ensures |r| == |chats|
    ensures forall i :: 0 <= i < |r| && chats[i].id != chatId ==> r[i] == chats[i]
    ensures forall i :: 0 <= i < |r| && chats[i].id == chatId ==>
      && r[i].messages == Replaced(chats[i].messages, messageId, next)
      && r[i].title == DeriveTitle(r[i].messages)
      && r[i] == chats[i].(messages := r[i].messages, title := r[i].title)
  {
    seq(|chats|, i requires 0 <= i < |chats| =>
      var c := chats[i];
      if c.id != chatId then c
      else
        var ms := Replaced(c.messages, messageId, next);
        c.(messages := ms, title := DeriveTitle(ms)))
  }

  /** How a reply lands: a placeholder appended under a new id and then replaced by the
      answer leaves the chats as if the answer had been appended directly. */
  lemma PlaceholderReplaced(chats: seq<Chat>, chatId: string, placeholder: Message, answer: Message)
    requires forall i, j :: 0 <= i < |chats| && 0 <= j < |chats[i].messages| && chats[i].id == chatId ==>
               chats[i].messages[j].id != placeholder.id
    ensures ReplaceMessage(AppendMessage(chats, chatId, placeholder), chatId, placeholder.id, answer)
            == AppendMessage(chats, chatId, answer)
  {
    var a := AppendMessage(chats, chatId, placeholder);
    var r := ReplaceMessage(a, chatId, placeholder.id, answer);
    var b := AppendMessage(chats, chatId, answer);
    forall i | 0 <= i < |chats| ensures r[i] == b[i] {
      if chats[i].id == chatId {
        ReplaceAppended(chats[i].messages, placeholder, answer);
      }
    }
  }

  lemma ReplaceAppended(ms: seq<Message>, placeholder: Message, answer: Message)
    requires forall j :: 0 <= j < |ms| ==> ms[j].id != placeholder.id
    ensures Replaced(ms + [placeholder], placeholder.id, answer) == ms + [answer]
  {
    var x := Replaced(ms + [placeholder], placeholder.id, answer);
    forall j | 0 <= j < |ms| + 1 ensures x[j] == (ms + [answer])[j] {
      if j < |ms| {
        assert (ms + [placeholder])[j] == ms[j];
      }
    }
  }

  /** `updateMessageMeta`: the meta of the message with that id is rewritten by `update`;
      nothing else changes, not even the title. */
  function UpdateMessageMeta(chats: seq<Chat>, chatId: string, messageId: string, update: Meta -> Meta): (r: seq<Chat>)
    ensures |r| == |chats|
    ensures forall i :: 0 <= i < |r| && chats[i].id != chatId ==> r[i] == chats[i]
    ensures forall i :: 0 <= i < |r| && chats[i].id == chatId ==>
      && r[i] == chats[i].(messages := r[i].messages)
      && |r[i].messages| == |chats[i].messages|
      && forall j :: 0 <= j < |r[i].messages| ==>
           r[i].messages[j] == if chats[i].messages[j].id == messageId
                               then chats[i].messages[j].(meta := update(chats[i].messages[j].meta))
                               else chats[i].messages[j]
  {
    seq(|chats|, i requires 0 <= i < |chats| =>
      var c := chats[i];
      if c.id != chatId then c
      else c.(messages := seq(|c.messages|, j requires 0 <= j < |c.messages| =>
        var m := c.messages[j];
        if m.id == messageId then m.(meta := update(m.meta)) else m)))
  }

  /** The `handleLike` updater: the like flips, and a like clears the dislike. */
  function Like(meta: Meta): (r: Meta)
    ensures r.liked == !meta.liked
    ensures !(r.liked && r.disliked)
    ensures !r.liked ==> r.disliked == meta.disliked
    ensures r == meta.(liked := r.liked, disliked := r.disliked)
  {
    var liked := !meta.liked;
    meta.(liked := liked, disliked := if liked then false else meta.disliked)
  }

  /** The `handleDislike` updater: the dislike flips, and a dislike clears the like. */
  function Dislike(meta: Meta): (r: Meta)
    ensures r.disliked == !meta.disliked
    ensures !(r.liked && r.disliked)
    ensures !r.disliked ==> r.liked == meta.liked
    ensures r == meta.(liked := r.liked, disliked := r.disliked)
  {
    var disliked := !meta.disliked;
    meta.(disliked := disliked, liked := if disliked then false else meta.liked)
  }

  /** Liking twice undoes the like, unless the first like cleared a dislike. */
  lemma LikeTwice(meta: Meta)
    requires !meta.disliked
    ensures Like(Like(meta)) == meta
  {
  }

  /** After a like or a dislike, the message it targets is never both liked and disliked,
      and every other message keeps its meta. */
  lemma VoteExclusive(chats: seq<Chat>, chatId: string, messageId: string, like: bool, i: nat, j: nat)
    requires i < |chats| && j < |chats[i].messages|
    ensures var r := UpdateMessageMeta(chats, chatId, messageId, if like then Like else Dislike);
            var before := chats[i].messages[j];
            var after := r[i].messages[j];
            && (chats[i].id == chatId && before.id == messageId ==> !(after.meta.liked && after.meta.disliked))
            && (chats[i].id != chatId || before.id != messageId ==> after == before)
  {
  }

  // ---------------------------------------------------------------------------------------
  // Deleting a chat

  /** The chat list and the id of the active chat. */
  datatype ChatList = ChatList(chats: seq<Chat>, active: string)

  /** `prev.filter((c) => c.id !== id)`. */
  function Without(chats: seq<Chat>, id: string): (r: seq<Chat>)
    ensures |r| <= |chats|
    ensures forall c :: c in r <==> c in chats && c.id != id
  {
    if chats == [] then []
    else (if chats[0].id != id then [chats[0]] else []) + Without(chats[1..], id)
  }

  /** The filter keeps order: the chats of two pieces stay in their pieces, one after the
      other. */
  lemma {:induction false} WithoutAppend(a: seq<Chat>, b: seq<Chat>, id: string)
    ensures Without(a + b, id) == Without(a, id) + Without(b, id)
    decreases |a|
  {
    if a == [] {
      assert a + b == b;
    } else {
      assert (a + b)[1..] == a[1..] + b;
      WithoutAppend(a[1..], b, id);
    }
  }

  /** Whether some chat has the id. */
  predicate Names(chats: seq<Chat>, id: string) {
    exists c :: c in chats && c.id == id
  }

  /** `confirmDeleteChat`: with no chat chosen, nothing happens. Otherwise the chat goes; when
      none is left, a new chat takes its place and becomes active; when the active chat
      went, the first remaining one becomes active; otherwise the active chat stays. */
  function ConfirmDelete(s: ChatList, id: string, spare: Chat): (r: ChatList)
    ensures id == "" ==> r == s
    ensures id != "" ==> |r.chats| >= 1
    ensures id != "" && spare.id != id ==> !Names(r.chats, id)
    ensures id != "" && Without(s.chats, id) == [] ==> r == ChatList([spare], spare.id)
    ensures id != "" && Without(s.chats, id) != [] ==>
      && r.chats == Without(s.chats, id)
      && (s.active == id ==> r.active == r.chats[0].id)
      && (s.active != id ==> r.active == s.active)
  {
    if id == "" then s
    else
      var next := Without(s.chats, id);
      if next == [] then ChatList([spare], spare.id)
      else ChatList(next, if s.active == id then next[0].id else s.active)
  }

  /** Deleting never leaves the app without an active chat: if the active id named a chat
      before, it names one after. */
  lemma DeleteKeepsActive(s: ChatList, id: string, spare: Chat)
    requires Names(s.chats, s.active)
    ensures Names(ConfirmDelete(s, id, spare).chats, ConfirmDelete(s, id, spare).active)
  {
    var r := ConfirmDelete(s, id, spare);
    if id == "" {
    } else if Without(s.chats, id) == [] {
      assert spare in r.chats;
    } else if s.active == id {
      assert r.chats[0] in r.chats;
    } else {
      var c :| c in s.chats && c.id == s.active;
      assert c in r.chats;
    }
  }

  // ---------------------------------------------------------------------------------------
  // Saving

  /** Messages of a chat that are saved: the last sixty. */
  const SavedMessages: nat := 60

  /** The keys a saved `lastPayload` keeps. */
  const PayloadKeys: set<string> := {"mode", "length", "tone", "input"}

  /** A `lastPayload` reduced to mode, length, tone and input. */
  function Restrict(lp: Value): (r: Value)
    ensures r.Obj? && r.fields.Keys == PayloadKeys
    ensures forall k :: k in PayloadKeys ==> r.fields[k] == Get(lp, k)
  {
    Obj(map["mode" := Get(lp, "mode"), "length" := Get(lp, "length"), "tone" := Get(lp, "tone"), "input" := Get(lp, "input")])
  }

  /** A message as saved: a `lastPayload` is reduced to its four keys, and a model name is
      dropped from the meta; everything else is kept. */
  function CompactMessage(m: Message): (r: Message)
    ensures Truthy(m.lastPayload) ==> r.lastPayload == Restrict(m.lastPayload)
    ensures !Truthy(m.lastPayload) ==> r.lastPayload == m.lastPayload
    ensures !(r.meta.model.Some? && r.meta.model.value != "")
    ensures r.meta == m.meta.(model := r.meta.model)
    ensures r == m.(lastPayload := r.lastPayload, meta := r.meta)
  {
    var lp := if Truthy(m.lastPayload) then Restrict(m.lastPayload) else m.lastPayload;
    var meta := if m.meta.model.Some? && m.meta.model.value != "" then m.meta.(model := None) else m.meta;
    m.(lastPayload := lp, meta := meta)
  }

  /** A chat as saved: settings defaulted, and only the last sixty messages, each compacted. */
  function CompactChat(c: Chat): (r: Chat)
    ensures r == c.(settings := Defaulted(c.settings), messages := r.messages)
    ensures |r.messages| <= SavedMessages
    ensures var kept := LastN(c.messages, SavedMessages);
            |r.messages| == |kept| && forall j :: 0 <= j < |kept| ==> r.messages[j] == CompactMessage(kept[j])
  {
    var kept := LastN(c.messages, SavedMessages);
    c.(settings := Defaulted(c.settings), messages := seq(|kept|, j requires 0 <= j < |kept| => CompactMessage(kept[j])))
  }

  /** The save step: every chat compacted, in order. */
  function Compact(chats: seq<Chat>): (r: seq<Chat>)
    ensures |r| == |chats| && forall i :: 0 <= i < |chats| ==> r[i] == CompactChat(chats[i])
  {
    seq(|chats|, i requires 0 <= i < |chats| => CompactChat(chats[i]))
  }

  /** Saving what was saved changes nothing. */
  lemma CompactTwice(chats: seq<Chat>)
    ensures Compact(Compact(chats)) == Compact(chats)
  {
    forall i | 0 <= i < |chats| ensures CompactChat(CompactChat(chats[i])) == CompactChat(chats[i]) {
      CompactChatTwice(chats[i]);
    }
  }

  lemma CompactChatTwice(c: Chat)
    ensures CompactChat(CompactChat(c)) == CompactChat(c)
  {
    CompactMessagesTwice(c);
    DefaultedTwice(c.settings);
  }

  lemma CompactMessagesTwice(c: Chat)
    ensures CompactChat(CompactChat(c)).messages == CompactChat(c).messages
  {
    var once := CompactChat(c).messages;
    var twice := CompactChat(CompactChat(c)).messages;
    assert LastN(once, SavedMessages) == once;
    CompactedTwice(LastN(c.messages, SavedMessages), once, twice);
  }

  lemma CompactedTwice(kept: seq<Message>, once: seq<Message>, twice: seq<Message>)
    requires |once| == |kept| && |twice| == |once|
    requires forall j :: 0 <= j < |kept| ==> once[j] == CompactMessage(kept[j])
    requires forall j :: 0 <= j < |once| ==> twice[j] == CompactMessage(once[j])
    ensures twice == once
  {
    forall j | 0 <= j < |once| ensures twice[j] == once[j] {
      CompactMessageTwice(kept[j]);
    }
  }

  lemma CompactMessageTwice(m: Message)
    ensures CompactMessage(CompactMessage(m)) == CompactMessage(m)
  {
    var once := CompactMessage(m);
    if Truthy(m.lastPayload) {
      var lp := once.lastPayload;
      assert Restrict(lp).fields == lp.fields;
    }
  }

  // ---------------------------------------------------------------------------------------
  // Loading

  /** A chat as read back from storage: `messages` may be missing or not an array (`None`). */
  datatype StoredChat = StoredChat(id: string, title: string, createdAt: int, settings: ChatSettings, messages: Option<seq<Message>>)

  /** What the stored text decodes to: a bare array of chats, an object whose `chats` is one,
      or anything else. */
  datatype Saved = SavedList(list: seq<StoredChat>) | SavedWrapped(list: seq<StoredChat>) | SavedOther

  /** A stored chat as loaded: settings defaulted, messages an array. */
  function LoadChat(c: StoredChat): (r: Chat)
    ensures r.id == c.id && r.title == c.title && r.createdAt == c.createdAt
    ensures r.settings == Defaulted(c.settings)
    ensures r.messages == (if c.messages.Some? then c.messages.value else [])
  {
    Chat(c.id, c.title, c.createdAt, Defaulted(c.settings), if c.messages.Some? then c.messages.value else [])
  }

  /** The chats loaded, or `None` when the stored value holds no non-empty array. */
  function LoadChats(saved: Saved): (r: Option<seq<Chat>>)
    ensures r.Some? <==> !saved.SavedOther? && saved.list != []
    ensures r.Some? ==> |r.value| == |saved.list| && forall i :: 0 <= i < |saved.list| ==> r.value[i] == LoadChat(saved.list[i])
  {
    if saved.SavedOther? || saved.list == [] then None
    else Some(seq(|saved.list|, i requires 0 <= i < |saved.list| => LoadChat(saved.list[i])))
  }

  /** The active id after loading. With chats loaded, the current id is kept if it names one
      of them, else the first is chosen; then the saved interface's active id (empty when
      there is none) wins if it names a loaded chat, or always when nothing was loaded. */
  function LoadActive(loaded: Option<seq<Chat>>, curr: string, uiActive: string): (a: string)
    ensures loaded.Some? && loaded.value != [] ==> Names(loaded.value, a)
    ensures loaded.None? ==> a == (if uiActive != "" then uiActive else curr)
    ensures loaded.Some? && uiActive != "" && Names(loaded.value, uiActive) ==> a == uiActive
    ensures loaded.Some? && (uiActive == "" || !Names(loaded.value, uiActive)) ==>
              if Names(loaded.value, curr) || loaded.value == [] then a == curr else a == loaded.value[0].id
  {
    var afterChats := if loaded.Some? && loaded.value != [] then ActiveAfter(loaded.value, curr) else curr;
    var ok := if loaded.Some? then Names(loaded.value, uiActive) else true;
    if uiActive != "" && ok then uiActive else afterChats
  }

  /** A chat as the save step writes it and the load step reads it back. */
  function StoredOf(c: Chat): StoredChat {
    StoredChat(c.id, c.title, c.createdAt, c.settings, Some(c.messages))
  }

  /** Loading what was saved gives back the saved chats exactly, as long as there was one. */
  lemma SaveThenLoad(chats: seq<Chat>)
    requires chats != []
    ensures var saved := Compact(chats);
            LoadChats(SavedList(seq(|saved|, i requires 0 <= i < |saved| => StoredOf(saved[i])))) == Some(saved)
  {
    var saved := Compact(chats);
    var list := seq(|saved|, i requires 0 <= i < |saved| => StoredOf(saved[i]));
    var loaded := LoadChats(SavedList(list)).value;
    forall i | 0 <= i < |saved| ensures loaded[i] == saved[i] {
      assert list[i] == StoredOf(saved[i]);
      assert saved[i].settings == Defaulted(chats[i].settings);
      DefaultedTwice(chats[i].settings);
    }
    assert loaded == saved;
  }

  /** Defaulting settings that are already defaulted changes nothing. */
  lemma DefaultedTwice(s: ChatSettings)
    ensures Defaulted(Defaulted(s)) == Defaulted(s)
  {
  }

  // ---------------------------------------------------------------------------------------
  // After loading

  /** The chats that have a meaningful message, in order. */
  function KeepMeaningful(chats: seq<Chat>): (r: seq<Chat>)
    ensures forall c :: c in r <==> c in chats && HasMeaningfulMessages(c)
  {
    if chats == [] then []
    else
      var rest := KeepMeaningful(chats[1..]);
      assert forall c :: c in chats <==> c == chats[0] || c in chats[1..] by {
        assert chats == [chats[0]] + chats[1..];
      }
      (if HasMeaningfulMessages(chats[0]) then [chats[0]] else []) + rest
  }

  /** The prune filter keeps order: the chats of two pieces stay in their pieces, one after
      the other. */
  lemma {:induction false} KeepMeaningfulAppend(a: seq<Chat>, b: seq<Chat>)
    ensures KeepMeaningful(a + b) == KeepMeaningful(a) + KeepMeaningful(b)
    decreases |a|
  {
    if a == [] {
      assert a + b == b;
    } else {
      assert (a + b)[1..] == a[1..] + b;
      KeepMeaningfulAppend(a[1..], b);
    }
  }

  /** The prune step after loading: only chats with a meaningful message stay, or a single
      new chat when none does. */
  function Prune(chats: seq<Chat>, spare: Chat): (r: seq<Chat>)
    ensures |r| >= 1
    ensures KeepMeaningful(chats) != [] ==> r == KeepMeaningful(chats)
    ensures KeepMeaningful(chats) == [] ==> r == [spare]
  {
    var kept := KeepMeaningful(chats);
    if kept == [] then [spare] else kept
  }

  /** The active id once the chats change: kept if it names a chat, else the first chat's
      (`undefined`, here the empty id, for an empty list). */
  function ActiveAfter(chats: seq<Chat>, curr: string): (a: string)
    ensures chats != [] ==> Names(chats, a)
    ensures Names(chats, curr) ==> a == curr
    ensures !Names(chats, curr) ==> a == if chats == [] then "" else chats[0].id
  {
    if Names(chats, curr) then curr
    else if chats == [] then ""
    else
      assert chats[0] in chats;
      chats[0].id
  }

  /** After loading, the app holds only chats worth keeping, at least one, and its active id
      names one of them. */
  lemma PrunedAndActive(chats: seq<Chat>, spare: Chat, curr: string)
    ensures var r := Prune(chats, spare);
            && (forall c :: c in r ==> HasMeaningfulMessages(c) || c == spare)
            && Names(r, ActiveAfter(r, curr))
  {
  }
}
