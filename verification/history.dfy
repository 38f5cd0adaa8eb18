/** `normalizeHistory`, the same in both backend variants: the chat history a request carries
    is filtered down to well-formed user and assistant turns with some text, and only the last
    ten of those are sent to the model. */
module History {
  import opened Wrappers
  import opened Text
  import opened JsValue

  datatype Speaker = User | Assistant

  /** A history entry as the model receives it: `{ role, content: [{ text }] }`. */
  datatype Turn = Turn(role: Speaker, text: string)

  const HistoryLimit: nat := 10

  function SpeakerName(s: Speaker): string {
    match s
    case User => "user"
    case Assistant => "assistant"
  }

  /** The turn one history item contributes, or `None` when the loop skips it: the item must
      be a truthy object whose `role` is exactly "user" or "assistant", and whose `content` is
      a string that is not blank (any other `content` counts as the empty text). */
  function TurnOf(item: Value): Option<Turn> {
    if !Truthy(item) || !IsObjectType(item) then None
    else
      var role := Get(item, "role");
      var content := Get(item, "content");
      var text := if content.Str? then content.s else "";
      if role != Str("user") && role != Str("assistant") then None
      else if Trim(text) == "" then None
      else Some(Turn(if role == Str("user") then User else Assistant, text))
  }

  /** The loop over the items: every kept turn, in order. */
  function Cleaned(items: seq<Value>): (ts: seq<Turn>)
    ensures |ts| <= |items|
    decreases |items|
  {
    if items == [] then []
    else
      var last := items[|items| - 1];
      Cleaned(items[..|items| - 1]) + (if TurnOf(last).Some? then [TurnOf(last).value] else [])
  }

  /** `slice(-n)`: the last `n` elements, or all of them when there are fewer. */
  function LastN<T>(s: seq<T>, n: nat): (r: seq<T>)
    ensures |r| == if |s| < n then |s| else n
    ensures r == s[|s| - |r|..]
  {
    if |s| <= n then s else s[|s| - n..]
  }

  /** `normalizeHistory`: `[]` unless the history is an array; otherwise the last ten kept
      turns, in their original order, each one with text that is not blank. */
  function NormalizeHistory(history: Value): (ts: seq<Turn>)
    ensures !history.Arr? ==> ts == []
    ensures history.Arr? ==> ts == LastN(Cleaned(history.items), HistoryLimit)
    ensures |ts| <= HistoryLimit
    ensures forall i :: 0 <= i < |ts| ==> Trim(ts[i].text) != []
  {
    if !history.Arr? then []
    else
      CleanedBlankFree(history.items);
      LastN(Cleaned(history.items), HistoryLimit)
  }

  /** No kept turn has blank text. */
  lemma {:induction false} CleanedBlankFree(items: seq<Value>)
    ensures forall i :: 0 <= i < |Cleaned(items)| ==> Trim(Cleaned(items)[i].text) != []
    decreases |items|
  {
    if items != [] {
      var init := items[..|items| - 1];
      var last := items[|items| - 1];
      CleanedBlankFree(init);
      var front := Cleaned(init);
      var extra: seq<Turn> := if TurnOf(last).Some? then [TurnOf(last).value] else [];
      var ts := Cleaned(items);
      assert ts == front + extra;
      forall i | 0 <= i < |ts| ensures Trim(ts[i].text) != [] {
        if i < |front| {
          assert ts[i] == front[i];
        } else {
          assert ts[i] == extra[0];
        }
      }
    }
  }

  /** The filter distributes over concatenation: the turns of `a + b` are those of `a`
      followed by those of `b`. */
  lemma {:induction false} CleanedAppend(a: seq<Value>, b: seq<Value>)
    ensures Cleaned(a + b) == Cleaned(a) + Cleaned(b)
    decreases |b|
  {
    if b != [] {
      var b' := b[..|b| - 1];
      assert (a + b)[..|a + b| - 1] == a + b';
      CleanedAppend(a, b');
    } else {
      assert a + b == a;
    }
  }

  /** A turn is kept exactly when some item of the history produces it. */
  lemma CleanedMembers(items: seq<Value>, t: Turn)
    ensures t in Cleaned(items) <==> exists i :: 0 <= i < |items| && TurnOf(items[i]) == Some(t)
  {
    if t in Cleaned(items) {
      var i := CleanedSource(items, t);
    }
    forall i | 0 <= i < |items| && TurnOf(items[i]) == Some(t) ensures t in Cleaned(items) {
      CleanedKeeps(items, i);
    }
  }

  /** Every kept turn comes from some item. */
  lemma {:induction false} CleanedSource(items: seq<Value>, t: Turn) returns (i: nat)
    requires t in Cleaned(items)
    ensures i < |items| && TurnOf(items[i]) == Some(t)
    decreases |items|
  {
    var init := items[..|items| - 1];
    var last := TurnOf(items[|items| - 1]);
    assert Cleaned(items) == Cleaned(init) + (if last.Some? then [last.value] else []);
    if t in Cleaned(init) {
      i := CleanedSource(init, t);
      assert items[i] == init[i];
    } else {
      i := |items| - 1;
    }
  }

  /** Every item that makes a turn has that turn kept. */
  lemma {:induction false} CleanedKeeps(items: seq<Value>, i: nat)
    requires i < |items| && TurnOf(items[i]).Some?
    ensures TurnOf(items[i]).value in Cleaned(items)
    decreases |items|
  {
    var init := items[..|items| - 1];
    var last := TurnOf(items[|items| - 1]);
    var extra := if last.Some? then [last.value] else [];
    assert Cleaned(items) == Cleaned(init) + extra;
    if i < |init| {
      assert items[i] == init[i];
      CleanedKeeps(init, i);
      assert TurnOf(items[i]).value in Cleaned(init);
    } else {
      assert i == |items| - 1;
    }
  }

  /** Items that are not usable turns never reach the model: unusable items after a history
      change nothing that is sent, so ten usable turns followed by any number of unusable
      items are sent whole. */
  lemma TrailingJunkIgnored(good: seq<Value>, junk: seq<Value>)
    requires forall i :: 0 <= i < |junk| ==> TurnOf(junk[i]).None?
    ensures NormalizeHistory(Arr(good + junk)) == NormalizeHistory(Arr(good))
    ensures |good| == HistoryLimit && (forall i :: 0 <= i < |good| ==> TurnOf(good[i]).Some?) ==>
      NormalizeHistory(Arr(good + junk)) == Cleaned(good) && |Cleaned(good)| == HistoryLimit
  {
    CleanedAppend(good, junk);
    NoneUsable(junk);
    assert Cleaned(good + junk) == Cleaned(good);
    if |good| == HistoryLimit && forall i :: 0 <= i < |good| ==> TurnOf(good[i]).Some? {
      AllUsable(good);
    }
  }

  lemma {:induction false} AllUsable(items: seq<Value>)
    requires forall i :: 0 <= i < |items| ==> TurnOf(items[i]).Some?
    ensures |Cleaned(items)| == |items|
    decreases |items|
  {
    if items != [] {
      AllUsable(items[..|items| - 1]);
    }
  }

  lemma {:induction false} NoneUsable(items: seq<Value>)
    requires forall i :: 0 <= i < |items| ==> TurnOf(items[i]).None?
    ensures Cleaned(items) == []
    decreases |items|
  {
    if items != [] {
      NoneUsable(items[..|items| - 1]);
    }
  }
}
