/** The phone's history of recent texts (mobile-app/src/services/history.ts):
    newest first, at most five kept in persistent storage. */
module History {
  import opened Common

  const MaxHistoryItems: nat := 5

  /** `HistoryItem`. */
  datatype HistoryItem = HistoryItem(id: string, deviceId: string, text: string, timestamp: int, sent: bool)

  /** `Partial<Pick<HistoryItem, 'text' | 'sent'>>`: each field present or
      absent. */
  datatype HistoryUpdates = HistoryUpdates(text: Option<string>, sent: Option<bool>)

  function Min(a: nat, b: nat): nat {
    if a <= b then a else b
  }

  /** `items.slice(0, MAX_HISTORY_ITEMS)`: the first five items, or all of
      them when there are fewer. */
  function Capped(items: seq<HistoryItem>): (r: seq<HistoryItem>)
    ensures |r| == Min(|items|, MaxHistoryItems)
    ensures r <= items
  {
    if |items| <= MaxHistoryItems then items else items[..MaxHistoryItems]
  }

  /** A list already within the limit is kept whole; capping twice is
      capping once. */
  lemma CappedShort(items: seq<HistoryItem>)
    ensures |items| <= MaxHistoryItems <==> Capped(items) == items
    ensures Capped(Capped(items)) == Capped(items)
  {
  }

  /** `items.findIndex(item => item.id === id)`, `None` for `-1`. */
  function FindIndex(items: seq<HistoryItem>, id: string): (r: Option<nat>)
    ensures r.None? <==> forall j :: 0 <= j < |items| ==> items[j].id != id
    ensures r.Some? ==> r.value < |items| && items[r.value].id == id
                        && forall j :: 0 <= j < r.value ==> items[j].id != id
  {
    if items == [] then None
    else if items[0].id == id then Some(0)
    else
      match FindIndex(items[1..], id)
      case None => None
      case Some(k) => Some(k + 1)
  }

  /** `{ ...item, ...updates }`: the fields given replace the old ones, the
      rest stay. */
  function Merge(item: HistoryItem, updates: HistoryUpdates): (r: HistoryItem)
    ensures r.id == item.id && r.deviceId == item.deviceId && r.timestamp == item.timestamp
    ensures r.text == (if updates.text.Some? then updates.text.value else item.text)
    ensures r.sent == (if updates.sent.Some? then updates.sent.value else item.sent)
  {
    var text := if updates.text.Some? then updates.text.value else item.text;
    var sent := if updates.sent.Some? then updates.sent.value else item.sent;
    HistoryItem(item.id, item.deviceId, text, item.timestamp, sent)
  }

  /** `items.filter(item => item.id !== id)`. */
  function WithoutId(items: seq<HistoryItem>, id: string): (r: seq<HistoryItem>)
    ensures |r| <= |items|
  {
    if items == [] then []
    else if items[0].id != id then [items[0]] + WithoutId(items[1..], id)
    else WithoutId(items[1..], id)
  }

  /** The filter keeps exactly the items with another id. */
  lemma {:induction false} WithoutIdMembers(items: seq<HistoryItem>, id: string)
    ensures forall x :: x in WithoutId(items, id) <==> x in items && x.id != id
  {
    if items != [] {
      WithoutIdMembers(items[1..], id);
      assert items == [items[0]] + items[1..];
    }
  }

  /** The filter works piece by piece, so the kept items keep their order. */
  lemma {:induction false} WithoutIdConcat(a: seq<HistoryItem>, b: seq<HistoryItem>, id: string)
    ensures WithoutId(a + b, id) == WithoutId(a, id) + WithoutId(b, id)
  {
    if a == [] {
      assert a + b == b;
    } else {
      assert (a + b)[0] == a[0];
      assert (a + b)[1..] == a[1..] + b;
      WithoutIdConcat(a[1..], b, id);
    }
  }

  /** The list `updateHistoryItem` saves, or `None` when no item has the
      id and nothing is saved. */
  function Updated(items: seq<HistoryItem>, id: string, updates: HistoryUpdates): (r: Option<seq<HistoryItem>>)
  {
    match FindIndex(items, id)
    case None => None
    case Some(k) => Some(items[k := Merge(items[k], updates)])
  }

  /** An update touches only the first item with the id, and in it only
      `text` and `sent`; an unknown id gives nothing to save. */
  lemma UpdatedSpec(items: seq<HistoryItem>, id: string, updates: HistoryUpdates)
    ensures Updated(items, id, updates).None? <==> forall j :: 0 <= j < |items| ==> items[j].id != id
    ensures Updated(items, id, updates).Some? ==>
      var r := Updated(items, id, updates).value;
      && |r| == |items|
      && exists k :: 0 <= k < |items| && items[k].id == id && (forall j :: 0 <= j < k ==> items[j].id != id)
                     && r[k] == Merge(items[k], updates)
                     && (forall j :: 0 <= j < |items| && j != k ==> r[j] == items[j])
  {
    match FindIndex(items, id)
    case None =>
    case Some(k) =>
      var r := items[k := Merge(items[k], updates)];
      assert r[k] == Merge(items[k], updates);
  }

  /** The newest item first, then the older ones, five in all at most. */
  lemma AddedNewestFirst(item: HistoryItem, older: seq<HistoryItem>)
    ensures var r := Capped([item] + older);
      && 0 < |r| <= MaxHistoryItems && r[0] == item
      && r[1..] == older[..Min(|older|, MaxHistoryItems - 1)]
  {
    var r := Capped([item] + older);
    assert r[0] == ([item] + older)[0];
    assert r[1..] == ([item] + older)[1..|r|];
    assert ([item] + older)[1..|r|] == older[..|r| - 1];
  }

  /** Persistent storage under `speecher_history`; `None` when nothing has
      been stored yet. */
  class HistoryStorage {
    var stored: Option<seq<HistoryItem>>

    /** What `getHistory` reads. */
    function Contents(): (items: seq<HistoryItem>)
      reads this
      ensures stored.None? ==> items == []
      ensures stored.Some? ==> items == stored.value
    {
      stored.GetOr([])
    }

    /** Every write goes through the cap or stores `[]`. */
    ghost predicate Valid()
      reads this
    {
      |Contents()| <= MaxHistoryItems
    }

    constructor ()
      ensures Valid() && stored == None
    {
      stored := None;
    }

    /** `getHistory`: the stored list, or `[]`. */
    method GetHistory() returns (items: seq<HistoryItem>)
      ensures stored.None? ==> items == []
      ensures stored.Some? ==> items == stored.value
    {
      items := if stored.Some? then stored.value else [];
    }

    /** `saveHistory`: stores the first five items. */
    method SaveHistory(items: seq<HistoryItem>)
      modifies this
      ensures Valid()
      ensures stored == Some(Capped(items))
    {
      stored := Some(Capped(items));
    }

    /** `addHistoryItem`: the new item (id and time given) goes first, the
        oldest falls off past five. */
    method AddHistoryItem(deviceId: string, text: string, sent: bool, id: string, now: int) returns (item: HistoryItem)
      modifies this
      ensures Valid()
      ensures item == HistoryItem(id, deviceId, text, now, sent)
      ensures stored == Some(Capped([item] + old(Contents())))
    {
      var items := GetHistory();
      item := HistoryItem(id, deviceId, text, now, sent);
      SaveHistory([item] + items);
    }

    /** `updateHistoryItem`: merges the updates into the first item with
        the id and saves; with no such item, stores nothing. */
    method UpdateHistoryItem(id: string, updates: HistoryUpdates)
      requires Valid()
      modifies this
      ensures Valid()
      ensures Updated(old(Contents()), id, updates).None? ==> stored == old(stored)
      ensures Updated(old(Contents()), id, updates).Some? ==> stored == Some(Updated(old(Contents()), id, updates).value)
    {
      var items := GetHistory();
      var index := FindIndex(items, id);
      if index.Some? {
        var k := index.value;
        items := items[k := Merge(items[k], updates)];
        SaveHistory(items);
      }
    }

    /** `deleteHistoryItem`: saves the list without the items with the id. */
    method DeleteHistoryItem(id: string)
      requires Valid()
      modifies this
      ensures Valid()
      ensures stored == Some(WithoutId(old(Contents()), id))
    {
      var items := GetHistory();
      SaveHistory(WithoutId(items, id));
    }

    /** `clearHistory`: stores `[]`. */
    method ClearHistory()
      modifies this
      ensures Valid()
      ensures stored == Some([])
    {
      stored := Some([]);
    }
  }
}
