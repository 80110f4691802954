/** The message list of a chat, with a marker before each new day. */
module Listing {
  import opened Collections
  import opened Messages

  datatype ChatItem = Message(id: MsgId) | DayMarker(timestamp: int)

  // ----- sorting by (timestamp, id) -----

  function InsertSorted(e: Entry, sorted: seq<Entry>): seq<Entry> {
    if sorted == [] || Before(e, sorted[0]) then [e] + sorted
    else [sorted[0]] + InsertSorted(e, sorted[1..])
  }

  /** `sort_unstable` on distinct keys. */
  function Sort(entries: seq<Entry>): seq<Entry> {
    if entries == [] then [] else InsertSorted(entries[0], Sort(entries[1..]))
  }

  ghost predicate DistinctEntries(entries: seq<Entry>) {
    forall i, j :: 0 <= i < j < |entries| ==> entries[i].id != entries[j].id
  }

  lemma {:induction false} InsertPermutes(e: Entry, sorted: seq<Entry>)
    ensures multiset(InsertSorted(e, sorted)) == multiset(sorted) + multiset{e}
    ensures forall x :: x in InsertSorted(e, sorted) <==> x == e || x in sorted
  {
    if sorted != [] && !Before(e, sorted[0]) {
      InsertPermutes(e, sorted[1..]);
      assert sorted == [sorted[0]] + sorted[1..];
    }
  }

  lemma {:induction false} InsertSorts(e: Entry, sorted: seq<Entry>)
    requires SortedEntries(sorted) && forall i :: 0 <= i < |sorted| ==> sorted[i].id != e.id
    ensures SortedEntries(InsertSorted(e, sorted))
  {
    if sorted != [] && !Before(e, sorted[0]) {
      var rest := InsertSorted(e, sorted[1..]);
      InsertSorts(e, sorted[1..]);
      InsertPermutes(e, sorted[1..]);
      forall j | 0 <= j < |rest| ensures Before(sorted[0], rest[j]) {
        assert rest[j] in rest;
      }
    }
  }

  /** Sorting keeps exactly the rows and orders them strictly. */
  lemma {:induction false} SortIsSorted(entries: seq<Entry>)
    requires DistinctEntries(entries)
    ensures SortedEntries(Sort(entries)) && multiset(Sort(entries)) == multiset(entries)
    ensures forall x :: x in Sort(entries) <==> x in entries
  {
    if entries != [] {
      var rest := Sort(entries[1..]);
      SortIsSorted(entries[1..]);
      InsertPermutes(entries[0], rest);
      forall i | 0 <= i < |rest| ensures rest[i].id != entries[0].id {
        assert rest[i] in entries[1..];
      }
      InsertSorts(entries[0], rest);
      assert entries == [entries[0]] + entries[1..];
    }
  }

  // ----- day markers -----

  /** Rust's integer division truncates toward zero. */
  function TruncDiv(a: int, b: int): int
    requires b > 0
  {
    if a >= 0 then a / b else -((-a) / b)
  }

  function DayOf(e: Entry, offset: int): int {
    TruncDiv(e.timestamp + offset, DAY)
  }

  function LastDay(entries: seq<Entry>, offset: int): int {
    if entries == [] then 0 else DayOf(entries[|entries| - 1], offset)
  }

  function Marker(day: int, offset: int): ChatItem {
    DayMarker(day * DAY - offset)
  }

  function Marked(entries: seq<Entry>, offset: int): seq<ChatItem> {
    if entries == [] then []
    else
      var n := |entries| - 1;
      var day := DayOf(entries[n], offset);
      Marked(entries[..n], offset)
      + (if day != LastDay(entries[..n], offset) then [Marker(day, offset)] else [])
      + [Message(entries[n].id)]
  }

  function Unmarked(entries: seq<Entry>): seq<ChatItem> {
    seq(|entries|, i requires 0 <= i < |entries| => Message(entries[i].id))
  }

  function Items(entries: seq<Entry>, addDayMarker: bool, offset: int): seq<ChatItem> {
    if addDayMarker then Marked(entries, offset) else Unmarked(entries)
  }

  lemma ItemsOneMore(entries: seq<Entry>, i: nat, addDayMarker: bool, offset: int)
    requires i < |entries|
    ensures var prefix, day := entries[..i], DayOf(entries[i], offset);
            && Items(entries[..i + 1], addDayMarker, offset) ==
               Items(prefix, addDayMarker, offset)
               + (if addDayMarker && day != LastDay(prefix, offset) then [Marker(day, offset)] else [])
               + [Message(entries[i].id)]
            && LastDay(entries[..i + 1], offset) == day
  {
    assert entries[..i + 1][..i] == entries[..i];
  }

  method GetChatMsgs(rows: seq<Entry>, addDayMarker: bool, offset: int) returns (ret: seq<ChatItem>)
    ensures ret == Items(Sort(rows), addDayMarker, offset)
  {
    var sorted := Sort(rows);
    ret := [];
    var lastDay := 0;
    for i := 0 to |sorted|
      invariant ret == Items(sorted[..i], addDayMarker, offset)
      invariant addDayMarker ==> lastDay == LastDay(sorted[..i], offset)
    {
      ItemsOneMore(sorted, i, addDayMarker, offset);
      if addDayMarker {
        var currDay := TruncDiv(sorted[i].timestamp + offset, DAY);
        if currDay != lastDay {
          ret := ret + [DayMarker(currDay * DAY - offset)];
          lastDay := currDay;
        }
      }
      ret := ret + [Message(sorted[i].id)];
    }
    assert sorted[..|sorted|] == sorted;
  }

  // ----- what the markers mean -----

  function Erase(items: seq<ChatItem>): seq<ChatItem> {
    if items == [] then []
    else
      var n := |items| - 1;
      Erase(items[..n]) + if items[n].DayMarker? then [] else [items[n]]
  }

  lemma EraseLast(items: seq<ChatItem>, item: ChatItem)
    ensures Erase(items + [item]) == Erase(items) + if item.DayMarker? then [] else [item]
  {
    assert (items + [item])[..|items|] == items;
  }

  /** Without its markers the list is just the sorted messages. */
  lemma {:induction false} ErasedIsSorted(entries: seq<Entry>, offset: int)
    ensures Erase(Marked(entries, offset)) == Unmarked(entries)
  {
    if entries != [] {
      var n := |entries| - 1;
      var before, day := Marked(entries[..n], offset), DayOf(entries[n], offset);
      ErasedIsSorted(entries[..n], offset);
      EraseLast(before, Marker(day, offset));
      EraseLast(before, Message(entries[n].id));
      EraseLast(before + [Marker(day, offset)], Message(entries[n].id));
      assert before + [] == before;
    }
  }

  /** The nearest marker at or above a place in the list. */
  function Nearest(items: seq<ChatItem>): Option<int> {
    if items == [] then None
    else
      var n := |items| - 1;
      if items[n].DayMarker? then Some(items[n].timestamp) else Nearest(items[..n])
  }

  /** The message at a place in the list is the next entry, and it stands below the marker of its day,
      or above all markers and in day 0. */
  ghost predicate UnderItsDay(items: seq<ChatItem>, at: nat, entries: seq<Entry>, offset: int)
    requires at < |items|
  {
    var k := |Erase(items[..at])|;
    && k < |entries| && items[at] == Message(entries[k].id)
    && var day := DayOf(entries[k], offset);
       Nearest(items[..at]) == Some(day * DAY - offset) || (Nearest(items[..at]) == None && day == 0)
  }

  ghost predicate MarkersFollowed(items: seq<ChatItem>) {
    forall at :: 0 <= at < |items| && items[at].DayMarker? ==> at + 1 < |items| && items[at + 1].Message?
  }

  ghost predicate MarkersAscending(items: seq<ChatItem>) {
    forall i, j :: 0 <= i < j < |items| && items[i].DayMarker? && items[j].DayMarker? ==>
      items[i].timestamp < items[j].timestamp
  }

  ghost predicate MarkersUpTo(items: seq<ChatItem>, bound: int) {
    forall i :: 0 <= i < |items| && items[i].DayMarker? ==> items[i].timestamp <= bound
  }

  ghost predicate AllUnderTheirDay(items: seq<ChatItem>, entries: seq<Entry>, offset: int) {
    forall at :: 0 <= at < |items| && items[at].Message? ==> UnderItsDay(items, at, entries, offset)
  }

  ghost predicate WellMarked(items: seq<ChatItem>, entries: seq<Entry>, offset: int) {
    AllUnderTheirDay(items, entries, offset) && MarkersFollowed(items) && MarkersAscending(items)
  }

  lemma NearestLast(items: seq<ChatItem>, item: ChatItem)
    ensures Nearest(items + [item]) == if item.DayMarker? then Some(item.timestamp) else Nearest(items)
  {
    assert (items + [item])[..|items|] == items;
  }

  lemma {:induction false} NearestIsLastDay(entries: seq<Entry>, offset: int)
    ensures var nearest := Nearest(Marked(entries, offset));
            nearest == Some(LastDay(entries, offset) * DAY - offset) || (nearest == None && LastDay(entries, offset) == 0)
  {
    if entries != [] {
      var n := |entries| - 1;
      var before, day := Marked(entries[..n], offset), DayOf(entries[n], offset);
      NearestIsLastDay(entries[..n], offset);
      NearestLast(before, Marker(day, offset));
      NearestLast(before, Message(entries[n].id));
      NearestLast(before + [Marker(day, offset)], Message(entries[n].id));
      assert before + [] == before;
    }
  }

  lemma UnderItsDayPrefix(items: seq<ChatItem>, more: seq<ChatItem>, at: nat, entries: seq<Entry>, n: nat, offset: int)
    requires at < |items| && n <= |entries| && UnderItsDay(items, at, entries[..n], offset)
    ensures UnderItsDay(items + more, at, entries, offset)
  {
    assert (items + more)[..at] == items[..at];
    var k := |Erase(items[..at])|;
    assert entries[..n][k] == entries[k];
  }

  /** What precedes the last message. */
  function BeforeLast(entries: seq<Entry>, offset: int): seq<ChatItem>
    requires entries != []
  {
    var n := |entries| - 1;
    var day := DayOf(entries[n], offset);
    Marked(entries[..n], offset) + if day != LastDay(entries[..n], offset) then [Marker(day, offset)] else []
  }

  lemma BeforeLastErased(entries: seq<Entry>, offset: int)
    requires entries != []
    ensures |Erase(BeforeLast(entries, offset))| == |entries| - 1
  {
    var n := |entries| - 1;
    var before := Marked(entries[..n], offset);
    ErasedIsSorted(entries[..n], offset);
    EraseLast(before, Marker(DayOf(entries[n], offset), offset));
    assert before + [] == before;
  }

  lemma BeforeLastNearest(entries: seq<Entry>, offset: int)
    requires entries != []
    ensures var nearest, day := Nearest(BeforeLast(entries, offset)), DayOf(entries[|entries| - 1], offset);
            nearest == Some(day * DAY - offset) || (nearest == None && day == 0)
  {
    var n := |entries| - 1;
    var before := Marked(entries[..n], offset);
    NearestIsLastDay(entries[..n], offset);
    NearestLast(before, Marker(DayOf(entries[n], offset), offset));
    assert before + [] == before;
  }

  lemma LastUnderItsDay(entries: seq<Entry>, offset: int)
    requires entries != []
    ensures var items := Marked(entries, offset); UnderItsDay(items, |items| - 1, entries, offset)
  {
    var items, before := Marked(entries, offset), BeforeLast(entries, offset);
    assert items == before + [Message(entries[|entries| - 1].id)];
    assert items[..|items| - 1] == before;
    BeforeLastErased(entries, offset);
    BeforeLastNearest(entries, offset);
  }

  lemma MarkedSplit(entries: seq<Entry>, offset: int)
    requires entries != []
    ensures Marked(entries, offset) == BeforeLast(entries, offset) + [Message(entries[|entries| - 1].id)]
  {}

  lemma DaysAscend(entries: seq<Entry>, offset: int)
    requires SortedEntries(entries) && |entries| > 1
    ensures LastDay(entries[..|entries| - 1], offset) <= LastDay(entries, offset)
  {
    var n := |entries| - 1;
    assert Before(entries[n - 1], entries[n]);
  }

  /** Markers are of days up to the last message's. */
  lemma {:induction false} MarkersUpToLastDay(entries: seq<Entry>, offset: int)
    requires SortedEntries(entries)
    ensures MarkersUpTo(Marked(entries, offset), LastDay(entries, offset) * DAY - offset)
  {
    if entries != [] {
      var n := |entries| - 1;
      MarkedSplit(entries, offset);
      MarkersUpToLastDay(entries[..n], offset);
      if n > 0 { DaysAscend(entries, offset); }
    }
  }

  lemma AppendMarker(items: seq<ChatItem>, bound: int, marker: ChatItem)
    requires MarkersAscending(items) && MarkersUpTo(items, bound) && marker.DayMarker? && bound < marker.timestamp
    ensures MarkersAscending(items + [marker])
  {}

  lemma AppendMessage(items: seq<ChatItem>, id: MsgId)
    requires MarkersAscending(items)
    ensures MarkersAscending(items + [Message(id)])
  {}

  lemma MarkersAscend(entries: seq<Entry>, offset: int)
    requires SortedEntries(entries) && entries != [] && MarkersAscending(Marked(entries[..|entries| - 1], offset))
    ensures MarkersAscending(Marked(entries, offset))
  {
    var n := |entries| - 1;
    var before, last, day := Marked(entries[..n], offset), LastDay(entries[..n], offset), DayOf(entries[n], offset);
    if n > 0 && day != last {
      DaysAscend(entries, offset);
      MarkersUpToLastDay(entries[..n], offset);
      AppendMarker(before, last * DAY - offset, Marker(day, offset));
    }
    assert before + [] == before;
    MarkedSplit(entries, offset);
    AppendMessage(BeforeLast(entries, offset), entries[n].id);
  }

  lemma MarkersStayFollowed(entries: seq<Entry>, offset: int)
    requires entries != [] && MarkersFollowed(Marked(entries[..|entries| - 1], offset))
    ensures MarkersFollowed(Marked(entries, offset))
  {
    var before, items := Marked(entries[..|entries| - 1], offset), Marked(entries, offset);
    MarkedSplit(entries, offset);
    assert forall at :: 0 <= at < |before| ==> items[at] == before[at];
  }

  lemma StaysUnderItsDay(entries: seq<Entry>, offset: int, before: seq<ChatItem>, at: nat)
    requires entries != [] && before == Marked(entries[..|entries| - 1], offset) && at < |Marked(entries, offset)|
    requires Marked(entries, offset)[at].Message?
    requires at < |before| ==> UnderItsDay(before, at, entries[..|entries| - 1], offset)
    ensures UnderItsDay(Marked(entries, offset), at, entries, offset)
  {
    var items := Marked(entries, offset);
    MarkedSplit(entries, offset);
    if at < |before| {
      assert items == before + items[|before|..];
      UnderItsDayPrefix(before, items[|before|..], at, entries, |entries| - 1, offset);
    } else {
      LastUnderItsDay(entries, offset);
    }
  }

  /** For sorted messages: every message stands under the marker of its day (or above all markers,
      in day 0), every marker is directly followed by a message, and markers strictly increase. */
  lemma {:induction false} MarkedIsWellMarked(entries: seq<Entry>, offset: int)
    requires SortedEntries(entries)
    ensures WellMarked(Marked(entries, offset), entries, offset)
  {
    if entries != [] {
      var before, items := Marked(entries[..|entries| - 1], offset), Marked(entries, offset);
      MarkedIsWellMarked(entries[..|entries| - 1], offset);
      forall at | 0 <= at < |items| && items[at].Message? ensures UnderItsDay(items, at, entries, offset) {
        StaysUnderItsDay(entries, offset, before, at);
      }
      MarkersStayFollowed(entries, offset);
      MarkersAscend(entries, offset);
    }
  }

  /** A message lies in the 86400 seconds its day's marker opens exactly when its local time is not
      negative or falls on midnight: division truncates, so the days before 1970 open at their end. */
  lemma InWindowIff(e: Entry, offset: int)
    ensures var start := DayOf(e, offset) * 86400 - offset;
            start <= e.timestamp < start + 86400 <==> e.timestamp + offset >= 0 || (e.timestamp + offset) % 86400 == 0
  {
    var local := e.timestamp + offset;
    if local < 0 {
      assert (-local) / DAY * DAY + (-local) % DAY == -local;
    }
  }

  /** Two messages before 1970: one in day 0 above all markers, one a second before its own marker. */
  lemma BeforeEpochOutside()
    ensures Marked([Entry(-1, 1)], 0) == [Message(1)]
    ensures Marked([Entry(-86401, 1)], 0) == [DayMarker(-86400), Message(1)]
  {
    assert [Entry(-1, 1)][..0] == [] && [Entry(-86401, 1)][..0] == [];
    assert DayOf(Entry(-1, 1), 0) == 0 && DayOf(Entry(-86401, 1), 0) == -1;
  }

  lemma SortedQuery(t: Table, chat: ChatId, rows: seq<Entry>)
    requires IsChatQuery(t, chat, rows)
    ensures IsChatQuery(t, chat, Sort(rows)) && SortedEntries(Sort(rows))
  {
    var sorted := Sort(rows);
    SortIsSorted(rows);
    forall i | 0 <= i < |sorted|
      ensures sorted[i].id in t && t[sorted[i].id].chat == chat && !t[sorted[i].id].hidden
      ensures sorted[i].timestamp == t[sorted[i].id].timestamp
    {
      assert sorted[i] in rows;
    }
    forall i, j | 0 <= i < j < |sorted| ensures sorted[i].id != sorted[j].id {
      assert Before(sorted[i], sorted[j]);
      assert sorted[i].timestamp == t[sorted[i].id].timestamp && sorted[j].timestamp == t[sorted[j].id].timestamp;
    }
  }

  ghost predicate ShownBefore(items: seq<ChatItem>, p: MsgId, q: MsgId) {
    exists i, j :: 0 <= i < j < |items| && items[i] == Message(p) && items[j] == Message(q)
  }

  lemma {:induction false} MarkedContains(entries: seq<Entry>, offset: int, i: nat)
    requires i < |entries|
    ensures Message(entries[i].id) in Marked(entries, offset)
  {
    if i < |entries| - 1 {
      MarkedContains(entries[..|entries| - 1], offset, i);
    }
  }

  /** Markers do not disturb the order of the messages. */
  lemma {:induction false} MarkedKeepsOrder(entries: seq<Entry>, offset: int, i: nat, j: nat)
    requires i < j < |entries|
    ensures ShownBefore(Marked(entries, offset), entries[i].id, entries[j].id)
  {
    var n, items := |entries| - 1, Marked(entries, offset);
    var before := Marked(entries[..n], offset);
    assert before <= items;
    if j < n {
      MarkedKeepsOrder(entries[..n], offset, i, j);
      var a, b :| 0 <= a < b < |before| && before[a] == Message(entries[i].id) && before[b] == Message(entries[j].id);
      assert items[a] == before[a] && items[b] == before[b];
    } else {
      MarkedContains(entries[..n], offset, i);
      var a :| 0 <= a < |before| && before[a] == Message(entries[i].id);
      assert items[a] == before[a] && items[|items| - 1] == Message(entries[j].id);
    }
  }

  lemma ItemsKeepOrder(entries: seq<Entry>, addDayMarker: bool, offset: int, i: nat, j: nat)
    requires i < j < |entries|
    ensures ShownBefore(Items(entries, addDayMarker, offset), entries[i].id, entries[j].id)
  {
    if addDayMarker {
      MarkedKeepsOrder(entries, offset, i, j);
    } else {
      var shown := Unmarked(entries);
      assert shown[i] == Message(entries[i].id) && shown[j] == Message(entries[j].id);
    }
  }

  /** Whatever happened to the chat and its clock, its list, with day markers or without, shows queued
      messages in send order. */
  lemma ChatShowsSendOrder(actions: seq<Action>, p: MsgId, q: MsgId, rows: seq<Entry>, addDayMarker: bool, offset: int)
    requires var db := Run(NO_MESSAGES, actions);
             && p in db.queued && q in db.queued && p in db.msgs && q in db.msgs && p < q
             && db.msgs[p].chat == db.msgs[q].chat && !db.msgs[p].hidden && !db.msgs[q].hidden
             && IsChatQuery(db.msgs, db.msgs[q].chat, rows)
    ensures ShownBefore(Items(Sort(rows), addDayMarker, offset), p, q)
  {
    var db := Run(NO_MESSAGES, actions);
    SortedQuery(db.msgs, db.msgs[q].chat, rows);
    QueuedListedInSendOrder(actions, p, q, Sort(rows));
    var i, j :| 0 <= i < j < |Sort(rows)| && Sort(rows)[i].id == p && Sort(rows)[j].id == q;
    ItemsKeepOrder(Sort(rows), addDayMarker, offset, i, j);
  }
}
