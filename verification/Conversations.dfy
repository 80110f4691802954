/** Grouping and shape together: what the `thread` command prints for a message. */
module Conversations {
  import ThreadGroups
  import ThreadHistory
  import ThreadTree

  /** The answer of the row query for one thread: its messages that are not in the trash, each once. */
  ghost predicate IsThreadQuery(s: ThreadGroups.Store, thread: nat, live: set<nat>, rows: seq<ThreadTree.Row>) {
    && ThreadTree.DistinctIds(rows)
    && (forall i :: 0 <= i < |rows| ==> InThread(s, thread, live, rows[i].id))
    && (forall n :: InThread(s, thread, live, n) ==> exists i :: 0 <= i < |rows| && rows[i].id == n)
  }

  ghost predicate InThread(s: ThreadGroups.Store, thread: nat, live: set<nat>, n: nat) {
    n in s.msgs && s.msgs[n] == thread && n in live
  }

  lemma {:induction false} NotListed(rows: seq<ThreadTree.Row>, items: seq<ThreadTree.Item>, n: nat)
    requires ThreadTree.AllAtDepth(rows, items)
    requires forall i :: 0 <= i < |rows| ==> rows[i].id != n
    ensures ThreadTree.Times(items, n) == 0
  {
    if items != [] {
      assert ThreadTree.IsRowAtDepth(rows, items[0]);
      assert forall e :: 0 <= e < |items[1..]| ==> items[1..][e] == items[e + 1];
      NotListed(rows, items[1..], n);
    }
  }

  /** After any history of arrivals, reprocessing and pruning, the listing of a message's thread
      names exactly the live messages connected to it by Message-IDs, each exactly once. */
  lemma ListsTheConversation(
    events: seq<ThreadGroups.Event>, m: nat, live: set<nat>, rows: seq<ThreadTree.Row>, n: nat)
    requires m in ThreadGroups.Run(events).msgs
    requires IsThreadQuery(ThreadGroups.Run(events), ThreadGroups.Run(events).msgs[m], live, rows)
    ensures m in ThreadGroups.LearnAll(events).ids
    ensures ThreadTree.Times(ThreadTree.PreorderAll(ThreadTree.Roots(rows), 0), n) ==
            if n in live && n in ThreadGroups.LearnAll(events).ids
               && ThreadHistory.SameConversation(ThreadGroups.LearnAll(events), m, n) then 1 else 0
  {
    var s, k := ThreadGroups.Run(events), ThreadGroups.LearnAll(events);
    ThreadGroups.RunRepresents(events);
    ThreadTree.ListingIsComplete(rows);
    if n in s.msgs {
      ThreadHistory.GroupsAreComponents(events, m, n);
    }
    if InThread(s, s.msgs[m], live, n) {
      var i :| 0 <= i < |rows| && rows[i].id == n;
    } else {
      NotListed(rows, ThreadTree.PreorderAll(ThreadTree.Roots(rows), 0), n);
    }
  }

  /** The `thread` command, given the rows of the thread. */
  method ListThread(rows: seq<ThreadTree.Row>) returns (items: seq<ThreadTree.Item>)
    requires ThreadTree.DistinctIds(rows)
    ensures items == ThreadTree.PreorderAll(ThreadTree.Roots(rows), 0)
  {
    var forest := ThreadTree.Tree(rows);
    items := ThreadTree.Flatten(forest);
  }
}
