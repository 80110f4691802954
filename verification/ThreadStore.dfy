/** The tables of conversations changed in place, as `assign` and `prune` do statement by statement. */
module ThreadStore {
  import opened Collections
  import opened ThreadGroups

  /** Every Message-ID a message links its thread to, first occurrence only, blanks dropped. */
  method LinkedIds(own: Mid, references: seq<Mid>, inReplyTo: seq<Mid>) returns (ids: seq<Mid>)
    ensures NoDuplicates(ids)
    ensures forall x :: x in ids <==> x != "" && (x == own || x in references || x in inReplyTo)
  {
    var chain := [own] + references + inReplyTo;
    var seen: set<Mid> := {};
    ids := [];
    for i := 0 to |chain|
      invariant NoDuplicates(ids)
      invariant forall x :: x in seen <==> x in ids
      invariant forall x :: x in ids <==> x != "" && x in chain[..i]
    {
      if chain[i] != "" && chain[i] !in seen {
        seen := seen + {chain[i]};
        ids := ids + [chain[i]];
      }
    }
    assert chain[..|chain|] == chain;
  }

  function MoveRefs(refs: map<Mid, ThreadId>, losers: set<ThreadId>, survivor: ThreadId): map<Mid, ThreadId> {
    map x | x in refs :: Redirect(refs[x], losers, survivor)
  }

  function MoveMsgs(msgs: map<MsgId, ThreadId>, losers: set<ThreadId>, survivor: ThreadId): map<MsgId, ThreadId> {
    map m | m in msgs :: Redirect(msgs[m], losers, survivor)
  }

  function MergeRows(survivor: Thread, loser: Thread): Thread {
    Thread(if survivor.subject == "" then loser.subject else survivor.subject,
           Max(survivor.lastActivity, loser.lastActivity))
  }

  function MergeOf(threads: map<ThreadId, Thread>, order: seq<ThreadId>): Thread
    requires order != [] && forall t :: t in order ==> t in threads
  {
    Thread(FirstNonBlank(Subjects(threads, order)), Newest(Activities(threads, order)))
  }

  lemma MergeOfOne(threads: map<ThreadId, Thread>, t: ThreadId)
    requires t in threads
    ensures MergeOf(threads, [t]) == threads[t]
  {
    assert Subjects(threads, [t]) == [threads[t].subject];
    assert Activities(threads, [t]) == [threads[t].lastActivity];
    assert FirstNonBlank([threads[t].subject][..0]) == "";
  }

  lemma MergeOneMore(threads: map<ThreadId, Thread>, order: seq<ThreadId>, i: nat)
    requires 1 <= i < |order| && forall t :: t in order ==> t in threads
    ensures MergeOf(threads, order[..i + 1]) == MergeRows(MergeOf(threads, order[..i]), threads[order[i]])
  {
    var prefix := order[..i + 1];
    assert prefix[..i] == order[..i];
    assert Subjects(threads, prefix)[..i] == Subjects(threads, order[..i]);
    assert Activities(threads, prefix)[..i] == Activities(threads, order[..i]);
  }

  /** The next loser is a new one. */
  lemma NextLoser(order: seq<ThreadId>, i: nat)
    requires StrictlyAscending(order) && i < |order|
    ensures order[i] !in Elements(order[..i])
    ensures Elements(order[..i + 1]) == Elements(order[..i]) + {order[i]}
  {
    TakeOneMore(order, i);
    assert forall x :: x in order[..i] + [order[i]] <==> x in order[..i] || x == order[i];
  }

  /** Folding in one more loser extends the set of losers. */
  lemma MoveOneMore(s: Store, done: set<ThreadId>, survivor: ThreadId, loser: ThreadId)
    requires survivor in done && loser !in done
    ensures MoveRefs(MoveRefs(s.refs, done, survivor), {loser}, survivor) == MoveRefs(s.refs, done + {loser}, survivor)
    ensures MoveMsgs(MoveMsgs(s.msgs, done, survivor), {loser}, survivor) == MoveMsgs(s.msgs, done + {loser}, survivor)
  {}

  lemma DropOneMore(s: Store, done: set<ThreadId>, survivor: ThreadId, loser: ThreadId, a: Thread, b: Thread)
    requires survivor in done && loser !in done
    ensures ((s.threads - done)[survivor := a] - {loser})[survivor := b] == (s.threads - (done + {loser}))[survivor := b]
  {}

  /** After the merge, filing the linked IDs and the message completes the step. */
  lemma MergeThenFile(s: Store, msg: MsgId, ids: seq<Mid>, refs: map<Mid, ThreadId>, msgs: map<MsgId, ThreadId>)
    requires var own := Elements(ids);
             && refs == MoveRefs(s.refs, Touched(s, own), Target(s, own))
             && msgs == MoveMsgs(s.msgs, Touched(s, own), Target(s, own))
    ensures var target := Target(s, Elements(ids));
            && (map x | x in refs.Keys + (set id | id in ids) :: if x in ids then target else refs[x]) == AssignRefs(s, Elements(ids))
            && msgs[msg := target] == AssignMsgs(s, msg, Elements(ids))
  {}

  /** The row of the target thread before the new message fills it in. */
  function BaseRow(s: Store, ids: set<Mid>, subject: string, timestamp: int): Thread
    requires forall x :: x in s.refs ==> s.refs[x] in s.threads
  {
    var order := Ascending(Touched(s, ids));
    if order == [] then Thread(subject, timestamp) else MergeOf(s.threads, order)
  }

  lemma MergedFromBase(s: Store, ids: set<Mid>, subject: string, timestamp: int)
    requires Consistent(s)
    ensures Merged(s, ids, subject, timestamp) ==
            MergeRows(BaseRow(s, ids, subject, timestamp), Thread(subject, timestamp))
  {
    var order := Ascending(Touched(s, ids));
    var subjects, activities := Subjects(s.threads, order), Activities(s.threads, order);
    assert (subjects + [subject])[..|order|] == subjects && (subjects + [subject])[|order|] == subject;
    assert (activities + [timestamp])[..|order|] == activities && (activities + [timestamp])[|order|] == timestamp;
    if order == [] {
      assert FirstNonBlank(subjects) == "";
    }
  }

  lemma OverwriteTarget(s: Store, ids: set<Mid>, base: Thread, merged: Thread)
    ensures Target(s, ids) in AssignThreads(s, ids, base) && AssignThreads(s, ids, base)[Target(s, ids)] == base
    ensures AssignThreads(s, ids, base)[Target(s, ids) := merged] == AssignThreads(s, ids, merged)
  {}

  lemma OldestIsTarget(s: Store, ids: set<Mid>, base: Thread, order: seq<ThreadId>)
    requires Consistent(s) && order == Ascending(Touched(s, ids)) && order != []
    ensures Elements(order) == Touched(s, ids)
    ensures order[0] == Target(s, ids)
    ensures forall t :: t in order ==> t in s.threads
    ensures (s.threads - Touched(s, ids))[order[0] := base] == AssignThreads(s, ids, base)
  {}

  class ThreadTables {
    var threads: map<ThreadId, Thread>
    var refs: map<Mid, ThreadId>
    var msgs: map<MsgId, ThreadId>
    var nextId: ThreadId

    function View(): Store
      reads this
    {
      Store(threads, refs, msgs, nextId)
    }

    constructor ()
      ensures View() == EMPTY_STORE
    {
      threads, refs, msgs, nextId := map[], map[], map[], 1;
    }

    /** The distinct threads the linked IDs already belong to. */
    method Existing(ids: seq<Mid>) returns (existing: seq<ThreadId>)
      ensures NoDuplicates(existing)
      ensures forall t :: t in existing <==> t in Touched(View(), Elements(ids))
    {
      existing := [];
      for i := 0 to |ids|
        invariant NoDuplicates(existing)
        invariant forall t :: t in existing <==> exists j :: 0 <= j < i && ids[j] in refs && refs[ids[j]] == t
      {
        if ids[i] in refs && refs[ids[i]] !in existing {
          existing := existing + [refs[ids[i]]];
        }
      }
    }

    /** Folds one thread into the survivor: its rows, its label if the survivor has none, its recency. */
    method MergeLoser(survivor: ThreadId, loser: ThreadId)
      requires survivor in threads && loser in threads && survivor != loser
      modifies this
      ensures refs == MoveRefs(old(refs), {loser}, survivor)
      ensures msgs == MoveMsgs(old(msgs), {loser}, survivor)
      ensures threads == (old(threads) - {loser})[survivor := MergeRows(old(threads)[survivor], old(threads)[loser])]
      ensures nextId == old(nextId)
    {
      msgs := map m | m in msgs :: if msgs[m] == loser then survivor else msgs[m];
      refs := map x | x in refs :: if refs[x] == loser then survivor else refs[x];
      threads := threads[survivor := Thread(
        if threads[survivor].subject == "" then threads[loser].subject else threads[survivor].subject,
        Max(threads[survivor].lastActivity, threads[loser].lastActivity))];
      threads := threads - {loser};
    }

    /** The survivor takes over the remaining threads of `order`, oldest first. */
    method MergeAll(order: seq<ThreadId>)
      requires order != [] && StrictlyAscending(order)
      requires forall t :: t in order ==> t in threads
      modifies this
      ensures refs == MoveRefs(old(refs), Elements(order), order[0])
      ensures msgs == MoveMsgs(old(msgs), Elements(order), order[0])
      ensures threads == (old(threads) - Elements(order))[order[0] := MergeOf(old(threads), order)]
      ensures nextId == old(nextId)
    {
      var survivor := order[0];
      MergeOfOne(threads, survivor);
      assert order[..1] == [survivor];
      ghost var done := {survivor};
      for i := 1 to |order|
        invariant done == Elements(order[..i]) && survivor in done
        invariant refs == MoveRefs(old(refs), done, survivor)
        invariant msgs == MoveMsgs(old(msgs), done, survivor)
        invariant threads == (old(threads) - done)[survivor := MergeOf(old(threads), order[..i])]
        invariant nextId == old(nextId)
      {
        var loser := order[i];
        NextLoser(order, i);
        MergeLoser(survivor, loser);
        MergeOneMore(old(threads), order, i);
        MoveOneMore(old(View()), done, survivor, loser);
        DropOneMore(old(View()), done, survivor, loser, MergeOf(old(threads), order[..i]), MergeOf(old(threads), order[..i + 1]));
        done := done + {loser};
      }
      assert order[..|order|] == order;
    }

    /** The thread the linked IDs belong to: merged from the existing ones, or new. */
    method FindOrMerge(ids: seq<Mid>, subject: string, timestamp: int) returns (thread: ThreadId)
      requires Consistent(View())
      modifies this
      ensures thread == Target(old(View()), Elements(ids))
      ensures refs == MoveRefs(old(refs), Touched(old(View()), Elements(ids)), thread)
      ensures msgs == MoveMsgs(old(msgs), Touched(old(View()), Elements(ids)), thread)
      ensures threads == AssignThreads(old(View()), Elements(ids), BaseRow(old(View()), Elements(ids), subject, timestamp))
      ensures nextId == if Touched(old(View()), Elements(ids)) == {} then old(nextId) + 1 else old(nextId)
    {
      var existing := Existing(ids);
      ghost var touched := Touched(View(), Elements(ids));
      var found := set t | t in existing;
      assert found == touched;
      var order := Ascending(found);
      if order != [] {
        OldestIsTarget(View(), Elements(ids), BaseRow(View(), Elements(ids), subject, timestamp), order);
        thread := order[0];
        MergeAll(order);
      } else {
        assert touched == {};
        assert threads - touched == threads && MoveRefs(refs, touched, nextId) == refs && MoveMsgs(msgs, touched, nextId) == msgs;
        thread := nextId;
        nextId := nextId + 1;
        threads := threads[thread := Thread(subject, timestamp)];
      }
    }

    /** Places a message in a conversation, creating or merging threads as needed. */
    method Assign(msg: MsgId, ids: seq<Mid>, subject: string, timestamp: int) returns (thread: ThreadId)
      requires Consistent(View())
      modifies this
      ensures View() == AssignStep(old(View()), msg, Elements(ids), subject, timestamp)
      ensures thread == Target(old(View()), Elements(ids))
    {
      ghost var s, own := View(), Elements(ids);
      thread := FindOrMerge(ids, subject, timestamp);
      MergeThenFile(s, msg, ids, refs, msgs);
      MergedFromBase(s, own, subject, timestamp);
      OverwriteTarget(s, own, BaseRow(s, own, subject, timestamp), Merged(s, own, subject, timestamp));
      refs := map x | x in refs.Keys + (set id | id in ids) :: if x in ids then thread else refs[x];
      msgs := msgs[msg := thread];
      var row := threads[thread];
      threads := threads[thread := Thread(
        if row.subject == "" then subject else row.subject, Max(row.lastActivity, timestamp))];
    }

    method Prune(live: set<MsgId>)
      requires Consistent(View())
      modifies this
      ensures View() == PruneStep(old(View()), live)
    {
      msgs := map m | m in msgs && m in live :: msgs[m];
      threads := map t | t in threads && t in msgs.Values :: threads[t];
      refs := map x | x in refs && refs[x] in threads :: refs[x];
    }
  }
}
