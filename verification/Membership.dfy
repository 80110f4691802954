/** Group membership.  `chats_contacts` keeps for each member when they were last added and last
    removed; who is a member is read off by comparing the two.  The table must behave as a plain
    set of members per chat, whatever the clock does. */
module Membership {
  import opened Collections

  type ChatId = nat
  type ContactId = nat

  /** Column defaults are 0. */
  datatype Row = Row(add: int, remove: int)

  datatype Key = Key(chat: ChatId, contact: ContactId)

  type Table = map<Key, Row>

  predicate IsMemberRow(row: Row) {
    row.add >= row.remove
  }

  predicate IsMember(t: Table, chat: ChatId, contact: ContactId) {
    Key(chat, contact) in t && IsMemberRow(t[Key(chat, contact)])
  }

  // ----- the statements -----

  /** `SET remove_timestamp=MAX(add_timestamp+1, ?)` */
  function Bumped(row: Row, timestamp: int): Row {
    row.(remove := Max(row.add + 1, timestamp))
  }

  function BumpChat(t: Table, timestamp: int, chat: ChatId): Table {
    map k | k in t :: if k.chat == chat then Bumped(t[k], timestamp) else t[k]
  }

  function Readded(t: Table, timestamp: int, k: Key): Row {
    if k in t then t[k].(add := t[k].remove) else Row(timestamp, 0)
  }

  function Added(t: Table, timestamp: int, k: Key): Row {
    if k in t then t[k].(add := Max(t[k].remove, timestamp)) else Row(timestamp, 0)
  }

  /** Re-adds the members among `contacts`, leaving other rows alone. */
  function ReaddAll(t: Table, timestamp: int, chat: ChatId, contacts: set<ContactId>): Table {
    map k | k in t.Keys + KeysOf(chat, contacts) ::
      if k in KeysOf(chat, contacts) then Readded(t, timestamp, k) else t[k]
  }

  function KeysOf(chat: ChatId, contacts: set<ContactId>): set<Key> {
    set c | c in contacts :: Key(chat, c)
  }

  function UpdateTable(t: Table, timestamp: int, chat: ChatId, contacts: set<ContactId>): Table {
    ReaddAll(BumpChat(t, timestamp, chat), timestamp, chat, contacts)
  }

  function AddTable(t: Table, timestamp: int, chat: ChatId, contacts: seq<ContactId>): Table {
    if contacts == [] then t
    else
      var earlier := AddTable(t, timestamp, chat, contacts[..|contacts| - 1]);
      var k := Key(chat, contacts[|contacts| - 1]);
      earlier[k := Added(earlier, timestamp, k)]
  }

  function RemoveTable(t: Table, now: int, chat: ChatId, contact: ContactId): Table {
    var k := Key(chat, contact);
    if k in t then t[k := Bumped(t[k], now)] else t
  }

  function EraseTable(t: Table, chat: ChatId, contact: ContactId): Table {
    t - {Key(chat, contact)}
  }

  lemma ReaddOneMore(t: Table, timestamp: int, chat: ChatId, done: set<ContactId>, c: ContactId)
    requires c !in done
    ensures var rows, k := ReaddAll(t, timestamp, chat, done), Key(chat, c);
            && ReaddAll(t, timestamp, chat, done + {c}) == rows[k := Readded(rows, timestamp, k)]
  {
    var k := Key(chat, c);
    assert KeysOf(chat, done + {c}) == KeysOf(chat, done) + {k};
    assert k !in KeysOf(chat, done);
  }

  /** The table, changed in place. */
  class ChatsContacts {
    var rows: Table

    constructor ()
      ensures rows == map[]
    {
      rows := map[];
    }

    method UpdateChatContactsTable(timestamp: int, chat: ChatId, contacts: set<ContactId>)
      modifies this
      ensures rows == UpdateTable(old(rows), timestamp, chat, contacts)
    {
      rows := map k | k in rows :: if k.chat == chat then Bumped(rows[k], timestamp) else rows[k];
      ghost var bumped := rows;
      var left, done := contacts, {};
      assert ReaddAll(bumped, timestamp, chat, {}) == bumped;
      while left != {}
        invariant left + done == contacts && left !! done
        invariant rows == ReaddAll(bumped, timestamp, chat, done)
        decreases left
      {
        var contact: ContactId :| contact in left;
        ReaddOneMore(bumped, timestamp, chat, done, contact);
        var k := Key(chat, contact);
        if k in rows {
          rows := rows[k := rows[k].(add := rows[k].remove)];
        } else {
          rows := rows[k := Row(timestamp, 0)];
        }
        left, done := left - {contact}, done + {contact};
      }
    }

    method AddToChatContactsTable(timestamp: int, chat: ChatId, contacts: seq<ContactId>)
      modifies this
      ensures rows == AddTable(old(rows), timestamp, chat, contacts)
    {
      for i := 0 to |contacts|
        invariant rows == AddTable(old(rows), timestamp, chat, contacts[..i])
      {
        var k := Key(chat, contacts[i]);
        if k in rows {
          rows := rows[k := rows[k].(add := Max(rows[k].remove, timestamp))];
        } else {
          rows := rows[k := Row(timestamp, 0)];
        }
        assert contacts[..i + 1][..i] == contacts[..i];
      }
      assert contacts[..|contacts|] == contacts;
    }

    /** Returns whether the contact has a row, as a member or as a past one. */
    method RemoveFromChatContactsTable(now: int, chat: ChatId, contact: ContactId) returns (recorded: bool)
      modifies this
      ensures rows == RemoveTable(old(rows), now, chat, contact)
      ensures recorded == (Key(chat, contact) in old(rows))
    {
      var k := Key(chat, contact);
      recorded := k in rows;
      if recorded {
        rows := rows[k := rows[k].(remove := Max(rows[k].add + 1, now))];
      }
    }

    method RemoveWithoutTrace(chat: ChatId, contact: ContactId) returns (recorded: bool)
      modifies this
      ensures rows == EraseTable(old(rows), chat, contact)
      ensures recorded == (Key(chat, contact) in old(rows))
    {
      recorded := Key(chat, contact) in rows;
      rows := rows - {Key(chat, contact)};
    }
  }

  // ----- queries -----

  function Members(t: Table, chat: ChatId): set<ContactId> {
    set k | k in t && k.chat == chat && IsMemberRow(t[k]) :: k.contact
  }

  /** Past members are shown for sixty days. */
  function PastMembers(t: Table, chat: ChatId, now: int): set<ContactId> {
    set k | k in t && k.chat == chat && t[k].add < t[k].remove && now - 60 * DAY < t[k].remove :: k.contact
  }

  lemma InMembers(t: Table, chat: ChatId, c: ContactId)
    ensures c in Members(t, chat) <==> IsMember(t, chat, c)
  {
    if IsMember(t, chat, c) {
      assert Key(chat, c) in t && Key(chat, c).contact == c;
    }
  }

  /** The three queries agree: nobody is listed both as a member and as a past member, and whoever
      was removed within sixty days is listed as a past member. */
  lemma QueriesAgree(t: Table, chat: ChatId, c: ContactId, now: int)
    ensures c in Members(t, chat) <==> IsMember(t, chat, c)
    ensures c in PastMembers(t, chat, now) <==>
            Key(chat, c) in t && !IsMember(t, chat, c) && now - 5184000 < t[Key(chat, c)].remove
    ensures Members(t, chat) !! PastMembers(t, chat, now)
  {
    InMembers(t, chat, c);
    if Key(chat, c) in t {
      assert Key(chat, c).contact == c;
    }
    forall x | x in Members(t, chat) ensures x !in PastMembers(t, chat, now) {
      InMembers(t, chat, x);
    }
  }

  // ----- the table refines a plain set -----

  datatype Op =
    | Update(timestamp: int, chat: ChatId, contacts: set<ContactId>)
    | Add(timestamp: int, chat: ChatId, members: seq<ContactId>)
    | Remove(timestamp: int, chat: ChatId, contact: ContactId)
    | Erase(chat: ChatId, contact: ContactId)

  function Perform(t: Table, op: Op): Table {
    match op
    case Update(ts, chat, contacts) => UpdateTable(t, ts, chat, contacts)
    case Add(ts, chat, members) => AddTable(t, ts, chat, members)
    case Remove(ts, chat, contact) => RemoveTable(t, ts, chat, contact)
    case Erase(chat, contact) => EraseTable(t, chat, contact)
  }

  /** What the operation means for the member set of its chat. */
  function Intended(members: set<ContactId>, op: Op): set<ContactId> {
    match op
    case Update(_, _, contacts) => contacts
    case Add(_, _, added) => members + set c | c in added
    case Remove(_, _, contact) => members - {contact}
    case Erase(_, contact) => members - {contact}
  }

  /** The operation's own timestamp; erasing has none. */
  function Stamp(op: Op, now: int): int {
    if op.Erase? then now else op.timestamp
  }

  /** The contact would get a new row stamped before the epoch.  There `remove_timestamp` is the
      default 0, so the contact is born removed, unless the list names it again: the second insertion
      finds the row and lifts `add_timestamp` to 0. */
  predicate BornRemoved(t: Table, op: Op, c: ContactId) {
    && Stamp(op, 0) < 0 && Key(op.chat, c) !in t
    && match op
       case Update(_, _, contacts) => c in contacts
       case Add(_, _, added) => Count(added, c) == 1
       case _ => false
  }

  lemma UpdateReplaces(t: Table, ts: int, chat: ChatId, contacts: set<ContactId>, c: ContactId)
    ensures var member := IsMember(UpdateTable(t, ts, chat, contacts), chat, c);
            member <==> c in contacts && (Key(chat, c) in t || ts >= 0)
  {
    var k := Key(chat, c);
    assert k in KeysOf(chat, contacts) <==> c in contacts;
  }

  /** The row of any key after an update: in the chat, `remove_timestamp` moves past `add_timestamp` and
      to the timestamp at least, and the contacts are added at that very time; new ones at the timestamp. */
  lemma UpdatedRow(t: Table, ts: int, chat: ChatId, contacts: set<ContactId>, k: Key)
    ensures var r, given := UpdateTable(t, ts, chat, contacts), k.chat == chat && k.contact in contacts;
            && (k in r <==> k in t || given)
            && (k in t && k.chat != chat ==> r[k] == t[k])
            && (k in t && k.chat == chat ==>
                  && r[k].remove > t[k].add && r[k].remove >= ts && (r[k].remove == t[k].add + 1 || r[k].remove == ts)
                  && r[k].add == if given then r[k].remove else t[k].add)
            && (k !in t && given ==> r[k] == Row(ts, 0))
  {
    assert k in KeysOf(chat, contacts) <==> k.chat == chat && k.contact in contacts by {
      if k.chat == chat && k.contact in contacts { assert k == Key(chat, k.contact); }
    }
  }

  /** The row of any key after a removal: the contact's `remove_timestamp` moves in the same way. */
  lemma RemovedRow(t: Table, now: int, chat: ChatId, contact: ContactId, k: Key)
    ensures var r := RemoveTable(t, now, chat, contact);
            && (k in r <==> k in t)
            && (k in t && k != Key(chat, contact) ==> r[k] == t[k])
            && (k in t && k == Key(chat, contact) ==>
                  && r[k].add == t[k].add && r[k].remove > t[k].add && r[k].remove >= now
                  && (r[k].remove == t[k].add + 1 || r[k].remove == now))
  {}

  lemma {:induction false} InCount(added: seq<ContactId>, c: ContactId)
    ensures c in added <==> Count(added, c) > 0
  {
    if added != [] {
      SplitLast(added);
      InCount(added[..|added| - 1], c);
    }
  }

  /** The row of a contact after an addition. */
  lemma {:induction false} AddedRow(t: Table, ts: int, chat: ChatId, added: seq<ContactId>, c: ContactId)
    ensures var k, r := Key(chat, c), AddTable(t, ts, chat, added);
            && (Count(added, c) == 0 ==> (k in r <==> k in t) && (k in t ==> r[k] == t[k]))
            && (Count(added, c) > 0 ==> k in r)
            && (Count(added, c) > 0 && k in t ==> r[k] == t[k].(add := Max(t[k].remove, ts)))
            && (Count(added, c) > 0 && k !in t ==> r[k] == Row(if Count(added, c) == 1 then ts else Max(0, ts), 0))
  {
    if added != [] {
      AddedRow(t, ts, chat, added[..|added| - 1], c);
    }
  }

  /** After an addition the members are the old and the added ones, except those born removed. */
  lemma AddInserts(t: Table, ts: int, chat: ChatId, added: seq<ContactId>, c: ContactId)
    ensures IsMember(AddTable(t, ts, chat, added), chat, c) <==>
            IsMember(t, chat, c) || (c in added && !BornRemoved(t, Add(ts, chat, added), c))
  {
    InCount(added, c);
    AddedRow(t, ts, chat, added, c);
  }

  lemma PerformMeans(t: Table, op: Op, c: ContactId)
    ensures IsMember(Perform(t, op), op.chat, c) <==> c in Intended(Members(t, op.chat), op) && !BornRemoved(t, op, c)
  {
    InMembers(t, op.chat, c);
    match op
    case Update(ts, chat, contacts) => UpdateReplaces(t, ts, chat, contacts, c);
    case Add(ts, chat, added) => AddInserts(t, ts, chat, added, c);
    case Remove(ts, chat, contact) =>
    case Erase(chat, contact) =>
  }

  /** An operation does to the member set what it means, except exactly when somebody is born removed. */
  lemma RefinesIff(t: Table, op: Op)
    ensures Members(Perform(t, op), op.chat) == Intended(Members(t, op.chat), op) <==>
            !exists c: ContactId :: BornRemoved(t, op, c)
  {
    forall c: ContactId
      ensures c in Members(Perform(t, op), op.chat) <==> c in Intended(Members(t, op.chat), op) && !BornRemoved(t, op, c)
    {
      PerformMeans(t, op, c);
      InMembers(Perform(t, op), op.chat, c);
    }
    if c: ContactId :| BornRemoved(t, op, c) {
      BornRemovedIsMeant(t, op, c);
    }
  }

  lemma BornRemovedIsMeant(t: Table, op: Op, c: ContactId)
    requires BornRemoved(t, op, c)
    ensures c in Intended(Members(t, op.chat), op)
  {
    if op.Add? { InCount(op.members, c); }
  }

  /** Added once before the epoch a contact is no member, added twice in one call it is. */
  lemma BornRemovedExample()
    ensures Members(RunTable(map[], [Add(-5, 1, [7])]), 1) == {}
    ensures Members(RunTable(map[], [Add(-5, 1, [7, 7])]), 1) == {7}
  {
    var once, twice := Add(-5, 1, [7]), Add(-5, 1, [7, 7]);
    assert RunTable(map[], [once]) == RunTable(Perform(map[], once), []);
    assert RunTable(map[], [twice]) == RunTable(Perform(map[], twice), []);
    assert [7][..0] == [] && [7, 7][..1] == [7];
    assert Count([7], 7) == 1 && Count([7, 7], 7) == 2;
    assert BornRemoved(map[], once, 7);
    forall c: ContactId
      ensures c !in Members(Perform(map[], once), 1) && (c in Members(Perform(map[], twice), 1) <==> c == 7)
    {
      PerformMeans(map[], once, c);
      PerformMeans(map[], twice, c);
      InMembers(Perform(map[], once), 1, c);
      InMembers(Perform(map[], twice), 1, c);
    }
  }

  lemma {:induction false} AddTouchesOwnChat(t: Table, ts: int, chat: ChatId, added: seq<ContactId>, k: Key)
    requires k.chat != chat
    ensures k in AddTable(t, ts, chat, added) <==> k in t
    ensures k in t ==> AddTable(t, ts, chat, added)[k] == t[k]
  {
    if added != [] {
      AddTouchesOwnChat(t, ts, chat, added[..|added| - 1], k);
    }
  }

  lemma OtherChatsUntouched(t: Table, op: Op, chat: ChatId)
    requires chat != op.chat
    ensures Members(Perform(t, op), chat) == Members(t, chat)
  {
    forall c ensures c in Members(Perform(t, op), chat) <==> c in Members(t, chat) {
      InMembers(t, chat, c);
      InMembers(Perform(t, op), chat, c);
      if op.Add? {
        AddTouchesOwnChat(t, op.timestamp, op.chat, op.members, Key(chat, c));
      }
    }
  }

  function RunTable(t: Table, ops: seq<Op>): Table
    decreases |ops|
  {
    if ops == [] then t else RunTable(Perform(t, ops[0]), ops[1..])
  }

  function RunSet(members: set<ContactId>, chat: ChatId, ops: seq<Op>): set<ContactId>
    decreases |ops|
  {
    if ops == [] then members
    else RunSet(if ops[0].chat == chat then Intended(members, ops[0]) else members, chat, ops[1..])
  }

  /** Over every history with non-negative timestamps, in any order of time, each chat's members
      are those of a plain set under the same operations. */
  lemma {:induction false} TableRefinesSet(t: Table, ops: seq<Op>, chat: ChatId)
    requires forall i :: 0 <= i < |ops| ==> Stamp(ops[i], 0) >= 0
    ensures Members(RunTable(t, ops), chat) == RunSet(Members(t, chat), chat, ops)
    decreases |ops|
  {
    if ops != [] {
      if ops[0].chat == chat { RefinesIff(t, ops[0]); } else { OtherChatsUntouched(t, ops[0], chat); }
      TableRefinesSet(Perform(t, ops[0]), ops[1..], chat);
    }
  }

  // ----- time never runs backwards in the table -----

  ghost predicate TimelyRow(row: Row, now: int) {
    row.add <= Max(row.remove, now) && row.remove <= Max(row.add + 1, now)
  }

  ghost predicate Timely(t: Table, now: int) {
    forall k :: k in t ==> TimelyRow(t[k], now)
  }

  /** The row of any key after an addition. */
  lemma AddRow(t: Table, ts: int, chat: ChatId, added: seq<ContactId>, k: Key)
    requires k in AddTable(t, ts, chat, added)
    ensures var row := AddTable(t, ts, chat, added)[k];
            if k in t then row == if k.chat == chat && k.contact in added then t[k].(add := Max(t[k].remove, ts)) else t[k]
            else row.remove == 0 && (row.add == ts || row.add == Max(0, ts))
  {
    if k.chat == chat {
      InCount(added, k.contact);
      AddedRow(t, ts, chat, added, k.contact);
      assert k == Key(chat, k.contact);
    } else {
      AddTouchesOwnChat(t, ts, chat, added, k);
    }
  }

  lemma RowStaysTimely(t: Table, op: Op, now: int, k: Key)
    requires Timely(t, now) && 0 <= now <= Stamp(op, now) && k in Perform(t, op)
    ensures TimelyRow(Perform(t, op)[k], Stamp(op, now))
    ensures k in t ==> t[k].add <= Perform(t, op)[k].add && t[k].remove <= Perform(t, op)[k].remove
  {
    if k in t { assert TimelyRow(t[k], now); }
    if op.Add? { AddRow(t, op.timestamp, op.chat, op.members, k); }
  }

  ghost predicate ClockForward(ops: seq<Op>, now: int)
    decreases |ops|
  {
    ops == [] || (now <= Stamp(ops[0], now) && ClockForward(ops[1..], Stamp(ops[0], now)))
  }

  /** The rows that every step of the history keeps. */
  ghost predicate Survives(t: Table, ops: seq<Op>, k: Key)
    decreases |ops|
  {
    k in t && (ops == [] || Survives(Perform(t, ops[0]), ops[1..], k))
  }

  /** While the clock does not run backwards, neither timestamp of a surviving row ever decreases. */
  lemma {:induction false} TimestampsNeverDecrease(t: Table, ops: seq<Op>, now: int, k: Key)
    requires Timely(t, now) && 0 <= now && ClockForward(ops, now) && Survives(t, ops, k)
    ensures k in RunTable(t, ops)
    ensures t[k].add <= RunTable(t, ops)[k].add && t[k].remove <= RunTable(t, ops)[k].remove
    decreases |ops|
  {
    if ops != [] {
      var later := Perform(t, ops[0]);
      forall x | x in later ensures TimelyRow(later[x], Stamp(ops[0], now)) {
        RowStaysTimely(t, ops[0], now, x);
      }
      RowStaysTimely(t, ops[0], now, k);
      TimestampsNeverDecrease(later, ops[1..], Stamp(ops[0], now), k);
    }
  }

  ghost predicate MovesBack(before: Row, after: Row) {
    after.add < before.add || after.remove < before.remove
  }

  /** With any clock, an operation moves a timestamp of a surviving row back exactly when: a removal or
      update, older than the stored removal, meets one that is more than the forced second after the
      addition; or an addition, older than the stored one, meets a member. */
  lemma MovesBackIff(t: Table, op: Op, k: Key)
    requires k in t && k in Perform(t, op)
    ensures MovesBack(t[k], Perform(t, op)[k]) <==>
            match op
            case Update(ts, chat, _) => k.chat == chat && t[k].add + 1 < t[k].remove && ts < t[k].remove
            case Remove(ts, chat, contact) => k == Key(chat, contact) && t[k].add + 1 < t[k].remove && ts < t[k].remove
            case Add(ts, chat, added) => k.chat == chat && k.contact in added && t[k].remove < t[k].add && ts < t[k].add
            case Erase(_, _) => false
  {
    if op.Add? { AddRow(t, op.timestamp, op.chat, op.members, k); }
  }

  /** A removal at 150 after one at 200 moves the stored removal back, and an addition at 50 after one at
      100 the stored addition. */
  lemma MovesBackExample()
    ensures RunTable(map[], [Add(100, 1, [7]), Remove(200, 1, 7)]) == map[Key(1, 7) := Row(100, 200)]
    ensures Perform(map[Key(1, 7) := Row(100, 200)], Remove(150, 1, 7)) == map[Key(1, 7) := Row(100, 150)]
    ensures Perform(map[Key(1, 7) := Row(100, 0)], Add(50, 1, [7])) == map[Key(1, 7) := Row(50, 0)]
  {
    var add, remove := Add(100, 1, [7]), Remove(200, 1, 7);
    assert [7][..0] == [];
    assert Perform(map[], add) == map[Key(1, 7) := Row(100, 0)];
    assert [add, remove][1..] == [remove];
    assert RunTable(Perform(map[], add), [remove]) == RunTable(Perform(Perform(map[], add), remove), []);
  }

  ghost predicate Bounded(t: Table, bound: int) {
    forall k :: k in t ==> t[k].add <= bound && t[k].remove <= bound
  }

  function Bumps(op: Op): nat {
    if op.Remove? || op.Update? then 1 else 0
  }

  function BumpCount(ops: seq<Op>): nat
    decreases |ops|
  {
    if ops == [] then 0 else Bumps(ops[0]) + BumpCount(ops[1..])
  }

  /** With any clock, stored times run ahead of the largest time used by at most one second for
      each removal or update. */
  lemma {:induction false} DriftIsBounded(t: Table, ops: seq<Op>, latest: int, bound: int)
    requires 0 <= latest <= bound && Bounded(t, bound)
    requires forall i :: 0 <= i < |ops| ==> 0 <= Stamp(ops[i], latest) <= latest
    ensures Bounded(RunTable(t, ops), bound + BumpCount(ops))
    decreases |ops|
  {
    if ops != [] {
      var later, bound' := Perform(t, ops[0]), bound + Bumps(ops[0]);
      forall k | k in later ensures later[k].add <= bound' && later[k].remove <= bound' {
        if ops[0].Add? { AddRow(t, ops[0].timestamp, ops[0].chat, ops[0].members, k); }
      }
      DriftIsBounded(later, ops[1..], latest, bound');
    }
  }
}
