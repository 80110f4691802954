/** Marking old messages as noticed: an outgoing message received from another device shows that
    everything before it in its chat has been noticed. */
module Noticing {
  import opened Collections
  import opened Messages

  /** A message just received, as `receive_imf` reports it. */
  datatype Received = Received(chat: ChatId, outgoing: bool, sort: int)

  predicate Fresh(msg: Msg) {
    msg.state == InFresh && !msg.hidden
  }

  /** The rule: some outgoing message of the batch sorts at or after the message. */
  ghost predicate Outdated(batch: seq<Received>, msg: Msg) {
    exists i :: 0 <= i < |batch| && batch[i].outgoing && batch[i].chat == msg.chat && msg.timestamp <= batch[i].sort
  }

  ghost function Noticed(t: Table, batch: seq<Received>): Table {
    map m | m in t :: if Fresh(t[m]) && Outdated(batch, t[m]) then t[m].(state := InNoticed) else t[m]
  }

  /** The chats in which the rule changes something. */
  ghost predicate Changes(t: Table, batch: seq<Received>, chat: ChatId) {
    exists m :: m in t && t[m].chat == chat && Fresh(t[m]) && Outdated(batch, t[m])
  }

  // ----- one maximum per chat -----

  /** The largest sort time of the batch's outgoing messages for each chat that has one. */
  ghost predicate IsLatest(latest: map<ChatId, int>, batch: seq<Received>) {
    && (forall i :: 0 <= i < |batch| && batch[i].outgoing ==>
          batch[i].chat in latest && batch[i].sort <= latest[batch[i].chat])
    && (forall c :: c in latest ==> exists i :: 0 <= i < |batch| && batch[i].outgoing && batch[i].chat == c && batch[i].sort == latest[c])
  }

  lemma OutdatedByLatest(latest: map<ChatId, int>, batch: seq<Received>, msg: Msg)
    requires IsLatest(latest, batch)
    ensures Outdated(batch, msg) <==> msg.chat in latest && msg.timestamp <= latest[msg.chat]
  {}

  method LatestByChat(batch: seq<Received>) returns (latest: map<ChatId, int>)
    ensures IsLatest(latest, batch)
  {
    latest := map[];
    for i := 0 to |batch|
      invariant IsLatest(latest, batch[..i])
    {
      var msg := batch[i];
      ghost var before := latest;
      if msg.outgoing {
        if msg.chat in latest {
          if msg.sort > latest[msg.chat] {
            latest := latest[msg.chat := msg.sort];
          }
        } else {
          latest := latest[msg.chat := msg.sort];
        }
      }
      LatestOneMore(before, latest, batch, i);
    }
    assert batch[..|batch|] == batch;
  }

  lemma LatestOneMore(before: map<ChatId, int>, after: map<ChatId, int>, batch: seq<Received>, i: nat)
    requires i < |batch| && IsLatest(before, batch[..i])
    requires var msg := batch[i];
             after == if msg.outgoing && (msg.chat !in before || msg.sort > before[msg.chat])
                      then before[msg.chat := msg.sort] else before
    ensures IsLatest(after, batch[..i + 1])
  {
    var prefix := batch[..i + 1];
    forall c | c in after
      ensures exists k :: 0 <= k < |prefix| && prefix[k].outgoing && prefix[k].chat == c && prefix[k].sort == after[c]
    {
      if c in before && after[c] == before[c] {
        var k :| 0 <= k < i && batch[..i][k].outgoing && batch[..i][k].chat == c && batch[..i][k].sort == before[c];
        assert prefix[k] == batch[..i][k];
      } else {
        assert prefix[i] == batch[i];
      }
    }
    forall k | 0 <= k < |prefix| && prefix[k].outgoing
      ensures prefix[k].chat in after && prefix[k].sort <= after[prefix[k].chat]
    {
      if k < i { assert prefix[k] == batch[..i][k]; }
    }
  }

  // ----- one statement per chat, in any order -----

  /** `UPDATE msgs SET state=InNoticed ...` for one chat. */
  function NoticeChat(t: Table, chat: ChatId, latest: int): Table {
    map m | m in t ::
      if Fresh(t[m]) && t[m].chat == chat && t[m].timestamp <= latest then t[m].(state := InNoticed) else t[m]
  }

  function AffectedRows(t: Table, chat: ChatId, latest: int): set<MsgId> {
    set m | m in t && Fresh(t[m]) && t[m].chat == chat && t[m].timestamp <= latest
  }

  function NoticeChats(t: Table, latest: map<ChatId, int>, done: set<ChatId>): Table {
    map m | m in t ::
      if Fresh(t[m]) && t[m].chat in done && t[m].chat in latest && t[m].timestamp <= latest[t[m].chat]
      then t[m].(state := InNoticed) else t[m]
  }

  ghost predicate Reported(t: Table, latest: map<ChatId, int>, chat: ChatId) {
    exists m :: m in t && Fresh(t[m]) && t[m].chat == chat && chat in latest && t[m].timestamp <= latest[chat]
  }

  lemma NoticeOneMore(t: Table, latest: map<ChatId, int>, done: set<ChatId>, chat: ChatId)
    requires chat in latest && chat !in done
    ensures NoticeChat(NoticeChats(t, latest, done), chat, latest[chat]) == NoticeChats(t, latest, done + {chat})
    ensures AffectedRows(NoticeChats(t, latest, done), chat, latest[chat]) != {} <==> Reported(t, latest, chat)
  {
    var u := NoticeChats(t, latest, done);
    if Reported(t, latest, chat) {
      var m :| m in t && Fresh(t[m]) && t[m].chat == chat && t[m].timestamp <= latest[chat];
      assert m in AffectedRows(u, chat, latest[chat]);
    }
    if AffectedRows(u, chat, latest[chat]) != {} {
      var m :| m in AffectedRows(u, chat, latest[chat]);
      assert m in t && Fresh(t[m]) && t[m].chat == chat && t[m].timestamp <= latest[chat];
    }
  }

  /** The table and the chats it reports changed; hash-map iteration is an arbitrary order. */
  method MarkOldMessagesAsNoticed(t: Table, batch: seq<Received>, teamProfile: bool)
    returns (t': Table, changed: seq<ChatId>)
    ensures t' == if teamProfile then t else Noticed(t, batch)
    ensures NoDuplicates(changed)
    ensures forall c: ChatId :: c in changed <==> !teamProfile && Changes(t, batch, c)
  {
    t', changed := t, [];
    if teamProfile { return; }
    var latest := LatestByChat(batch);
    var left, done := latest.Keys, {};
    assert NoticeChats(t, latest, done) == t;
    while left != {}
      invariant left + done == latest.Keys && left !! done
      invariant t' == NoticeChats(t, latest, done)
      invariant NoDuplicates(changed)
      invariant forall c: ChatId :: c in changed <==> c in done && Reported(t, latest, c)
      decreases left
    {
      var chat: ChatId :| chat in left;
      NoticeOneMore(t, latest, done, chat);
      var affected := AffectedRows(t', chat, latest[chat]);
      t' := NoticeChat(t', chat, latest[chat]);
      if affected != {} {
        changed := changed + [chat];
      }
      left, done := left - {chat}, done + {chat};
    }
    LatestIsTheRule(t, latest, batch);
  }

  /** Keeping only the maximum per chat loses nothing. */
  lemma LatestIsTheRule(t: Table, latest: map<ChatId, int>, batch: seq<Received>)
    requires IsLatest(latest, batch)
    ensures NoticeChats(t, latest, latest.Keys) == Noticed(t, batch)
    ensures forall c: ChatId :: Reported(t, latest, c) <==> Changes(t, batch, c)
  {
    forall m | m in t
      ensures Outdated(batch, t[m]) <==> t[m].chat in latest && t[m].timestamp <= latest[t[m].chat]
    {
      OutdatedByLatest(latest, batch, t[m]);
    }
  }

  /** The effect depends only on which messages are in the batch, not on their order or repetition. */
  lemma BatchOrderIrrelevant(t: Table, a: seq<Received>, b: seq<Received>)
    requires Elements(a) == Elements(b)
    ensures Noticed(t, a) == Noticed(t, b)
  {
    forall m | m in t ensures Outdated(a, t[m]) <==> Outdated(b, t[m]) {
      if i :| 0 <= i < |a| && a[i].outgoing && a[i].chat == t[m].chat && t[m].timestamp <= a[i].sort {
        assert a[i] in Elements(b);
      }
      if i :| 0 <= i < |b| && b[i].outgoing && b[i].chat == t[m].chat && t[m].timestamp <= b[i].sort {
        assert b[i] in Elements(a);
      }
    }
  }
}
