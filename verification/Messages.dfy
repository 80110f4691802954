/** The `msgs` table while messages are sent: where a sent message is sorted, and which earlier
    messages its `References` header names. */
module Messages {
  import opened Collections
  import opened Text

  type MsgId = nat
  type ChatId = nat

  /** States stored in the table (read receipts turn `OutDelivered` into "read" only when loaded). */
  datatype MsgState = Undefined | InFresh | InNoticed | InSeen | OutDraft | OutPending | OutFailed | OutDelivered

  /** The states a sent message is sorted below, and may be a reply to. */
  predicate Counts(state: MsgState) {
    state != Undefined && state != OutDraft
  }

  datatype Msg = Msg(
    chat: ChatId,
    timestamp: int,
    state: MsgState,
    hidden: bool,
    downloaded: bool,
    info: bool,
    own: bool,
    mid: string,
    inReplyTo: string,
    references: string)

  type Table = map<MsgId, Msg>

  // ----- sorting to the bottom -----

  predicate CountsIn(t: Table, chat: ChatId, id: MsgId) {
    id in t && t[id].chat == chat && Counts(t[id].state)
  }

  /** `SELECT MAX(timestamp)` over the chat's messages up to `id`. */
  function Bottom(t: Table, chat: ChatId, id: MsgId): Option<int> {
    var earlier := if id == 0 then None else Bottom(t, chat, id - 1);
    if !CountsIn(t, chat, id) then earlier
    else if earlier.Some? && t[id].timestamp < earlier.value then earlier
    else Some(t[id].timestamp)
  }

  lemma {:induction false} BottomIsMaximum(t: Table, chat: ChatId, id: MsgId)
    ensures var r := Bottom(t, chat, id);
            && (r.Some? ==> forall m: MsgId :: m <= id && CountsIn(t, chat, m) ==> t[m].timestamp <= r.value)
            && (r.Some? ==> exists m: MsgId :: m <= id && CountsIn(t, chat, m) && t[m].timestamp == r.value)
            && (r.None? ==> forall m: MsgId :: m <= id ==> !CountsIn(t, chat, m))
  {
    if id > 0 { BottomIsMaximum(t, chat, id - 1); }
  }

  /** Queuing moves the message to the bottom of what precedes it. */
  function Queue(t: Table, id: MsgId): Table {
    if id in t && Bottom(t, t[id].chat, id).Some?
    then t[id := t[id].(timestamp := Bottom(t, t[id].chat, id).value)]
    else t
  }

  // ----- References -----

  /** May become the parent of the next message. */
  predicate Eligible(t: Table, chat: ChatId, id: MsgId) {
    CountsIn(t, chat, id) && !t[id].hidden && t[id].downloaded && !t[id].info
  }

  /** The newest eligible message among those before `n`; ties go to the larger id. */
  function ParentBefore(t: Table, chat: ChatId, n: nat): (r: Option<MsgId>)
    ensures r.Some? ==> r.value < n && Eligible(t, chat, r.value)
  {
    if n == 0 then None
    else
      var earlier := ParentBefore(t, chat, n - 1);
      if !Eligible(t, chat, n - 1) then earlier
      else if earlier.Some? && t[n - 1].timestamp < t[earlier.value].timestamp then earlier
      else Some(n - 1)
  }

  lemma {:induction false} ParentIsNewest(t: Table, chat: ChatId, n: nat)
    ensures var r := ParentBefore(t, chat, n);
            && (r.Some? ==> forall m: MsgId :: m < n && Eligible(t, chat, m) ==>
                  t[m].timestamp < t[r.value].timestamp || (t[m].timestamp == t[r.value].timestamp && m <= r.value))
            && (r.None? ==> forall m: MsgId :: m < n ==> !Eligible(t, chat, m))
  {
    if n > 0 { ParentIsNewest(t, chat, n - 1); }
  }

  function LastTwo(parts: seq<string>): seq<string> {
    if |parts| <= 2 then parts else parts[|parts| - 2..]
  }

  /** The pieces of the new header: two recent references and the parent. */
  function ReferencePieces(parentMid: string, parentInReplyTo: string, parentReferences: string): seq<string> {
    var recent := LastTwo(Split(if parentReferences == "" then parentInReplyTo else parentReferences, ' '));
    if parentMid != "" && parentMid !in recent then recent + [parentMid] else recent
  }

  function NewReferences(selfTalk: bool, parent: Option<Msg>, mid: string): string {
    if selfTalk then ""
    else if parent.None? then mid
    else
      var pieces := ReferencePieces(parent.value.mid, parent.value.inReplyTo, parent.value.references);
      if pieces == [] then mid else Join(pieces, ' ')
  }

  function NewInReplyTo(selfTalk: bool, parent: Option<Msg>, manual: Option<string>): string {
    if manual.Some? then manual.value
    else if !selfTalk && parent.Some? then parent.value.mid
    else ""
  }

  lemma PrependPiece(pieces: seq<string>, i: nat)
    requires i < |pieces|
    ensures [pieces[i]] + pieces[i + 1..] == pieces[i..]
  {}

  /** `rsplit(' ').take(2)`, then reversed: walks the pieces from their end. */
  method LastTwoOf(pieces: seq<string>) returns (recent: seq<string>)
    ensures recent == LastTwo(pieces)
  {
    recent := [];
    var i := |pieces|;
    while i > 0 && |recent| < 2
      invariant 0 <= i <= |pieces| && |recent| == |pieces| - i <= 2
      invariant recent == pieces[i..]
    {
      i := i - 1;
      PrependPiece(pieces, i);
      recent := [pieces[i]] + recent;
    }
  }

  method TakeLastTwo(s: string) returns (recent: seq<string>)
    ensures recent == LastTwo(Split(s, ' '))
  {
    recent := LastTwoOf(Split(s, ' '));
  }

  method BuildReferences(selfTalk: bool, parent: Option<Msg>, mid: string) returns (references: string)
    ensures references == NewReferences(selfTalk, parent, mid)
  {
    if selfTalk { return ""; }
    if parent.None? { return mid; }
    var p := parent.value;
    var pieces := TakeLastTwo(if p.references == "" then p.inReplyTo else p.references);
    if p.mid != "" && p.mid !in pieces {
      pieces := pieces + [p.mid];
    }
    references := if pieces == [] then mid else Join(pieces, ' ');
  }

  /** For any parent at most three pieces result, the parent's Message-ID among them, and they are
      the space-separated pieces of the header. */
  lemma ReferencesAreShort(parent: Msg, mid: string)
    ensures var pieces := ReferencePieces(parent.mid, parent.inReplyTo, parent.references);
            && 1 <= |pieces| <= 3
            && (parent.mid != "" ==> parent.mid in pieces)
            && (Free(parent.mid, ' ') ==> Split(NewReferences(false, Some(parent), mid), ' ') == pieces)
  {
    var source := if parent.references == "" then parent.inReplyTo else parent.references;
    var pieces := ReferencePieces(parent.mid, parent.inReplyTo, parent.references);
    SplitPiecesFree(source, ' ');
    if Free(parent.mid, ' ') {
      assert AllFree(pieces, ' ');
      SplitJoin(pieces, ' ');
    }
  }

  /** The fallback to the message's own ID never applies to a message with a parent, since a split
      always yields a piece: the header is then empty exactly when the parent has no Message-ID,
      no `References` and no `In-Reply-To`. */
  lemma ReferencesEmptyIff(parent: Msg, mid: string)
    ensures NewReferences(false, Some(parent), mid) == "" <==>
            parent.mid == "" && parent.references == "" && parent.inReplyTo == ""
  {
    var source := if parent.references == "" then parent.inReplyTo else parent.references;
    var parts := Split(source, ' ');
    JoinSplit(source, ' ');
    var pieces := ReferencePieces(parent.mid, parent.inReplyTo, parent.references);
    if source == "" {
      assert parts == [""];
    } else if |parts| == 1 {
      assert parts[0] == source;
    }
  }

  /** A parent without any of the three headers, as received mail may be, leaves the header empty. */
  lemma EmptyReferencesExample(first: Msg)
    requires first.state == InSeen && !first.hidden && first.downloaded && !first.info
    requires first.mid == "" && first.references == "" && first.inReplyTo == ""
    ensures var db := Run(NO_MESSAGES, [Insert(first), Send(first.chat, 5, false, "own", None, false, Queued)]);
            1 in db.msgs && db.msgs[1].references == ""
  {
    var send := Send(first.chat, 5, false, "own", None, false, Queued);
    var db := Step(NO_MESSAGES, Insert(first));
    RunTwo(NO_MESSAGES, Insert(first), send);
    assert Eligible(db.msgs, first.chat, 0);
    assert ParentBefore(db.msgs, first.chat, 1) == Some(0);
    ReferencesEmptyIff(first, "own");
    assert Prepared(db, first.chat, 5, false, "own", None, false).references == "";
  }

  /** The header names the last two of the parent's references, or of its `In-Reply-To` if it has no
      references, and the parent itself unless it is among them. */
  lemma ReferencesNameRecent(parent: Msg, older: seq<string>, recent: seq<string>)
    requires older + recent == Split(if parent.references == "" then parent.inReplyTo else parent.references, ' ')
    requires |recent| == 2 || (older == [] && |recent| < 2)
    ensures var pieces := ReferencePieces(parent.mid, parent.inReplyTo, parent.references);
            pieces == if parent.mid == "" || parent.mid in recent then recent else recent + [parent.mid]
  {
    assert (older + recent)[|older|..] == recent;
    assert older == [] ==> older + recent == recent;
  }

  // ----- the table under sends, resends and everything else -----

  /** What comes of `create_send_msg_jobs`; a refusal is an error before anything is written. */
  datatype Outcome = Queued | NoRecipients | Failed | Refused

  /** `queued` are the messages that were queued and not overtaken since: sending a draft may put a
      message with a smaller id below them. */
  datatype Db = Db(msgs: Table, nextId: MsgId, queued: set<MsgId>)

  datatype Action =
    | Send(chat: ChatId, now: int, hidden: bool, mid: string, manual: Option<string>, selfTalk: bool, outcome: Outcome)
    | SendDraft(id: MsgId, now: int, mid: string, manual: Option<string>, selfTalk: bool, outcome: Outcome)
    | Resend(id: MsgId, toAll: bool, outcome: Outcome)
    | Insert(msg: Msg)
    | SetState(id: MsgId, state: MsgState)
    | Delete(id: MsgId)

  /** The row `prepare_msg_raw` writes. */
  function Prepared(db: Db, chat: ChatId, now: int, hidden: bool, mid: string, manual: Option<string>, selfTalk: bool): Msg {
    var best := ParentBefore(db.msgs, chat, db.nextId);
    var parent := if best.Some? then Some(db.msgs[best.value]) else None;
    Msg(chat, now, OutPending, hidden, true, false, true, mid,
        NewInReplyTo(selfTalk, parent, manual), NewReferences(selfTalk, parent, mid))
  }

  /** The outcome of `create_send_msg_jobs` for a stored message. */
  function Submit(db: Db, id: MsgId, outcome: Outcome): Db {
    if id !in db.msgs then db
    else match outcome
      case Queued => db.(msgs := Queue(db.msgs, id), queued := db.queued + {id})
      case NoRecipients => db.(msgs := db.msgs[id := db.msgs[id].(state := OutDelivered)])
      case Failed => db.(msgs := db.msgs[id := db.msgs[id].(state := OutFailed)])
      case Refused => db
  }

  /** A draft keeps its id, and larger ids of the chat may end up above it. */
  function Overtake(db: Db, id: MsgId, row: Msg): Db {
    Db(db.msgs[id := row], db.nextId,
       set q | q in db.queued && !(id < q && q in db.msgs && db.msgs[q].chat == row.chat))
  }

  predicate CanResend(msg: Msg) {
    (msg.state == OutPending || msg.state == OutFailed || msg.state == OutDelivered) && msg.own && !msg.info
  }

  function Step(db: Db, a: Action): Db {
    match a
    case Send(chat, now, hidden, mid, manual, selfTalk, outcome) =>
      var row := Prepared(db, chat, now, hidden, mid, manual, selfTalk);
      Submit(Db(db.msgs[db.nextId := row], db.nextId + 1, db.queued), db.nextId, outcome)
    case SendDraft(id, now, mid, manual, selfTalk, outcome) =>
      if id in db.msgs && db.msgs[id].state == OutDraft then
        Submit(Overtake(db, id, Prepared(db, db.msgs[id].chat, now, false, mid, manual, selfTalk)), id, outcome)
      else db
    case Resend(id, toAll, outcome) =>
      if id in db.msgs && CanResend(db.msgs[id]) then
        Submit(if toAll then db.(msgs := db.msgs[id := db.msgs[id].(state := OutPending)]) else db, id, outcome)
      else db
    case Insert(msg) => Db(db.msgs[db.nextId := msg], db.nextId + 1, db.queued)
    case SetState(id, state) =>
      if id in db.msgs && Counts(db.msgs[id].state) && Counts(state)
      then db.(msgs := db.msgs[id := db.msgs[id].(state := state)])
      else db
    case Delete(id) => db.(msgs := db.msgs - {id}, queued := db.queued - {id})
  }

  function Run(db: Db, actions: seq<Action>): Db
    decreases |actions|
  {
    if actions == [] then db else Run(Step(db, actions[0]), actions[1..])
  }

  lemma RunTwo(db: Db, a: Action, b: Action)
    ensures Run(db, [a, b]) == Step(Step(db, a), b)
  {
    assert [a, b][1..] == [b];
    assert Run(Step(db, a), [b]) == Run(Step(Step(db, a), b), []);
  }

  const NO_MESSAGES := Db(map[], 0, {})

  /** Every message before `id` that counts is sorted at or above it. */
  ghost predicate AtBottom(t: Table, id: MsgId)
    requires id in t
  {
    forall m: MsgId :: m < id && CountsIn(t, t[id].chat, m) ==> t[m].timestamp <= t[id].timestamp
  }

  ghost predicate Inv(db: Db) {
    && (forall m :: m in db.msgs ==> m < db.nextId)
    && (forall q :: q in db.queued ==> q in db.msgs && Counts(db.msgs[q].state) && AtBottom(db.msgs, q))
  }

  lemma QueueReachesBottom(t: Table, id: MsgId)
    requires id in t && Counts(t[id].state)
    ensures Queue(t, id).Keys == t.Keys && AtBottom(Queue(t, id), id)
    ensures Queue(t, id)[id] == t[id].(timestamp := Queue(t, id)[id].timestamp)
  {
    assert CountsIn(t, t[id].chat, id);
    BottomIsMaximum(t, t[id].chat, id);
  }

  /** Moving one message never lifts it above a later one already at the bottom. */
  lemma QueueKeepsBottom(t: Table, id: MsgId, q: MsgId)
    requires id in t && q in t && q != id && AtBottom(t, q)
    ensures q in Queue(t, id) && Queue(t, id)[q] == t[q] && AtBottom(Queue(t, id), q)
  {
    var bottom := Bottom(t, t[id].chat, id);
    BottomIsMaximum(t, t[id].chat, id);
    if id < q && t[id].chat == t[q].chat && bottom.Some? {
      var m: MsgId :| m <= id && CountsIn(t, t[id].chat, m) && t[m].timestamp == bottom.value;
      assert t[m].timestamp <= t[q].timestamp;
    }
  }

  /** Changing a counting message's state, or adding a message at the end, keeps the others at the bottom. */
  lemma UpdateKeepsBottom(t: Table, id: MsgId, row: Msg, q: MsgId)
    requires q in t && AtBottom(t, q)
    requires if id in t then row == t[id].(state := row.state) && Counts(t[id].state) else id > q
    ensures AtBottom(t[id := row], q)
  {
    var u := t[id := row];
    forall m: MsgId | m < q && CountsIn(u, u[q].chat, m) ensures u[m].timestamp <= u[q].timestamp {
      assert CountsIn(t, t[q].chat, m);
    }
  }

  lemma SubmitKeepsInv(db: Db, id: MsgId, outcome: Outcome)
    requires Inv(db) && id in db.msgs && Counts(db.msgs[id].state)
    ensures Inv(Submit(db, id, outcome))
  {
    var after := Submit(db, id, outcome);
    forall q | q in after.queued ensures q in after.msgs && Counts(after.msgs[q].state) && AtBottom(after.msgs, q) {
      if outcome == Queued {
        if q == id { QueueReachesBottom(db.msgs, id); } else { QueueKeepsBottom(db.msgs, id, q); }
      } else {
        UpdateKeepsBottom(db.msgs, id, after.msgs[id], q);
      }
    }
  }

  lemma PutKeepsInv(db: Db, id: MsgId, row: Msg)
    requires Inv(db)
    requires if id in db.msgs then row == db.msgs[id].(state := row.state) && Counts(db.msgs[id].state) && Counts(row.state)
             else id == db.nextId
    ensures Inv(Db(db.msgs[id := row], if id == db.nextId then id + 1 else db.nextId, db.queued))
  {
    forall q | q in db.queued ensures AtBottom(db.msgs[id := row], q) {
      UpdateKeepsBottom(db.msgs, id, row, q);
    }
  }

  /** A row written below or in another chat does not concern `q`. */
  lemma WriteBelowKeepsBottom(t: Table, id: MsgId, row: Msg, q: MsgId)
    requires q in t && AtBottom(t, q) && q != id && (q < id || row.chat != t[q].chat)
    ensures AtBottom(t[id := row], q)
  {
    var u := t[id := row];
    forall m: MsgId | m < q && CountsIn(u, u[q].chat, m) ensures u[m].timestamp <= u[q].timestamp {
      assert CountsIn(t, t[q].chat, m);
    }
  }

  lemma OvertakeKeepsInv(db: Db, id: MsgId, row: Msg)
    requires Inv(db) && id in db.msgs && !Counts(db.msgs[id].state)
    ensures Inv(Overtake(db, id, row))
  {
    var after := Overtake(db, id, row);
    forall q | q in after.queued ensures q in after.msgs && Counts(after.msgs[q].state) && AtBottom(after.msgs, q) {
      WriteBelowKeepsBottom(db.msgs, id, row, q);
    }
  }

  lemma SendKeepsInv(db: Db, row: Msg, outcome: Outcome)
    requires Inv(db) && Counts(row.state)
    ensures Inv(Submit(Db(db.msgs[db.nextId := row], db.nextId + 1, db.queued), db.nextId, outcome))
  {
    PutKeepsInv(db, db.nextId, row);
    SubmitKeepsInv(Db(db.msgs[db.nextId := row], db.nextId + 1, db.queued), db.nextId, outcome);
  }

  lemma SendDraftKeepsInv(db: Db, id: MsgId, row: Msg, outcome: Outcome)
    requires Inv(db) && id in db.msgs && !Counts(db.msgs[id].state) && Counts(row.state)
    ensures Inv(Submit(Overtake(db, id, row), id, outcome))
  {
    OvertakeKeepsInv(db, id, row);
    SubmitKeepsInv(Overtake(db, id, row), id, outcome);
  }

  lemma ResendKeepsInv(db: Db, id: MsgId, toAll: bool, outcome: Outcome)
    requires Inv(db) && id in db.msgs && CanResend(db.msgs[id])
    ensures Inv(Step(db, Resend(id, toAll, outcome)))
  {
    if toAll {
      PutKeepsInv(db, id, db.msgs[id].(state := OutPending));
      SubmitKeepsInv(db.(msgs := db.msgs[id := db.msgs[id].(state := OutPending)]), id, outcome);
    } else {
      SubmitKeepsInv(db, id, outcome);
    }
  }

  lemma DeleteKeepsInv(db: Db, id: MsgId)
    requires Inv(db)
    ensures Inv(db.(msgs := db.msgs - {id}, queued := db.queued - {id}))
  {
    forall q | q in db.queued && q != id ensures AtBottom(db.msgs - {id}, q) {
      assert AtBottom(db.msgs, q);
    }
  }

  lemma StepKeepsInv(db: Db, a: Action)
    requires Inv(db)
    ensures Inv(Step(db, a))
  {
    match a
    case Send(chat, now, hidden, mid, manual, selfTalk, outcome) =>
      SendKeepsInv(db, Prepared(db, chat, now, hidden, mid, manual, selfTalk), outcome);
    case SendDraft(id, now, mid, manual, selfTalk, outcome) =>
      if id in db.msgs && db.msgs[id].state == OutDraft {
        SendDraftKeepsInv(db, id, Prepared(db, db.msgs[id].chat, now, false, mid, manual, selfTalk), outcome);
      }
    case Resend(id, toAll, outcome) =>
      if id in db.msgs && CanResend(db.msgs[id]) { ResendKeepsInv(db, id, toAll, outcome); }
    case Insert(msg) => PutKeepsInv(db, db.nextId, msg);
    case SetState(id, state) =>
      if id in db.msgs && Counts(db.msgs[id].state) && Counts(state) {
        PutKeepsInv(db, id, db.msgs[id].(state := state));
      }
    case Delete(id) => DeleteKeepsInv(db, id);
  }

  lemma {:induction false} RunKeepsInv(db: Db, actions: seq<Action>)
    requires Inv(db)
    ensures Inv(Run(db, actions))
    decreases |actions|
  {
    if actions != [] {
      StepKeepsInv(db, actions[0]);
      RunKeepsInv(Step(db, actions[0]), actions[1..]);
    }
  }

  // ----- what is stored -----

  /** A stored message that is shown, complete, not an info message and neither a draft nor unfinished. */
  predicate IsAnswerable(t: Table, chat: ChatId, m: MsgId) {
    && m in t && t[m].chat == chat && t[m].state != OutDraft && t[m].state != Undefined
    && !t[m].hidden && t[m].downloaded && !t[m].info
  }

  /** The newest answerable message of the chat, by time and then by id. */
  ghost predicate IsNewest(t: Table, chat: ChatId, m: MsgId) {
    && IsAnswerable(t, chat, m)
    && forall k: MsgId :: IsAnswerable(t, chat, k) && k != m ==>
         t[k].timestamp < t[m].timestamp || (t[k].timestamp == t[m].timestamp && k < m)
  }

  /** What a message replies to: what was set by hand, else the newest message of the chat, outside the
      chat with oneself, else nothing. */
  ghost predicate RepliesTo(t: Table, chat: ChatId, manual: Option<string>, selfTalk: bool, header: string) {
    && (manual.Some? ==> header == manual.value)
    && (forall m: MsgId :: manual.None? && !selfTalk && IsNewest(t, chat, m) ==> header == t[m].mid)
    && (manual.None? && (selfTalk || forall m: MsgId :: !IsAnswerable(t, chat, m)) ==> header == "")
  }

  /** What it refers to: nothing in the chat with oneself, itself as the first message, else what a reply
      to the newest message refers to. */
  ghost predicate RefersTo(t: Table, chat: ChatId, selfTalk: bool, mid: string, header: string) {
    && (selfTalk ==> header == "")
    && (!selfTalk && (forall m: MsgId :: !IsAnswerable(t, chat, m)) ==> header == mid)
    && (forall m: MsgId :: !selfTalk && IsNewest(t, chat, m) ==>
          var pieces := ReferencePieces(t[m].mid, t[m].inReplyTo, t[m].references); header == Join(pieces, ' '))
  }

  lemma PreparedRefers(db: Db, chat: ChatId, now: int, hidden: bool, mid: string, manual: Option<string>, selfTalk: bool)
    requires Inv(db)
    ensures RefersTo(db.msgs, chat, selfTalk, mid, Prepared(db, chat, now, hidden, mid, manual, selfTalk).references)
  {
    var best := ParentBefore(db.msgs, chat, db.nextId);
    ParentIsNewest(db.msgs, chat, db.nextId);
    assert forall m: MsgId :: IsAnswerable(db.msgs, chat, m) <==> Eligible(db.msgs, chat, m);
    forall m: MsgId | IsNewest(db.msgs, chat, m) ensures best == Some(m) {
      assert Eligible(db.msgs, chat, m);
    }
    if best.Some? { ReferencesAreShort(db.msgs[best.value], mid); }
  }

  lemma PreparedReplies(db: Db, chat: ChatId, now: int, hidden: bool, mid: string, manual: Option<string>, selfTalk: bool)
    requires Inv(db)
    ensures RepliesTo(db.msgs, chat, manual, selfTalk, Prepared(db, chat, now, hidden, mid, manual, selfTalk).inReplyTo)
  {
    var best := ParentBefore(db.msgs, chat, db.nextId);
    ParentIsNewest(db.msgs, chat, db.nextId);
    assert forall m: MsgId :: IsAnswerable(db.msgs, chat, m) <==> Eligible(db.msgs, chat, m);
    forall m: MsgId | IsNewest(db.msgs, chat, m) ensures best == Some(m) {
      assert Eligible(db.msgs, chat, m);
    }
  }

  /** The state in which a submission leaves a pending message. */
  function StateAfter(outcome: Outcome, pending: MsgState): MsgState {
    match outcome
    case NoRecipients => OutDelivered
    case Failed => OutFailed
    case Queued => pending
    case Refused => pending
  }

  /** A submission changes the state of the one message, and its time only when it is queued. */
  lemma SubmitStores(db: Db, id: MsgId, outcome: Outcome)
    requires id in db.msgs && Counts(db.msgs[id].state)
    ensures var after := Submit(db, id, outcome);
            && after.nextId == db.nextId && after.msgs.Keys == db.msgs.Keys
            && (forall m :: m in db.msgs && m != id ==> after.msgs[m] == db.msgs[m])
            && after.msgs[id] == db.msgs[id].(state := StateAfter(outcome, db.msgs[id].state), timestamp := after.msgs[id].timestamp)
            && (outcome != Queued ==> after.msgs[id].timestamp == db.msgs[id].timestamp)
  {
    if outcome == Queued { QueueReachesBottom(db.msgs, id); }
  }

  /** The row stored by a send, for any outcome of its submission. */
  lemma SendStores(
    db: Db, chat: ChatId, now: int, hidden: bool, mid: string, manual: Option<string>, selfTalk: bool, outcome: Outcome)
    requires Inv(db)
    ensures var after, id := Step(db, Send(chat, now, hidden, mid, manual, selfTalk, outcome)), db.nextId;
            && after.nextId == id + 1 && after.msgs.Keys == db.msgs.Keys + {id}
            && (forall m :: m in db.msgs ==> after.msgs[m] == db.msgs[m])
            && var row := after.msgs[id];
               && row.chat == chat && row.mid == mid && row.hidden == hidden
               && row.own && row.downloaded && !row.info
               && row.state == StateAfter(outcome, OutPending)
               && RepliesTo(db.msgs, chat, manual, selfTalk, row.inReplyTo)
               && RefersTo(db.msgs, chat, selfTalk, mid, row.references)
               && (outcome != Queued ==> row.timestamp == now)
  {
    var row := Prepared(db, chat, now, hidden, mid, manual, selfTalk);
    PreparedReplies(db, chat, now, hidden, mid, manual, selfTalk);
    PreparedRefers(db, chat, now, hidden, mid, manual, selfTalk);
    SubmitStores(Db(db.msgs[db.nextId := row], db.nextId + 1, db.queued), db.nextId, outcome);
  }

  /** Drafts and unfinished messages have no place in the list yet. */
  predicate IsPlaced(t: Table, chat: ChatId, m: MsgId) {
    m in t && t[m].chat == chat && t[m].state != OutDraft && t[m].state != Undefined
  }

  /** A queued message is stamped with the clock, or with the latest placed message of the chat. */
  lemma SendStamps(db: Db, chat: ChatId, now: int, hidden: bool, mid: string, manual: Option<string>, selfTalk: bool)
    requires Inv(db)
    ensures var after, id := Step(db, Send(chat, now, hidden, mid, manual, selfTalk, Queued)).msgs, db.nextId;
            && id in after && now <= after[id].timestamp
            && (forall m: MsgId :: IsPlaced(db.msgs, chat, m) ==> db.msgs[m].timestamp <= after[id].timestamp)
            && (after[id].timestamp == now ||
                exists m: MsgId :: IsPlaced(db.msgs, chat, m) && db.msgs[m].timestamp == after[id].timestamp)
  {
    assert forall m: MsgId :: IsPlaced(db.msgs, chat, m) <==> CountsIn(db.msgs, chat, m);
    var id, t := db.nextId, db.msgs[db.nextId := Prepared(db, chat, now, hidden, mid, manual, selfTalk)];
    BottomIsMaximum(t, chat, id);
    assert CountsIn(t, chat, id);
    assert forall m: MsgId :: m != id ==> (CountsIn(t, chat, m) <==> CountsIn(db.msgs, chat, m));
    assert forall m: MsgId :: CountsIn(db.msgs, chat, m) ==> m < id;
  }

  /** The row stored by sending a draft: its own, under its old id. */
  lemma DraftStores(
    db: Db, id: MsgId, now: int, mid: string, manual: Option<string>, selfTalk: bool, outcome: Outcome)
    requires Inv(db) && id in db.msgs && db.msgs[id].state == OutDraft
    ensures var after := Step(db, SendDraft(id, now, mid, manual, selfTalk, outcome));
            && after.nextId == db.nextId && after.msgs.Keys == db.msgs.Keys
            && (forall m :: m in db.msgs && m != id ==> after.msgs[m] == db.msgs[m])
            && var row := after.msgs[id];
               && row.chat == db.msgs[id].chat && row.mid == mid && !row.hidden
               && row.own && row.downloaded && !row.info
               && row.state == StateAfter(outcome, OutPending)
               && RepliesTo(db.msgs, row.chat, manual, selfTalk, row.inReplyTo)
               && RefersTo(db.msgs, row.chat, selfTalk, mid, row.references)
               && (outcome != Queued ==> row.timestamp == now)
  {
    var chat := db.msgs[id].chat;
    PreparedReplies(db, chat, now, false, mid, manual, selfTalk);
    PreparedRefers(db, chat, now, false, mid, manual, selfTalk);
    SubmitStores(Overtake(db, id, Prepared(db, chat, now, false, mid, manual, selfTalk)), id, outcome);
  }

  predicate IsResendable(row: Msg) {
    row.own && !row.info && (row.state == OutPending || row.state == OutFailed || row.state == OutDelivered)
  }

  /** Sending a draft counts as overtaking only the messages of its chat with larger ids. */
  lemma DraftOvertakes(
    db: Db, id: MsgId, now: int, mid: string, manual: Option<string>, selfTalk: bool, outcome: Outcome, q: MsgId)
    requires Inv(db) && id in db.msgs && db.msgs[id].state == OutDraft && q in db.queued
    ensures q in Step(db, SendDraft(id, now, mid, manual, selfTalk, outcome)).queued <==>
            q < id || db.msgs[q].chat != db.msgs[id].chat
  {}

  /** What a resend changes: the state, and the place when it is queued. */
  lemma ResendStores(db: Db, id: MsgId, toAll: bool, outcome: Outcome)
    requires id in db.msgs && IsResendable(db.msgs[id])
    ensures var after, row := Step(db, Resend(id, toAll, outcome)), db.msgs[id];
            && after.nextId == db.nextId && after.msgs.Keys == db.msgs.Keys
            && (forall m :: m in db.msgs && m != id ==> after.msgs[m] == db.msgs[m])
            && after.msgs[id] == row.(state := StateAfter(outcome, if toAll then OutPending else row.state),
                                      timestamp := after.msgs[id].timestamp)
            && (outcome != Queued ==> after.msgs[id].timestamp == row.timestamp)
  {
    var row := db.msgs[id];
    var pending := if toAll then db.(msgs := db.msgs[id := row.(state := OutPending)]) else db;
    assert pending.msgs.Keys == db.msgs.Keys;
    assert Step(db, Resend(id, toAll, outcome)) == Submit(pending, id, outcome);
    SubmitStores(pending, id, outcome);
  }

  /** Nothing is resent that is not the user's own, is an info message, or neither pending, failed nor
      delivered. */
  lemma ResendRefuses(db: Db, id: MsgId, toAll: bool, outcome: Outcome)
    requires id !in db.msgs || !IsResendable(db.msgs[id])
    ensures Step(db, Resend(id, toAll, outcome)) == db
  {}

  // ----- listing order -----

  datatype Entry = Entry(timestamp: int, id: MsgId)

  predicate Before(a: Entry, b: Entry) {
    a.timestamp < b.timestamp || (a.timestamp == b.timestamp && a.id < b.id)
  }

  ghost predicate SortedEntries(entries: seq<Entry>) {
    forall i, j :: 0 <= i < j < |entries| ==> Before(entries[i], entries[j])
  }

  /** The visible messages of a chat, each once. */
  ghost predicate IsChatQuery(t: Table, chat: ChatId, entries: seq<Entry>) {
    && (forall i :: 0 <= i < |entries| ==>
          entries[i].id in t && t[entries[i].id].chat == chat && !t[entries[i].id].hidden
          && entries[i].timestamp == t[entries[i].id].timestamp)
    && (forall i, j :: 0 <= i < j < |entries| ==> entries[i].id != entries[j].id)
    && (forall m :: m in t && t[m].chat == chat && !t[m].hidden ==> Entry(t[m].timestamp, m) in entries)
  }

  /** In every run of sends, drafts sent, resends, arrivals, state changes and deletions, with any clock,
      two queued messages of a chat are listed in the order of their ids, which is the order of sending. */
  lemma QueuedListedInSendOrder(actions: seq<Action>, p: MsgId, q: MsgId, entries: seq<Entry>)
    requires var db := Run(NO_MESSAGES, actions);
             && p in db.queued && q in db.queued && p in db.msgs && q in db.msgs && p < q && db.msgs[p].chat == db.msgs[q].chat
             && !db.msgs[p].hidden && !db.msgs[q].hidden
             && IsChatQuery(db.msgs, db.msgs[q].chat, entries)
    requires SortedEntries(entries)
    ensures exists i, j :: 0 <= i < j < |entries| && entries[i].id == p && entries[j].id == q
  {
    RunKeepsInv(NO_MESSAGES, actions);
    var db := Run(NO_MESSAGES, actions);
    assert AtBottom(db.msgs, q) && CountsIn(db.msgs, db.msgs[q].chat, p);
    var e, f := Entry(db.msgs[p].timestamp, p), Entry(db.msgs[q].timestamp, q);
    assert e in entries && f in entries && Before(e, f);
    var i :| 0 <= i < |entries| && entries[i] == e;
    var j :| 0 <= j < |entries| && entries[j] == f;
  }

  /** Resending a message that was queued before leaves its place alone. */
  lemma ResendKeepsPlace(actions: seq<Action>, q: MsgId, toAll: bool)
    requires q in Run(NO_MESSAGES, actions).queued
    ensures var db := Run(NO_MESSAGES, actions);
            q in Step(db, Resend(q, toAll, Queued)).msgs
            && Step(db, Resend(q, toAll, Queued)).msgs[q].timestamp == db.msgs[q].timestamp
  {
    RunKeepsInv(NO_MESSAGES, actions);
    var db := Run(NO_MESSAGES, actions);
    if CanResend(db.msgs[q]) {
      var t := if toAll then db.msgs[q := db.msgs[q].(state := OutPending)] else db.msgs;
      UpdateKeepsBottom(db.msgs, q, t[q], q);
      assert CountsIn(t, t[q].chat, q);
      BottomIsMaximum(t, t[q].chat, q);
      var b := Bottom(t, t[q].chat, q).value;
      var m: MsgId :| m <= q && CountsIn(t, t[q].chat, m) && t[m].timestamp == b;
    }
  }

  /** A message with a larger id than the draft that is stamped past it and all before it. */
  ghost predicate Overtakes(t: Table, draft: MsgId, now: int, m: MsgId)
    requires draft in t
  {
    && m > draft && CountsIn(t, t[draft].chat, m)
    && now <= t[m].timestamp
    && forall k: MsgId :: k < draft && CountsIn(t, t[draft].chat, k) ==> t[k].timestamp <= t[m].timestamp
  }

  ghost predicate LastInChat(t: Table, id: MsgId)
    requires id in t
  {
    forall m: MsgId :: m != id && CountsIn(t, t[id].chat, m) ==>
      Before(Entry(t[m].timestamp, m), Entry(t[id].timestamp, id))
  }

  function QueueDraft(t: Table, draft: MsgId, row: Msg): Table {
    Queue(t[draft := row], draft)
  }

  /** Where the sent draft lands: at its stamp, or at an earlier message stamped later. */
  lemma SentDraftTimestamp(t: Table, draft: MsgId, row: Msg)
    requires draft in t && !Counts(t[draft].state) && Counts(row.state) && row.chat == t[draft].chat
    ensures var u := QueueDraft(t, draft, row);
            && draft in u && u[draft].chat == row.chat && row.timestamp <= u[draft].timestamp
            && (forall m: MsgId :: m != draft ==> (m in u <==> m in t) && (m in t ==> u[m] == t[m]))
            && (forall k: MsgId :: k < draft && CountsIn(t, row.chat, k) ==> t[k].timestamp <= u[draft].timestamp)
            && (u[draft].timestamp == row.timestamp ||
                exists k: MsgId :: k < draft && CountsIn(t, row.chat, k) && t[k].timestamp == u[draft].timestamp)
  {
    var r := t[draft := row];
    assert CountsIn(r, row.chat, draft);
    BottomIsMaximum(r, row.chat, draft);
    var b := Bottom(r, row.chat, draft).value;
    var w: MsgId :| w <= draft && CountsIn(r, row.chat, w) && r[w].timestamp == b;
    assert w < draft ==> CountsIn(t, row.chat, w);
    assert forall k: MsgId :: k < draft && CountsIn(t, row.chat, k) ==> CountsIn(r, row.chat, k);
  }

  lemma QueuedDraftLastIff(t: Table, draft: MsgId, row: Msg)
    requires draft in t && !Counts(t[draft].state) && Counts(row.state) && row.chat == t[draft].chat
    ensures draft in QueueDraft(t, draft, row)
    ensures LastInChat(QueueDraft(t, draft, row), draft) <==> !exists m: MsgId :: Overtakes(t, draft, row.timestamp, m)
  {
    SentDraftTimestamp(t, draft, row);
    var u := QueueDraft(t, draft, row);
    if m: MsgId :| Overtakes(t, draft, row.timestamp, m) {
      assert CountsIn(u, row.chat, m);
    }
    if !LastInChat(u, draft) {
      var m: MsgId :| m != draft && CountsIn(u, row.chat, m) && !Before(Entry(u[m].timestamp, m), Entry(u[draft].timestamp, draft));
      assert CountsIn(t, row.chat, m);
      assert Overtakes(t, draft, row.timestamp, m);
    }
  }

  /** A draft keeps its old id, and queuing looks only at smaller ids: the sent draft ends up last in
      the chat exactly when no message with a larger id overtakes it. */
  lemma SentDraftLastIff(db: Db, draft: MsgId, now: int, mid: string, manual: Option<string>, selfTalk: bool)
    requires draft in db.msgs && db.msgs[draft].state == OutDraft
    ensures var after := Step(db, SendDraft(draft, now, mid, manual, selfTalk, Queued)).msgs;
            draft in after && (LastInChat(after, draft) <==> !exists m: MsgId :: Overtakes(db.msgs, draft, now, m))
  {
    QueuedDraftLastIff(db.msgs, draft, Prepared(db, db.msgs[draft].chat, now, false, mid, manual, selfTalk));
  }

  /** A message that arrived after the draft was written, stamped in the future, stays below it. */
  lemma SentDraftNotLast(draft: Msg, arrived: Msg, now: int)
    requires draft.state == OutDraft && arrived.state == InFresh && arrived.chat == draft.chat && now <= arrived.timestamp
    ensures var db := Run(NO_MESSAGES, [Insert(draft), Insert(arrived)]);
            var after := Step(db, SendDraft(0, now, "own", None, false, Queued)).msgs;
            0 in after && !LastInChat(after, 0)
  {
    RunTwo(NO_MESSAGES, Insert(draft), Insert(arrived));
    var db := Run(NO_MESSAGES, [Insert(draft), Insert(arrived)]);
    assert Overtakes(db.msgs, 0, now, 1);
    SentDraftLastIff(db, 0, now, "own", None, false);
  }

  // ----- the chain of references -----

  /** The up to three messages before the k-th. */
  function Recent(mids: seq<string>, k: nat): seq<string>
    requires k <= |mids|
  {
    mids[if k < 3 then 0 else k - 3..k]
  }

  /** The header of the k-th message of an undisturbed conversation. */
  function Chain(mids: seq<string>, k: nat): string
    requires k < |mids|
  {
    if k == 0 then mids[0] else Join(Recent(mids, k), ' ')
  }

  ghost predicate GoodMids(mids: seq<string>) {
    && NoDuplicates(mids)
    && AllFree(mids, ' ')
    && forall i :: 0 <= i < |mids| ==> mids[i] != ""
  }

  lemma ChainTokens(mids: seq<string>, k: nat)
    requires GoodMids(mids) && k < |mids|
    ensures Split(Chain(mids, k), ' ') == if k == 0 then [mids[0]] else Recent(mids, k)
    ensures Chain(mids, k) != ""
  {
    if k == 0 {
      SplitOfFree(mids[0], ' ');
    } else {
      var recent := Recent(mids, k);
      assert AllFree(recent, ' ');
      SplitJoin(recent, ' ');
      assert recent[0] != "";
      assert Split("", ' ') == [""];
    }
  }

  /** All but the last of the messages before the k-th. */
  function Older(mids: seq<string>, k: nat): seq<string>
    requires 1 <= k <= |mids|
  {
    mids[if k < 3 then 0 else k - 3..k - 1]
  }

  lemma TailOfSlice(s: seq<string>, a: nat, b: nat)
    requires a < b <= |s|
    ensures s[a..b][1..] == s[a + 1..b]
  {}

  lemma RecentFromOlder(mids: seq<string>, k: nat)
    requires NoDuplicates(mids) && 1 <= k <= |mids|
    ensures mids[k - 1] !in Older(mids, k) && Older(mids, k) + [mids[k - 1]] == Recent(mids, k)
  {}

  lemma ChainPieces(mids: seq<string>, k: nat, tokens: seq<string>)
    requires GoodMids(mids) && 1 <= k < |mids|
    requires tokens == if k == 1 then [mids[0]] else Recent(mids, k - 1)
    ensures var recent, mid := LastTwo(tokens), mids[k - 1];
            (if mid in recent then recent else recent + [mid]) == Recent(mids, k)
  {
    if k > 1 {
      if k > 3 { TailOfSlice(mids, k - 4, k - 1); }
      assert LastTwo(tokens) == Older(mids, k);
      RecentFromOlder(mids, k);
    }
  }

  lemma PiecesOfReply(parent: Msg, mid: string, recent: seq<string>, pieces: seq<string>)
    requires parent.references != "" && parent.mid != "" && recent == LastTwo(Split(parent.references, ' '))
    requires pieces == (if parent.mid in recent then recent else recent + [parent.mid]) && pieces != []
    ensures NewReferences(false, Some(parent), mid) == Join(pieces, ' ')
  {}

  /** Replying to the previous message of the chain continues the chain. */
  lemma ChainContinues(mids: seq<string>, k: nat, parent: Msg)
    requires GoodMids(mids) && 1 <= k < |mids|
    requires parent.mid == mids[k - 1] && parent.references == Chain(mids, k - 1)
    ensures NewReferences(false, Some(parent), mids[k]) == Chain(mids, k)
  {
    var tokens := Split(parent.references, ' ');
    ChainTokens(mids, k - 1);
    ChainPieces(mids, k, tokens);
    PiecesOfReply(parent, mids[k], LastTwo(tokens), Recent(mids, k));
  }

  function SendNext(chat: ChatId, now: int, mid: string): Action {
    Send(chat, now, false, mid, None, false, Queued)
  }

  function Converse(db: Db, chat: ChatId, clocks: seq<int>, mids: seq<string>, k: nat): Db
    requires k <= |clocks| == |mids|
  {
    if k == 0 then db else Step(Converse(db, chat, clocks, mids, k - 1), SendNext(chat, clocks[k - 1], mids[k - 1]))
  }

  ghost predicate IsChainMessage(db: Db, first: MsgId, mids: seq<string>, m: MsgId)
    requires first <= m < first + |mids|
  {
    && m in db.queued && m in db.msgs
    && db.msgs[m].mid == mids[m - first] && db.msgs[m].references == Chain(mids, m - first)
    && db.msgs[m].inReplyTo == if m == first then "" else mids[m - first - 1]
  }

  ghost predicate ChainSoFar(db: Db, first: MsgId, chat: ChatId, mids: seq<string>, k: nat)
    requires k <= |mids|
  {
    && Inv(db) && db.nextId == first + k
    && (forall m: MsgId :: Eligible(db.msgs, chat, m) <==> first <= m < first + k)
    && (forall m: MsgId :: first <= m < first + k ==> IsChainMessage(db, first, mids, m))
  }

  /** The parent of the next message is the last one sent, even if the clock ran backwards: the
      sort to the bottom is what makes it the newest. */
  lemma LastSentIsParent(db: Db, first: MsgId, chat: ChatId, mids: seq<string>, k: nat)
    requires k <= |mids| && ChainSoFar(db, first, chat, mids, k)
    ensures ParentBefore(db.msgs, chat, db.nextId) == if k == 0 then None else Some(first + k - 1)
  {
    var best := ParentBefore(db.msgs, chat, db.nextId);
    ParentIsNewest(db.msgs, chat, db.nextId);
    if k > 0 {
      var last := first + k - 1;
      assert IsChainMessage(db, first, mids, last);
      assert Eligible(db.msgs, chat, last);
      assert AtBottom(db.msgs, last);
      assert Eligible(db.msgs, chat, best.value);
    }
  }

  ghost predicate Extends(db: Db, after: Db) {
    && Inv(after) && after.nextId == db.nextId + 1 && after.queued == db.queued + {db.nextId}
    && after.msgs.Keys == db.msgs.Keys + {db.nextId}
    && (forall m :: m in db.msgs ==> after.msgs[m] == db.msgs[m])
  }

  lemma SendExtends(db: Db, chat: ChatId, now: int, mid: string)
    requires Inv(db)
    ensures Extends(db, Step(db, SendNext(chat, now, mid)))
  {
    StepKeepsInv(db, SendNext(chat, now, mid));
    QueueReachesBottom(db.msgs[db.nextId := Prepared(db, chat, now, false, mid, None, false)], db.nextId);
  }

  lemma SentRow(db: Db, chat: ChatId, now: int, mid: string)
    requires Inv(db)
    ensures var after, row := Step(db, SendNext(chat, now, mid)).msgs, Prepared(db, chat, now, false, mid, None, false);
            && db.nextId in after && after[db.nextId] == row.(timestamp := after[db.nextId].timestamp)
            && Eligible(after, chat, db.nextId)
  {
    QueueReachesBottom(db.msgs[db.nextId := Prepared(db, chat, now, false, mid, None, false)], db.nextId);
  }

  lemma NextReferences(db: Db, first: MsgId, chat: ChatId, mids: seq<string>, k: nat, now: int)
    requires k < |mids| && GoodMids(mids) && ChainSoFar(db, first, chat, mids, k)
    ensures var row := Prepared(db, chat, now, false, mids[k], None, false);
            row.references == Chain(mids, k) && row.inReplyTo == if k == 0 then "" else mids[k - 1]
  {
    LastSentIsParent(db, first, chat, mids, k);
    if k > 0 {
      assert IsChainMessage(db, first, mids, first + k - 1);
      ChainContinues(mids, k, db.msgs[first + k - 1]);
    }
  }

  /** What the send adds to the chain. */
  lemma SendIsChainMessage(db: Db, first: MsgId, chat: ChatId, mids: seq<string>, k: nat, now: int, after: Db)
    requires k < |mids| && GoodMids(mids) && ChainSoFar(db, first, chat, mids, k)
    requires after == Step(db, SendNext(chat, now, mids[k])) && Extends(db, after)
    ensures IsChainMessage(after, first, mids, first + k) && Eligible(after.msgs, chat, first + k)
  {
    NextReferences(db, first, chat, mids, k, now);
    SentRow(db, chat, now, mids[k]);
  }

  lemma ChainGrows(db: Db, first: MsgId, chat: ChatId, mids: seq<string>, k: nat, after: Db)
    requires k < |mids| && ChainSoFar(db, first, chat, mids, k) && Extends(db, after)
    requires IsChainMessage(after, first, mids, first + k) && Eligible(after.msgs, chat, first + k)
    ensures ChainSoFar(after, first, chat, mids, k + 1)
  {
    forall m: MsgId | first <= m < first + k ensures IsChainMessage(after, first, mids, m) {
      assert IsChainMessage(db, first, mids, m);
    }
    forall m: MsgId ensures Eligible(after.msgs, chat, m) <==> first <= m < first + k + 1 {
      assert m != db.nextId ==> (Eligible(after.msgs, chat, m) <==> Eligible(db.msgs, chat, m));
    }
  }

  lemma SendContinuesChain(db: Db, first: MsgId, chat: ChatId, mids: seq<string>, k: nat, now: int) returns (after: Db)
    requires k < |mids| && GoodMids(mids) && ChainSoFar(db, first, chat, mids, k)
    ensures after == Step(db, SendNext(chat, now, mids[k]))
    ensures ChainSoFar(after, first, chat, mids, k + 1)
  {
    after := Step(db, SendNext(chat, now, mids[k]));
    SendExtends(db, chat, now, mids[k]);
    SendIsChainMessage(db, first, chat, mids, k, now, after);
    ChainGrows(db, first, chat, mids, k, after);
  }

  lemma ChainStarts(db: Db, chat: ChatId, mids: seq<string>)
    requires Inv(db) && (forall m: MsgId :: !Eligible(db.msgs, chat, m))
    ensures ChainSoFar(db, db.nextId, chat, mids, 0)
  {}

  lemma {:induction false} ChainGoesOn(
    db: Db, first: MsgId, chat: ChatId, clocks: seq<int>, mids: seq<string>, k: nat)
    returns (after: Db)
    requires ChainSoFar(db, first, chat, mids, 0) && k <= |clocks| == |mids| && GoodMids(mids)
    ensures after == Converse(db, chat, clocks, mids, k)
    ensures ChainSoFar(after, first, chat, mids, k)
  {
    if k == 0 {
      return db;
    }
    var before := ChainGoesOn(db, first, chat, clocks, mids, k - 1);
    after := ConverseOn(before, first, chat, clocks, mids, k - 1, db);
  }

  lemma ConverseOn(
    before: Db, first: MsgId, chat: ChatId, clocks: seq<int>, mids: seq<string>, k: nat, db: Db)
    returns (after: Db)
    requires k < |clocks| == |mids| && GoodMids(mids) && ChainSoFar(before, first, chat, mids, k)
    requires before == Converse(db, chat, clocks, mids, k)
    ensures after == Converse(db, chat, clocks, mids, k + 1)
    ensures ChainSoFar(after, first, chat, mids, k + 1)
  {
    after := SendContinuesChain(before, first, chat, mids, k, clocks[k]);
  }

  /** In a conversation of any length, with any clock, message k names exactly its min(k, 3)
      immediate predecessors in order, and the first message names itself. */
  lemma ConversationReferences(db: Db, chat: ChatId, clocks: seq<int>, mids: seq<string>, k: nat)
    requires Inv(db) && (forall m: MsgId :: !Eligible(db.msgs, chat, m))
    requires k <= |clocks| == |mids| && GoodMids(mids)
    ensures ChainSoFar(Converse(db, chat, clocks, mids, k), db.nextId, chat, mids, k)
  {
    ChainStarts(db, chat, mids);
    var after := ChainGoesOn(db, db.nextId, chat, clocks, mids, k);
  }

  // ----- the imperative form -----

  class MsgsTable {
    var msgs: Table
    var nextId: MsgId
    ghost var queued: set<MsgId>

    ghost function View(): Db
      reads this
    {
      Db(msgs, nextId, queued)
    }

    constructor ()
      ensures View() == NO_MESSAGES
    {
      msgs, nextId, queued := map[], 0, {};
    }

    /** The row the next message replies to: the last of `ORDER BY timestamp, id`. */
    method ParentQuery(chat: ChatId) returns (parent: Option<Msg>)
      ensures var best := ParentBefore(msgs, chat, nextId);
              parent == if best.Some? then Some(msgs[best.value]) else None
    {
      var best: Option<MsgId> := None;
      for n := 0 to nextId
        invariant best == ParentBefore(msgs, chat, n)
      {
        if Eligible(msgs, chat, n) && (best.None? || msgs[best.value].timestamp <= msgs[n].timestamp) {
          best := Some(n);
        }
      }
      parent := if best.Some? then Some(msgs[best.value]) else None;
    }

    /** Writes the message, its thread headers derived from the newest message of the chat, into a new
        row or into that of the draft it was. */
    method PrepareMsgRaw(
      draft: Option<MsgId>, chat: ChatId, now: int, hidden: bool, mid: string, manual: Option<string>, selfTalk: bool)
      returns (id: MsgId)
      requires draft.Some? ==> draft.value in msgs && msgs[draft.value].state == OutDraft && msgs[draft.value].chat == chat
      modifies this
      ensures var row := Prepared(old(View()), chat, now, hidden, mid, manual, selfTalk);
              if draft.Some? then id == draft.value && View() == Overtake(old(View()), id, row)
              else id == old(nextId) && View() == Db(old(msgs)[id := row], id + 1, old(queued))
    {
      var parent := ParentQuery(chat);
      var inReplyTo := manual;
      if !selfTalk && parent.Some? && inReplyTo.None? && parent.value.mid != "" {
        inReplyTo := Some(parent.value.mid);
      }
      var references := BuildReferences(selfTalk, parent, mid);
      var row := Msg(chat, now, OutPending, hidden, true, false, true, mid,
                     if inReplyTo.Some? then inReplyTo.value else "", references);
      if draft.Some? {
        id := draft.value;
        queued := Overtake(View(), id, row).queued;
      } else {
        id := nextId;
        nextId := nextId + 1;
      }
      msgs := msgs[id := row];
    }

    /** Queues a stored message, sorting it to the bottom. */
    method CreateSendMsgJobs(id: MsgId, outcome: Outcome)
      requires id in msgs && Counts(msgs[id].state)
      modifies this
      ensures View() == Submit(old(View()), id, outcome)
    {
      match outcome
      case Failed => msgs := msgs[id := msgs[id].(state := OutFailed)];
      case Refused =>
      case NoRecipients => msgs := msgs[id := msgs[id].(state := OutDelivered)];
      case Queued =>
        var bottom := msgs[id].timestamp;
        for m := 0 to id + 1
          invariant msgs[id].timestamp <= bottom
          invariant forall k: MsgId :: k < m && CountsIn(msgs, msgs[id].chat, k) ==> msgs[k].timestamp <= bottom
          invariant exists k: MsgId :: k <= id && CountsIn(msgs, msgs[id].chat, k) && msgs[k].timestamp == bottom
        {
          if CountsIn(msgs, msgs[id].chat, m) && bottom < msgs[m].timestamp {
            bottom := msgs[m].timestamp;
          }
        }
        assert CountsIn(msgs, msgs[id].chat, id);
        BottomIsMaximum(msgs, msgs[id].chat, id);
        assert bottom == Bottom(msgs, msgs[id].chat, id).value;
        msgs := msgs[id := msgs[id].(timestamp := bottom)];
        queued := queued + {id};
    }

    method SendMsg(chat: ChatId, now: int, hidden: bool, mid: string, manual: Option<string>, selfTalk: bool, outcome: Outcome)
      returns (id: MsgId)
      modifies this
      ensures id == old(nextId)
      ensures View() == Step(old(View()), Send(chat, now, hidden, mid, manual, selfTalk, outcome))
    {
      id := PrepareMsgRaw(None, chat, now, hidden, mid, manual, selfTalk);
      CreateSendMsgJobs(id, outcome);
    }

    /** Sending a stored draft in its own chat. */
    method SendDraftMsg(id: MsgId, now: int, mid: string, manual: Option<string>, selfTalk: bool, outcome: Outcome)
      requires id in msgs && msgs[id].state == OutDraft
      modifies this
      ensures View() == Step(old(View()), SendDraft(id, now, mid, manual, selfTalk, outcome))
    {
      var same := PrepareMsgRaw(Some(id), msgs[id].chat, now, false, mid, manual, selfTalk);
      CreateSendMsgJobs(same, outcome);
    }

    /** All messages are loaded and checked to be the user's own before the first is resent. */
    method LoadOwn(ids: seq<MsgId>) returns (loaded: Option<seq<Msg>>)
      ensures loaded.Some? <==> AllOwn(msgs, ids)
      ensures loaded.Some? <==> forall i :: 0 <= i < |ids| ==> ids[i] in msgs && msgs[ids[i]].own && !msgs[ids[i]].info
      ensures loaded.Some? ==> loaded.value == Loaded(msgs, ids) && SameChoice(msgs, ids, loaded.value)
    {
      var all: seq<Msg> := [];
      for i := 0 to |ids|
        invariant |all| == i && forall j :: 0 <= j < i ==> IsOwn(msgs, ids[j]) && all[j] == msgs[ids[j]]
      {
        if !IsOwn(msgs, ids[i]) { return None; }
        all := all + [msgs[ids[i]]];
      }
      loaded := Some(all);
    }

    method ResendOne(id: MsgId, toAll: bool, outcome: Outcome)
      requires id in msgs && CanResend(msgs[id])
      modifies this
      ensures View() == Step(old(View()), Resend(id, toAll, outcome))
    {
      if toAll {
        msgs := msgs[id := msgs[id].(state := OutPending)];
      }
      CreateSendMsgJobs(id, outcome);
    }

    /** The next message of a batch; what was loaded before still tells whether it can be resent. */
    method ResendNth(
      ids: seq<MsgId>, toAll: bool, outcomes: seq<Outcome>, n: nat, ghost loaded: seq<Msg>, ghost start: Db)
      requires n < |ids| == |outcomes| && SameChoice(start.msgs, ids, loaded) && CanResend(loaded[n])
      requires View() == Resent(start, ids, toAll, outcomes, n)
      modifies this
      ensures View() == Resent(start, ids, toAll, outcomes, n + 1)
    {
      ResentKeepsChoice(start, ids, toAll, outcomes, n, loaded);
      ResendOne(ids[n], toAll, outcomes[n]);
    }

    /** Resends loaded messages in order, up to the first in a wrong state or whose submission fails;
        `attempted` counts the messages for which a submission was made. */
    method ResendLoaded(ids: seq<MsgId>, toAll: bool, outcomes: seq<Outcome>, loaded: seq<Msg>)
      returns (ok: bool, attempted: nat)
      requires |outcomes| == |ids| && SameChoice(msgs, ids, loaded)
      modifies this
      ensures attempted <= |ids| && View() == Resent(old(View()), ids, toAll, outcomes, attempted)
      ensures if ok then attempted == |ids| && NoError(outcomes, attempted)
              else StoppedAt(outcomes, loaded, attempted)
    {
      ok, attempted := true, 0;
      while ok && attempted < |ids|
        invariant attempted <= |ids| && View() == Resent(old(View()), ids, toAll, outcomes, attempted)
        invariant if ok then NoError(outcomes, attempted) else StoppedAt(outcomes, loaded, attempted)
        decreases ok, |ids| - attempted
      {
        ok := CanResend(loaded[attempted]);
        if ok {
          ResendNth(ids, toAll, outcomes, attempted, loaded, old(View()));
          ok := !IsError(outcomes[attempted]);
          attempted := attempted + 1;
        }
      }
    }

    method ResendMsgs(ids: seq<MsgId>, toAll: bool, outcomes: seq<Outcome>) returns (ok: bool, attempted: nat)
      requires |outcomes| == |ids|
      modifies this
      ensures attempted <= |ids| && View() == Resent(old(View()), ids, toAll, outcomes, attempted)
      ensures if !AllOwn(old(msgs), ids) then !ok && attempted == 0
              else if ok then attempted == |ids| && NoError(outcomes, attempted)
              else StoppedAt(outcomes, Loaded(old(msgs), ids), attempted)
    {
      var loaded := LoadOwn(ids);
      if loaded.None? { return false, 0; }
      ok, attempted := ResendLoaded(ids, toAll, outcomes, loaded.value);
    }
  }

  predicate IsOwn(t: Table, id: MsgId) {
    id in t && t[id].own && !t[id].info
  }

  /** The submission returns an error, which ends a batch. */
  predicate IsError(outcome: Outcome) {
    outcome == Failed || outcome == Refused
  }

  ghost predicate NoError(outcomes: seq<Outcome>, n: nat)
    requires n <= |outcomes|
  {
    forall i :: 0 <= i < n ==> outcomes[i] == Queued || outcomes[i] == NoRecipients
  }

  predicate AllOwn(t: Table, ids: seq<MsgId>) {
    forall i :: 0 <= i < |ids| ==> IsOwn(t, ids[i])
  }

  function Loaded(t: Table, ids: seq<MsgId>): seq<Msg>
    requires AllOwn(t, ids)
  {
    seq(|ids|, i requires 0 <= i < |ids| => assert IsOwn(t, ids[i]); t[ids[i]])
  }

  /** Why a batch ends early: the next message is in a wrong state, or the last submission failed. */
  ghost predicate StoppedAt(outcomes: seq<Outcome>, loaded: seq<Msg>, attempted: nat) {
    || (attempted < |loaded| && !CanResend(loaded[attempted]))
    || (0 < attempted <= |outcomes| && (outcomes[attempted - 1] == Failed || outcomes[attempted - 1] == Refused))
  }

  /** What was loaded still tells which messages can be resent. */
  ghost predicate SameChoice(t: Table, ids: seq<MsgId>, loaded: seq<Msg>) {
    && |loaded| == |ids|
    && forall i :: 0 <= i < |ids| ==> ids[i] in t && (CanResend(t[ids[i]]) <==> CanResend(loaded[i]))
  }

  lemma ResendKeepsChoice(db: Db, id: MsgId, toAll: bool, outcome: Outcome, ids: seq<MsgId>, loaded: seq<Msg>)
    requires SameChoice(db.msgs, ids, loaded)
    ensures SameChoice(Step(db, Resend(id, toAll, outcome)).msgs, ids, loaded)
  {}

  lemma {:induction false} ResentKeepsChoice(
    db: Db, ids: seq<MsgId>, toAll: bool, outcomes: seq<Outcome>, n: nat, loaded: seq<Msg>)
    requires n <= |ids| == |outcomes| && SameChoice(db.msgs, ids, loaded)
    ensures SameChoice(Resent(db, ids, toAll, outcomes, n).msgs, ids, loaded)
  {
    if n > 0 {
      ResentKeepsChoice(db, ids, toAll, outcomes, n - 1, loaded);
      ResendKeepsChoice(Resent(db, ids, toAll, outcomes, n - 1), ids[n - 1], toAll, outcomes[n - 1], ids, loaded);
    }
  }

  /** The first `n` messages resent one after the other. */
  function Resent(db: Db, ids: seq<MsgId>, toAll: bool, outcomes: seq<Outcome>, n: nat): Db
    requires n <= |ids| == |outcomes|
  {
    if n == 0 then db else Step(Resent(db, ids, toAll, outcomes, n - 1), Resend(ids[n - 1], toAll, outcomes[n - 1]))
  }

  function Resends(ids: seq<MsgId>, toAll: bool, outcomes: seq<Outcome>, n: nat): seq<Action>
    requires n <= |ids| == |outcomes|
  {
    if n == 0 then [] else Resends(ids, toAll, outcomes, n - 1) + [Resend(ids[n - 1], toAll, outcomes[n - 1])]
  }

  /** A batch is a run of single resends, so that what every run keeps holds for it. */
  lemma {:induction false} ResentIsRun(db: Db, ids: seq<MsgId>, toAll: bool, outcomes: seq<Outcome>, n: nat)
    requires n <= |ids| == |outcomes|
    ensures Resent(db, ids, toAll, outcomes, n) == Run(db, Resends(ids, toAll, outcomes, n))
  {
    if n > 0 {
      ResentIsRun(db, ids, toAll, outcomes, n - 1);
      RunAppend(db, Resends(ids, toAll, outcomes, n - 1), Resend(ids[n - 1], toAll, outcomes[n - 1]));
    }
  }

  lemma {:induction false} RunAppend(db: Db, actions: seq<Action>, a: Action)
    ensures Run(db, actions + [a]) == Step(Run(db, actions), a)
    decreases |actions|
  {
    if actions == [] {
      assert (actions + [a])[1..] == [];
    } else {
      assert (actions + [a])[1..] == actions[1..] + [a];
      RunAppend(Step(db, actions[0]), actions[1..], a);
    }
  }
}
