/** Conversation grouping: which messages form one thread (`assign`, `prune`).

    A thread is identified by the set of Message-IDs it is known by.  A message links all the
    Message-IDs in its headers; linking IDs of several threads merges them.  The claim of the
    design is that the grouping is the connected components of the link graph, whatever the
    order of arrival. */
module ThreadGroups {
  import opened Collections

  type MsgId = nat
  type ThreadId = nat
  type Mid = string

  datatype Thread = Thread(subject: string, lastActivity: int)

  /** The tables `threads`, `thread_refs` and `msg_threads`, and the AUTOINCREMENT counter. */
  datatype Store = Store(
    threads: map<ThreadId, Thread>,
    refs: map<Mid, ThreadId>,
    msgs: map<MsgId, ThreadId>,
    nextId: ThreadId)

  const EMPTY_STORE := Store(map[], map[], map[], 1)

  ghost predicate Consistent(s: Store) {
    && (forall t :: t in s.threads ==> t < s.nextId)
    && (forall x :: x in s.refs ==> s.refs[x] in s.threads)
    && (forall m :: m in s.msgs ==> s.msgs[m] in s.threads)
  }

  // ----- one assignment as a function of the tables -----

  function Touched(s: Store, ids: set<Mid>): set<ThreadId> {
    set x | x in ids && x in s.refs :: s.refs[x]
  }

  function Target(s: Store, ids: set<Mid>): ThreadId {
    if Touched(s, ids) == {} then s.nextId else Minimum(Touched(s, ids))
  }

  function Redirect(t: ThreadId, losers: set<ThreadId>, survivor: ThreadId): ThreadId {
    if t in losers then survivor else t
  }

  /** The label of a merge: the first subject that is not blank. */
  function FirstNonBlank(subjects: seq<string>): string {
    if subjects == [] then "" else
      var n := |subjects| - 1;
      var earlier := FirstNonBlank(subjects[..n]);
      if earlier == "" then subjects[n] else earlier
  }

  lemma {:induction false} FirstNonBlankMeaning(subjects: seq<string>, i: nat)
    requires i < |subjects| && subjects[i] != "" && forall j :: 0 <= j < i ==> subjects[j] == ""
    ensures FirstNonBlank(subjects) == subjects[i]
  {
    var n := |subjects| - 1;
    if i < n {
      FirstNonBlankMeaning(subjects[..n], i);
    } else if n > 0 {
      AllBlank(subjects[..n]);
    }
  }

  lemma {:induction false} AllBlank(subjects: seq<string>)
    requires forall j :: 0 <= j < |subjects| ==> subjects[j] == ""
    ensures FirstNonBlank(subjects) == ""
  {
    if subjects != [] {
      AllBlank(subjects[..|subjects| - 1]);
    }
  }

  /** The recency of a merge. */
  function Newest(times: seq<int>): int
    requires times != []
  {
    var n := |times| - 1;
    if n == 0 then times[0] else Max(Newest(times[..n]), times[n])
  }

  lemma {:induction false} NewestIsMaximum(times: seq<int>)
    requires times != []
    ensures Newest(times) in times && forall i :: 0 <= i < |times| ==> times[i] <= Newest(times)
  {
    var n := |times| - 1;
    if n > 0 {
      NewestIsMaximum(times[..n]);
      assert forall i :: 0 <= i < n ==> times[..n][i] == times[i];
      assert Newest(times[..n]) in times;
    }
  }

  function Subjects(threads: map<ThreadId, Thread>, order: seq<ThreadId>): seq<string>
    requires forall t :: t in order ==> t in threads
  {
    seq(|order|, i requires 0 <= i < |order| => threads[order[i]].subject)
  }

  function Activities(threads: map<ThreadId, Thread>, order: seq<ThreadId>): seq<int>
    requires forall t :: t in order ==> t in threads
  {
    seq(|order|, i requires 0 <= i < |order| => threads[order[i]].lastActivity)
  }

  function Merged(s: Store, ids: set<Mid>, subject: string, timestamp: int): Thread
    requires forall x :: x in s.refs ==> s.refs[x] in s.threads
  {
    var order := Ascending(Touched(s, ids));
    Thread(FirstNonBlank(Subjects(s.threads, order) + [subject]),
           Newest(Activities(s.threads, order) + [timestamp]))
  }

  function AssignRefs(s: Store, ids: set<Mid>): map<Mid, ThreadId> {
    map x | x in s.refs.Keys + ids ::
      if x in ids then Target(s, ids) else Redirect(s.refs[x], Touched(s, ids), Target(s, ids))
  }

  function AssignMsgs(s: Store, msg: MsgId, ids: set<Mid>): map<MsgId, ThreadId> {
    (map m | m in s.msgs :: Redirect(s.msgs[m], Touched(s, ids), Target(s, ids)))[msg := Target(s, ids)]
  }

  function AssignThreads(s: Store, ids: set<Mid>, merged: Thread): map<ThreadId, Thread> {
    (map t | t in s.threads && t !in Touched(s, ids) :: s.threads[t])[Target(s, ids) := merged]
  }

  function AssignStep(s: Store, msg: MsgId, ids: set<Mid>, subject: string, timestamp: int): Store
    requires forall x :: x in s.refs ==> s.refs[x] in s.threads
  {
    Store(
      AssignThreads(s, ids, Merged(s, ids, subject, timestamp)),
      AssignRefs(s, ids),
      AssignMsgs(s, msg, ids),
      if Touched(s, ids) == {} then s.nextId + 1 else s.nextId)
  }

  function PruneStep(s: Store, live: set<MsgId>): Store {
    var msgs := map m | m in s.msgs && m in live :: s.msgs[m];
    var threads := map t | t in s.threads && t in msgs.Values :: s.threads[t];
    var refs := map x | x in s.refs && s.refs[x] in threads :: s.refs[x];
    Store(threads, refs, msgs, s.nextId)
  }

  // ----- the link graph -----

  ghost predicate Adjacent(links: set<set<Mid>>, x: Mid, y: Mid) {
    exists g :: g in links && x in g && y in g
  }

  ghost predicate IsPath(links: set<set<Mid>>, p: seq<Mid>) {
    p != [] && forall i :: 0 <= i < |p| - 1 ==> Adjacent(links, p[i], p[i + 1])
  }

  ghost predicate Connected(links: set<set<Mid>>, x: Mid, y: Mid) {
    exists p :: IsPath(links, p) && p[0] == x && p[|p| - 1] == y
  }

  lemma Reflexive(links: set<set<Mid>>, x: Mid)
    ensures Connected(links, x, x)
  {
    assert IsPath(links, [x]);
  }

  lemma Direct(links: set<set<Mid>>, g: set<Mid>, x: Mid, y: Mid)
    requires g in links && x in g && y in g
    ensures Connected(links, x, y)
  {
    assert Adjacent(links, x, y);
    assert IsPath(links, [x, y]);
  }

  lemma Symmetric(links: set<set<Mid>>, x: Mid, y: Mid)
    requires Connected(links, x, y)
    ensures Connected(links, y, x)
  {
    var p :| IsPath(links, p) && p[0] == x && p[|p| - 1] == y;
    var q := seq(|p|, i requires 0 <= i < |p| => p[|p| - 1 - i]);
    forall i | 0 <= i < |q| - 1 ensures Adjacent(links, q[i], q[i + 1]) {
      var j := |p| - 2 - i;
      assert Adjacent(links, p[j], p[j + 1]);
    }
    assert IsPath(links, q);
  }

  lemma Transitive(links: set<set<Mid>>, x: Mid, y: Mid, z: Mid)
    requires Connected(links, x, y) && Connected(links, y, z)
    ensures Connected(links, x, z)
  {
    var p :| IsPath(links, p) && p[0] == x && p[|p| - 1] == y;
    var q :| IsPath(links, q) && q[0] == y && q[|q| - 1] == z;
    var r := p + q[1..];
    forall i | 0 <= i < |r| - 1 ensures Adjacent(links, r[i], r[i + 1]) {
      if i < |p| - 1 {
        assert Adjacent(links, p[i], p[i + 1]);
      } else {
        var j := i - (|p| - 1);
        assert Adjacent(links, q[j], q[j + 1]);
      }
    }
    assert IsPath(links, r);
  }

  lemma Monotone(small: set<set<Mid>>, large: set<set<Mid>>, x: Mid, y: Mid)
    requires small <= large && Connected(small, x, y)
    ensures Connected(large, x, y)
  {
    var p :| IsPath(small, p) && p[0] == x && p[|p| - 1] == y;
    forall i | 0 <= i < |p| - 1 ensures Adjacent(large, p[i], p[i + 1]) {
      assert Adjacent(small, p[i], p[i + 1]);
    }
    assert IsPath(large, p);
  }

  // ----- what a run has told the store -----

  datatype Event =
    | Assign(msg: MsgId, ids: set<Mid>, subject: string, timestamp: int)
    | Prune(live: set<MsgId>)

  /** The link sets of conversations not yet forgotten, and the last headers of each message. */
  datatype Known = Known(
    links: set<set<Mid>>,
    ids: map<MsgId, set<Mid>>,
    times: map<MsgId, int>,
    subjects: map<MsgId, string>)

  const NOTHING := Known({}, map[], map[], map[])

  /** A link set is kept by `prune` while a live message is connected to it. */
  ghost predicate Kept(k: Known, live: set<MsgId>, g: set<Mid>) {
    exists m, x, y :: m in live && m in k.ids && x in k.ids[m] && y in g && Connected(k.links, x, y)
  }

  ghost function Learn(k: Known, e: Event): Known {
    match e
    case Assign(msg, ids, subject, timestamp) =>
      Known(k.links + {ids}, k.ids[msg := ids], k.times[msg := timestamp], k.subjects[msg := subject])
    case Prune(live) =>
      Known(set g | g in k.links && Kept(k, live, g),
            map m | m in k.ids && m in live :: k.ids[m],
            map m | m in k.times && m in live :: k.times[m],
            map m | m in k.subjects && m in live :: k.subjects[m])
  }

  ghost function LearnAll(events: seq<Event>): Known {
    if events == [] then NOTHING
    else Learn(LearnAll(events[..|events| - 1]), events[|events| - 1])
  }

  function Step(s: Store, e: Event): Store
    requires forall x :: x in s.refs ==> s.refs[x] in s.threads
  {
    match e
    case Assign(msg, ids, subject, timestamp) => AssignStep(s, msg, ids, subject, timestamp)
    case Prune(live) => PruneStep(s, live)
  }

  function Run(events: seq<Event>): (s: Store)
    ensures Consistent(s)
  {
    if events == [] then EMPTY_STORE
    else
      var s := Run(events[..|events| - 1]);
      StepConsistent(s, events[|events| - 1]);
      Step(s, events[|events| - 1])
  }

  lemma TargetIsTouchedOrFresh(s: Store, ids: set<Mid>)
    requires Consistent(s)
    ensures Touched(s, ids) <= s.threads.Keys
    ensures Target(s, ids) in Touched(s, ids) || (Touched(s, ids) == {} && Target(s, ids) == s.nextId)
  {}

  lemma AssignConsistent(s: Store, msg: MsgId, ids: set<Mid>, merged: Thread)
    requires Consistent(s)
    ensures forall t :: t in AssignThreads(s, ids, merged) ==> t < s.nextId || (t == s.nextId && Touched(s, ids) == {})
    ensures forall x :: x in AssignRefs(s, ids) ==> AssignRefs(s, ids)[x] in AssignThreads(s, ids, merged)
    ensures forall m :: m in AssignMsgs(s, msg, ids) ==> AssignMsgs(s, msg, ids)[m] in AssignThreads(s, ids, merged)
  {
    TargetIsTouchedOrFresh(s, ids);
  }

  lemma StepConsistent(s: Store, e: Event)
    requires Consistent(s)
    ensures Consistent(Step(s, e))
  {
    if e.Assign? {
      AssignConsistent(s, e.msg, e.ids, Merged(s, e.ids, e.subject, e.timestamp));
    } else {
      var msgs := map m | m in s.msgs && m in e.live :: s.msgs[m];
      assert forall m :: m in msgs ==> msgs[m] in msgs.Values;
    }
  }

  // ----- the store represents the link graph -----

  /** A Message-ID is filed under a thread exactly when some link set mentions it. */
  ghost predicate FilesAll(refs: map<Mid, ThreadId>, links: set<set<Mid>>) {
    && (forall g, x :: g in links && x in g ==> x in refs)
    && (forall x :: x in refs ==> Adjacent(links, x, x))
  }

  ghost predicate LinkedTogether(refs: map<Mid, ThreadId>, links: set<set<Mid>>) {
    forall g, x, y :: g in links && x in g && y in g && x in refs && y in refs ==> refs[x] == refs[y]
  }

  ghost predicate OnlyLinked(refs: map<Mid, ThreadId>, links: set<set<Mid>>) {
    forall x, y :: x in refs && y in refs && refs[x] == refs[y] ==> Connected(links, x, y)
  }

  ghost predicate LinksRepresented(refs: map<Mid, ThreadId>, links: set<set<Mid>>) {
    FilesAll(refs, links) && LinkedTogether(refs, links) && OnlyLinked(refs, links)
  }

  ghost predicate MessagesFiled(refs: map<Mid, ThreadId>, msgs: map<MsgId, ThreadId>, ids: map<MsgId, set<Mid>>) {
    && msgs.Keys == ids.Keys
    && (forall m, x :: m in ids && x in ids[m] ==> x in refs && refs[x] == msgs[m])
  }

  ghost predicate Alone(refs: map<Mid, ThreadId>, msgs: map<MsgId, ThreadId>, m: MsgId)
    requires m in msgs
  {
    && (forall x :: x in refs ==> refs[x] != msgs[m])
    && (forall n :: n in msgs && n != m ==> msgs[n] != msgs[m])
  }

  /** A message without any Message-ID is alone in its thread. */
  ghost predicate AnonymousAlone(refs: map<Mid, ThreadId>, msgs: map<MsgId, ThreadId>, ids: map<MsgId, set<Mid>>) {
    forall m :: m in ids && m in msgs && ids[m] == {} ==> Alone(refs, msgs, m)
  }

  ghost predicate Recent(threads: map<ThreadId, Thread>, msgs: map<MsgId, ThreadId>, times: map<MsgId, int>) {
    && msgs.Keys == times.Keys
    && forall m :: m in times && msgs[m] in threads ==> times[m] <= threads[msgs[m]].lastActivity
  }

  /** A thread has a label once one of its messages has a subject. */
  ghost predicate Labelled(threads: map<ThreadId, Thread>, msgs: map<MsgId, ThreadId>, subjects: map<MsgId, string>) {
    && msgs.Keys == subjects.Keys
    && forall m :: m in subjects && subjects[m] != "" && msgs[m] in threads ==> threads[msgs[m]].subject != ""
  }

  ghost predicate Represents(s: Store, k: Known) {
    && Consistent(s)
    && LinksRepresented(s.refs, k.links)
    && MessagesFiled(s.refs, s.msgs, k.ids)
    && AnonymousAlone(s.refs, s.msgs, k.ids)
    && Recent(s.threads, s.msgs, k.times)
    && Labelled(s.threads, s.msgs, k.subjects)
  }

  lemma {:induction false} PathStaysInThread(refs: map<Mid, ThreadId>, links: set<set<Mid>>, p: seq<Mid>)
    requires FilesAll(refs, links) && LinkedTogether(refs, links) && IsPath(links, p) && p[0] in refs
    ensures forall i :: 0 <= i < |p| ==> p[i] in refs && refs[p[i]] == refs[p[0]]
  {
    if |p| > 1 {
      var q := p[..|p| - 1];
      assert IsPath(links, q) by {
        forall i | 0 <= i < |q| - 1 ensures Adjacent(links, q[i], q[i + 1]) {
          assert Adjacent(links, p[i], p[i + 1]);
        }
      }
      PathStaysInThread(refs, links, q);
      var n := |p| - 2;
      assert Adjacent(links, p[n], p[n + 1]);
      assert p[n] == q[n];
      forall i | 0 <= i < |p| ensures p[i] in refs && refs[p[i]] == refs[p[0]] {
        if i < |q| { assert p[i] == q[i]; }
      }
    }
  }

  lemma ConnectedSameThread(refs: map<Mid, ThreadId>, links: set<set<Mid>>, x: Mid, y: Mid)
    requires FilesAll(refs, links) && LinkedTogether(refs, links) && x in refs && Connected(links, x, y)
    ensures y in refs && refs[x] == refs[y]
  {
    var p :| IsPath(links, p) && p[0] == x && p[|p| - 1] == y;
    PathStaysInThread(refs, links, p);
  }

  // ----- assignment keeps the representation -----

  /** Whatever ends up in the target thread is connected to the new link set. */
  lemma TargetIsConnected(s: Store, links: set<set<Mid>>, ids: set<Mid>, x: Mid) returns (a: Mid)
    requires Consistent(s) && OnlyLinked(s.refs, links)
    requires x in AssignRefs(s, ids) && AssignRefs(s, ids)[x] == Target(s, ids)
    ensures a in ids && Connected(links + {ids}, x, a)
  {
    TargetIsTouchedOrFresh(s, ids);
    if x in ids {
      a := x;
      Reflexive(links + {ids}, x);
    } else {
      assert s.refs[x] in Touched(s, ids);
      a :| a in ids && a in s.refs && s.refs[a] == s.refs[x];
      Monotone(links, links + {ids}, x, a);
    }
  }

  lemma AssignOnlyLinked(s: Store, links: set<set<Mid>>, ids: set<Mid>)
    requires Consistent(s) && OnlyLinked(s.refs, links)
    ensures OnlyLinked(AssignRefs(s, ids), links + {ids})
  {
    var refs, links' := AssignRefs(s, ids), links + {ids};
    TargetIsTouchedOrFresh(s, ids);
    forall x, y | x in refs && y in refs && refs[x] == refs[y] ensures Connected(links', x, y) {
      if refs[x] == Target(s, ids) {
        var a := TargetIsConnected(s, links, ids, x);
        var b := TargetIsConnected(s, links, ids, y);
        Direct(links', ids, a, b);
        Transitive(links', x, a, b);
        Symmetric(links', y, b);
        Transitive(links', x, b, y);
      } else {
        assert s.refs[x] == s.refs[y];
        Monotone(links, links', x, y);
      }
    }
  }

  lemma AssignFiles(s: Store, links: set<set<Mid>>, ids: set<Mid>)
    requires FilesAll(s.refs, links)
    ensures FilesAll(AssignRefs(s, ids), links + {ids})
  {
    var refs, links' := AssignRefs(s, ids), links + {ids};
    forall x | x in refs ensures Adjacent(links', x, x) {
      if x in ids {
        assert ids in links';
      } else {
        assert Adjacent(links, x, x);
        var g :| g in links && x in g;
        assert g in links';
      }
    }
  }

  lemma AssignLinksTogether(s: Store, links: set<set<Mid>>, ids: set<Mid>)
    requires FilesAll(s.refs, links) && LinkedTogether(s.refs, links)
    ensures LinkedTogether(AssignRefs(s, ids), links + {ids})
  {
    var refs := AssignRefs(s, ids);
    forall g, x, y | g in links + {ids} && x in g && y in g && x in refs && y in refs ensures refs[x] == refs[y] {
      if g in links {
        assert s.refs[x] == s.refs[y];
        assert x in ids ==> s.refs[x] in Touched(s, ids);
        assert y in ids ==> s.refs[y] in Touched(s, ids);
      }
    }
  }

  lemma AssignMessages(s: Store, ids: map<MsgId, set<Mid>>, msg: MsgId, own: set<Mid>)
    requires Consistent(s) && MessagesFiled(s.refs, s.msgs, ids)
    ensures MessagesFiled(AssignRefs(s, own), AssignMsgs(s, msg, own), ids[msg := own])
  {
    var refs, msgs := AssignRefs(s, own), AssignMsgs(s, msg, own);
    forall m, x | m in ids[msg := own] && x in ids[msg := own][m] ensures x in refs && refs[x] == msgs[m] {
      if m != msg {
        assert x in own ==> s.refs[x] in Touched(s, own);
      }
    }
  }

  lemma AssignAlone(s: Store, ids: map<MsgId, set<Mid>>, msg: MsgId, own: set<Mid>)
    requires Consistent(s) && s.msgs.Keys == ids.Keys && AnonymousAlone(s.refs, s.msgs, ids)
    ensures AnonymousAlone(AssignRefs(s, own), AssignMsgs(s, msg, own), ids[msg := own])
  {
    var refs, msgs := AssignRefs(s, own), AssignMsgs(s, msg, own);
    TargetIsTouchedOrFresh(s, own);
    forall m | m in ids[msg := own] && m in msgs && ids[msg := own][m] == {} ensures Alone(refs, msgs, m) {
      if m != msg {
        assert Alone(s.refs, s.msgs, m);
        assert s.msgs[m] !in Touched(s, own);
        assert msgs[m] == s.msgs[m] != Target(s, own);
      } else {
        assert Touched(s, own) == {};
        assert forall x :: x in refs ==> refs[x] == s.refs[x] != s.nextId;
      }
    }
  }

  lemma MergedIsNewest(s: Store, ids: set<Mid>, subject: string, timestamp: int)
    requires Consistent(s)
    ensures timestamp <= Merged(s, ids, subject, timestamp).lastActivity
    ensures forall t :: t in Touched(s, ids) && t in s.threads ==>
                          s.threads[t].lastActivity <= Merged(s, ids, subject, timestamp).lastActivity
  {
    var order := Ascending(Touched(s, ids));
    var activities := Activities(s.threads, order) + [timestamp];
    NewestIsMaximum(activities);
    assert activities[|activities| - 1] == timestamp;
    forall t | t in Touched(s, ids) && t in s.threads ensures s.threads[t].lastActivity <= Newest(activities) {
      assert t in order;
      var i :| 0 <= i < |order| && order[i] == t;
      assert activities[i] == s.threads[t].lastActivity;
    }
  }

  lemma AssignRecent(s: Store, times: map<MsgId, int>, msg: MsgId, ids: set<Mid>, merged: Thread, timestamp: int)
    requires Consistent(s) && Recent(s.threads, s.msgs, times) && timestamp <= merged.lastActivity
    requires forall t :: t in Touched(s, ids) && t in s.threads ==> s.threads[t].lastActivity <= merged.lastActivity
    ensures Recent(AssignThreads(s, ids, merged), AssignMsgs(s, msg, ids), times[msg := timestamp])
  {
    var threads, msgs := AssignThreads(s, ids, merged), AssignMsgs(s, msg, ids);
    forall m | m in times && m != msg ensures msgs[m] in threads ==> times[m] <= threads[msgs[m]].lastActivity {
      assert times[m] <= s.threads[s.msgs[m]].lastActivity;
    }
  }

  lemma {:induction false} NotAllBlank(subjects: seq<string>, i: nat)
    requires i < |subjects| && subjects[i] != ""
    ensures FirstNonBlank(subjects) != ""
  {
    var n := |subjects| - 1;
    if i < n {
      NotAllBlank(subjects[..n], i);
    }
  }

  lemma MergedKeepsLabel(s: Store, ids: set<Mid>, subject: string, timestamp: int, t: ThreadId)
    requires Consistent(s) && t in Touched(s, ids) && s.threads[t].subject != ""
    ensures Merged(s, ids, subject, timestamp).subject != ""
  {
    var order := Ascending(Touched(s, ids));
    assert t in order;
    var i :| 0 <= i < |order| && order[i] == t;
    NotAllBlank(Subjects(s.threads, order) + [subject], i);
  }

  /** A merge has a label if the new subject or one of the threads merged has one. */
  lemma MergedHasLabel(s: Store, ids: set<Mid>, subject: string, timestamp: int)
    requires Consistent(s)
    ensures subject != "" ==> Merged(s, ids, subject, timestamp).subject != ""
    ensures forall t :: t in Touched(s, ids) && t in s.threads && s.threads[t].subject != "" ==>
                          Merged(s, ids, subject, timestamp).subject != ""
  {
    if subject != "" {
      var subjects := Subjects(s.threads, Ascending(Touched(s, ids))) + [subject];
      NotAllBlank(subjects, |subjects| - 1);
    }
    forall t | t in Touched(s, ids) && t in s.threads && s.threads[t].subject != ""
      ensures Merged(s, ids, subject, timestamp).subject != ""
    {
      MergedKeepsLabel(s, ids, subject, timestamp, t);
    }
  }

  lemma AssignLabelled(s: Store, subjects: map<MsgId, string>, msg: MsgId, ids: set<Mid>, merged: Thread, subject: string)
    requires Consistent(s) && Labelled(s.threads, s.msgs, subjects) && (subject != "" ==> merged.subject != "")
    requires forall t :: t in Touched(s, ids) && t in s.threads && s.threads[t].subject != "" ==> merged.subject != ""
    ensures Labelled(AssignThreads(s, ids, merged), AssignMsgs(s, msg, ids), subjects[msg := subject])
  {
    var threads, msgs := AssignThreads(s, ids, merged), AssignMsgs(s, msg, ids);
    forall m | m in subjects && m != msg && subjects[m] != "" ensures msgs[m] in threads ==> threads[msgs[m]].subject != "" {
      assert s.threads[s.msgs[m]].subject != "";
    }
  }

  lemma AssignRepresents(s: Store, k: Known, msg: MsgId, ids: set<Mid>, subject: string, timestamp: int)
    requires Represents(s, k)
    ensures Represents(AssignStep(s, msg, ids, subject, timestamp), Learn(k, Assign(msg, ids, subject, timestamp)))
  {
    StepConsistent(s, Assign(msg, ids, subject, timestamp));
    AssignFiles(s, k.links, ids);
    AssignLinksTogether(s, k.links, ids);
    AssignOnlyLinked(s, k.links, ids);
    AssignMessages(s, k.ids, msg, ids);
    AssignAlone(s, k.ids, msg, ids);
    MergedIsNewest(s, ids, subject, timestamp);
    AssignRecent(s, k.times, msg, ids, Merged(s, ids, subject, timestamp), timestamp);
    MergedHasLabel(s, ids, subject, timestamp);
    AssignLabelled(s, k.subjects, msg, ids, Merged(s, ids, subject, timestamp), subject);
  }

  // ----- the thread a message is filed under -----

  /** The linked IDs belong to thread `t` among others. */
  ghost predicate Links(s: Store, ids: set<Mid>, t: ThreadId) {
    exists x :: x in ids && x in s.refs && s.refs[x] == t
  }

  lemma LinksTouched(s: Store, ids: set<Mid>, t: ThreadId)
    ensures Links(s, ids, t) <==> t in Touched(s, ids)
  {}

  lemma NewThreadRow(s: Store, ids: set<Mid>, subject: string, timestamp: int)
    requires Consistent(s) && Touched(s, ids) == {}
    ensures Merged(s, ids, subject, timestamp) == Thread(subject, timestamp)
  {
    var order := Ascending(Touched(s, ids));
    assert order == [];
    assert Subjects(s.threads, order) + [subject] == [subject] && [subject][..0] == [];
    assert Activities(s.threads, order) + [timestamp] == [timestamp];
    assert FirstNonBlank([subject][..0]) == "";
  }

  lemma TargetIsOldest(s: Store, ids: set<Mid>, t: ThreadId)
    requires Links(s, ids, t)
    ensures Links(s, ids, Target(s, ids)) && Target(s, ids) <= t
  {
    LinksTouched(s, ids, t);
    LinksTouched(s, ids, Target(s, ids));
  }

  /** The message and its IDs are filed under the oldest thread the IDs belong to. */
  lemma FiledUnderOldest(s: Store, msg: MsgId, ids: set<Mid>, subject: string, timestamp: int, t: ThreadId)
    requires Consistent(s) && Links(s, ids, t)
    ensures var r := AssignStep(s, msg, ids, subject, timestamp);
            && msg in r.msgs && Links(s, ids, r.msgs[msg]) && r.msgs[msg] <= t
            && forall x :: x in ids ==> x in r.refs && r.refs[x] == r.msgs[msg]
  {
    TargetIsOldest(s, ids, t);
  }

  /** If they belong to none, a new thread is made of the message. */
  lemma FiledUnderNew(s: Store, msg: MsgId, ids: set<Mid>, subject: string, timestamp: int)
    requires Consistent(s) && forall x :: x in ids ==> x !in s.refs
    ensures var r := AssignStep(s, msg, ids, subject, timestamp);
            && msg in r.msgs && r.msgs[msg] !in s.threads && r.msgs[msg] in r.threads
            && r.threads[r.msgs[msg]] == Thread(subject, timestamp)
            && forall x :: x in ids ==> x in r.refs && r.refs[x] == r.msgs[msg]
  {
    assert Touched(s, ids) == {};
    NewThreadRow(s, ids, subject, timestamp);
  }

  /** Other threads keep their rows, and only the threads merged away disappear. */
  lemma OthersKeepTheirRows(s: Store, msg: MsgId, ids: set<Mid>, subject: string, timestamp: int, t: ThreadId)
    requires Consistent(s) && t in s.threads
    ensures var r := AssignStep(s, msg, ids, subject, timestamp);
            && msg in r.msgs
            && (t in r.threads <==> !Links(s, ids, t) || t == r.msgs[msg])
            && (!Links(s, ids, t) ==> r.threads[t] == s.threads[t])
  {
    LinksTouched(s, ids, t);
    TargetIsTouchedOrFresh(s, ids);
  }

  lemma {:induction false} LabelOf(order: seq<ThreadId>, threads: map<ThreadId, Thread>, subject: string, i: nat)
    requires StrictlyAscending(order) && (forall t :: t in order ==> t in threads) && i <= |order|
    requires forall j :: 0 <= j < i ==> threads[order[j]].subject == ""
    requires i < |order| ==> threads[order[i]].subject != ""
    ensures FirstNonBlank(Subjects(threads, order) + [subject]) == if i < |order| then threads[order[i]].subject else subject
  {
    var subjects := Subjects(threads, order) + [subject];
    if i < |order| || subject != "" {
      FirstNonBlankMeaning(subjects, i);
    } else {
      AllBlank(subjects);
    }
  }

  /** The label is that of the oldest linked thread that has one, and only without any the new subject. */
  lemma LabelIsOldest(s: Store, msg: MsgId, ids: set<Mid>, subject: string, timestamp: int, t: ThreadId)
    requires Consistent(s) && Links(s, ids, t) && s.threads[t].subject != ""
    requires forall u: ThreadId :: u < t && Links(s, ids, u) ==> s.threads[u].subject == ""
    ensures var r := AssignStep(s, msg, ids, subject, timestamp);
            msg in r.msgs && r.msgs[msg] in r.threads && r.threads[r.msgs[msg]].subject == s.threads[t].subject
  {
    var order := Ascending(Touched(s, ids));
    LinksTouched(s, ids, t);
    assert t in order;
    var i :| 0 <= i < |order| && order[i] == t;
    assert forall u :: u in order ==> u in s.threads;
    forall j | 0 <= j < i ensures s.threads[order[j]].subject == "" {
      assert order[j] in order;
      LinksTouched(s, ids, order[j]);
    }
    LabelOf(order, s.threads, subject, i);
  }

  lemma LabelIsSubject(s: Store, msg: MsgId, ids: set<Mid>, subject: string, timestamp: int)
    requires Consistent(s) && forall u: ThreadId :: Links(s, ids, u) ==> s.threads[u].subject == ""
    ensures var r := AssignStep(s, msg, ids, subject, timestamp);
            msg in r.msgs && r.msgs[msg] in r.threads && r.threads[r.msgs[msg]].subject == subject
  {
    var order := Ascending(Touched(s, ids));
    assert forall u :: u in order ==> u in s.threads;
    forall j | 0 <= j < |order| ensures s.threads[order[j]].subject == "" {
      assert order[j] in order;
      LinksTouched(s, ids, order[j]);
    }
    LabelOf(order, s.threads, subject, |order|);
  }

  /** The recency is that of the message or of a linked thread, whichever is the latest. */
  lemma RecencyIsLatest(s: Store, msg: MsgId, ids: set<Mid>, subject: string, timestamp: int)
    requires Consistent(s)
    ensures var r := AssignStep(s, msg, ids, subject, timestamp);
            && msg in r.msgs && r.msgs[msg] in r.threads
            && var latest := r.threads[r.msgs[msg]].lastActivity;
               && timestamp <= latest
               && (forall t: ThreadId :: Links(s, ids, t) ==> s.threads[t].lastActivity <= latest)
               && (latest == timestamp || exists t: ThreadId :: Links(s, ids, t) && s.threads[t].lastActivity == latest)
  {
    var order := Ascending(Touched(s, ids));
    var activities := Activities(s.threads, order) + [timestamp];
    var latest := Newest(activities);
    MergedIsNewest(s, ids, subject, timestamp);
    NewestIsMaximum(activities);
    forall t: ThreadId | Links(s, ids, t) ensures s.threads[t].lastActivity <= latest {
      LinksTouched(s, ids, t);
    }
    var i :| 0 <= i < |activities| && activities[i] == latest;
    if i < |order| {
      assert order[i] in order;
      LinksTouched(s, ids, order[i]);
    }
  }

  // ----- pruning keeps the representation -----

  /** The thread still has a live message. */
  ghost predicate Lives(s: Store, live: set<MsgId>, t: ThreadId) {
    exists m :: m in live && m in s.msgs && s.msgs[m] == t
  }

  lemma PruneStepLives(s: Store, live: set<MsgId>)
    requires Consistent(s)
    ensures forall t :: t in PruneStep(s, live).threads <==> Lives(s, live, t)
    ensures forall x :: x in PruneStep(s, live).refs <==> x in s.refs && Lives(s, live, s.refs[x])
  {
    var msgs := PruneStep(s, live).msgs;
    forall t ensures t in msgs.Values <==> Lives(s, live, t) {
      if Lives(s, live, t) {
        var m :| m in live && m in s.msgs && s.msgs[m] == t;
        assert msgs[m] == t;
      }
    }
  }

  /** Pruning keeps exactly the live messages, the threads they are in, and the IDs filed under those, all
      as they are; the ids of dropped threads are not used again. */
  lemma PrunedTables(s: Store, live: set<MsgId>, m: MsgId, t: ThreadId, x: Mid)
    requires Consistent(s)
    ensures var r := PruneStep(s, live);
            && (m in r.msgs <==> m in s.msgs && m in live) && (m in r.msgs ==> r.msgs[m] == s.msgs[m])
            && (t in r.threads <==> Lives(s, live, t)) && (t in r.threads ==> t in s.threads && r.threads[t] == s.threads[t])
            && (x in r.refs <==> x in s.refs && Lives(s, live, s.refs[x])) && (x in r.refs ==> r.refs[x] == s.refs[x])
            && r.nextId == s.nextId
  {
    PruneStepLives(s, live);
  }

  lemma KeptThreadLives(s: Store, k: Known, live: set<MsgId>, g: set<Mid>, y: Mid)
    requires LinksRepresented(s.refs, k.links) && MessagesFiled(s.refs, s.msgs, k.ids)
    requires g in k.links && y in g && y in s.refs && Kept(k, live, g)
    ensures Lives(s, live, s.refs[y])
  {
    var m, x, z :| m in live && m in k.ids && x in k.ids[m] && z in g && Connected(k.links, x, z);
    ConnectedSameThread(s.refs, k.links, x, z);
    assert s.refs[z] == s.refs[y];
  }

  lemma LivingThreadKept(s: Store, k: Known, live: set<MsgId>, g: set<Mid>, y: Mid)
    requires OnlyLinked(s.refs, k.links)
    requires MessagesFiled(s.refs, s.msgs, k.ids) && AnonymousAlone(s.refs, s.msgs, k.ids)
    requires g in k.links && y in g && y in s.refs && Lives(s, live, s.refs[y])
    ensures Kept(k, live, g)
  {
    var m :| m in live && m in s.msgs && s.msgs[m] == s.refs[y];
    assert !Alone(s.refs, s.msgs, m);
    assert m in k.ids && k.ids[m] != {};
    var x :| x in k.ids[m];
    assert Connected(k.links, x, y);
  }

  /** A path out of a thread that is kept runs through link sets that are kept. */
  lemma {:induction false} PruneKeepsPath(s: Store, k: Known, live: set<MsgId>, p: seq<Mid>)
    requires LinksRepresented(s.refs, k.links)
    requires MessagesFiled(s.refs, s.msgs, k.ids) && AnonymousAlone(s.refs, s.msgs, k.ids)
    requires IsPath(k.links, p) && p[0] in s.refs && Lives(s, live, s.refs[p[0]])
    ensures IsPath(Learn(k, Prune(live)).links, p)
  {
    var links := Learn(k, Prune(live)).links;
    PathStaysInThread(s.refs, k.links, p);
    forall i | 0 <= i < |p| - 1 ensures Adjacent(links, p[i], p[i + 1]) {
      assert Adjacent(k.links, p[i], p[i + 1]);
      var g :| g in k.links && p[i] in g && p[i + 1] in g;
      LivingThreadKept(s, k, live, g, p[i]);
      assert g in links;
    }
  }

  lemma PruneFiles(s: Store, k: Known, live: set<MsgId>)
    requires Represents(s, k)
    ensures FilesAll(PruneStep(s, live).refs, Learn(k, Prune(live)).links)
  {
    var refs, links := PruneStep(s, live).refs, Learn(k, Prune(live)).links;
    PruneStepLives(s, live);
    forall g, x | g in links && x in g ensures x in refs {
      KeptThreadLives(s, k, live, g, x);
    }
    forall x | x in refs ensures Adjacent(links, x, x) {
      assert Adjacent(k.links, x, x);
      var g :| g in k.links && x in g;
      LivingThreadKept(s, k, live, g, x);
      assert g in links;
    }
  }

  lemma PruneOnlyLinked(s: Store, k: Known, live: set<MsgId>)
    requires Represents(s, k)
    ensures OnlyLinked(PruneStep(s, live).refs, Learn(k, Prune(live)).links)
  {
    var refs, links := PruneStep(s, live).refs, Learn(k, Prune(live)).links;
    PruneStepLives(s, live);
    forall x, y | x in refs && y in refs && refs[x] == refs[y] ensures Connected(links, x, y) {
      assert Connected(k.links, x, y);
      var p :| IsPath(k.links, p) && p[0] == x && p[|p| - 1] == y;
      PruneKeepsPath(s, k, live, p);
    }
  }

  lemma PruneMessages(s: Store, k: Known, live: set<MsgId>)
    requires Consistent(s) && MessagesFiled(s.refs, s.msgs, k.ids)
    ensures Consistent(PruneStep(s, live))
    ensures MessagesFiled(PruneStep(s, live).refs, PruneStep(s, live).msgs, Learn(k, Prune(live)).ids)
  {
    var r, ids := PruneStep(s, live), Learn(k, Prune(live)).ids;
    PruneStepLives(s, live);
    forall m | m in r.msgs ensures r.msgs[m] in r.threads {
      assert Lives(s, live, s.msgs[m]);
    }
    forall m, x | m in ids && x in ids[m] ensures x in r.refs && r.refs[x] == r.msgs[m] {
      assert Lives(s, live, s.msgs[m]);
    }
  }

  lemma PruneAlone(s: Store, k: Known, live: set<MsgId>)
    requires AnonymousAlone(s.refs, s.msgs, k.ids)
    ensures AnonymousAlone(PruneStep(s, live).refs, PruneStep(s, live).msgs, Learn(k, Prune(live)).ids)
  {
    var r, ids := PruneStep(s, live), Learn(k, Prune(live)).ids;
    forall m | m in ids && m in r.msgs && ids[m] == {} ensures Alone(r.refs, r.msgs, m) {
      assert Alone(s.refs, s.msgs, m);
    }
  }

  lemma PruneRepresents(s: Store, k: Known, live: set<MsgId>)
    requires Represents(s, k)
    ensures Represents(PruneStep(s, live), Learn(k, Prune(live)))
  {
    PruneFiles(s, k, live);
    PruneOnlyLinked(s, k, live);
    PruneMessages(s, k, live);
    PruneAlone(s, k, live);
    assert LinkedTogether(PruneStep(s, live).refs, Learn(k, Prune(live)).links) by {
      assert Learn(k, Prune(live)).links <= k.links;
    }
    assert Recent(PruneStep(s, live).threads, PruneStep(s, live).msgs, Learn(k, Prune(live)).times);
    assert Labelled(PruneStep(s, live).threads, PruneStep(s, live).msgs, Learn(k, Prune(live)).subjects);
  }

  lemma {:induction false} RunRepresents(events: seq<Event>)
    ensures Represents(Run(events), LearnAll(events))
  {
    if events != [] {
      var n := |events| - 1;
      RunRepresents(events[..n]);
      var s, k := Run(events[..n]), LearnAll(events[..n]);
      match events[n]
      case Assign(msg, ids, subject, timestamp) => AssignRepresents(s, k, msg, ids, subject, timestamp);
      case Prune(live) => PruneRepresents(s, k, live);
    }
  }
}
