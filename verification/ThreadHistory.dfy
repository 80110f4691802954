/** What the grouping comes to over whole histories: threads are the connected components of the link
    graph, whatever the order of arrival, and reprocessing changes nothing. */
module ThreadHistory {
  import opened Collections
  import opened ThreadGroups

  ghost predicate SameConversation(k: Known, m: MsgId, n: MsgId)
    requires m in k.ids && n in k.ids
  {
    m == n || exists x, y :: x in k.ids[m] && y in k.ids[n] && Connected(k.links, x, y)
  }

  lemma SharedThreadHasIds(s: Store, k: Known, m: MsgId, n: MsgId)
    requires MessagesFiled(s.refs, s.msgs, k.ids) && AnonymousAlone(s.refs, s.msgs, k.ids)
    requires m in s.msgs && n in s.msgs && m != n && s.msgs[m] == s.msgs[n]
    ensures m in k.ids && k.ids[m] != {}
  {
    assert !Alone(s.refs, s.msgs, m);
  }

  lemma FiledTogetherConnected(s: Store, k: Known, m: MsgId, n: MsgId, x: Mid, y: Mid)
    requires MessagesFiled(s.refs, s.msgs, k.ids) && OnlyLinked(s.refs, k.links)
    requires m in k.ids && n in k.ids && x in k.ids[m] && y in k.ids[n] && s.msgs[m] == s.msgs[n]
    ensures Connected(k.links, x, y)
  {
    assert s.refs[x] == s.msgs[m] && s.refs[y] == s.msgs[n];
  }

  lemma SharedThreadConnected(s: Store, k: Known, m: MsgId, n: MsgId)
    requires MessagesFiled(s.refs, s.msgs, k.ids) && AnonymousAlone(s.refs, s.msgs, k.ids) && OnlyLinked(s.refs, k.links)
    requires m in s.msgs && n in s.msgs && s.msgs[m] == s.msgs[n]
    ensures m in k.ids && n in k.ids && SameConversation(k, m, n)
  {
    if m != n {
      SharedThreadHasIds(s, k, m, n);
      SharedThreadHasIds(s, k, n, m);
      var x :| x in k.ids[m];
      var y :| y in k.ids[n];
      FiledTogetherConnected(s, k, m, n, x, y);
    }
  }

  lemma ConnectedSharesThread(s: Store, k: Known, m: MsgId, n: MsgId)
    requires MessagesFiled(s.refs, s.msgs, k.ids) && FilesAll(s.refs, k.links) && LinkedTogether(s.refs, k.links)
    requires m in k.ids && n in k.ids && SameConversation(k, m, n)
    ensures m in s.msgs && n in s.msgs && s.msgs[m] == s.msgs[n]
  {
    if m != n {
      var x, y :| x in k.ids[m] && y in k.ids[n] && Connected(k.links, x, y);
      ConnectedSameThread(s.refs, k.links, x, y);
    }
  }

  /** After any run exactly the messages known are filed, and two of them share a thread exactly when
      their Message-IDs are connected. */
  lemma GroupsAreComponents(events: seq<Event>, m: MsgId, n: MsgId)
    ensures Run(events).msgs.Keys == LearnAll(events).ids.Keys
    ensures m in Run(events).msgs && n in Run(events).msgs ==>
              (Run(events).msgs[m] == Run(events).msgs[n] <==> SameConversation(LearnAll(events), m, n))
  {
    RunRepresents(events);
    var s, k := Run(events), LearnAll(events);
    if m in s.msgs && n in s.msgs {
      if s.msgs[m] == s.msgs[n] {
        SharedThreadConnected(s, k, m, n);
      } else if SameConversation(k, m, n) {
        ConnectedSharesThread(s, k, m, n);
      }
    }
  }

  /** Two runs that leave the same links known file the same messages and agree on their grouping. */
  lemma SameKnowledgeSameGroups(a: seq<Event>, b: seq<Event>, m: MsgId, n: MsgId)
    requires LearnAll(a) == LearnAll(b)
    ensures Run(a).msgs.Keys == Run(b).msgs.Keys
    ensures m in Run(a).msgs && n in Run(a).msgs ==>
              (Run(a).msgs[m] == Run(a).msgs[n] <==> Run(b).msgs[m] == Run(b).msgs[n])
  {
    RunRepresents(a);
    RunRepresents(b);
    if m in Run(a).msgs && n in Run(a).msgs {
      GroupsAreComponents(a, m, n);
      GroupsAreComponents(b, m, n);
    }
  }

  /** Arrivals only; reprocessing a message presents the headers stored with it. */
  ghost predicate Arrivals(events: seq<Event>) {
    && (forall e :: e in events ==> e.Assign?)
    && (forall e, f :: e in events && f in events && e.Assign? && f.Assign? && e.msg == f.msg ==> e == f)
  }

  ghost predicate Remembers(k: Known, e: Event)
    requires e.Assign?
  {
    && e.ids in k.links
    && e.msg in k.ids && k.ids[e.msg] == e.ids
    && e.msg in k.times && k.times[e.msg] == e.timestamp
    && e.msg in k.subjects && k.subjects[e.msg] == e.subject
  }

  ghost predicate Mentions(events: set<Event>, g: set<Mid>) {
    exists e :: e in events && e.Assign? && e.ids == g
  }

  ghost predicate Arrived(events: set<Event>, m: MsgId) {
    exists e :: e in events && e.Assign? && e.msg == m
  }

  ghost predicate Knows(k: Known, events: set<Event>) {
    && (forall e :: e in events ==> e.Assign? && Remembers(k, e))
    && (forall g :: g in k.links ==> Mentions(events, g))
    && (forall m :: m in k.ids ==> Arrived(events, m))
    && k.ids.Keys == k.times.Keys == k.subjects.Keys
  }

  lemma LearnMore(k: Known, events: set<Event>, last: Event)
    requires Knows(k, events) && last.Assign?
    requires forall e :: e in events && e.Assign? && e.msg == last.msg ==> e == last
    ensures Knows(Learn(k, last), events + {last})
  {
    var l, more := Learn(k, last), events + {last};
    forall e | e in more ensures e.Assign? && Remembers(l, e) {
      if e != last { assert Remembers(k, e); }
    }
    forall g | g in l.links ensures Mentions(more, g) {
      if g in k.links { assert Mentions(events, g); }
    }
    forall m | m in l.ids ensures Arrived(more, m) {
      if m in k.ids { assert Arrived(events, m); }
    }
  }

  lemma ArrivalsPrefix(earlier: seq<Event>, last: Event)
    requires Arrivals(earlier + [last])
    ensures Arrivals(earlier) && last.Assign?
    ensures forall e :: e in Elements(earlier) && e.Assign? && e.msg == last.msg ==> e == last
    ensures Elements(earlier + [last]) == Elements(earlier) + {last}
  {
    var events := earlier + [last];
    assert last in events && forall e :: e in earlier ==> e in events;
  }

  lemma LearnLast(earlier: seq<Event>, last: Event)
    ensures LearnAll(earlier + [last]) == Learn(LearnAll(earlier), last)
  {
    assert (earlier + [last])[..|earlier|] == earlier;
  }

  lemma {:induction false} ArrivalsKnown(events: seq<Event>)
    requires Arrivals(events)
    ensures Knows(LearnAll(events), Elements(events))
  {
    if events == [] {
      assert Knows(NOTHING, {});
    } else {
      var earlier, last := events[..|events| - 1], events[|events| - 1];
      assert events == earlier + [last];
      ArrivalsPrefix(earlier, last);
      ArrivalsKnown(earlier);
      LearnMore(LearnAll(earlier), Elements(earlier), last);
      LearnLast(earlier, last);
    }
  }

  lemma KnowledgeUnique(k: Known, l: Known, events: set<Event>)
    requires Knows(k, events) && Knows(l, events)
    ensures k.links <= l.links && k.ids.Keys <= l.ids.Keys
    ensures forall m :: m in k.ids && m in l.ids ==> k.ids[m] == l.ids[m]
    ensures forall m :: m in k.times && m in l.times ==> k.times[m] == l.times[m]
    ensures forall m :: m in k.subjects && m in l.subjects ==> k.subjects[m] == l.subjects[m]
  {
    forall g | g in k.links ensures g in l.links {
      assert Mentions(events, g);
      var e :| e in events && e.Assign? && e.ids == g;
      assert Remembers(l, e);
    }
    forall m | m in k.ids
      ensures m in l.ids && k.ids[m] == l.ids[m] && k.times[m] == l.times[m] && k.subjects[m] == l.subjects[m]
    {
      assert Arrived(events, m);
      var e :| e in events && e.Assign? && e.msg == m;
      assert Remembers(k, e) && Remembers(l, e);
    }
  }

  lemma KnowledgeEqual(k: Known, l: Known, events: set<Event>)
    requires Knows(k, events) && Knows(l, events)
    ensures k == l
  {
    KnowledgeUnique(k, l, events);
    KnowledgeUnique(l, k, events);
    assert k.ids == l.ids && k.times == l.times && k.subjects == l.subjects;
  }

  lemma SameArrivalsSameKnowledge(a: seq<Event>, b: seq<Event>)
    requires Arrivals(a) && Arrivals(b) && Elements(a) == Elements(b)
    ensures LearnAll(a) == LearnAll(b)
  {
    ArrivalsKnown(a);
    ArrivalsKnown(b);
    KnowledgeEqual(LearnAll(a), LearnAll(b), Elements(a));
  }

  /** Grouping does not depend on the order in which messages arrive, nor on reprocessing. */
  lemma ArrivalOrderIrrelevant(a: seq<Event>, b: seq<Event>, m: MsgId, n: MsgId)
    requires Arrivals(a) && Arrivals(b) && Elements(a) == Elements(b)
    ensures Run(a).msgs.Keys == Run(b).msgs.Keys
    ensures m in Run(a).msgs && n in Run(a).msgs ==>
              (Run(a).msgs[m] == Run(a).msgs[n] <==> Run(b).msgs[m] == Run(b).msgs[n])
  {
    SameArrivalsSameKnowledge(a, b);
    SameKnowledgeSameGroups(a, b, m, n);
  }

  // ----- reprocessing -----

  lemma MergedAgain(s: Store, ids: set<Mid>, t: ThreadId, subject: string, timestamp: int)
    requires Consistent(s) && Touched(s, ids) == {t} && t in s.threads
    requires s.threads[t].subject != "" || subject == ""
    requires timestamp <= s.threads[t].lastActivity
    ensures Merged(s, ids, subject, timestamp) == s.threads[t]
  {
    AscendingUnique([t], {t});
    assert Ascending(Touched(s, ids)) == [t];
    var subjects := Subjects(s.threads, [t]) + [subject];
    assert subjects == [s.threads[t].subject, subject];
    assert subjects[..1] == [s.threads[t].subject];
    assert FirstNonBlank([s.threads[t].subject]) == s.threads[t].subject;
    var activities := Activities(s.threads, [t]) + [timestamp];
    assert activities == [s.threads[t].lastActivity, timestamp];
    assert activities[..1] == [s.threads[t].lastActivity];
    assert Newest(activities) == s.threads[t].lastActivity;
  }

  /** A second assignment into the thread that already holds everything is the identity. */
  lemma AssignFixedPoint(r: Store, msg: MsgId, ids: set<Mid>, t: ThreadId, merged: Thread)
    requires Touched(r, ids) == {t} && Target(r, ids) == t
    requires ids <= r.refs.Keys && msg in r.msgs && r.msgs[msg] == t
    requires t in r.threads && r.threads[t] == merged
    ensures AssignRefs(r, ids) == r.refs && AssignMsgs(r, msg, ids) == r.msgs && AssignThreads(r, ids, merged) == r.threads
  {
    assert forall x :: x in ids ==> r.refs[x] in Touched(r, ids);
  }

  lemma FiledTarget(s: Store, k: Known, m: MsgId)
    requires MessagesFiled(s.refs, s.msgs, k.ids) && m in k.ids && k.ids[m] != {}
    ensures Touched(s, k.ids[m]) == {s.msgs[m]} && Target(s, k.ids[m]) == s.msgs[m]
  {
    var x :| x in k.ids[m];
    assert forall y :: y in k.ids[m] ==> y in s.refs && s.refs[y] == s.msgs[m];
    assert s.msgs[m] in Touched(s, k.ids[m]);
  }

  lemma ReassignKeepsStore(s: Store, k: Known, m: MsgId)
    requires Consistent(s) && MessagesFiled(s.refs, s.msgs, k.ids) && Recent(s.threads, s.msgs, k.times)
    requires Labelled(s.threads, s.msgs, k.subjects) && m in k.ids && k.ids[m] != {}
    ensures m in k.times && m in k.subjects
    ensures AssignStep(s, m, k.ids[m], k.subjects[m], k.times[m]) == s
  {
    var t := s.msgs[m];
    FiledTarget(s, k, m);
    MergedAgain(s, k.ids[m], t, k.subjects[m], k.times[m]);
    AssignFixedPoint(s, m, k.ids[m], t, s.threads[t]);
  }

  /** After any run, processing a message again, with the headers it was last filed with, changes
      nothing in any table exactly when it carries at least one Message-ID; without one, each
      reprocessing opens another thread and abandons the previous one. */
  lemma ReassignIdempotentIff(events: seq<Event>, m: MsgId)
    ensures var s, k := Run(events), LearnAll(events);
            && k.ids.Keys == k.times.Keys == k.subjects.Keys == s.msgs.Keys
            && (m in s.msgs ==> (AssignStep(s, m, k.ids[m], k.subjects[m], k.times[m]) == s <==> k.ids[m] != {}))
  {
    RunRepresents(events);
    var s, k := Run(events), LearnAll(events);
    if m in s.msgs {
      if k.ids[m] != {} {
        ReassignKeepsStore(s, k, m);
      } else {
        assert Touched(s, k.ids[m]) == {};
        assert AssignStep(s, m, k.ids[m], k.subjects[m], k.times[m]).nextId == s.nextId + 1;
      }
    }
  }

  lemma OpensThread(s: Store, m: MsgId, subject: string, timestamp: int)
    requires Consistent(s)
    ensures var r := AssignStep(s, m, {}, subject, timestamp);
            m in r.msgs && r.msgs[m] == s.nextId && r.nextId == s.nextId + 1
  {
    assert Touched(s, {}) == {};
  }

  lemma RunLast(earlier: seq<Event>, last: Event)
    ensures Run(earlier + [last]) == Step(Run(earlier), last)
  {
    assert (earlier + [last])[..|earlier|] == earlier;
  }

  /** A message without Message-ID moves to another thread when it is processed again. */
  lemma AnonymousMoves(events: seq<Event>, m: MsgId, subject: string, timestamp: int)
    ensures var e := Assign(m, {}, subject, timestamp);
            && m in Run(events + [e]).msgs && m in Run(events + [e] + [e]).msgs
            && Run(events + [e]).msgs[m] != Run(events + [e] + [e]).msgs[m]
  {
    var e := Assign(m, {}, subject, timestamp);
    RunLast(events, e);
    RunLast(events + [e], e);
    OpensThread(Run(events), m, subject, timestamp);
    OpensThread(Run(events + [e]), m, subject, timestamp);
  }
}
