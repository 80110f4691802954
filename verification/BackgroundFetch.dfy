/** The interrupt slot of `background_fetch`: at most one fetch is accepted at a time, and
    `stop_background_fetch` can interrupt it.  A fetch learns of an interruption through its
    channel, whose receiver becomes ready when a message arrives or the sender is dropped. */
module BackgroundFetch {
  import opened Collections

  type FetchId = nat

  /** Accepted futures run, emit their event, and last clear the slot: two separate moments. */
  datatype Phase = Rejected | Fetching | Emitted | Finished | Abandoned

  datatype Channel = Channel(senderAlive: bool, message: bool)

  datatype World = World(
    phases: map<FetchId, Phase>,
    channels: map<FetchId, Channel>,
    slot: Option<FetchId>,
    done: seq<FetchId>)

  const IDLE := World(map[], map[], None, [])

  predicate Active(w: World, i: FetchId) {
    i in w.phases && (w.phases[i] == Fetching || w.phases[i] == Emitted)
  }

  predicate Ready(w: World, i: FetchId) {
    i in w.channels && (w.channels[i].message || !w.channels[i].senderAlive)
  }

  datatype Action =
    | Start(id: FetchId)
    | Stop
    | Complete(id: FetchId, interrupted: bool)
    | Clear(id: FetchId)
    | Abandon(id: FetchId)

  /** Dropping the sender in the slot closes its channel. */
  function DropSlot(w: World): World {
    if w.slot.Some? && w.slot.value in w.channels
    then w.(slot := None, channels := w.channels[w.slot.value := w.channels[w.slot.value].(senderAlive := false)])
    else w.(slot := None)
  }

  /** Fetching may end because all accounts are done or time is up; as an interruption only when the
      receiver is ready. */
  predicate Enabled(w: World, a: Action) {
    match a
    case Start(i) => i !in w.phases
    case Stop => true
    case Complete(i, interrupted) => i in w.phases && w.phases[i] == Fetching && (interrupted ==> Ready(w, i))
    case Clear(i) => i in w.phases && w.phases[i] == Emitted
    case Abandon(i) => Active(w, i)
  }

  function Step(w: World, a: Action): World {
    if !Enabled(w, a) then w
    else match a
      case Start(i) =>
        if w.slot.Some? then w.(phases := w.phases[i := Rejected], channels := w.channels[i := Channel(false, false)])
        else w.(phases := w.phases[i := Fetching], channels := w.channels[i := Channel(true, false)], slot := Some(i))
      case Stop =>
        if w.slot.Some? && w.slot.value in w.channels
        then DropSlot(w.(channels := w.channels[w.slot.value := w.channels[w.slot.value].(message := true)]))
        else w.(slot := None)
      case Complete(i, _) => w.(phases := w.phases[i := Emitted], done := w.done + [i])
      case Clear(i) => DropSlot(w.(phases := w.phases[i := Finished]))
      case Abandon(i) => w.(phases := w.phases[i := Abandoned])
  }

  function Run(w: World, actions: seq<Action>): World
    decreases |actions|
  {
    if actions == [] then w else Run(Step(w, actions[0]), actions[1..])
  }

  // ----- what every run keeps -----

  /** The only living sender is the one in the slot. */
  ghost predicate SendersInSlot(w: World) {
    && w.phases.Keys == w.channels.Keys
    && (w.slot.Some? ==> w.slot.value in w.channels && w.phases[w.slot.value] != Rejected)
    && (forall i :: i in w.channels ==> (w.channels[i].senderAlive <==> w.slot == Some(i)))
  }

  /** The event is emitted between fetching and clearing, and never again. */
  ghost predicate DoneOnce(w: World) {
    && (forall i: FetchId :: Count(w.done, i) <= 1)
    && (forall i :: i in w.phases && (w.phases[i] == Emitted || w.phases[i] == Finished) ==> Count(w.done, i) == 1)
    && (forall i: FetchId :: i !in w.phases || w.phases[i] == Rejected || w.phases[i] == Fetching ==> Count(w.done, i) == 0)
  }

  ghost predicate Inv(w: World) {
    SendersInSlot(w) && DoneOnce(w)
  }

  /** The slot belongs to a fetch that will clear it; futures are driven to completion. */
  ghost predicate SlotOwnerActive(w: World) {
    w.slot.Some? ==> Active(w, w.slot.value)
  }

  lemma StepKeepsSenders(w: World, a: Action)
    requires SendersInSlot(w)
    ensures SendersInSlot(Step(w, a))
    ensures SlotOwnerActive(w) && !a.Abandon? ==> SlotOwnerActive(Step(w, a))
  {}

  /** Only completing adds to the events, and it is what moves a fetch from fetching to emitted. */
  lemma PhasesAndEvents(w: World, a: Action, i: FetchId)
    requires Enabled(w, a) && !a.Complete?
    ensures Step(w, a).done == w.done
    ensures i in Step(w, a).phases && (Step(w, a).phases[i] == Emitted || Step(w, a).phases[i] == Finished) ==>
              i in w.phases && (w.phases[i] == Emitted || w.phases[i] == Finished)
    ensures i !in Step(w, a).phases || Step(w, a).phases[i] == Rejected || Step(w, a).phases[i] == Fetching ==>
              i !in w.phases || w.phases[i] == Rejected || w.phases[i] == Fetching
  {}

  lemma StepKeepsDone(w: World, a: Action)
    requires DoneOnce(w)
    ensures DoneOnce(Step(w, a))
  {
    if Enabled(w, a) && a.Complete? {
      forall j: FetchId ensures Count(w.done + [a.id], j) == Count(w.done, j) + if a.id == j then 1 else 0 {
        CountAppend(w.done, a.id, j);
      }
    } else if Enabled(w, a) {
      forall i: FetchId { PhasesAndEvents(w, a, i); }
    }
  }

  lemma StepKeepsInv(w: World, a: Action)
    requires Inv(w)
    ensures Inv(Step(w, a))
    ensures SlotOwnerActive(w) && !a.Abandon? ==> SlotOwnerActive(Step(w, a))
  {
    StepKeepsSenders(w, a);
    StepKeepsDone(w, a);
  }

  ghost predicate NoAbandon(actions: seq<Action>) {
    forall i :: 0 <= i < |actions| ==> !actions[i].Abandon?
  }

  lemma {:induction false} RunKeepsInv(w: World, actions: seq<Action>)
    requires Inv(w)
    ensures Inv(Run(w, actions))
    ensures SlotOwnerActive(w) && NoAbandon(actions) ==> SlotOwnerActive(Run(w, actions))
    decreases |actions|
  {
    if actions != [] {
      StepKeepsInv(w, actions[0]);
      assert NoAbandon(actions) ==> NoAbandon(actions[1..]);
      RunKeepsInv(Step(w, actions[0]), actions[1..]);
    }
  }

  // ----- main results -----

  /** At every moment of every run an active fetch owns the slot or has been told to stop, so at most
      one runs uninterrupted; and the slot, if futures are driven to completion, belongs to one that
      is running. */
  lemma OneUninterrupted(actions: seq<Action>, i: FetchId, j: FetchId)
    requires var w := Run(IDLE, actions); Active(w, i) && Active(w, j)
    ensures var w := Run(IDLE, actions);
            && (w.slot == Some(i) || Ready(w, i))
            && (!Ready(w, i) && !Ready(w, j) ==> i == j)
            && (NoAbandon(actions) && w.slot.Some? ==> Active(w, w.slot.value))
  {
    RunKeepsInv(IDLE, actions);
  }

  /** Every accepted fetch driven to completion announces it exactly once; a rejected one never does. */
  lemma DoneExactlyOnce(actions: seq<Action>, i: FetchId)
    requires i in Run(IDLE, actions).phases
    ensures var w := Run(IDLE, actions);
            && (w.phases[i] == Finished ==> Count(w.done, i) == 1)
            && (w.phases[i] == Rejected || w.phases[i] == Fetching ==> Count(w.done, i) == 0)
            && Count(w.done, i) <= 1
  {
    RunKeepsInv(IDLE, actions);
  }

  /** What makes a fetch that runs undisturbed ready to stop: a stop request, or an earlier fetch
      that had been stopped clearing the slot it no longer owns. */
  lemma BecomesReadyIff(actions: seq<Action>, a: Action, j: FetchId)
    requires var w := Run(IDLE, actions); Active(w, j) && !Ready(w, j) && Active(Step(w, a), j)
    ensures var w := Run(IDLE, actions);
            Ready(Step(w, a), j) <==> a.Stop? || (a.Clear? && a.id in w.phases && w.phases[a.id] == Emitted)
  {
    RunKeepsInv(IDLE, actions);
  }

  ghost predicate NoStop(actions: seq<Action>) {
    forall i :: 0 <= i < |actions| ==> !actions[i].Stop?
  }

  ghost predicate OwnerOnly(w: World) {
    forall i: FetchId :: Active(w, i) ==> w.slot == Some(i) && !Ready(w, i)
  }

  lemma {:induction false} NoStopRun(w: World, actions: seq<Action>)
    requires Inv(w) && OwnerOnly(w) && NoStop(actions)
    ensures OwnerOnly(Run(w, actions))
    decreases |actions|
  {
    if actions != [] {
      var next := Step(w, actions[0]);
      StepKeepsInv(w, actions[0]);
      assert !actions[0].Stop?;
      forall i: FetchId | Active(next, i) ensures next.slot == Some(i) && !Ready(next, i) {
        assert i in w.phases ==> Active(w, i);
      }
      NoStopRun(next, actions[1..]);
    }
  }

  /** While nobody asks to stop, no fetch is ever interrupted and no two run together, even if futures
      are dropped. */
  lemma NoStopNoInterruption(actions: seq<Action>, i: FetchId)
    requires NoStop(actions) && Active(Run(IDLE, actions), i)
    ensures Run(IDLE, actions).slot == Some(i) && !Ready(Run(IDLE, actions), i)
  {
    NoStopRun(IDLE, actions);
  }

  /** A fetch can be interrupted without a stop request since it started: stopping the first and
      starting the second before the first has wound down is enough. */
  lemma InterruptedByPredecessor()
    ensures var before := Run(IDLE, [Start(1), Stop, Start(2)]);
            var after := Run(before, [Complete(1, true), Clear(1)]);
            && Active(before, 2) && !Ready(before, 2)
            && Active(after, 2) && Ready(after, 2)
  {
    var started := Step(IDLE, Start(1));
    assert started.slot == Some(1);
    var stopped := Step(started, Stop);
    assert stopped.slot == None && Ready(stopped, 1);
    var before := Step(stopped, Start(2));
    assert [Start(1), Stop, Start(2)][1..] == [Stop, Start(2)] && [Stop, Start(2)][1..] == [Start(2)];
    assert Run(stopped, [Start(2)]) == Run(before, []);
    var emitted := Step(before, Complete(1, true));
    assert [Complete(1, true), Clear(1)][1..] == [Clear(1)];
    assert Run(emitted, [Clear(1)]) == Run(Step(emitted, Clear(1)), []);
  }

  ghost predicate Blocked(w: World) {
    && w.slot.Some?
    && forall i :: i in w.phases ==> !Active(w, i)
  }

  /** A future dropped before it clears the slot blocks every later fetch until a stop request. */
  lemma {:induction false} AbandonedOwnerBlocks(w: World, actions: seq<Action>)
    requires Blocked(w)
    ensures NoStop(actions) ==> Blocked(Run(w, actions))
    ensures forall i :: i !in w.phases ==> Step(w, Start(i)).phases[i] == Rejected
    ensures forall i :: i !in w.phases ==> Step(Step(w, Stop), Start(i)).phases[i] == Fetching
    decreases |actions|
  {
    if actions != [] && NoStop(actions) {
      var next := Step(w, actions[0]);
      assert !actions[0].Stop?;
      forall i | i in next.phases ensures !Active(next, i) {
        assert i in w.phases ==> !Active(w, i);
      }
      AbandonedOwnerBlocks(next, actions[1..]);
    }
  }

  // ----- the imperative form -----

  class Fetcher {
    var phases: map<FetchId, Phase>
    var channels: map<FetchId, Channel>
    var slot: Option<FetchId>
    var done: seq<FetchId>

    function View(): World
      reads this
    {
      World(phases, channels, slot, done)
    }

    constructor ()
      ensures View() == IDLE
    {
      phases, channels, slot, done := map[], map[], None, [];
    }

    /** Registers the new fetch unless another holds the slot. */
    method BackgroundFetch(id: FetchId) returns (accepted: bool)
      requires id !in phases
      modifies this
      ensures View() == Step(old(View()), Start(id)) && accepted == old(slot).None?
    {
      channels := channels[id := Channel(true, false)];
      if slot.Some? {
        channels := channels[id := Channel(false, false)];
        phases := phases[id := Rejected];
        accepted := false;
      } else {
        slot := Some(id);
        phases := phases[id := Fetching];
        accepted := true;
      }
    }

    /** `*lock = None` */
    method ClearSlot()
      modifies this
      ensures View() == DropSlot(old(View()))
    {
      if slot.Some? && slot.value in channels {
        channels := channels[slot.value := channels[slot.value].(senderAlive := false)];
      }
      slot := None;
    }

    method StopBackgroundFetch()
      modifies this
      ensures View() == Step(old(View()), Stop)
    {
      if slot.Some? && slot.value in channels {
        channels := channels[slot.value := channels[slot.value].(message := true)];
      }
      ClearSlot();
    }

    /** The race between the accounts, the timer and the receiver is over. */
    method EmitDone(id: FetchId, interrupted: bool)
      requires id in phases && phases[id] == Fetching && (interrupted ==> Ready(View(), id))
      modifies this
      ensures View() == Step(old(View()), Complete(id, interrupted))
    {
      done := done + [id];
      phases := phases[id := Emitted];
    }

    method WindDown(id: FetchId)
      requires id in phases && phases[id] == Emitted
      modifies this
      ensures View() == Step(old(View()), Clear(id))
    {
      phases := phases[id := Finished];
      ClearSlot();
    }
  }
}
