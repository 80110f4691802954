/** Automatic relay management: an hourly gate, a weekly back-off per candidate and a target number
    of transports. */
module Relays {
  import opened Collections

  type Host = string

  const TARGET := 3
  const DEBOUNCE := 60 * 60
  const BACKOFF := 60 * 60 * 24 * 7

  datatype Attempt = Attempt(host: Host, at: int, works: bool)

  /** Configuration, transports by host, candidates with `last_tried`; and, for the record, when the
      gate was passed and which candidates were tried. */
  datatype Pool = Pool(
    lastRun: int,
    enabled: bool,
    finished: bool,
    transports: seq<Host>,
    candidates: map<Host, int>,
    passes: seq<int>,
    attempts: seq<Attempt>)

  /** A stored time in the future counts as never. */
  predicate Due(p: Pool, host: Host, now: int) {
    && host in p.candidates
    && (p.candidates[host] < now - BACKOFF || p.candidates[host] > now)
    && host !in p.transports
  }

  predicate GateOpen(p: Pool, now: int) {
    (p.lastRun > now || p.lastRun <= now - DEBOUNCE) && p.enabled && !p.finished
  }

  function Try(p: Pool, now: int, host: Host, works: bool): Pool {
    p.(candidates := p.candidates[host := now],
       transports := if works then p.transports + [host] else p.transports,
       attempts := p.attempts + [Attempt(host, now, works)])
  }

  /** What up to `k` turns of the loop may do: any due candidate may be drawn, it may work or not,
      and a database error may end the run at any time. */
  ghost predicate Turns(p: Pool, now: int, k: nat, r: Pool)
    decreases k
  {
    || r == p
    || (k > 0 && |p.transports| >= TARGET && r == p.(finished := true))
    || (k > 0 && |p.transports| < TARGET &&
        exists host, works :: Due(p, host, now) && Turns(Try(p, now, host, works), now, k - 1, r))
  }

  function Passed(p: Pool, now: int): Pool {
    p.(lastRun := now, passes := p.passes + [now])
  }

  /** One call: nothing behind a closed gate or a held lock. */
  ghost predicate Round(p: Pool, now: int, r: Pool) {
    r == p || (GateOpen(p, now) && Turns(Passed(p, now), now, TARGET, r))
  }

  lemma TurnsStop(p: Pool, now: int, k: nat)
    ensures Turns(p, now, k, p)
    ensures k > 0 && |p.transports| >= TARGET ==> Turns(p, now, k, p.(finished := true))
  {}

  lemma TurnTaken(p: Pool, now: int, k: nat, host: Host, works: bool)
    requires k > 0 && |p.transports| < TARGET && Due(p, host, now)
    ensures forall r :: Turns(Try(p, now, host, works), now, k - 1, r) ==> Turns(p, now, k, r)
  {}

  class RelayManager {
    var lastRun: int
    var enabled: bool
    var finished: bool
    var transports: seq<Host>
    var candidates: map<Host, int>
    ghost var passes: seq<int>
    ghost var attempts: seq<Attempt>

    ghost function View(): Pool
      reads this
    {
      Pool(lastRun, enabled, finished, transports, candidates, passes, attempts)
    }

    constructor (lastRun: int, enabled: bool, transports: seq<Host>, candidates: map<Host, int>)
      ensures View() == Pool(lastRun, enabled, false, transports, candidates, [], [])
    {
      this.lastRun, this.enabled, finished := lastRun, enabled, false;
      this.transports, this.candidates := transports, candidates;
      passes, attempts := [], [];
    }

    method LoadRelayCandidates(now: int) returns (due: set<Host>)
      ensures forall host :: host in due <==> Due(View(), host, now)
      ensures forall host :: host in due <==>
                && host in candidates && host !in transports
                && (candidates[host] + 604800 < now || candidates[host] > now)
    {
      due := set host | host in candidates && (candidates[host] < now - BACKOFF || candidates[host] > now) && host !in transports;
    }

    /** `works[i]` tells whether configuring the i-th host tried succeeds. */
    method MaybeAddAdditionalRelays(now: int, locked: bool, works: seq<bool>) returns (added: bool)
      requires |works| == TARGET
      modifies this
      ensures Round(old(View()), now, View())
      ensures added <==> |transports| > |old(transports)|
      ensures locked || !old(enabled) || old(finished) || old(lastRun) <= now < old(lastRun) + 3600 ==> View() == old(View())
      ensures !locked && old(enabled) && !old(finished) && !(old(lastRun) <= now < old(lastRun) + 3600) ==>
                && lastRun == now && passes == old(passes) + [now]
                && (finished || |attempts| == |old(attempts)| + TARGET || forall host :: !Due(View(), host, now))
    {
      added := false;
      if locked { return; }
      if lastRun <= now && lastRun > now - DEBOUNCE { return; }
      if !enabled { return; }
      if finished { return; }
      lastRun, passes := now, passes + [now];
      ghost var start := View();
      for i := 0 to TARGET
        invariant added <==> |transports| > |old(transports)|
        invariant |transports| >= |old(transports)|
        invariant lastRun == now && passes == old(passes) + [now] && |attempts| == |old(attempts)| + i
        invariant forall r :: Turns(View(), now, TARGET - i, r) ==> Turns(start, now, TARGET, r)
      {
        TurnsStop(View(), now, TARGET - i);
        if |transports| >= TARGET {
          finished := true;
          return;
        }
        var due := LoadRelayCandidates(now);
        if due == {} { return; }
        var host: Host :| host in due;
        ghost var before := View();
        candidates := candidates[host := now];
        attempts := attempts + [Attempt(host, now, works[i])];
        if works[i] {
          transports := transports + [host];
          added := true;
        }
        assert View() == Try(before, now, host, works[i]);
        TurnTaken(before, now, TARGET - i, host, works[i]);
      }
      TurnsStop(View(), now, 0);
    }
  }

  // ----- one run -----

  ghost predicate Tried(attempts: seq<Attempt>, from: nat, host: Host) {
    exists i :: from <= i < |attempts| && attempts[i].host == host
  }

  /** At most `k` attempts, each of a different host that was due when the run began. */
  ghost predicate TriesOk(p: Pool, now: int, k: nat, r: Pool) {
    && p.attempts <= r.attempts && |r.attempts| <= |p.attempts| + k
    && (forall i :: |p.attempts| <= i < |r.attempts| ==> r.attempts[i].at == now && Due(p, r.attempts[i].host, now))
    && (forall i, j :: |p.attempts| <= i < j < |r.attempts| ==> r.attempts[i].host != r.attempts[j].host)
  }

  /** Exactly the candidates tried are stamped. */
  ghost predicate StampsOk(p: Pool, now: int, r: Pool) {
    && r.candidates.Keys == p.candidates.Keys
    && forall h :: h in p.candidates ==>
         r.candidates[h] == if Tried(r.attempts, |p.attempts|, h) then now else p.candidates[h]
  }

  function Worked(attempts: seq<Attempt>): seq<Host> {
    if attempts == [] then []
    else (if attempts[0].works then [attempts[0].host] else []) + Worked(attempts[1..])
  }

  /** Exactly the hosts that worked are added, up to the target; the end is flagged only there. */
  ghost predicate TransportsOk(p: Pool, r: Pool) {
    && |p.attempts| <= |r.attempts|
    && r.transports == p.transports + Worked(r.attempts[|p.attempts|..])
    && |r.transports| <= (if |p.transports| < TARGET then TARGET else |p.transports|)
    && (r.finished ==> p.finished || |r.transports| >= TARGET)
    && (p.finished ==> r.finished)
    && r.passes == p.passes && r.lastRun == p.lastRun && r.enabled == p.enabled
  }

  lemma TriesExtend(p: Pool, now: int, k: nat, host: Host, works: bool, r: Pool)
    requires Due(p, host, now) && TriesOk(Try(p, now, host, works), now, k, r)
    ensures TriesOk(p, now, k + 1, r)
  {
    var q := Try(p, now, host, works);
    assert r.attempts[|p.attempts|] == q.attempts[|p.attempts|] == Attempt(host, now, works);
    forall h | Due(q, h, now) ensures Due(p, h, now) && h != host {}
  }

  lemma StampsExtend(p: Pool, now: int, host: Host, works: bool, r: Pool)
    requires Due(p, host, now) && StampsOk(Try(p, now, host, works), now, r) && Try(p, now, host, works).attempts <= r.attempts
    ensures StampsOk(p, now, r)
  {
    var q := Try(p, now, host, works);
    assert r.attempts[|p.attempts|] == q.attempts[|p.attempts|] == Attempt(host, now, works);
    forall h | h in p.candidates
      ensures r.candidates[h] == if Tried(r.attempts, |p.attempts|, h) then now else p.candidates[h]
    {
      if Tried(r.attempts, |q.attempts|, h) {
        assert Tried(r.attempts, |p.attempts|, h);
      } else if Tried(r.attempts, |p.attempts|, h) {
        var i :| |p.attempts| <= i < |r.attempts| && r.attempts[i].host == h;
        assert i == |p.attempts|;
      }
    }
  }

  lemma TransportsExtend(p: Pool, now: int, host: Host, works: bool, r: Pool)
    requires |p.transports| < TARGET
    requires TransportsOk(Try(p, now, host, works), r) && Try(p, now, host, works).attempts <= r.attempts
    ensures TransportsOk(p, r)
  {
    var q := Try(p, now, host, works);
    var all, later := r.attempts[|p.attempts|..], r.attempts[|q.attempts|..];
    assert r.attempts[|p.attempts|] == q.attempts[|p.attempts|] == Attempt(host, now, works);
    assert all[0] == Attempt(host, now, works) && all[1..] == later;
    Associative(p.transports, if works then [host] else [], Worked(later));
    assert q.transports == p.transports + if works then [host] else [];
  }

  lemma {:induction false} TurnsAreOk(p: Pool, now: int, k: nat, r: Pool)
    requires Turns(p, now, k, r)
    ensures TriesOk(p, now, k, r) && StampsOk(p, now, r) && TransportsOk(p, r)
    decreases k
  {
    if r == p || (k > 0 && |p.transports| >= TARGET && r == p.(finished := true)) {
      assert r.attempts[|p.attempts|..] == [];
    } else {
      var host, works :| Due(p, host, now) && Turns(Try(p, now, host, works), now, k - 1, r);
      TurnsAreOk(Try(p, now, host, works), now, k - 1, r);
      TriesExtend(p, now, k - 1, host, works, r);
      StampsExtend(p, now, host, works, r);
      TransportsExtend(p, now, host, works, r);
    }
  }

  /** One call tries at most three hosts, each once, each due and not in use, adds exactly those that
      worked, and never goes past the target; behind a closed gate it does nothing at all. */
  lemma RoundIsOk(p: Pool, now: int, r: Pool)
    requires Round(p, now, r)
    ensures TriesOk(p, now, 3, r) && StampsOk(p, now, r)
    ensures r.transports == p.transports + Worked(r.attempts[|p.attempts|..])
    ensures |r.transports| <= if |p.transports| < 3 then 3 else |p.transports|
    ensures r.finished && !p.finished ==> |r.transports| >= 3
    ensures !p.enabled || p.finished || p.lastRun <= now < p.lastRun + 3600 ==> r == p
    ensures (r.passes == p.passes && r.lastRun == p.lastRun) || (r.passes == p.passes + [now] && r.lastRun == now)
    ensures |r.attempts| > |p.attempts| ==> !p.finished && r.passes == p.passes + [now]
  {
    if r == p {
      assert r.attempts[|p.attempts|..] == [];
    } else {
      var q := Passed(p, now);
      TurnsAreOk(q, now, TARGET, r);
      assert forall h :: Due(q, h, now) <==> Due(p, h, now);
    }
  }

  // ----- all runs -----

  /** Between calls the user may add or remove transports and switch the feature on or off. */
  ghost predicate UserEdit(p: Pool, r: Pool) {
    r == p.(transports := r.transports, enabled := r.enabled)
  }

  ghost predicate Follows(p: Pool, now: int, r: Pool) {
    Round(p, now, r) || UserEdit(p, r)
  }

  ghost predicate HistoryStep(states: seq<Pool>, clock: seq<int>, i: nat)
    requires i < |clock| < |states|
  {
    Follows(states[i], clock[i], states[i + 1])
  }

  ghost predicate History(states: seq<Pool>, clock: seq<int>) {
    && |states| == |clock| + 1
    && states[0].passes == [] && states[0].attempts == []
    && (forall i, j :: 0 <= i < j < |clock| ==> clock[i] <= clock[j])
    && (forall i: nat :: i < |clock| ==> HistoryStep(states, clock, i))
  }

  ghost predicate PassesSpaced(p: Pool, now: int) {
    && (p.passes != [] ==> p.lastRun == p.passes[|p.passes| - 1] <= now)
    && (forall i, j :: 0 <= i < j < |p.passes| ==> p.passes[i] + 3600 <= p.passes[j])
  }

  ghost predicate AttemptsSpaced(p: Pool, now: int) {
    && (forall i :: 0 <= i < |p.attempts| ==>
          p.attempts[i].host in p.candidates && p.attempts[i].at <= p.candidates[p.attempts[i].host] <= now)
    && (forall i, j :: 0 <= i < j < |p.attempts| && p.attempts[i].host == p.attempts[j].host ==>
          p.attempts[i].at + 604800 < p.attempts[j].at)
  }

  lemma RoundKeepsPasses(p: Pool, before: int, now: int, r: Pool)
    requires PassesSpaced(p, before) && before <= now && Round(p, now, r)
    ensures PassesSpaced(r, now)
  {
    RoundIsOk(p, now, r);
    if r.passes == p.passes + [now] && p.passes != [] {
      assert p.lastRun <= now && p.lastRun <= now - DEBOUNCE by {
        assert GateOpen(p, now) || r.passes == p.passes;
      }
      forall i | 0 <= i < |p.passes| ensures p.passes[i] + DEBOUNCE <= now {
        assert p.passes[i] <= p.passes[|p.passes| - 1];
      }
    }
  }

  lemma RoundKeepsAttempts(p: Pool, before: int, now: int, r: Pool)
    requires AttemptsSpaced(p, before) && before <= now && Round(p, now, r)
    ensures AttemptsSpaced(r, now)
  {
    RoundIsOk(p, now, r);
    var n := |p.attempts|;
    forall i | 0 <= i < |r.attempts|
      ensures r.attempts[i].host in r.candidates && r.attempts[i].at <= r.candidates[r.attempts[i].host] <= now
    {
      if i < n {
        assert r.attempts[i] == p.attempts[i];
      } else {
        assert Due(p, r.attempts[i].host, now);
        assert Tried(r.attempts, n, r.attempts[i].host);
      }
    }
    forall i, j | 0 <= i < j < |r.attempts| && r.attempts[i].host == r.attempts[j].host
      ensures r.attempts[i].at + BACKOFF < r.attempts[j].at
    {
      if j < n {
        assert r.attempts[i] == p.attempts[i] && r.attempts[j] == p.attempts[j];
      } else if i < n {
        assert r.attempts[i] == p.attempts[i];
        assert Due(p, r.attempts[j].host, now);
      }
    }
  }

  lemma HistoryPrefix(states: seq<Pool>, clock: seq<int>, n: nat)
    requires History(states, clock) && n <= |clock|
    ensures History(states[..n + 1], clock[..n])
  {
    var earlier, times := states[..n + 1], clock[..n];
    forall i: nat | i < |times| ensures HistoryStep(earlier, times, i) {
      assert HistoryStep(states, clock, i);
      assert earlier[i] == states[i] && earlier[i + 1] == states[i + 1];
    }
  }

  /** One step of a history; `before` is any time from the last step on. */
  lemma StepSpaced(p: Pool, before: int, now: int, r: Pool)
    requires PassesSpaced(p, before) && AttemptsSpaced(p, before) && before <= now
    requires Follows(p, now, r)
    ensures PassesSpaced(r, now) && AttemptsSpaced(r, now)
  {
    if Round(p, now, r) {
      RoundKeepsPasses(p, before, now, r);
      RoundKeepsAttempts(p, before, now, r);
    }
  }

  /** Before anything happened every time will do. */
  lemma FreshIsSpaced(p: Pool, now: int)
    requires p.passes == [] && p.attempts == []
    ensures PassesSpaced(p, now) && AttemptsSpaced(p, now)
  {}

  /** With a clock that does not run backwards, in every history: the gate is passed at most once an
      hour and no host is tried twice within a week. */
  lemma {:induction false} HistorySpaced(states: seq<Pool>, clock: seq<int>)
    requires History(states, clock)
    ensures var last := states[|states| - 1];
            var now := if clock == [] then 0 else clock[|clock| - 1];
            PassesSpaced(last, now) && AttemptsSpaced(last, now)
    decreases |clock|
  {
    if clock == [] {
      FreshIsSpaced(states[0], 0);
    } else {
      var n := |clock| - 1;
      var p, r := states[n], states[n + 1];
      assert HistoryStep(states, clock, n);
      if n == 0 {
        FreshIsSpaced(p, clock[n]);
        StepSpaced(p, clock[n], clock[n], r);
      } else {
        HistoryPrefix(states, clock, n);
        HistorySpaced(states[..n + 1], clock[..n]);
        StepSpaced(p, clock[n - 1], clock[n], r);
      }
    }
  }

  lemma {:induction false} FinishedForGood(states: seq<Pool>, clock: seq<int>, i: nat, j: nat)
    requires History(states, clock) && i <= j < |states| && states[i].finished
    ensures states[j].finished && states[j].attempts == states[i].attempts
    decreases j - i
  {
    if i < j {
      FinishedForGood(states, clock, i, j - 1);
      var p, r := states[j - 1], states[j];
      assert HistoryStep(states, clock, j - 1);
      if Round(p, clock[j - 1], r) { RoundIsOk(p, clock[j - 1], r); }
    }
  }
}
