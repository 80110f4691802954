/** The account manager's configuration: an in-memory record that is written to `accounts.toml`
    after every change, through a temporary file, a rename and an fsync of the directory.  Writing
    can fail or the machine can stop at any point of it. */
module Accounts {
  import opened Collections
  import opened AccountOrder

  /** `InnerConfig`; `accounts` are the ids in the order they were created. */
  datatype Inner = Inner(selected: AccountId, nextId: AccountId, accounts: seq<AccountId>, order: seq<AccountId>)

  /** How far one `sync` gets.  After the rename the new file is visible, but only the fsync of the
      directory makes it survive a power loss. */
  datatype Fate = Synced | FailedEarly | FailedLate | StoppedEarly | StoppedLate

  /** `loaded` are the accounts with an open context and `returned` the ids handed out so far.  `files`
      are the contents `accounts.toml` may turn out to have after a power loss, oldest first; the last
      is what a reader finds now, and only a complete `sync` leaves a single one. */
  datatype World = World(
    running: bool,
    inner: Inner,
    loaded: set<AccountId>,
    files: seq<Inner>,
    returned: seq<AccountId>)

  function Sync(w: World, fate: Fate): World {
    match fate
    case Synced => w.(files := [w.inner])
    case FailedEarly => w
    case FailedLate => w.(files := w.files + [w.inner])
    case StoppedEarly => w.(running := false)
    case StoppedLate => w.(files := w.files + [w.inner], running := false)
  }

  function AddEntry(c: Inner): Inner {
    Inner(c.selected, c.nextId + 1, c.accounts + [c.nextId], c.order + [c.nextId])
  }

  function RemoveEntry(c: Inner, id: AccountId): Inner {
    var accounts := Without(c.accounts, id); // ids are distinct, so this drops the one entry
    Inner(if c.selected != id then c.selected else if accounts == [] then 0 else accounts[0],
          c.nextId, accounts, Without(c.order, id))
  }

  /** Two syncs, then the context is opened; the id is returned only if all of it worked. */
  function AddAccount(w: World, first: Fate, second: Fate, opens: bool): World {
    var id := w.inner.nextId;
    var added := Sync(w.(inner := AddEntry(w.inner)), first);
    if first != Synced then added
    else
      var chosen := Sync(added.(inner := added.inner.(selected := id)), second);
      if second != Synced || !opens then chosen
      else chosen.(loaded := chosen.loaded + {id}, returned := chosen.returned + [id])
  }

  /** The context is closed and the files are removed before the configuration forgets the account. */
  function RemoveAccount(w: World, id: AccountId, erased: bool, fate: Fate): World {
    if id !in w.loaded then w
    else
      var closed := w.(loaded := w.loaded - {id});
      if !erased then closed else Sync(closed.(inner := RemoveEntry(closed.inner, id)), fate)
  }

  function SelectAccount(w: World, id: AccountId, fate: Fate): World {
    if id in w.inner.accounts then Sync(w.(inner := w.inner.(selected := id)), fate) else w
  }

  function SetOrder(w: World, order: seq<AccountId>, fate: Fate): World {
    Sync(w.(inner := w.inner.(order := NewOrder(order, w.loaded))), fate)
  }

  const EMPTY_CONFIG := Inner(0, 1, [], [])

  /** A directory without configuration: an empty one is written. */
  const NEW_WORLD := World(true, EMPTY_CONFIG, {}, [EMPTY_CONFIG], [])

  /** The file found when starting again after the process ended, or after a power loss that left the
      file at `survivor`. */
  function Found(files: seq<Inner>, survivor: Option<nat>): Inner
    requires files != []
  {
    if survivor.Some? && survivor.value < |files| then files[survivor.value] else files[|files| - 1]
  }

  function Restarted(w: World, file: Inner): World {
    w.(running := true, inner := file, loaded := (set x | x in file.accounts))
  }

  /** What a power loss leaves is on disk for good. */
  function Reopen(w: World, survivor: Option<nat>): World
    requires w.files != []
  {
    var file := Found(w.files, survivor);
    Restarted(if survivor.Some? && survivor.value < |w.files| then w.(files := [file]) else w, file)
  }

  datatype Action =
    | Add(first: Fate, second: Fate, opens: bool)
    | Remove(id: AccountId, erased: bool, fate: Fate)
    | Select(id: AccountId, fate: Fate)
    | Order(order: seq<AccountId>, fate: Fate)
    | Restart(survivor: Option<nat>)

  function Step(w: World, a: Action): (r: World)
    requires w.files != []
    ensures r.files != []
  {
    if a.Restart? then Reopen(w, a.survivor)
    else if !w.running then w
    else match a
      case Add(first, second, opens) => AddAccount(w, first, second, opens)
      case Remove(id, erased, fate) => RemoveAccount(w, id, erased, fate)
      case Select(id, fate) => SelectAccount(w, id, fate)
      case Order(order, fate) => SetOrder(w, order, fate)
  }

  function Run(w: World, actions: seq<Action>): (r: World)
    requires w.files != []
    ensures r.files != []
    decreases |actions|
  {
    if actions == [] then w else Run(Step(w, actions[0]), actions[1..])
  }

  // ----- what memory and disk keep -----

  /** Distinct ids below the counter, a selection among them, an order of ids handed out. */
  ghost predicate Good(c: Inner) {
    && NoDuplicates(c.accounts)
    && (forall i :: 0 <= i < |c.accounts| ==> 1 <= c.accounts[i] < c.nextId)
    && (forall i :: 0 <= i < |c.order| ==> c.order[i] < c.nextId)
    && (c.selected == 0 || c.selected in c.accounts)
  }

  /** Every file that may be found is sound, later ones having counted further, and the ids returned
      are below all of their counters. */
  ghost predicate GoodFiles(files: seq<Inner>, returned: seq<AccountId>) {
    && files != []
    && (forall i :: 0 <= i < |files| ==> Good(files[i]) && 1 <= files[i].nextId)
    && (forall i, j :: 0 <= i < j < |files| ==> files[i].nextId <= files[j].nextId)
    && StrictlyAscending(returned)
    && (forall i :: 0 <= i < |returned| ==> returned[i] < files[0].nextId)
  }

  ghost predicate Inv(w: World) {
    && Good(w.inner) && GoodFiles(w.files, w.returned)
    && (w.running ==> w.files[|w.files| - 1].nextId <= w.inner.nextId)
    && (forall x :: x in w.loaded ==> x in w.inner.accounts)
  }

  lemma GoodAdd(c: Inner)
    requires Good(c) && 1 <= c.nextId
    ensures Good(AddEntry(c)) && Good(AddEntry(c).(selected := c.nextId))
  {
    var a := AddEntry(c).accounts;
    assert c.selected in c.accounts ==> c.selected in a;
    assert a[|a| - 1] == c.nextId;
  }

  lemma {:induction false} WithoutDistinct(s: seq<AccountId>, id: AccountId)
    requires NoDuplicates(s)
    ensures NoDuplicates(Without(s, id))
  {
    if s != [] {
      var n := |s| - 1;
      WithoutDistinct(s[..n], id);
      var w := Without(s[..n], id);
      forall i | 0 <= i < |w| ensures w[i] != s[n] {
        assert w[i] in w;
      }
    }
  }

  lemma GoodRemove(c: Inner, id: AccountId)
    requires Good(c)
    ensures Good(RemoveEntry(c, id))
  {
    var r := RemoveEntry(c, id);
    WithoutDistinct(c.accounts, id);
    forall i | 0 <= i < |r.accounts| ensures 1 <= r.accounts[i] < r.nextId {
      assert r.accounts[i] in r.accounts;
      assert r.accounts[i] in c.accounts;
    }
    forall i | 0 <= i < |r.order| ensures r.order[i] < r.nextId {
      assert r.order[i] in r.order;
      assert r.order[i] in c.order;
    }
  }

  lemma GoodOrder(c: Inner, order: seq<AccountId>, keys: set<AccountId>)
    requires Good(c) && forall x :: x in keys ==> x in c.accounts
    ensures Good(c.(order := NewOrder(order, keys)))
  {
    var r := NewOrder(order, keys);
    forall i | 0 <= i < |r| ensures r[i] < c.nextId {
      assert r[i] in r;
      InExisting(order, keys, r[i]);
      assert r[i] in keys;
    }
  }

  lemma SyncKeepsInv(w: World, fate: Fate)
    requires Inv(w) && w.running
    ensures Inv(Sync(w, fate))
  {
    assert w.files[0].nextId <= w.files[|w.files| - 1].nextId;
  }

  lemma ReplaceKeepsInv(w: World, inner: Inner, loaded: set<AccountId>)
    requires Inv(w) && w.running && Good(inner) && inner.nextId >= w.inner.nextId
    requires forall x :: x in loaded ==> x in inner.accounts
    ensures Inv(w.(inner := inner, loaded := loaded))
  {}

  lemma ReturnKeepsInv(w: World, id: AccountId)
    requires Inv(w) && w.running && id in w.inner.accounts && id < w.files[0].nextId
    requires forall i :: 0 <= i < |w.returned| ==> w.returned[i] < id
    ensures Inv(w.(loaded := w.loaded + {id}, returned := w.returned + [id]))
  {}

  lemma AddKeepsInv(w: World, first: Fate, second: Fate, opens: bool)
    requires Inv(w) && w.running
    ensures Inv(AddAccount(w, first, second, opens))
  {
    var id, entry := w.inner.nextId, AddEntry(w.inner);
    GoodAdd(w.inner);
    ReplaceKeepsInv(w, entry, w.loaded);
    SyncKeepsInv(w.(inner := entry), first);
    if first == Synced {
      var added := Sync(w.(inner := entry), first);
      ReplaceKeepsInv(added, entry.(selected := id), added.loaded);
      SyncKeepsInv(added.(inner := entry.(selected := id)), second);
      if second == Synced {
        assert entry.accounts[|entry.accounts| - 1] == id;
        ReturnKeepsInv(Sync(added.(inner := entry.(selected := id)), second), id);
      }
    }
  }

  lemma RemoveKeepsInv(w: World, id: AccountId, erased: bool, fate: Fate)
    requires Inv(w) && w.running
    ensures Inv(RemoveAccount(w, id, erased, fate))
  {
    GoodRemove(w.inner, id);
    if id in w.loaded && erased {
      var removed := w.(loaded := w.loaded - {id}, inner := RemoveEntry(w.inner, id));
      SyncKeepsInv(removed, fate);
    }
  }

  lemma StepKeepsInv(w: World, a: Action)
    requires Inv(w)
    ensures Inv(Step(w, a))
  {
    if w.running {
      match a
      case Add(first, second, opens) => AddKeepsInv(w, first, second, opens);
      case Remove(id, erased, fate) => RemoveKeepsInv(w, id, erased, fate);
      case Select(id, fate) =>
        if id in w.inner.accounts {
          ReplaceKeepsInv(w, w.inner.(selected := id), w.loaded);
          SyncKeepsInv(w.(inner := w.inner.(selected := id)), fate);
        }
      case Order(order, fate) =>
        GoodOrder(w.inner, order, w.loaded);
        ReplaceKeepsInv(w, w.inner.(order := NewOrder(order, w.loaded)), w.loaded);
        SyncKeepsInv(w.(inner := w.inner.(order := NewOrder(order, w.loaded))), fate);
      case Restart(_) =>
    }
  }

  /** From any sound start, whatever fails or stops: memory and both states of the disk stay sound,
      and the ids returned so far strictly increase, so that none is ever returned twice. */
  lemma {:induction false} EveryRunSound(w: World, actions: seq<Action>)
    requires Inv(w)
    ensures Inv(Run(w, actions))
    decreases |actions|
  {
    if actions != [] {
      StepKeepsInv(w, actions[0]);
      EveryRunSound(Step(w, actions[0]), actions[1..]);
    }
  }

  lemma StepReturns(w: World, a: Action)
    requires w.files != []
    ensures w.returned <= Step(w, a).returned
  {}

  /** Ids returned earlier stay recorded as returned: later ones are larger. */
  lemma {:induction false} ReturnedOnlyGrows(w: World, actions: seq<Action>)
    requires w.files != []
    ensures w.returned <= Run(w, actions).returned
    decreases |actions|
  {
    if actions != [] {
      StepReturns(w, actions[0]);
      ReturnedOnlyGrows(Step(w, actions[0]), actions[1..]);
    }
  }

  // ----- durability -----

  /** Wherever the manager looks, now or after any stop, it finds the account. */
  ghost predicate Holds(w: World, id: AccountId) {
    (forall i :: 0 <= i < |w.files| ==> id in w.files[i].accounts) && (w.running ==> id in w.inner.accounts)
  }

  ghost predicate NeverRemoved(actions: seq<Action>, id: AccountId) {
    forall i :: 0 <= i < |actions| ==> actions[i].Remove? ==> actions[i].id != id
  }

  /** Writing a configuration that lists the account keeps it findable. */
  lemma WriteHolds(w: World, inner: Inner, fate: Fate, id: AccountId)
    requires Holds(w, id) && id in inner.accounts
    ensures Holds(Sync(w.(inner := inner), fate), id)
  {}

  lemma AddHolds(w: World, first: Fate, second: Fate, opens: bool, id: AccountId)
    requires Holds(w, id) && w.running
    ensures Holds(AddAccount(w, first, second, opens), id)
  {
    var entry := AddEntry(w.inner);
    assert id in entry.accounts;
    WriteHolds(w, entry, first, id);
    if first == Synced {
      WriteHolds(Sync(w.(inner := entry), first), entry.(selected := w.inner.nextId), second, id);
    }
  }

  lemma StepHolds(w: World, a: Action, id: AccountId)
    requires w.files != [] && Holds(w, id) && (a.Remove? ==> a.id != id)
    ensures Holds(Step(w, a), id)
  {
    if w.running {
      match a
      case Add(first, second, opens) => AddHolds(w, first, second, opens, id);
      case Remove(other, _, fate) => WriteHolds(w.(loaded := w.loaded - {other}), RemoveEntry(w.inner, other), fate, id);
      case Select(other, fate) => WriteHolds(w, w.inner.(selected := other), fate, id);
      case Order(order, fate) => WriteHolds(w, w.inner.(order := NewOrder(order, w.loaded)), fate, id);
      case Restart(_) =>
    }
  }

  lemma {:induction false} RunHolds(w: World, actions: seq<Action>, id: AccountId)
    requires w.files != [] && Holds(w, id) && NeverRemoved(actions, id)
    ensures Holds(Run(w, actions), id)
    decreases |actions|
  {
    if actions != [] {
      StepHolds(w, actions[0], id);
      RunHolds(Step(w, actions[0]), actions[1..], id);
    }
  }

  /** An account that was reported as added is found again after any run that does not remove it and
      any stop, power loss included. */
  lemma AddedIsDurable(w: World, actions: seq<Action>, survivor: Option<nat>)
    requires Inv(w) && w.running && NeverRemoved(actions, w.inner.nextId)
    ensures var id := w.inner.nextId;
            var after := Reopen(Run(AddAccount(w, Synced, Synced, true), actions), survivor);
            && id in after.loaded && id in after.inner.accounts
            && (actions == [] ==> after.inner.selected == id)
  {
    var id, accounts := w.inner.nextId, AddEntry(w.inner).accounts;
    assert accounts[|accounts| - 1] == id;
    RunHolds(AddAccount(w, Synced, Synced, true), actions, id);
  }

  /** The account is nowhere, and its id will not be handed out again. */
  ghost predicate Gone(w: World, id: AccountId) {
    && id !in w.inner.accounts && w.files != [] && id < w.files[0].nextId
    && forall i :: 0 <= i < |w.files| ==> id !in w.files[i].accounts
  }

  /** Changing the configuration in memory and writing it does not bring the account back. */
  lemma WriteStaysGone(w: World, inner: Inner, fate: Fate, id: AccountId)
    requires Gone(w, id) && id !in inner.accounts && w.files[0].nextId <= inner.nextId
    ensures Gone(Sync(w.(inner := inner), fate), id)
  {}

  lemma AddStaysGone(w: World, first: Fate, second: Fate, opens: bool, id: AccountId)
    requires Inv(w) && w.running && Gone(w, id)
    ensures Gone(AddAccount(w, first, second, opens), id)
  {
    var entry := AddEntry(w.inner);
    assert id !in entry.accounts;
    WriteStaysGone(w, entry, first, id);
    if first == Synced {
      WriteStaysGone(Sync(w.(inner := entry), first), entry.(selected := w.inner.nextId), second, id);
    }
  }

  lemma StepStaysGone(w: World, a: Action, id: AccountId)
    requires Inv(w) && Gone(w, id)
    ensures Gone(Step(w, a), id)
  {
    if w.running {
      match a
      case Add(first, second, opens) => AddStaysGone(w, first, second, opens, id);
      case Remove(other, _, fate) => WriteStaysGone(w.(loaded := w.loaded - {other}), RemoveEntry(w.inner, other), fate, id);
      case Select(other, fate) => WriteStaysGone(w, w.inner.(selected := other), fate, id);
      case Order(order, fate) => WriteStaysGone(w, w.inner.(order := NewOrder(order, w.loaded)), fate, id);
      case Restart(_) =>
    }
  }

  lemma {:induction false} RunStaysGone(w: World, actions: seq<Action>, id: AccountId)
    requires Inv(w) && Gone(w, id)
    ensures Gone(Run(w, actions), id)
    decreases |actions|
  {
    if actions != [] {
      StepStaysGone(w, actions[0], id);
      StepKeepsInv(w, actions[0]);
      RunStaysGone(Step(w, actions[0]), actions[1..], id);
    }
  }

  /** An account that was reported as removed never comes back, whatever happens later. */
  lemma RemovedForGood(w: World, id: AccountId, actions: seq<Action>)
    requires Inv(w) && w.running && id in w.loaded
    ensures var after := Run(RemoveAccount(w, id, true, Synced), actions);
            && id !in after.inner.accounts && id !in after.loaded
            && forall i :: 0 <= i < |after.files| ==> id !in after.files[i].accounts
  {
    var removed := RemoveAccount(w, id, true, Synced);
    RemoveKeepsInv(w, id, true, Synced);
    RunStaysGone(removed, actions, id);
    EveryRunSound(removed, actions);
  }

  // ----- what each operation does to the configuration -----

  /** `id` is the account of the list that comes first. */
  ghost predicate FirstOf(accounts: seq<AccountId>, without: AccountId, id: AccountId) {
    exists k :: 0 <= k < |accounts| && accounts[k] == id != without && forall j :: 0 <= j < k ==> accounts[j] == without
  }

  lemma {:induction false} FirstWithout(accounts: seq<AccountId>, id: AccountId)
    requires Without(accounts, id) != []
    ensures FirstOf(accounts, id, Without(accounts, id)[0])
  {
    var n := |accounts| - 1;
    if Without(accounts[..n], id) != [] {
      FirstWithout(accounts[..n], id);
      var k :| 0 <= k < n && accounts[..n][k] == Without(accounts[..n], id)[0] != id
               && forall j :: 0 <= j < k ==> accounts[..n][j] == id;
      assert accounts[k] == accounts[..n][k] && forall j :: 0 <= j < k ==> accounts[j] == accounts[..n][j];
    } else {
      forall j | 0 <= j < n ensures accounts[j] == id {
        assert accounts[..n][j] in accounts[..n];
      }
      assert accounts[n] != id;
    }
  }

  /** Removing an account forgets it and nothing else; the selection moves only if it was selected, to
      the account created first of those left, or to none. */
  lemma RemovalForgetsOne(w: World, id: AccountId, fate: Fate)
    requires w.running && id in w.loaded
    ensures var c, after := w.inner, RemoveAccount(w, id, true, fate);
            && after.loaded == w.loaded - {id} && after.inner.nextId == c.nextId
            && (forall x: nat :: x in after.inner.accounts <==> x in c.accounts && x != id)
            && (forall x: nat :: x in after.inner.order <==> x in c.order && x != id)
            && (if c.selected != id then after.inner.selected == c.selected
                else if after.inner.accounts == [] then after.inner.selected == 0
                else FirstOf(c.accounts, id, after.inner.selected))
            && (fate == Synced ==> after.files == [after.inner])
  {
    if Without(w.inner.accounts, id) != [] {
      FirstWithout(w.inner.accounts, id);
    }
  }

  /** An account whose files could not be erased is closed, but remembered. */
  lemma FailedRemovalRemembers(w: World, id: AccountId, fate: Fate)
    ensures RemoveAccount(w, id, false, fate) == w.(loaded := w.loaded - {id})
  {}

  /** An account that is not open is not removed. */
  lemma ClosedNotRemoved(w: World, id: AccountId, erased: bool, fate: Fate)
    requires id !in w.loaded
    ensures RemoveAccount(w, id, erased, fate) == w
  {}

  /** An id is returned, and its account open, exactly if both writes complete and it can be opened. */
  lemma ReturnedIff(w: World, first: Fate, second: Fate, opens: bool)
    requires Inv(w) && w.running
    ensures var after, id, all := AddAccount(w, first, second, opens), w.inner.nextId, first == second == Synced && opens;
            && after.returned == (if all then w.returned + [id] else w.returned)
            && after.loaded == (if all then w.loaded + {id} else w.loaded)
            && id !in w.loaded
  {}

  /** After a stop nothing happens until the manager is started again. */
  lemma StoppedWaits(w: World, fate: Fate, a: Action)
    requires w.files != [] && (fate == StoppedEarly || fate == StoppedLate) && !a.Restart?
    ensures Sync(w, fate).files != [] && Step(Sync(w, fate), a) == Sync(w, fate)
  {}

  /** Starting again finds the last file written, and leaves open which file a power loss would leave;
      after a power loss there is only the one found. */
  lemma RestartFinds(w: World, i: nat)
    requires w.files != []
    ensures Reopen(w, None).files == w.files && Reopen(w, None).inner == w.files[|w.files| - 1]
    ensures i < |w.files| ==> Reopen(w, Some(i)).files == [w.files[i]] && Reopen(w, Some(i)).inner == w.files[i]
    ensures i >= |w.files| ==> Reopen(w, Some(i)) == Reopen(w, None)
    ensures Reopen(w, None).running && Reopen(w, None).returned == w.returned
    ensures forall x: nat :: x in Reopen(w, Some(i)).loaded <==> x in Reopen(w, Some(i)).inner.accounts
  {}

  /** An account that was added is the last of the list, selected, open, and alone new. */
  lemma AdditionAppends(w: World, survivor: Option<nat>)
    requires w.running && w.files != []
    ensures var after, id := AddAccount(w, Synced, Synced, true), w.inner.nextId;
            && after.inner == Inner(id, id + 1, w.inner.accounts + [id], w.inner.order + [id])
            && after.loaded == w.loaded + {id} && after.returned == w.returned + [id]
            && Reopen(after, survivor).inner == after.inner
  {}

  /** In memory and in every file that may be found, accounts are listed in the order of their ids. */
  ghost predicate ListedById(w: World) {
    StrictlyAscending(w.inner.accounts) && forall i :: 0 <= i < |w.files| ==> StrictlyAscending(w.files[i].accounts)
  }

  lemma WriteListed(w: World, inner: Inner, fate: Fate)
    requires ListedById(w) && StrictlyAscending(inner.accounts)
    ensures ListedById(Sync(w.(inner := inner), fate))
  {}

  lemma AddListed(w: World, first: Fate, second: Fate, opens: bool)
    requires Inv(w) && w.running && ListedById(w)
    ensures ListedById(AddAccount(w, first, second, opens))
  {
    var entry := AddEntry(w.inner);
    WriteListed(w, entry, first);
    if first == Synced {
      WriteListed(Sync(w.(inner := entry), first), entry.(selected := w.inner.nextId), second);
    }
  }

  lemma StepListed(w: World, a: Action)
    requires Inv(w) && ListedById(w)
    ensures ListedById(Step(w, a))
  {
    if w.running {
      match a
      case Add(first, second, opens) => AddListed(w, first, second, opens);
      case Remove(id, _, fate) =>
        WithoutAscends(w.inner.accounts, id);
        WriteListed(w.(loaded := w.loaded - {id}), RemoveEntry(w.inner, id), fate);
      case Select(id, fate) => WriteListed(w, w.inner.(selected := id), fate);
      case Order(order, fate) => WriteListed(w, w.inner.(order := NewOrder(order, w.loaded)), fate);
      case Restart(_) =>
    }
  }

  /** In every run accounts stay listed in the order of their ids, which is that of their creation. */
  lemma {:induction false} RunListed(w: World, actions: seq<Action>)
    requires Inv(w) && ListedById(w)
    ensures ListedById(Run(w, actions))
    decreases |actions|
  {
    if actions != [] {
      StepListed(w, actions[0]);
      StepKeepsInv(w, actions[0]);
      RunListed(Step(w, actions[0]), actions[1..]);
    }
  }

  /** After any run from a new configuration, removing the selected account selects the oldest one left. */
  lemma RemovalSelectsOldest(actions: seq<Action>, id: AccountId, fate: Fate)
    requires var w := Run(NEW_WORLD, actions); w.running && id in w.loaded && w.inner.selected == id
    ensures var after := RemoveAccount(Run(NEW_WORLD, actions), id, true, fate);
            if after.inner.accounts == [] then after.inner.selected == 0
            else after.inner.selected in after.inner.accounts && forall x: nat :: x in after.inner.accounts ==> after.inner.selected <= x
  {
    var w := Run(NEW_WORLD, actions);
    RunListed(NEW_WORLD, actions);
    WithoutAscends(w.inner.accounts, id);
  }

  /** A selection is what is selected, also after starting again, and changes nothing else. */
  lemma SelectionIsKept(w: World, id: AccountId, survivor: Option<nat>)
    requires w.running && w.files != [] && id in w.inner.accounts
    ensures var after := SelectAccount(w, id, Synced);
            && after.inner.selected == id && after.inner.accounts == w.inner.accounts && after.inner.order == w.inner.order
            && after.inner.nextId == w.inner.nextId && Reopen(after, survivor).inner == after.inner
  {}

  /** A new order is what is displayed: its first mentions, then the rest. */
  lemma OrderIsShown(w: World, order: seq<AccountId>, fate: Fate)
    ensures var after := SetOrder(w, order, fate); AllIds(after.inner.order, after.loaded) == AllIds(order, w.loaded)
  {
    var after := SetOrder(w, order, fate);
    assert after.inner.order == NewOrder(order, w.loaded) && after.loaded == w.loaded;
    SetThenGet(order, w.loaded);
  }

  /** Setting an order changes nothing else, and it is found on starting again. */
  lemma OrderIsKept(w: World, order: seq<AccountId>, survivor: Option<nat>)
    requires w.running && w.files != []
    ensures var after := SetOrder(w, order, Synced);
            && after.inner == w.inner.(order := after.inner.order) && Reopen(after, survivor).inner == after.inner
  {}

  /** One step changes what is selected only by adding, by selecting, by removing the selected account,
      or by starting again. */
  ghost predicate MaySelect(a: Action, selected: AccountId) {
    a.Add? || a.Select? || a.Restart? || (a.Remove? && a.id == selected)
  }

  lemma {:induction false} SelectionStays(w: World, actions: seq<Action>)
    requires w.files != [] && forall i :: 0 <= i < |actions| ==> !MaySelect(actions[i], w.inner.selected)
    ensures Run(w, actions).inner.selected == w.inner.selected
    decreases |actions|
  {
    if actions != [] {
      assert !MaySelect(actions[0], w.inner.selected);
      StepSelects(w, actions[0]);
      SelectionStays(Step(w, actions[0]), actions[1..]);
    }
  }

  lemma StepSelects(w: World, a: Action)
    requires w.files != [] && !MaySelect(a, w.inner.selected)
    ensures Step(w, a).inner.selected == w.inner.selected
  {}

  // ----- a selection whenever there are accounts -----

  predicate Picks(c: Inner) {
    c.selected == 0 ==> c.accounts == []
  }

  /** In memory and in every file that may be found, an account is selected if there is one. */
  ghost predicate AllPick(w: World) {
    Picks(w.inner) && forall i :: 0 <= i < |w.files| ==> Picks(w.files[i])
  }

  lemma WritePicks(w: World, inner: Inner, fate: Fate)
    requires AllPick(w) && Picks(inner)
    ensures AllPick(Sync(w.(inner := inner), fate))
  {}

  lemma RemoveEntryPicks(c: Inner, id: AccountId)
    requires Good(c) && Picks(c)
    ensures Picks(RemoveEntry(c, id))
  {
    var accounts := RemoveEntry(c, id).accounts;
    if accounts != [] {
      assert accounts[0] in accounts;
      var i :| 0 <= i < |c.accounts| && c.accounts[i] == accounts[0];
    }
  }

  /** Every operation but an addition keeps a selection whenever there are accounts. */
  lemma StepPicks(w: World, a: Action)
    requires Inv(w) && AllPick(w) && !a.Add?
    ensures AllPick(Step(w, a))
  {
    if w.running {
      match a
      case Remove(id, _, fate) =>
        RemoveEntryPicks(w.inner, id);
        WritePicks(w.(loaded := w.loaded - {id}), RemoveEntry(w.inner, id), fate);
      case Select(id, fate) =>
        if id in w.inner.accounts { WritePicks(w, w.inner.(selected := id), fate); }
      case Order(order, fate) => WritePicks(w, w.inner.(order := NewOrder(order, w.loaded)), fate);
      case Restart(_) =>
    }
  }

  /** An addition keeps it exactly if both its writes complete or something was selected before. */
  lemma AddPicksIff(w: World, first: Fate, second: Fate, opens: bool)
    requires Inv(w) && AllPick(w) && w.running
    ensures AllPick(AddAccount(w, first, second, opens)) <==> (first == second == Synced) || w.inner.selected != 0
  {
    var after, entry := AddAccount(w, first, second, opens), AddEntry(w.inner);
    if first != Synced {
      if Picks(entry) { WritePicks(w, entry, first); }
    } else if second != Synced {
      assert after.files[0] == entry;
    }
  }

  predicate Late(fate: Fate) {
    fate == FailedLate || fate == StoppedLate
  }

  /** For any state before the addition and any way its two writes end: when exactly there are accounts
      and none selected, in memory and in the file found on starting again. */
  lemma NothingSelectedIff(w: World, first: Fate, second: Fate, opens: bool, survivor: Option<nat>)
    requires Inv(w) && w.running
    ensures !Picks(AddAccount(w, first, second, opens).inner) <==> first != Synced && w.inner.selected == 0
    ensures !Picks(Reopen(AddAccount(w, first, second, opens), survivor).inner) <==>
              if first == Synced then
                second != Synced && w.inner.selected == 0 && (Late(second) ==> survivor == Some(0))
              else if Late(first) && !(survivor.Some? && survivor.value < |w.files|) then w.inner.selected == 0
              else !Picks(Found(w.files, survivor))
  {
    var after, entry := AddAccount(w, first, second, opens), AddEntry(w.inner);
    if first == Synced && Late(second) {
      assert after.files == [entry, entry.(selected := w.inner.nextId)];
    }
  }

  /** No addition made while nothing is selected is cut short. */
  ghost predicate FirstAddsComplete(w: World, actions: seq<Action>)
    requires w.files != []
    decreases |actions|
  {
    actions != [] ==>
      && (actions[0].Add? && w.running && w.inner.selected == 0 ==> actions[0].first == actions[0].second == Synced)
      && FirstAddsComplete(Step(w, actions[0]), actions[1..])
  }

  /** Then in every run there is a selection whenever there are accounts, wherever one looks. */
  lemma {:induction false} RunPicks(w: World, actions: seq<Action>)
    requires Inv(w) && AllPick(w) && FirstAddsComplete(w, actions)
    ensures AllPick(Run(w, actions))
    decreases |actions|
  {
    if actions != [] {
      var a := actions[0];
      StepKeepsInv(w, a);
      if !a.Add? {
        StepPicks(w, a);
      } else if w.running {
        AddPicksIff(w, a.first, a.second, a.opens);
      }
      RunPicks(Step(w, a), actions[1..]);
    }
  }

  /** Three ways to have accounts and none selected: in memory after a first write that failed, and
      after a restart or a power loss between the two writes. */
  lemma NothingSelectedRuns()
    ensures var memory := Run(NEW_WORLD, [Add(FailedEarly, Synced, true)]);
            memory.running && !Picks(memory.inner)
    ensures !Picks(Run(NEW_WORLD, [Add(Synced, StoppedEarly, true), Restart(None)]).inner)
    ensures !Picks(Run(NEW_WORLD, [Add(Synced, StoppedLate, true), Restart(Some(0))]).inner)
  {
    var early, late := Add(Synced, StoppedEarly, true), Add(Synced, StoppedLate, true);
    RunOne(NEW_WORLD, Add(FailedEarly, Synced, true));
    RunTwo(NEW_WORLD, early, Restart(None));
    RunTwo(NEW_WORLD, late, Restart(Some(0)));
    assert Step(NEW_WORLD, early).files == [AddEntry(EMPTY_CONFIG)];
    assert Step(NEW_WORLD, late).files[0] == AddEntry(EMPTY_CONFIG);
  }

  lemma RunOne(w: World, a: Action)
    requires w.files != []
    ensures Run(w, [a]) == Step(w, a)
  {
    assert Run(Step(w, a), []) == Step(w, a);
  }

  lemma RunTwo(w: World, a: Action, b: Action)
    requires w.files != []
    ensures Run(w, [a, b]) == Step(Step(w, a), b)
  {
    assert [a, b][1..] == [b];
    RunOne(Step(w, a), b);
  }

  // ----- where a new account is displayed -----

  /** The displayed order after a successful addition is the one before it and the new account. */
  ghost predicate AddsLast(w: World) {
    var after := AddAccount(w, Synced, Synced, true);
    AllIds(after.inner.order, after.loaded) == AllIds(w.inner.order, w.loaded) + [w.inner.nextId]
  }

  lemma AddedAccountLastIff(w: World)
    requires Inv(w) && w.running
    ensures AddsLast(w) <==> Unlisted(w.inner.order, w.loaded) == {}
  {
    var id := w.inner.nextId;
    assert id !in w.loaded && id !in w.inner.order;
    AdditionGoesLastIff(w.inner.order, w.loaded, id);
  }

  /** An account that could not be erased is closed but remembered, and an order set meanwhile does
      not list it. */
  const LOSING_TRACK := [
    Add(Synced, Synced, true), Add(Synced, Synced, true), Remove(1, false, Synced), Order([2], Synced), Restart(None)]

  lemma UnlistedRun()
    ensures var w := Run(NEW_WORLD, LOSING_TRACK); w.running && 1 in w.loaded && 1 !in w.inner.order
  {
    var add, remove, order := Add(Synced, Synced, true), Remove(1, false, Synced), Order([2], Synced);
    var two := Step(Step(NEW_WORLD, add), add);
    assert two.inner.accounts == [1, 2] && two.loaded == {1, 2};
    var closed := Step(two, remove);
    assert closed.loaded == {2};
    var ordered := Step(closed, order);
    InExisting([2], {2}, 1);
    assert 1 !in NewOrder([2], {2}) && ordered.files == [ordered.inner] && ordered.inner.accounts == [1, 2];
    assert LOSING_TRACK[1..] == [add, remove, order, Restart(None)];
    assert [add, remove, order, Restart(None)][1..] == [remove, order, Restart(None)];
    assert [remove, order, Restart(None)][1..] == [order, Restart(None)];
    RunTwo(closed, order, Restart(None));
    assert 1 in ordered.inner.accounts;
  }

  lemma UnlistedGoesLast(w: World, id: AccountId)
    requires Inv(w) && w.running && id in w.loaded && id !in w.inner.order
    ensures !AddsLast(w)
  {
    assert id in Unlisted(w.inner.order, w.loaded);
    AddedAccountLastIff(w);
  }

  /** After such a run the next account is not displayed last. */
  lemma AddedAccountNotLast()
    ensures !AddsLast(Run(NEW_WORLD, LOSING_TRACK))
  {
    EveryRunSound(NEW_WORLD, LOSING_TRACK);
    UnlistedRun();
    UnlistedGoesLast(Run(NEW_WORLD, LOSING_TRACK), 1);
  }

  /** Nor is it after reading a file that has accounts and no order. */
  lemma AddedToOldFileNotLast()
    ensures !AddsLast(Reopen(NEW_WORLD.(files := [Inner(1, 2, [1], [])]), None))
  {
    var w := Reopen(NEW_WORLD.(files := [Inner(1, 2, [1], [])]), None);
    assert w.inner == Inner(1, 2, [1], []);
    assert 1 in w.inner.accounts;
    UnlistedGoesLast(w, 1);
  }

  // ----- the imperative form -----

  class AccountManager {
    var running: bool
    var inner: Inner
    var loaded: set<AccountId>
    var files: seq<Inner>
    var returned: seq<AccountId>

    function View(): World
      reads this
    {
      World(running, inner, loaded, files, returned)
    }

    constructor ()
      ensures View() == NEW_WORLD && Inv(View()) && AllPick(View())
    {
      running, inner, loaded, files, returned := true, EMPTY_CONFIG, {}, [EMPTY_CONFIG], [];
    }

    /** A temporary file, a rename and an fsync of the directory. */
    method SyncConfig(fate: Fate) returns (ok: bool)
      modifies this
      ensures View() == Sync(old(View()), fate) && ok == (fate == Synced)
    {
      if fate == StoppedEarly || fate == StoppedLate { running := false; }
      if fate == Synced || fate == FailedLate || fate == StoppedLate { files := files + [inner]; }
      if fate == Synced { files := files[|files| - 1..]; }
      ok := fate == Synced;
    }

    method Select(id: AccountId, fate: Fate) returns (ok: bool)
      requires running
      modifies this
      ensures View() == SelectAccount(old(View()), id, fate)
      ensures ok == (id in old(inner.accounts) && fate == Synced)
    {
      if id !in inner.accounts { return false; }
      inner := inner.(selected := id);
      ok := SyncConfig(fate);
    }

    method Add(first: Fate, second: Fate, opens: bool) returns (r: Option<AccountId>)
      requires running
      modifies this
      ensures View() == AddAccount(old(View()), first, second, opens)
      ensures r == if first == second == Synced && opens then Some(old(inner.nextId)) else None
    {
      var id := inner.nextId;
      inner := inner.(accounts := inner.accounts + [id]);
      inner := inner.(nextId := inner.nextId + 1);
      inner := inner.(order := inner.order + [id]);
      var ok := SyncConfig(first);
      if !ok { return None; }
      assert inner.accounts[|inner.accounts| - 1] == id;
      ok := Select(id, second);
      if !ok || !opens { return None; }
      loaded := loaded + {id};
      returned := returned + [id];
      r := Some(id);
    }

    method Remove(id: AccountId, erased: bool, fate: Fate) returns (ok: bool)
      requires running
      modifies this
      ensures View() == RemoveAccount(old(View()), id, erased, fate)
      ensures ok == (id in old(loaded) && erased && fate == Synced)
    {
      if id !in loaded { return false; }
      loaded := loaded - {id};
      if !erased { return false; }
      var order: seq<AccountId> := [];
      for i := 0 to |inner.order|
        invariant order == Without(inner.order[..i], id)
      {
        assert inner.order[..i + 1][..i] == inner.order[..i];
        if inner.order[i] != id { order := order + [inner.order[i]]; }
      }
      assert inner.order[..|inner.order|] == inner.order;
      var accounts := Without(inner.accounts, id);
      inner := inner.(accounts := accounts, order := order);
      if inner.selected == id {
        inner := inner.(selected := if accounts == [] then 0 else accounts[0]);
      }
      ok := SyncConfig(fate);
    }

    method SetDisplayOrder(order: seq<AccountId>, fate: Fate) returns (ok: bool)
      requires running
      modifies this
      ensures View() == SetOrder(old(View()), order, fate) && ok == (fate == Synced)
    {
      var filtered := SetAccountsOrder(order, loaded);
      inner := inner.(order := filtered);
      ok := SyncConfig(fate);
    }

    method Start(survivor: Option<nat>)
      requires files != []
      modifies this
      ensures View() == Reopen(old(View()), survivor)
    {
      if survivor.Some? && survivor.value < |files| {
        files := [files[survivor.value]];
      }
      var file := files[|files| - 1];
      running, inner := true, file;
      loaded := {};
      ghost var found := files;
      for i := 0 to |file.accounts|
        invariant loaded == set x | x in file.accounts[..i]
        invariant running && inner == file && files == found && returned == old(returned)
      {
        TakeOneMore(file.accounts, i);
        loaded := loaded + {file.accounts[i]};
      }
      assert file.accounts[..|file.accounts|] == file.accounts;
    }
  }
}
