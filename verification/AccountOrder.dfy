/** The user's order of accounts (`get_all`, `set_accounts_order`). */
module AccountOrder {
  import opened Collections

  type AccountId = nat

  /** First occurrences in `order` of ids that exist. */
  function Kept(order: seq<AccountId>, keys: set<AccountId>): seq<AccountId> {
    if order == [] then []
    else
      var n := |order| - 1;
      KeepNext(Kept(order[..n], keys), order[n], keys)
  }

  function KeepNext(kept: seq<AccountId>, x: AccountId, keys: set<AccountId>): seq<AccountId> {
    if x in keys && x !in kept then kept + [x] else kept
  }

  lemma KeptLast(order: seq<AccountId>, x: AccountId, keys: set<AccountId>)
    ensures Kept(order + [x], keys) == KeepNext(Kept(order, keys), x, keys)
  {
    assert (order + [x])[..|order|] == order;
  }

  lemma {:induction false} InKept(order: seq<AccountId>, keys: set<AccountId>, x: AccountId)
    ensures x in Kept(order, keys) <==> x in order && x in keys
  {
    if order != [] {
      SplitLast(order);
      InKept(order[..|order| - 1], keys, x);
    }
  }

  /** The accounts the order does not mention. */
  function Unlisted(order: seq<AccountId>, keys: set<AccountId>): set<AccountId> {
    keys - set x | x in order
  }

  function AllIds(order: seq<AccountId>, keys: set<AccountId>): seq<AccountId> {
    Kept(order, keys) + Ascending(Unlisted(order, keys))
  }

  method GetAll(order: seq<AccountId>, keys: set<AccountId>) returns (ordered: seq<AccountId>)
    ensures ordered == AllIds(order, keys)
  {
    ordered := [];
    var all := keys;
    for i := 0 to |order|
      invariant ordered == Kept(order[..i], keys)
      invariant all == Unlisted(order[..i], keys)
    {
      TakeOneMore(order, i);
      KeptLast(order[..i], order[i], keys);
      InKept(order[..i], keys, order[i]);
      if order[i] in all {
        all := all - {order[i]};
        ordered := ordered + [order[i]];
      }
    }
    assert order[..|order|] == order;
    ordered := PushAll(ordered, Ascending(all));
  }

  method PushAll(start: seq<AccountId>, more: seq<AccountId>) returns (r: seq<AccountId>)
    ensures r == start + more
  {
    r := start;
    for i := 0 to |more|
      invariant r == start + more[..i]
    {
      r := r + [more[i]];
      TakeOneMore(more, i);
      Associative(start, more[..i], [more[i]]);
    }
    assert more[..|more|] == more;
  }

  function Existing(order: seq<AccountId>, keys: set<AccountId>): seq<AccountId> {
    if order == [] then []
    else
      var n := |order| - 1;
      var earlier := Existing(order[..n], keys);
      if order[n] in keys then earlier + [order[n]] else earlier
  }

  lemma ExistingLast(order: seq<AccountId>, x: AccountId, keys: set<AccountId>)
    ensures Existing(order + [x], keys) == if x in keys then Existing(order, keys) + [x] else Existing(order, keys)
  {
    assert (order + [x])[..|order|] == order;
  }

  lemma {:induction false} InExisting(order: seq<AccountId>, keys: set<AccountId>, x: AccountId)
    ensures x in Existing(order, keys) <==> x in order && x in keys
  {
    if order != [] {
      SplitLast(order);
      InExisting(order[..|order| - 1], keys, x);
    }
  }

  function NewOrder(order: seq<AccountId>, keys: set<AccountId>): seq<AccountId> {
    Existing(order, keys) + Ascending(Unlisted(order, keys))
  }

  method FilterExisting(order: seq<AccountId>, keys: set<AccountId>) returns (filtered: seq<AccountId>)
    ensures filtered == Existing(order, keys)
  {
    filtered := [];
    for i := 0 to |order|
      invariant filtered == Existing(order[..i], keys)
    {
      TakeOneMore(order, i);
      ExistingLast(order[..i], order[i], keys);
      if order[i] in keys {
        filtered := filtered + [order[i]];
      }
    }
    assert order[..|order|] == order;
  }

  /** `added` are the ids among the first `i` that are missing from the order. */
  ghost predicate Missing(added: seq<AccountId>, ids: seq<AccountId>, i: nat, order: seq<AccountId>)
    requires i <= |ids|
  {
    StrictlyAscending(added) && forall x: nat :: x in added <==> x in ids[..i] && x !in order
  }

  lemma MissingOneMore(added: seq<AccountId>, ids: seq<AccountId>, i: nat, order: seq<AccountId>)
    requires i < |ids| && StrictlyAscending(ids) && Missing(added, ids, i, order)
    ensures Missing(if ids[i] in order then added else added + [ids[i]], ids, i + 1, order)
  {
    TakeOneMore(ids, i);
    forall k | 0 <= k < |added| ensures added[k] < ids[i] {
      assert added[k] in added;
    }
  }

  method SetAccountsOrder(order: seq<AccountId>, keys: set<AccountId>) returns (filtered: seq<AccountId>)
    ensures filtered == NewOrder(order, keys)
  {
    filtered := FilterExisting(order, keys);
    ghost var existing := filtered;
    var ids := Ascending(keys);
    ghost var added: seq<AccountId> := [];
    for i := 0 to |ids|
      invariant filtered == existing + added && Missing(added, ids, i, order)
    {
      MissingOneMore(added, ids, i, order);
      InExisting(order, keys, ids[i]);
      NotYetAdded(added, ids, i, order);
      if ids[i] !in filtered {
        Associative(existing, added, [ids[i]]);
        filtered := filtered + [ids[i]];
        added := added + [ids[i]];
      }
    }
    AllMissing(added, ids, order, keys);
  }

  lemma NotYetAdded(added: seq<AccountId>, ids: seq<AccountId>, i: nat, order: seq<AccountId>)
    requires i < |ids| && StrictlyAscending(ids) && Missing(added, ids, i, order)
    ensures ids[i] !in added
  {}

  lemma AllMissing(added: seq<AccountId>, ids: seq<AccountId>, order: seq<AccountId>, keys: set<AccountId>)
    requires ids == Ascending(keys) && Missing(added, ids, |ids|, order)
    ensures added == Ascending(Unlisted(order, keys))
  {
    assert ids[..|ids|] == ids;
    AscendingUnique(added, Unlisted(order, keys));
  }

  // ----- a permutation -----

  lemma {:induction false} KeptDistinct(order: seq<AccountId>, keys: set<AccountId>)
    ensures NoDuplicates(Kept(order, keys))
  {
    if order != [] {
      KeptDistinct(order[..|order| - 1], keys);
    }
  }

  /** Every account is listed exactly once. */
  lemma AllIdsIsPermutation(order: seq<AccountId>, keys: set<AccountId>)
    ensures NoDuplicates(AllIds(order, keys))
    ensures forall x: nat :: x in AllIds(order, keys) <==> x in keys
  {
    KeptDistinct(order, keys);
    var kept, rest := Kept(order, keys), Ascending(Unlisted(order, keys));
    forall x: nat ensures x in kept <==> x in order && x in keys {
      InKept(order, keys, x);
    }
    forall i, j | 0 <= i < |kept| && 0 <= j < |rest| ensures kept[i] != rest[j] {
      assert kept[i] in kept && rest[j] in rest;
    }
  }

  function FirstIndex(order: seq<AccountId>, x: AccountId): (i: nat)
    requires x in order
    ensures i < |order| && order[i] == x && forall j :: 0 <= j < i ==> order[j] != x
  {
    if order[0] == x then 0 else 1 + FirstIndex(order[1..], x)
  }

  ghost predicate ByFirstMention(kept: seq<AccountId>, order: seq<AccountId>) {
    && (forall i :: 0 <= i < |kept| ==> kept[i] in order)
    && (forall i, j :: 0 <= i < j < |kept| ==> FirstIndex(order, kept[i]) < FirstIndex(order, kept[j]))
  }

  /** The listed accounts come in the order of their first mention. */
  lemma {:induction false} KeptFollowsOrder(order: seq<AccountId>, keys: set<AccountId>)
    ensures ByFirstMention(Kept(order, keys), order)
  {
    if order != [] {
      var n := |order| - 1;
      var kept, earlier := Kept(order, keys), Kept(order[..n], keys);
      KeptFollowsOrder(order[..n], keys);
      forall i | 0 <= i < |kept| ensures kept[i] in order {
        InKept(order, keys, kept[i]);
      }
      forall i, j | 0 <= i < j < |kept| ensures FirstIndex(order, kept[i]) < FirstIndex(order, kept[j]) {
        InKept(order[..n], keys, earlier[i]);
        SameFirstIndex(order, n, earlier[i]);
        if j < |earlier| {
          InKept(order[..n], keys, earlier[j]);
          SameFirstIndex(order, n, earlier[j]);
        } else {
          InKept(order[..n], keys, order[n]);
          LateFirstIndex(order, n, order[n]);
        }
      }
    }
  }

  lemma SameFirstIndex(order: seq<AccountId>, n: nat, x: AccountId)
    requires n <= |order| && x in order[..n]
    ensures x in order && FirstIndex(order, x) == FirstIndex(order[..n], x)
  {
    var i := FirstIndex(order[..n], x);
    assert order[i] == x;
  }

  lemma LateFirstIndex(order: seq<AccountId>, n: nat, x: AccountId)
    requires n < |order| && x in order && x !in order[..n]
    ensures FirstIndex(order, x) >= n
  {
    forall j | 0 <= j < n ensures order[j] != x {
      assert order[..n][j] == order[j];
    }
  }

  // ----- setting, removing, adding -----

  lemma {:induction false} KeptOfExisting(order: seq<AccountId>, keys: set<AccountId>)
    ensures Kept(Existing(order, keys), keys) == Kept(order, keys)
  {
    if order != [] {
      var n := |order| - 1;
      KeptOfExisting(order[..n], keys);
      KeptLast(Existing(order[..n], keys), order[n], keys);
    }
  }

  /** A list of new ids after a list of old ones is kept as it is. */
  lemma {:induction false} KeptAppend(a: seq<AccountId>, b: seq<AccountId>, keys: set<AccountId>)
    requires NoDuplicates(b) && forall i :: 0 <= i < |b| ==> b[i] in keys && b[i] !in a
    ensures Kept(a + b, keys) == Kept(a, keys) + b
  {
    if b == [] {
      assert a + b == a;
    } else {
      var n := |b| - 1;
      var earlier := b[..n];
      SplitLast(b);
      KeptAppend(a, earlier, keys);
      Associative(a, earlier, [b[n]]);
      KeptLast(a + earlier, b[n], keys);
      InKept(a + earlier, keys, b[n]);
      Associative(Kept(a, keys), earlier, [b[n]]);
    }
  }

  /** After `set_accounts_order(o)` the accounts are listed by first mention in `o`, then the
      others in ascending order. */
  lemma SetThenGet(order: seq<AccountId>, keys: set<AccountId>)
    ensures AllIds(NewOrder(order, keys), keys) == AllIds(order, keys)
  {
    var existing, rest := Existing(order, keys), Ascending(Unlisted(order, keys));
    forall i | 0 <= i < |rest| ensures rest[i] in keys && rest[i] !in existing {
      assert rest[i] in rest;
      InExisting(order, keys, rest[i]);
    }
    KeptAppend(existing, rest, keys);
    KeptOfExisting(order, keys);
    NewOrderListsAll(order, keys);
    assert Ascending({}) == [];
    assert Kept(order, keys) + rest + [] == Kept(order, keys) + rest;
  }

  lemma NewOrderListsAll(order: seq<AccountId>, keys: set<AccountId>)
    ensures Unlisted(NewOrder(order, keys), keys) == {}
  {
    forall x: nat | x in keys ensures x in NewOrder(order, keys) {
      InExisting(order, keys, x);
      if x !in order { assert x in Ascending(Unlisted(order, keys)); }
    }
  }

  /** Setting the order to what is displayed changes nothing that is displayed. */
  lemma SetDisplayedOrder(order: seq<AccountId>, keys: set<AccountId>)
    ensures AllIds(NewOrder(AllIds(order, keys), keys), keys) == AllIds(order, keys)
  {
    var all := AllIds(order, keys);
    SetThenGet(all, keys);
    AllIdsIsPermutation(order, keys);
    forall i | 0 <= i < |all| ensures all[i] in keys && all[i] !in [] {
      assert all[i] in all;
    }
    KeptAppend([], all, keys);
    assert [] + all == all;
    assert Unlisted(all, keys) == {};
  }

  /** `retain(|x| x != id)` */
  function Without(order: seq<AccountId>, id: AccountId): (r: seq<AccountId>)
    ensures forall x: nat :: x in r <==> x in order && x != id
  {
    if order == [] then []
    else
      var n := |order| - 1;
      assert order == order[..n] + [order[n]];
      Without(order[..n], id) + if order[n] == id then [] else [order[n]]
  }

  lemma WithoutLast(order: seq<AccountId>, x: AccountId, id: AccountId)
    ensures Without(order + [x], id) == Without(order, id) + if x == id then [] else [x]
  {
    assert (order + [x])[..|order|] == order;
  }

  lemma {:induction false} WithoutConcat(a: seq<AccountId>, b: seq<AccountId>, id: AccountId)
    ensures Without(a + b, id) == Without(a, id) + Without(b, id)
  {
    if b == [] {
      assert a + b == a;
    } else {
      var start, last := b[..|b| - 1], b[|b| - 1];
      SplitLast(b);
      WithoutConcat(a, start, id);
      Associative(a, start, [last]);
      WithoutLast(a + start, last, id);
      WithoutLast(start, last, id);
      Associative(Without(a, id), Without(start, id), if last == id then [] else [last]);
    }
  }

  lemma KeepNextWithout(kept: seq<AccountId>, x: AccountId, keys: set<AccountId>, id: AccountId)
    requires x != id
    ensures KeepNext(Without(kept, id), x, keys - {id}) == Without(KeepNext(kept, x, keys), id)
  {
    WithoutLast(kept, x, id);
  }

  lemma {:induction false} KeptWithout(order: seq<AccountId>, keys: set<AccountId>, id: AccountId)
    ensures Kept(Without(order, id), keys - {id}) == Without(Kept(order, keys), id)
  {
    if order != [] {
      var n := |order| - 1;
      var earlier, w, x := Kept(order[..n], keys), Without(order[..n], id), order[n];
      KeptWithout(order[..n], keys, id);
      if x == id {
        WithoutLast(earlier, x, id);
        assert w + [] == w && Without(earlier, id) + [] == Without(earlier, id);
      } else {
        KeptLast(w, x, keys - {id});
        KeepNextWithout(earlier, x, keys, id);
      }
    }
  }

  lemma {:induction false} WithoutAscends(s: seq<AccountId>, id: AccountId)
    requires StrictlyAscending(s)
    ensures StrictlyAscending(Without(s, id))
  {
    if s != [] {
      var n := |s| - 1;
      var w := Without(s[..n], id);
      WithoutAscends(s[..n], id);
      forall i | 0 <= i < |w| ensures w[i] < s[n] {
        assert w[i] in w;
      }
    }
  }

  /** Removing an account keeps the others in their relative order. */
  lemma RemovalKeepsOrder(order: seq<AccountId>, keys: set<AccountId>, id: AccountId)
    ensures AllIds(Without(order, id), keys - {id}) == Without(AllIds(order, keys), id)
  {
    var rest := Ascending(Unlisted(order, keys));
    KeptWithout(order, keys, id);
    WithoutConcat(Kept(order, keys), rest, id);
    WithoutAscends(rest, id);
    AscendingUnique(Without(rest, id), Unlisted(Without(order, id), keys - {id}));
  }

  /** A new account is inserted after the listed accounts and before the unlisted ones. */
  lemma AdditionPlace(order: seq<AccountId>, keys: set<AccountId>, id: AccountId)
    requires id !in keys && id !in order
    ensures AllIds(order + [id], keys + {id}) == Kept(order, keys) + [id] + Ascending(Unlisted(order, keys))
  {
    KeptMoreKeys(order, keys, id);
    KeptLast(order, id, keys + {id});
    InKept(order, keys, id);
    assert Unlisted(order + [id], keys + {id}) == Unlisted(order, keys);
  }

  lemma {:induction false} KeptMoreKeys(order: seq<AccountId>, keys: set<AccountId>, id: AccountId)
    requires id !in order
    ensures Kept(order, keys + {id}) == Kept(order, keys)
  {
    if order != [] {
      KeptMoreKeys(order[..|order| - 1], keys, id);
    }
  }

  /** A new account goes last exactly when the order lists all accounts already there; it does not
      for a configuration written before the order was introduced, which lists none. */
  lemma AdditionGoesLastIff(order: seq<AccountId>, keys: set<AccountId>, id: AccountId)
    requires id !in keys && id !in order
    ensures AllIds(order + [id], keys + {id}) == AllIds(order, keys) + [id] <==> Unlisted(order, keys) == {}
  {
    AdditionPlace(order, keys, id);
    var kept, rest := Kept(order, keys), Ascending(Unlisted(order, keys));
    SwapIff(kept, id, rest);
    assert rest == [] <==> Unlisted(order, keys) == {};
  }

  lemma SwapIff(kept: seq<AccountId>, id: AccountId, rest: seq<AccountId>)
    requires id !in rest
    ensures kept + [id] + rest == kept + rest + [id] <==> rest == []
  {
    if rest != [] {
      assert (kept + [id] + rest)[|kept|] == id;
      assert (kept + rest + [id])[|kept|] == rest[0];
    }
  }
}
