/** The shape of one conversation: reply parents, the reply forest built with an explicit stack
    (`tree`, `build_node`), and the flat listing with depths drawn by the reading pane (`thread`). */
module ThreadTree {
  import opened Collections

  type MsgId = nat

  /** A row of the query in `tree`: messages of one thread, oldest first.  `candidates` are the
      Message-IDs of `References` followed by those of `In-Reply-To`. */
  datatype Row = Row(id: MsgId, mid: string, candidates: seq<string>)

  datatype Node = Node(id: MsgId, children: seq<Node>)

  /** `msg_id` is the primary key of `msgs`. */
  ghost predicate DistinctIds(rows: seq<Row>) {
    forall i, j :: 0 <= i < j < |rows| ==> rows[i].id != rows[j].id
  }

  // ----- parents -----

  /** The oldest of the first `n` rows that carries a Message-ID. */
  function Holder(rows: seq<Row>, n: nat, mid: string): (r: Option<nat>)
    requires n <= |rows|
    ensures r.Some? ==> r.value < n && rows[r.value].mid == mid != ""
    ensures r.Some? ==> forall j :: 0 <= j < r.value ==> rows[j].mid != mid
    ensures r.None? ==> mid == "" || forall j :: 0 <= j < n ==> rows[j].mid != mid
  {
    if n == 0 then None
    else
      var earlier := Holder(rows, n - 1, mid);
      if earlier.Some? then earlier
      else if mid != "" && rows[n - 1].mid == mid then Some(n - 1)
      else None
  }

  /** The row a candidate makes row `i` descend from: only an older one. */
  function OlderHolder(rows: seq<Row>, i: nat, mid: string): (r: Option<nat>)
    requires i < |rows|
    ensures r.Some? ==> r.value < i
  {
    var h := Holder(rows, |rows|, mid);
    if h.Some? && h.value < i then h else None
  }

  function LastOlder(rows: seq<Row>, i: nat, candidates: seq<string>): (r: Option<nat>)
    requires i < |rows|
    ensures r.Some? ==> r.value < i
  {
    if candidates == [] then None
    else
      var n := |candidates| - 1;
      var h := OlderHolder(rows, i, candidates[n]);
      if h.Some? then h else LastOlder(rows, i, candidates[..n])
  }

  function Parent(rows: seq<Row>, i: nat): (r: Option<nat>)
    requires i < |rows|
    ensures r.Some? ==> r.value < i
  {
    LastOlder(rows, i, rows[i].candidates)
  }

  lemma {:induction false} LastOlderIsNearest(rows: seq<Row>, i: nat, candidates: seq<string>)
    requires i < |rows|
    ensures LastOlder(rows, i, candidates).None? <==>
            forall c :: 0 <= c < |candidates| ==> OlderHolder(rows, i, candidates[c]).None?
    ensures LastOlder(rows, i, candidates).Some? ==>
            exists c :: 0 <= c < |candidates| && OlderHolder(rows, i, candidates[c]) == LastOlder(rows, i, candidates)
                        && forall later :: c < later < |candidates| ==> OlderHolder(rows, i, candidates[later]).None?
  {
    if candidates != [] {
      var n := |candidates| - 1;
      LastOlderIsNearest(rows, i, candidates[..n]);
      assert forall c :: 0 <= c < n ==> candidates[..n][c] == candidates[c];
    }
  }

  /** Row `p` is the first that carries the Message-ID. */
  ghost predicate FirstCarrier(rows: seq<Row>, p: nat, mid: string) {
    p < |rows| && mid != "" && rows[p].mid == mid && forall j :: 0 <= j < p ==> rows[j].mid != mid
  }

  /** The Message-ID names a message older than row `i`. */
  ghost predicate NamesOlder(rows: seq<Row>, i: nat, mid: string) {
    exists p: nat :: p < i && FirstCarrier(rows, p, mid)
  }

  lemma HolderIsFirstCarrier(rows: seq<Row>, i: nat, mid: string, p: nat)
    requires i < |rows|
    ensures OlderHolder(rows, i, mid) == Some(p) <==> p < i && FirstCarrier(rows, p, mid)
    ensures OlderHolder(rows, i, mid).Some? <==> NamesOlder(rows, i, mid)
  {
    var h := Holder(rows, |rows|, mid);
    if q: nat :| q < i && FirstCarrier(rows, q, mid) {
      assert h == Some(q);
    }
    if h.Some? {
      assert FirstCarrier(rows, h.value, mid);
    }
  }

  /** Candidate `c` of row `i` names `p`, and no later candidate names an older message. */
  ghost predicate NearestNamed(rows: seq<Row>, i: nat, p: nat, c: nat)
    requires i < |rows|
  {
    && p < i && c < |rows[i].candidates| && FirstCarrier(rows, p, rows[i].candidates[c])
    && forall later: nat :: c < later < |rows[i].candidates| ==> !NamesOlder(rows, i, rows[i].candidates[later])
  }

  lemma NearestNamedIsParent(rows: seq<Row>, i: nat, p: nat, c: nat)
    requires i < |rows| && NearestNamed(rows, i, p, c)
    ensures Parent(rows, i) == Some(p)
  {
    var candidates := rows[i].candidates;
    LastOlderIsNearest(rows, i, candidates);
    HolderIsFirstCarrier(rows, i, candidates[c], p);
    forall later: nat | c < later < |candidates| ensures OlderHolder(rows, i, candidates[later]).None? {
      HolderIsFirstCarrier(rows, i, candidates[later], p);
    }
  }

  /** The parent is the nearest ancestor held: the message named by the last candidate that names an
      older one.  There is none exactly if no candidate names an older message. */
  lemma ParentIsNearest(rows: seq<Row>, i: nat, p: nat)
    requires i < |rows|
    ensures Parent(rows, i) == Some(p) <==> exists c: nat :: NearestNamed(rows, i, p, c)
    ensures Parent(rows, i) == None <==>
            forall c: nat :: c < |rows[i].candidates| ==> !NamesOlder(rows, i, rows[i].candidates[c])
  {
    var candidates := rows[i].candidates;
    LastOlderIsNearest(rows, i, candidates);
    forall c: nat | c < |candidates|
      ensures OlderHolder(rows, i, candidates[c]) == Some(p) <==> p < i && FirstCarrier(rows, p, candidates[c])
      ensures OlderHolder(rows, i, candidates[c]).Some? <==> NamesOlder(rows, i, candidates[c])
    {
      HolderIsFirstCarrier(rows, i, candidates[c], p);
    }
    if Parent(rows, i) == Some(p) {
      var c: nat :| c < |candidates| && OlderHolder(rows, i, candidates[c]) == Some(p)
                    && forall later :: c < later < |candidates| ==> OlderHolder(rows, i, candidates[later]).None?;
      assert NearestNamed(rows, i, p, c);
    }
    if c: nat :| NearestNamed(rows, i, p, c) {
      NearestNamedIsParent(rows, i, p, c);
    }
  }

  // ----- the forest -----

  /** Rows before `n` whose parent is `p`; `None` asks for the roots. */
  function Kids(rows: seq<Row>, p: Option<nat>, n: nat): (r: seq<nat>)
    requires n <= |rows|
    ensures StrictlyAscending(r)
    ensures forall j :: 0 <= j < |r| ==> r[j] < n && Parent(rows, r[j]) == p
  {
    if n == 0 then []
    else
      var earlier := Kids(rows, p, n - 1);
      if Parent(rows, n - 1) == p then earlier + [n - 1] else earlier
  }

  lemma {:induction false} KidsComplete(rows: seq<Row>, p: Option<nat>, n: nat, k: nat) returns (j: nat)
    requires k < n <= |rows| && Parent(rows, k) == p
    ensures j < |Kids(rows, p, n)| && Kids(rows, p, n)[j] == k
  {
    if k < n - 1 {
      j := KidsComplete(rows, p, n - 1, k);
    } else {
      j := |Kids(rows, p, n - 1)|;
    }
  }

  function Subtree(rows: seq<Row>, i: nat): Node
    requires i < |rows|
    decreases |rows| - i, 0
  {
    Node(rows[i].id, Forest(rows, Kids(rows, Some(i), |rows|), i + 1))
  }

  function Forest(rows: seq<Row>, ks: seq<nat>, floor: nat): (r: seq<Node>)
    requires floor <= |rows| && forall j :: 0 <= j < |ks| ==> floor <= ks[j] < |rows|
    ensures |r| == |ks|
    decreases |rows| - floor, 1 + |ks|
  {
    if ks == [] then [] else [Subtree(rows, ks[0])] + Forest(rows, ks[1..], floor)
  }

  function Roots(rows: seq<Row>): seq<Node> {
    Forest(rows, Kids(rows, None, |rows|), 0)
  }

  // ----- the listing -----

  const MAX_DEPTH := 0xFFFF_FFFF

  function Deeper(depth: nat): nat {
    if depth < MAX_DEPTH then depth + 1 else depth
  }

  datatype Item = Item(id: MsgId, depth: nat)

  function Preorder(node: Node, depth: nat): seq<Item> {
    [Item(node.id, depth)] + PreorderAll(node.children, Deeper(depth))
  }

  function PreorderAll(nodes: seq<Node>, depth: nat): seq<Item> {
    if nodes == [] then [] else Preorder(nodes[0], depth) + PreorderAll(nodes[1..], depth)
  }

  /** How often a message is listed. */
  function Times(items: seq<Item>, id: MsgId): nat {
    if items == [] then 0 else (if items[0].id == id then 1 else 0) + Times(items[1..], id)
  }

  lemma {:induction false} TimesConcat(a: seq<Item>, b: seq<Item>, id: MsgId)
    ensures Times(a + b, id) == Times(a, id) + Times(b, id)
  {
    if a == [] {
      assert a + b == b;
    } else {
      TimesConcat(a[1..], b, id);
      assert (a + b)[1..] == a[1..] + b;
    }
  }

  /** `a` is `x` itself or one of the messages `x` descends from. */
  predicate Descends(rows: seq<Row>, x: nat, a: nat)
    requires x < |rows|
    decreases x
  {
    x == a || var p := Parent(rows, x); p.Some? && Descends(rows, p.value, a)
  }

  function Depth(rows: seq<Row>, x: nat): nat
    requires x < |rows|
    decreases x
  {
    var p := Parent(rows, x);
    if p.Some? then 1 + Depth(rows, p.value) else 0
  }

  lemma {:induction false} DescendsDown(rows: seq<Row>, x: nat, a: nat)
    requires x < |rows| && Descends(rows, x, a)
    ensures a <= x
    decreases x
  {
    if x != a { DescendsDown(rows, Parent(rows, x).value, a); }
  }

  lemma {:induction false} DescendsTransitive(rows: seq<Row>, x: nat, a: nat, p: nat)
    requires x < |rows| && a < |rows| && Descends(rows, x, a) && Descends(rows, a, p)
    ensures Descends(rows, x, p)
    decreases x
  {
    if x != a { DescendsTransitive(rows, Parent(rows, x).value, a, p); }
  }

  /** The messages one descends from form a chain. */
  lemma {:induction false} DescendsLinear(rows: seq<Row>, x: nat, a: nat, b: nat)
    requires x < |rows| && a <= b < |rows| && Descends(rows, x, a) && Descends(rows, x, b)
    ensures Descends(rows, b, a)
    decreases x
  {
    if x != b {
      if x == a { DescendsDown(rows, x, b); }
      DescendsLinear(rows, Parent(rows, x).value, a, b);
    }
  }

  /** Siblings have no common descendant. */
  lemma SiblingsApart(rows: seq<Row>, x: nat, a: nat, b: nat)
    requires x < |rows| && a < b < |rows| && Parent(rows, a) == Parent(rows, b)
    ensures !(Descends(rows, x, a) && Descends(rows, x, b))
  {
    if Descends(rows, x, a) && Descends(rows, x, b) {
      DescendsLinear(rows, x, a, b);
      if Parent(rows, b).Some? { DescendsDown(rows, Parent(rows, b).value, a); }
    }
  }

  ghost predicate DescendsFromOne(rows: seq<Row>, x: nat, ks: seq<nat>)
    requires x < |rows|
  {
    exists j :: 0 <= j < |ks| && Descends(rows, x, ks[j])
  }

  /** A proper descendant goes through a child; every message has a root. */
  lemma {:induction false} DescendsViaKid(rows: seq<Row>, x: nat, p: Option<nat>)
    requires x < |rows|
    requires p.Some? ==> p.value != x && Descends(rows, x, p.value)
    ensures DescendsFromOne(rows, x, Kids(rows, p, |rows|))
    decreases x
  {
    var q, ks := Parent(rows, x), Kids(rows, p, |rows|);
    if q == p {
      var j := KidsComplete(rows, p, |rows|, x);
      assert Descends(rows, x, ks[j]);
    } else {
      DescendsViaKid(rows, q.value, p);
      var j :| 0 <= j < |ks| && Descends(rows, q.value, ks[j]);
      assert Descends(rows, x, ks[j]);
    }
  }

  // ----- each message exactly once -----

  /** The descendants of a message are itself and those of its replies. */
  lemma DescendsFromKids(rows: seq<Row>, x: nat, i: nat)
    requires i < |rows| && x < |rows|
    ensures DescendsFromOne(rows, x, Kids(rows, Some(i), |rows|)) <==> x != i && Descends(rows, x, i)
  {
    var ks := Kids(rows, Some(i), |rows|);
    if DescendsFromOne(rows, x, ks) {
      var j :| 0 <= j < |ks| && Descends(rows, x, ks[j]);
      DescendsDown(rows, x, ks[j]);
      assert Descends(rows, ks[j], i);
      DescendsTransitive(rows, x, ks[j], i);
    }
    if x != i && Descends(rows, x, i) {
      DescendsViaKid(rows, x, Some(i));
    }
  }

  lemma TimesInNode(node: Node, depth: nat, id: MsgId)
    ensures Times(Preorder(node, depth), id) ==
            (if node.id == id then 1 else 0) + Times(PreorderAll(node.children, Deeper(depth)), id)
  {
    assert Preorder(node, depth)[1..] == PreorderAll(node.children, Deeper(depth));
  }

  lemma TimesInFirst(nodes: seq<Node>, depth: nat, id: MsgId)
    requires nodes != []
    ensures Times(PreorderAll(nodes, depth), id) ==
            Times(Preorder(nodes[0], depth), id) + Times(PreorderAll(nodes[1..], depth), id)
  {
    TimesConcat(Preorder(nodes[0], depth), PreorderAll(nodes[1..], depth), id);
  }

  lemma {:induction false} SubtreeLists(rows: seq<Row>, i: nat, depth: nat, x: nat)
    requires DistinctIds(rows) && i < |rows| && x < |rows|
    ensures Times(Preorder(Subtree(rows, i), depth), rows[x].id) == if Descends(rows, x, i) then 1 else 0
    decreases |rows| - i, 0
  {
    var ks := Kids(rows, Some(i), |rows|);
    TimesInNode(Subtree(rows, i), depth, rows[x].id);
    ForestLists(rows, ks, Some(i), i + 1, Deeper(depth), x);
    DescendsFromKids(rows, x, i);
  }

  /** Rows with one parent, in order. */
  ghost predicate Siblings(rows: seq<Row>, ks: seq<nat>, p: Option<nat>, floor: nat) {
    && floor <= |rows| && StrictlyAscending(ks)
    && (forall j :: 0 <= j < |ks| ==> floor <= ks[j] < |rows| && Parent(rows, ks[j]) == p)
  }

  lemma SiblingsRest(rows: seq<Row>, ks: seq<nat>, p: Option<nat>, floor: nat)
    requires Siblings(rows, ks, p, floor) && ks != []
    ensures Siblings(rows, ks[1..], p, floor)
  {}

  lemma TimesInForest(rows: seq<Row>, ks: seq<nat>, p: Option<nat>, floor: nat, depth: nat, id: MsgId)
    requires Siblings(rows, ks, p, floor) && ks != []
    ensures Times(PreorderAll(Forest(rows, ks, floor), depth), id) ==
            Times(Preorder(Subtree(rows, ks[0]), depth), id) + Times(PreorderAll(Forest(rows, ks[1..], floor), depth), id)
  {
    var nodes := Forest(rows, ks, floor);
    assert nodes[0] == Subtree(rows, ks[0]) && nodes[1..] == Forest(rows, ks[1..], floor);
    TimesInFirst(nodes, depth, id);
  }

  lemma FirstOrRest(rows: seq<Row>, ks: seq<nat>, p: Option<nat>, floor: nat, x: nat)
    requires x < |rows| && ks != [] && Siblings(rows, ks, p, floor)
    ensures DescendsFromOne(rows, x, ks) <==> Descends(rows, x, ks[0]) || DescendsFromOne(rows, x, ks[1..])
    ensures !(Descends(rows, x, ks[0]) && DescendsFromOne(rows, x, ks[1..]))
  {
    if DescendsFromOne(rows, x, ks[1..]) {
      var j :| 0 <= j < |ks| - 1 && Descends(rows, x, ks[1..][j]);
      assert ks[1..][j] == ks[j + 1];
      SiblingsApart(rows, x, ks[0], ks[j + 1]);
    }
    if DescendsFromOne(rows, x, ks) {
      var j :| 0 <= j < |ks| && Descends(rows, x, ks[j]);
      assert j > 0 ==> ks[1..][j - 1] == ks[j];
    }
  }

  lemma {:induction false} ForestLists(rows: seq<Row>, ks: seq<nat>, p: Option<nat>, floor: nat, depth: nat, x: nat)
    requires DistinctIds(rows) && x < |rows| && Siblings(rows, ks, p, floor)
    ensures Times(PreorderAll(Forest(rows, ks, floor), depth), rows[x].id) == if DescendsFromOne(rows, x, ks) then 1 else 0
    decreases |rows| - floor, 1 + |ks|
  {
    if ks != [] {
      SiblingsRest(rows, ks, p, floor);
      TimesInForest(rows, ks, p, floor, depth, rows[x].id);
      SubtreeLists(rows, ks[0], depth, x);
      ForestLists(rows, ks[1..], p, floor, depth, x);
      FirstOrRest(rows, ks, p, floor, x);
    }
  }

  // ----- each entry is a message at its reply depth -----

  function Saturated(depth: nat): nat {
    if depth < MAX_DEPTH then depth else MAX_DEPTH
  }

  ghost predicate IsRowAtDepth(rows: seq<Row>, item: Item) {
    exists x :: 0 <= x < |rows| && item == Item(rows[x].id, Saturated(Depth(rows, x)))
  }

  ghost predicate AllAtDepth(rows: seq<Row>, items: seq<Item>) {
    forall e :: 0 <= e < |items| ==> IsRowAtDepth(rows, items[e])
  }

  lemma {:induction false} SubtreeDepths(rows: seq<Row>, i: nat, depth: nat)
    requires i < |rows| && depth == Saturated(Depth(rows, i))
    ensures AllAtDepth(rows, Preorder(Subtree(rows, i), depth))
    decreases |rows| - i, 0
  {
    var ks := Kids(rows, Some(i), |rows|);
    ForestDepths(rows, ks, i + 1, Deeper(depth));
    assert IsRowAtDepth(rows, Item(rows[i].id, depth));
  }

  lemma {:induction false} ForestDepths(rows: seq<Row>, ks: seq<nat>, floor: nat, depth: nat)
    requires floor <= |rows|
    requires forall j :: 0 <= j < |ks| ==> floor <= ks[j] < |rows| && depth == Saturated(Depth(rows, ks[j]))
    ensures AllAtDepth(rows, PreorderAll(Forest(rows, ks, floor), depth))
    decreases |rows| - floor, 1 + |ks|
  {
    if ks != [] {
      var first, rest := Subtree(rows, ks[0]), Forest(rows, ks[1..], floor);
      assert Forest(rows, ks, floor)[1..] == rest;
      SubtreeDepths(rows, ks[0], depth);
      ForestDepths(rows, ks[1..], floor, depth);
      assert PreorderAll(Forest(rows, ks, floor), depth) == Preorder(first, depth) + PreorderAll(rest, depth);
    }
  }

  /** The listing names every message of the thread exactly once, names no other, and gives each
      its distance to the root it descends from. */
  lemma ListingIsComplete(rows: seq<Row>)
    requires DistinctIds(rows)
    ensures forall x :: 0 <= x < |rows| ==> Times(PreorderAll(Roots(rows), 0), rows[x].id) == 1
    ensures AllAtDepth(rows, PreorderAll(Roots(rows), 0))
  {
    var ks := Kids(rows, None, |rows|);
    forall x | 0 <= x < |rows| ensures Times(PreorderAll(Roots(rows), 0), rows[x].id) == 1 {
      ForestLists(rows, ks, None, 0, 0, x);
      DescendsViaKid(rows, x, None);
    }
    ForestDepths(rows, ks, 0, 0);
  }

  /** The messages that row `x` descends from, without itself. */
  ghost function Ancestors(rows: seq<Row>, x: nat): set<nat>
    requires x < |rows|
  {
    set a | 0 <= a < x && Descends(rows, x, a)
  }

  /** The depth shown is the number of messages it descends from. */
  lemma {:induction false} DepthCountsAncestors(rows: seq<Row>, x: nat)
    requires x < |rows|
    ensures Depth(rows, x) == |Ancestors(rows, x)|
    decreases x
  {
    var p := Parent(rows, x);
    if p.Some? {
      DepthCountsAncestors(rows, p.value);
      forall a: nat | a < x ensures Descends(rows, x, a) <==> a == p.value || (a < p.value && Descends(rows, p.value, a)) {
        if Descends(rows, p.value, a) { DescendsDown(rows, p.value, a); }
      }
      assert Ancestors(rows, x) == Ancestors(rows, p.value) + {p.value};
    } else {
      assert Ancestors(rows, x) == {};
    }
  }

  // ----- the order of the listing -----

  ghost predicate Precedes(items: seq<Item>, a: MsgId, b: MsgId) {
    exists i, j :: 0 <= i < j < |items| && items[i].id == a && items[j].id == b
  }

  lemma {:induction false} Listed(items: seq<Item>, id: MsgId) returns (i: nat)
    requires Times(items, id) > 0
    ensures i < |items| && items[i].id == id
  {
    if items[0].id == id {
      i := 0;
    } else {
      i := Listed(items[1..], id);
      i := i + 1;
    }
  }

  lemma PrecedesAcross(s: seq<Item>, t: seq<Item>, a: MsgId, b: MsgId)
    requires Times(s, a) > 0 && Times(t, b) > 0
    ensures Precedes(s + t, a, b)
  {
    var i := Listed(s, a);
    var j := Listed(t, b);
    assert (s + t)[i].id == a && (s + t)[|s| + j].id == b;
  }

  lemma PrecedesWithin(s: seq<Item>, t: seq<Item>, a: MsgId, b: MsgId)
    requires Precedes(s, a, b) || Precedes(t, a, b)
    ensures Precedes(s + t, a, b)
  {
    if Precedes(s, a, b) {
      var i, j :| 0 <= i < j < |s| && s[i].id == a && s[j].id == b;
      assert (s + t)[i].id == a && (s + t)[j].id == b;
    } else {
      var i, j :| 0 <= i < j < |t| && t[i].id == a && t[j].id == b;
      assert (s + t)[|s| + i].id == a && (s + t)[|s| + j].id == b;
    }
  }

  /** `a` and `b` answer the same message, or are both roots; `x` belongs to the older, `y` to the newer. */
  ghost predicate Branch(rows: seq<Row>, a: nat, b: nat, x: nat, y: nat) {
    && a < b < |rows| && x < |rows| && y < |rows|
    && Parent(rows, a) == Parent(rows, b) && Descends(rows, x, a) && Descends(rows, y, b)
  }

  /** A message comes before what descends from it, and an older branch before a newer one. */
  ghost predicate ShownFirst(rows: seq<Row>, x: nat, y: nat) {
    && x < |rows| && y < |rows|
    && ((x != y && Descends(rows, y, x)) || exists a: nat, b: nat :: Branch(rows, a, b, x, y))
  }

  /** Two replies to one message with a common descendant are the same. */
  lemma SameSibling(rows: seq<Row>, x: nat, a: nat, b: nat)
    requires x < |rows| && a < |rows| && b < |rows| && Parent(rows, a) == Parent(rows, b)
    requires Descends(rows, x, a) && Descends(rows, x, b)
    ensures a == b
  {
    if a < b { SiblingsApart(rows, x, a, b); }
    if b < a { SiblingsApart(rows, x, b, a); }
  }

  /** A branching below a message that neither end descends past lies below one of its replies, or is
      between two of them. */
  lemma BranchAmongSiblings(rows: seq<Row>, a: nat, b: nat, x: nat, y: nat, k: nat, l: nat)
    requires Branch(rows, a, b, x, y) && k < |rows| && l < |rows| && Parent(rows, k) == Parent(rows, l)
    requires Descends(rows, x, k) && Descends(rows, y, l)
    ensures k <= l
  {
    if a <= k { DescendsLinear(rows, x, a, k); } else { DescendsLinear(rows, x, k, a); }
    if Descends(rows, a, k) && a != k {
      // the branching is below k, so y descends from k as well
      DescendsFromParent(rows, a, b, k);
      DescendsTransitive(rows, y, b, k);
      SameSibling(rows, y, k, l);
    } else if a != k {
      // k is below a, and so is l, unless they are the branching themselves
      DescendsFromParent(rows, k, l, a);
      DescendsTransitive(rows, y, l, a);
      SameSibling(rows, y, a, b);
    } else {
      SameSibling(rows, y, b, l);
    }
  }

  /** What a message properly descends from, its siblings descend from too. */
  lemma DescendsFromParent(rows: seq<Row>, a: nat, b: nat, k: nat)
    requires a < |rows| && b < |rows| && Parent(rows, a) == Parent(rows, b) && a != k && Descends(rows, a, k)
    ensures Descends(rows, b, k)
  {}

  lemma ShownFirstAmongSiblings(rows: seq<Row>, x: nat, y: nat, k: nat, l: nat)
    requires ShownFirst(rows, x, y) && k < |rows| && l < |rows| && Parent(rows, k) == Parent(rows, l)
    requires Descends(rows, x, k) && Descends(rows, y, l)
    ensures k <= l
  {
    if x != y && Descends(rows, y, x) {
      DescendsTransitive(rows, y, x, k);
      SameSibling(rows, y, k, l);
    } else {
      var a: nat, b: nat :| Branch(rows, a, b, x, y);
      BranchAmongSiblings(rows, a, b, x, y, k, l);
    }
  }

  /** What belongs to the first sibling precedes what belongs to a later one. */
  lemma FirstBranchFirst(rows: seq<Row>, ks: seq<nat>, p: Option<nat>, floor: nat, depth: nat, x: nat, y: nat, v: nat)
    requires DistinctIds(rows) && Siblings(rows, ks, p, floor) && x < |rows| && y < |rows|
    requires 0 < v < |ks| && Descends(rows, x, ks[0]) && Descends(rows, y, ks[v])
    ensures Precedes(PreorderAll(Forest(rows, ks, floor), depth), rows[x].id, rows[y].id)
  {
    ForestSplit(rows, ks, p, floor, depth);
    SiblingsRest(rows, ks, p, floor);
    SubtreeLists(rows, ks[0], depth, x);
    ForestLists(rows, ks[1..], p, floor, depth, y);
    assert ks[1..][v - 1] == ks[v];
    PrecedesAcross(Preorder(Subtree(rows, ks[0]), depth), PreorderAll(Forest(rows, ks[1..], floor), depth), rows[x].id, rows[y].id);
  }

  lemma {:induction false} ForestOrder(
    rows: seq<Row>, ks: seq<nat>, p: Option<nat>, floor: nat, depth: nat, x: nat, y: nat, u: nat, v: nat)
    requires DistinctIds(rows) && Siblings(rows, ks, p, floor) && ShownFirst(rows, x, y)
    requires u <= v < |ks| && Descends(rows, x, ks[u]) && Descends(rows, y, ks[v])
    ensures Precedes(PreorderAll(Forest(rows, ks, floor), depth), rows[x].id, rows[y].id)
    decreases |rows| - floor, 1 + |ks|
  {
    if u == 0 && v > 0 {
      FirstBranchFirst(rows, ks, p, floor, depth, x, y, v);
    } else {
      if u > 0 {
        SiblingsRest(rows, ks, p, floor);
        ForestOrder(rows, ks[1..], p, floor, depth, x, y, u - 1, v - 1);
      } else {
        SubtreeOrder(rows, ks[0], depth, x, y);
      }
      ForestSplit(rows, ks, p, floor, depth);
      PrecedesWithin(Preorder(Subtree(rows, ks[0]), depth), PreorderAll(Forest(rows, ks[1..], floor), depth), rows[x].id, rows[y].id);
    }
  }

  lemma ForestSplit(rows: seq<Row>, ks: seq<nat>, p: Option<nat>, floor: nat, depth: nat)
    requires Siblings(rows, ks, p, floor) && ks != []
    ensures PreorderAll(Forest(rows, ks, floor), depth) ==
            Preorder(Subtree(rows, ks[0]), depth) + PreorderAll(Forest(rows, ks[1..], floor), depth)
  {
    var nodes := Forest(rows, ks, floor);
    assert nodes[0] == Subtree(rows, ks[0]) && nodes[1..] == Forest(rows, ks[1..], floor);
  }

  /** The reply to `i` through which `x` descends from it. */
  lemma ReplyTowards(rows: seq<Row>, i: nat, x: nat) returns (u: nat)
    requires i < |rows| && x < |rows| && x != i && Descends(rows, x, i)
    ensures u < |Kids(rows, Some(i), |rows|)| && Descends(rows, x, Kids(rows, Some(i), |rows|)[u])
  {
    DescendsFromKids(rows, x, i);
    u :| u < |Kids(rows, Some(i), |rows|)| && Descends(rows, x, Kids(rows, Some(i), |rows|)[u]);
  }

  lemma HeadFirst(rows: seq<Row>, i: nat, depth: nat, y: nat)
    requires DistinctIds(rows) && i < |rows| && y < |rows| && y != i && Descends(rows, y, i)
    ensures Precedes(Preorder(Subtree(rows, i), depth), rows[i].id, rows[y].id)
  {
    var node := Subtree(rows, i);
    SubtreeLists(rows, i, depth, y);
    TimesInNode(node, depth, rows[y].id);
    HeadPrecedes(node, depth, rows[y].id);
  }

  lemma HeadPrecedes(node: Node, depth: nat, id: MsgId)
    requires Times(PreorderAll(node.children, Deeper(depth)), id) > 0
    ensures Precedes(Preorder(node, depth), node.id, id)
  {
    var head := [Item(node.id, depth)];
    assert Times(head, node.id) == 1 + Times(head[1..], node.id);
    PrecedesAcross(head, PreorderAll(node.children, Deeper(depth)), node.id, id);
  }

  lemma {:induction false} SubtreeOrder(rows: seq<Row>, i: nat, depth: nat, x: nat, y: nat)
    requires DistinctIds(rows) && i < |rows| && ShownFirst(rows, x, y) && Descends(rows, x, i) && Descends(rows, y, i)
    ensures Precedes(Preorder(Subtree(rows, i), depth), rows[x].id, rows[y].id)
    decreases |rows| - i, 0
  {
    NotShownFirst(rows, x, i);
    if x == i {
      HeadFirst(rows, i, depth, y);
    } else {
      var u := ReplyTowards(rows, i, x);
      var v := ReplyTowards(rows, i, y);
      var ks := Kids(rows, Some(i), |rows|);
      ShownFirstAmongSiblings(rows, x, y, ks[u], ks[v]);
      ForestOrder(rows, ks, Some(i), i + 1, Deeper(depth), x, y, u, v);
      PrecedesWithin([Item(rows[i].id, depth)], PreorderAll(Forest(rows, ks, i + 1), Deeper(depth)), rows[x].id, rows[y].id);
    }
  }

  /** Nothing is shown before a message it descends from. */
  lemma NotShownFirst(rows: seq<Row>, x: nat, i: nat)
    requires x < |rows| && i < |rows| && Descends(rows, x, i)
    ensures !ShownFirst(rows, x, i)
  {
    DescendsDown(rows, x, i);
    if x != i && Descends(rows, i, x) { DescendsDown(rows, i, x); }
    if a: nat, b: nat :| Branch(rows, a, b, x, i) {
      DescendsTransitive(rows, x, i, b);
      SameSibling(rows, x, a, b);
    }
  }

  /** `x` is a reply, or a root, and `y` is neither among its descendants nor among its ancestors. */
  lemma BranchAtParent(rows: seq<Row>, x: nat, y: nat) returns (l: nat)
    requires x < |rows| && y < |rows| && !Descends(rows, y, x)
    requires Parent(rows, x).Some? ==> Parent(rows, x).value != y && Descends(rows, y, Parent(rows, x).value)
    ensures Branch(rows, x, l, x, y) || Branch(rows, l, x, y, x)
  {
    var ks := Kids(rows, Parent(rows, x), |rows|);
    DescendsViaKid(rows, y, Parent(rows, x));
    var j :| 0 <= j < |ks| && Descends(rows, y, ks[j]);
    l := ks[j];
  }

  /** Any two messages are in that order one way or the other, so the listing is determined by it. */
  lemma {:induction false} ShownFirstTotal(rows: seq<Row>, x: nat, y: nat)
    requires x < |rows| && y < |rows| && x != y
    ensures ShownFirst(rows, x, y) || ShownFirst(rows, y, x)
    decreases x + y
  {
    if Descends(rows, x, y) || Descends(rows, y, x) { return; }
    var p := Parent(rows, x);
    if p.None? || Descends(rows, y, p.value) {
      var l := BranchAtParent(rows, x, y);
    } else {
      ShownFirstTotal(rows, p.value, y);
      BranchExtends(rows, p.value, x, y);
    }
  }

  /** What holds of a message's branch holds of its replies. */
  lemma BranchExtends(rows: seq<Row>, p: nat, x: nat, y: nat)
    requires x < |rows| && y < |rows| && Parent(rows, x) == Some(p) && !Descends(rows, y, p) && !Descends(rows, p, y)
    requires (ShownFirst(rows, p, y) || ShownFirst(rows, y, p))
    ensures ShownFirst(rows, x, y) || ShownFirst(rows, y, x)
  {
    if ShownFirst(rows, p, y) {
      var a: nat, b: nat :| Branch(rows, a, b, p, y);
      assert Branch(rows, a, b, x, y);
    } else {
      var a: nat, b: nat :| Branch(rows, a, b, y, p);
      assert Branch(rows, a, b, y, x);
    }
  }

  /** The listing shows every message before all that descends from it, and of two replies to one
      message the older with all that descends from it before the newer. */
  lemma ListingOrder(rows: seq<Row>, x: nat, y: nat)
    requires DistinctIds(rows) && ShownFirst(rows, x, y)
    ensures Precedes(PreorderAll(Roots(rows), 0), rows[x].id, rows[y].id)
  {
    var ks := Kids(rows, None, |rows|);
    DescendsViaKid(rows, x, None);
    DescendsViaKid(rows, y, None);
    var u: nat :| u < |ks| && Descends(rows, x, ks[u]);
    var v: nat :| v < |ks| && Descends(rows, y, ks[v]);
    ShownFirstAmongSiblings(rows, x, y, ks[u], ks[v]);
    ForestOrder(rows, ks, None, 0, 0, x, y, u, v);
  }

  // ----- building with an explicit stack -----

  datatype Step = Enter(id: MsgId) | Exit(id: MsgId, count: nat)

  /** Rust's `saturating_sub` on lengths. */
  function Minus(a: nat, b: nat): nat {
    if a < b then 0 else a - b
  }

  /** The row of a message; `|rows|` if the thread has none. */
  function Find(rows: seq<Row>, n: nat, id: MsgId): (r: nat)
    requires n <= |rows|
    ensures r <= |rows|
    ensures r < |rows| ==> r < n && rows[r].id == id
    ensures r == |rows| ==> forall j :: 0 <= j < n ==> rows[j].id != id
  {
    if n == 0 then |rows| else if rows[n - 1].id == id then n - 1 else Find(rows, n - 1, id)
  }

  function IdsAt(rows: seq<Row>, ks: seq<nat>): seq<MsgId>
    requires forall j :: 0 <= j < |ks| ==> ks[j] < |rows|
  {
    seq(|ks|, j requires 0 <= j < |ks| => rows[ks[j]].id)
  }

  lemma IdsAtAppend(rows: seq<Row>, ks: seq<nat>, k: nat)
    requires k < |rows| && forall j :: 0 <= j < |ks| ==> ks[j] < |rows|
    ensures IdsAt(rows, ks + [k]) == IdsAt(rows, ks) + [rows[k].id]
  {}

  /** The replies to a message among the first `n` rows. */
  function RepliesIn(rows: seq<Row>, n: nat, id: MsgId): seq<MsgId>
    requires n <= |rows|
  {
    if n == 0 then []
    else if IsReplyTo(rows, n - 1, id) then RepliesIn(rows, n - 1, id) + [rows[n - 1].id]
    else RepliesIn(rows, n - 1, id)
  }

  predicate IsReplyTo(rows: seq<Row>, k: nat, id: MsgId)
    requires k < |rows|
  {
    var p := Parent(rows, k);
    p.Some? && rows[p.value].id == id
  }

  lemma ParentById(rows: seq<Row>, k: nat, i: nat)
    requires DistinctIds(rows) && k < |rows| && i < |rows|
    ensures Parent(rows, k) == Some(i) <==> IsReplyTo(rows, k, rows[i].id)
  {}

  lemma KidIdsLast(rows: seq<Row>, n: nat, i: nat)
    requires 0 < n <= |rows|
    ensures Parent(rows, n - 1) == Some(i) ==>
              IdsAt(rows, Kids(rows, Some(i), n)) == IdsAt(rows, Kids(rows, Some(i), n - 1)) + [rows[n - 1].id]
    ensures Parent(rows, n - 1) != Some(i) ==> Kids(rows, Some(i), n) == Kids(rows, Some(i), n - 1)
  {
    IdsAtAppend(rows, Kids(rows, Some(i), n - 1), n - 1);
  }

  lemma {:induction false} RepliesAreKids(rows: seq<Row>, n: nat, i: nat)
    requires DistinctIds(rows) && n <= |rows| && i < |rows|
    ensures RepliesIn(rows, n, rows[i].id) == IdsAt(rows, Kids(rows, Some(i), n))
  {
    if n > 0 {
      RepliesAreKids(rows, n - 1, i);
      KidIdsLast(rows, n, i);
      ParentById(rows, n - 1, i);
      if Parent(rows, n - 1) == Some(i) {
        assert RepliesIn(rows, n, rows[i].id) == RepliesIn(rows, n - 1, rows[i].id) + [rows[n - 1].id];
      } else {
        assert RepliesIn(rows, n, rows[i].id) == RepliesIn(rows, n - 1, rows[i].id);
      }
    }
  }

  lemma {:induction false} StrangersHaveNoReplies(rows: seq<Row>, n: nat, id: MsgId)
    requires n <= |rows| && forall j :: 0 <= j < |rows| ==> rows[j].id != id
    ensures RepliesIn(rows, n, id) == []
  {
    if n > 0 { StrangersHaveNoReplies(rows, n - 1, id); }
  }

  function Replies(rows: seq<Row>, id: MsgId): seq<MsgId> {
    RepliesIn(rows, |rows|, id)
  }

  function SubtreeOf(rows: seq<Row>, id: MsgId): Node {
    var i := Find(rows, |rows|, id);
    if i < |rows| then Subtree(rows, i) else Node(id, [])
  }

  /** The map `children` built by `tree`; messages without replies have no entry. */
  ghost predicate ChildrenOf(rows: seq<Row>, children: map<MsgId, seq<MsgId>>) {
    ChildrenIn(rows, |rows|, children)
  }

  ghost predicate ChildrenIn(rows: seq<Row>, n: nat, children: map<MsgId, seq<MsgId>>)
    requires n <= |rows|
  {
    forall id: MsgId :: Filed(children, id) == RepliesIn(rows, n, id)
  }

  function Filed(children: map<MsgId, seq<MsgId>>, id: MsgId): seq<MsgId> {
    if id in children then children[id] else []
  }

  function Perform(rows: seq<Row>, step: Step, done: seq<Node>): seq<Node> {
    match step
    case Enter(id) => done + [SubtreeOf(rows, id)]
    case Exit(id, count) =>
      var at := Minus(|done|, count);
      done[..at] + [Node(id, done[at..])]
  }

  /** What the remaining stack makes of the nodes already built. */
  function Outcome(rows: seq<Row>, stack: seq<Step>, done: seq<Node>): seq<Node> {
    if stack == [] then done
    else
      var n := |stack| - 1;
      Outcome(rows, stack[..n], Perform(rows, stack[n], done))
  }

  function Size(node: Node): nat {
    1 + Sizes(node.children)
  }

  function Sizes(nodes: seq<Node>): nat {
    if nodes == [] then 0 else Size(nodes[0]) + Sizes(nodes[1..])
  }

  function Effort(rows: seq<Row>, step: Step): nat {
    match step
    case Enter(id) => 2 * Size(SubtreeOf(rows, id))
    case Exit(_, _) => 1
  }

  function Work(rows: seq<Row>, stack: seq<Step>): nat {
    if stack == [] then 0
    else
      var n := |stack| - 1;
      Work(rows, stack[..n]) + Effort(rows, stack[n])
  }

  lemma TopStep(rows: seq<Row>, below: seq<Step>, top: Step, done: seq<Node>)
    ensures Outcome(rows, below + [top], done) == Outcome(rows, below, Perform(rows, top, done))
    ensures Work(rows, below + [top]) == Work(rows, below) + Effort(rows, top)
  {
    assert (below + [top])[..|below|] == below;
  }

  /** The steps pushed for a list of replies, the first on top. */
  function Enters(ids: seq<MsgId>): seq<Step> {
    if ids == [] then [] else Enters(ids[1..]) + [Enter(ids[0])]
  }

  lemma EntersTop(below: seq<Step>, ids: seq<MsgId>)
    requires ids != []
    ensures below + Enters(ids) == below + Enters(ids[1..]) + [Enter(ids[0])]
  {}

  function SubtreesOf(rows: seq<Row>, ids: seq<MsgId>): seq<Node> {
    if ids == [] then [] else [SubtreeOf(rows, ids[0])] + SubtreesOf(rows, ids[1..])
  }

  lemma SubtreesFirst(rows: seq<Row>, ids: seq<MsgId>, done: seq<Node>)
    requires ids != []
    ensures done + SubtreesOf(rows, ids) == done + [SubtreeOf(rows, ids[0])] + SubtreesOf(rows, ids[1..])
  {}

  lemma EnterFirst(rows: seq<Row>, below: seq<Step>, ids: seq<MsgId>, done: seq<Node>)
    requires ids != []
    ensures Outcome(rows, below + Enters(ids), done) ==
            Outcome(rows, below + Enters(ids[1..]), done + [SubtreeOf(rows, ids[0])])
  {
    TopStep(rows, below + Enters(ids[1..]), Enter(ids[0]), done);
    EntersTop(below, ids);
  }

  lemma {:induction false} EntersBuild(rows: seq<Row>, below: seq<Step>, ids: seq<MsgId>, done: seq<Node>)
    ensures Outcome(rows, below + Enters(ids), done) == Outcome(rows, below, done + SubtreesOf(rows, ids))
  {
    if ids == [] {
      assert below + Enters(ids) == below && done + SubtreesOf(rows, ids) == done;
    } else {
      EnterFirst(rows, below, ids, done);
      SubtreesFirst(rows, ids, done);
      EntersBuild(rows, below, ids[1..], done + [SubtreeOf(rows, ids[0])]);
    }
  }

  lemma {:induction false} EntersWork(rows: seq<Row>, below: seq<Step>, ids: seq<MsgId>)
    ensures Work(rows, below + Enters(ids)) == Work(rows, below) + 2 * Sizes(SubtreesOf(rows, ids))
  {
    if ids == [] {
      assert below + Enters(ids) == below;
    } else {
      EntersWork(rows, below, ids[1..]);
      TopStep(rows, below + Enters(ids[1..]), Enter(ids[0]), []);
      EntersTop(below, ids);
      assert SubtreesOf(rows, ids)[1..] == SubtreesOf(rows, ids[1..]);
    }
  }

  lemma FindRow(rows: seq<Row>, i: nat)
    requires DistinctIds(rows) && i < |rows|
    ensures Find(rows, |rows|, rows[i].id) == i
  {}

  lemma {:induction false} ForestById(rows: seq<Row>, ks: seq<nat>, floor: nat)
    requires DistinctIds(rows)
    requires floor <= |rows| && forall j :: 0 <= j < |ks| ==> floor <= ks[j] < |rows|
    ensures Forest(rows, ks, floor) == SubtreesOf(rows, IdsAt(rows, ks))
  {
    if ks != [] {
      ForestById(rows, ks[1..], floor);
      var ids := IdsAt(rows, ks);
      assert ids[1..] == IdsAt(rows, ks[1..]) && ids[0] == rows[ks[0]].id;
      FindRow(rows, ks[0]);
    }
  }

  lemma SubtreeOfRow(rows: seq<Row>, i: nat)
    requires DistinctIds(rows) && i < |rows|
    ensures Subtree(rows, i) == Node(rows[i].id, SubtreesOf(rows, RepliesIn(rows, |rows|, rows[i].id)))
  {
    var ks := Kids(rows, Some(i), |rows|);
    RepliesAreKids(rows, |rows|, i);
    ForestById(rows, ks, i + 1);
    assert Subtree(rows, i) == Node(rows[i].id, Forest(rows, ks, i + 1));
  }

  lemma SubtreeUnfolds(rows: seq<Row>, id: MsgId)
    requires DistinctIds(rows)
    ensures SubtreeOf(rows, id) == Node(id, SubtreesOf(rows, Replies(rows, id)))
  {
    var i := Find(rows, |rows|, id);
    if i < |rows| {
      SubtreeOfRow(rows, i);
    } else {
      StrangersHaveNoReplies(rows, |rows|, id);
    }
  }

  lemma {:induction false} SubtreesCount(rows: seq<Row>, ids: seq<MsgId>)
    ensures |SubtreesOf(rows, ids)| == |ids|
  {
    if ids != [] { SubtreesCount(rows, ids[1..]); }
  }

  /** Replacing `Enter` by its expansion changes nothing but the work left. */
  lemma ExpandEnter(rows: seq<Row>, below: seq<Step>, id: MsgId, done: seq<Node>)
    requires DistinctIds(rows)
    ensures var kids := Replies(rows, id);
            var expanded := below + [Exit(id, |kids|)] + Enters(kids);
            && Outcome(rows, expanded, done) == Outcome(rows, below + [Enter(id)], done)
            && Work(rows, expanded) < Work(rows, below + [Enter(id)])
  {
    var kids := Replies(rows, id);
    var kidNodes := SubtreesOf(rows, kids);
    SubtreeUnfolds(rows, id);
    SubtreesCount(rows, kids);
    TopStep(rows, below, Enter(id), done);
    TopStep(rows, below, Exit(id, |kids|), done + kidNodes);
    EntersBuild(rows, below + [Exit(id, |kids|)], kids, done);
    EntersWork(rows, below + [Exit(id, |kids|)], kids);
    assert (done + kidNodes)[..|done|] == done && (done + kidNodes)[|done|..] == kidNodes;
  }

  method PushReversed(stack: seq<Step>, kids: seq<MsgId>) returns (r: seq<Step>)
    ensures r == stack + Enters(kids)
  {
    r := stack;
    var j := |kids|;
    while j > 0
      invariant 0 <= j <= |kids|
      invariant r == stack + Enters(kids[j..])
    {
      j := j - 1;
      r := r + [Enter(kids[j])];
      assert kids[j..][1..] == kids[j + 1..];
    }
    assert kids[0..] == kids;
  }

  /** One turn of the loop: pops a step, and either opens a message or closes one. */
  method Turn(stack: seq<Step>, done: seq<Node>, children: map<MsgId, seq<MsgId>>, ghost rows: seq<Row>)
    returns (stack': seq<Step>, done': seq<Node>)
    requires DistinctIds(rows) && ChildrenOf(rows, children) && stack != []
    ensures Outcome(rows, stack', done') == Outcome(rows, stack, done)
    ensures Work(rows, stack') < Work(rows, stack)
  {
    var step, below := stack[|stack| - 1], stack[..|stack| - 1];
    assert stack == below + [step];
    match step
    case Enter(id) =>
      var kids := Filed(children, id);
      assert kids == Replies(rows, id);
      ExpandEnter(rows, below, id, done);
      stack' := PushReversed(below + [Exit(id, |kids|)], kids);
      done' := done;
    case Exit(id, count) =>
      TopStep(rows, below, step, done);
      var at := Minus(|done|, count);
      done' := done[..at] + [Node(id, done[at..])];
      stack' := below;
  }

  /** Builds one subtree iteratively: the stack replaces recursion along the reply chain. */
  method BuildNode(root: MsgId, children: map<MsgId, seq<MsgId>>, ghost rows: seq<Row>) returns (node: Node)
    requires DistinctIds(rows) && ChildrenOf(rows, children)
    ensures node == SubtreeOf(rows, root)
  {
    var stack := [Enter(root)];
    var done: seq<Node> := [];
    TopStep(rows, [], Enter(root), done);
    assert [] + [Enter(root)] == stack;
    while stack != []
      invariant Outcome(rows, stack, done) == [SubtreeOf(rows, root)]
      decreases Work(rows, stack)
    {
      stack, done := Turn(stack, done, children, rows);
    }
    node := if done != [] then done[|done| - 1] else Node(root, []);
  }

  // ----- the whole forest -----

  /** Message-ID to message, the oldest claim winning. */
  method IndexMids(rows: seq<Row>) returns (byMid: map<string, MsgId>)
    ensures forall mid :: mid in byMid <==> Holder(rows, |rows|, mid).Some?
    ensures forall mid :: mid in byMid ==> byMid[mid] == rows[Holder(rows, |rows|, mid).value].id
  {
    byMid := map[];
    for i := 0 to |rows|
      invariant forall mid :: mid in byMid <==> Holder(rows, i, mid).Some?
      invariant forall mid :: mid in byMid ==> byMid[mid] == rows[Holder(rows, i, mid).value].id
    {
      var mid := rows[i].mid;
      if mid != "" && mid !in byMid {
        byMid := byMid[mid := rows[i].id];
      }
    }
  }

  method IndexOrder(rows: seq<Row>) returns (order: map<MsgId, nat>)
    requires DistinctIds(rows)
    ensures forall i :: 0 <= i < |rows| ==> rows[i].id in order && order[rows[i].id] == i
  {
    order := map[];
    for i := 0 to |rows|
      invariant forall j :: 0 <= j < i ==> rows[j].id in order && order[rows[j].id] == j
    {
      order := order[rows[i].id := i];
    }
  }

  /** Walks the candidates from the end to the first that is an older message. */
  method FindParent(rows: seq<Row>, i: nat, byMid: map<string, MsgId>, order: map<MsgId, nat>)
    returns (parent: Option<MsgId>)
    requires DistinctIds(rows) && i < |rows|
    requires forall mid :: mid in byMid <==> Holder(rows, |rows|, mid).Some?
    requires forall mid :: mid in byMid ==> byMid[mid] == rows[Holder(rows, |rows|, mid).value].id
    requires forall j :: 0 <= j < |rows| ==> rows[j].id in order && order[rows[j].id] == j
    ensures parent == if Parent(rows, i).Some? then Some(rows[Parent(rows, i).value].id) else None
  {
    var candidates := rows[i].candidates;
    var c := |candidates|;
    assert candidates[..c] == candidates;
    while c > 0
      invariant 0 <= c <= |candidates|
      invariant Parent(rows, i) == LastOlder(rows, i, candidates[..c])
    {
      c := c - 1;
      assert candidates[..c + 1][..c] == candidates[..c];
      if candidates[c] in byMid {
        var candidate := byMid[candidates[c]];
        if candidate != rows[i].id && order[candidate] < order[rows[i].id] {
          return Some(candidate);
        }
      }
    }
    parent := None;
  }

  ghost predicate ParentsOf(rows: seq<Row>, parent: map<MsgId, MsgId>, n: nat)
    requires n <= |rows|
  {
    && (forall i :: 0 <= i < n ==> (rows[i].id in parent <==> Parent(rows, i).Some?))
    && (forall i :: 0 <= i < n && Parent(rows, i).Some? ==> parent[rows[i].id] == rows[Parent(rows, i).value].id)
  }

  method FindParents(rows: seq<Row>) returns (parent: map<MsgId, MsgId>)
    requires DistinctIds(rows)
    ensures ParentsOf(rows, parent, |rows|)
  {
    var byMid := IndexMids(rows);
    var order := IndexOrder(rows);
    parent := map[];
    for i := 0 to |rows|
      invariant ParentsOf(rows, parent, i)
      invariant forall j :: i <= j < |rows| ==> rows[j].id !in parent
    {
      var p := FindParent(rows, i, byMid, order);
      if p.Some? {
        parent := parent[rows[i].id := p.value];
      }
    }
  }

  lemma FileReply(rows: seq<Row>, k: nat, children: map<MsgId, seq<MsgId>>, p: MsgId)
    requires k < |rows| && ChildrenIn(rows, k, children)
    ensures Parent(rows, k).None? ==> ChildrenIn(rows, k + 1, children)
    ensures Parent(rows, k).Some? && p == rows[Parent(rows, k).value].id ==>
              ChildrenIn(rows, k + 1, children[p := Filed(children, p) + [rows[k].id]])
  {
    if Parent(rows, k).Some? && p == rows[Parent(rows, k).value].id {
      var updated := children[p := Filed(children, p) + [rows[k].id]];
      forall id: MsgId ensures Filed(updated, id) == RepliesIn(rows, k + 1, id) {
        assert Filed(children, id) == RepliesIn(rows, k, id);
      }
    } else if Parent(rows, k).None? {
      forall id: MsgId ensures Filed(children, id) == RepliesIn(rows, k + 1, id) {
        assert Filed(children, id) == RepliesIn(rows, k, id);
      }
    }
  }

  lemma RootIdsNext(rows: seq<Row>, k: nat)
    requires k < |rows|
    ensures IdsAt(rows, Kids(rows, None, k + 1)) ==
            if Parent(rows, k).None? then IdsAt(rows, Kids(rows, None, k)) + [rows[k].id] else IdsAt(rows, Kids(rows, None, k))
  {
    IdsAtAppend(rows, Kids(rows, None, k), k);
  }

  /** Files one message under its parent, or among the roots. */
  method FileOne(rows: seq<Row>, k: nat, parent: map<MsgId, MsgId>, children: map<MsgId, seq<MsgId>>, roots: seq<MsgId>)
    returns (children': map<MsgId, seq<MsgId>>, roots': seq<MsgId>)
    requires k < |rows| && ParentsOf(rows, parent, |rows|)
    requires ChildrenIn(rows, k, children) && roots == IdsAt(rows, Kids(rows, None, k))
    ensures ChildrenIn(rows, k + 1, children') && roots' == IdsAt(rows, Kids(rows, None, k + 1))
  {
    var id := rows[k].id;
    RootIdsNext(rows, k);
    children', roots' := children, roots;
    if id in parent {
      var p := parent[id];
      FileReply(rows, k, children, p);
      children' := children[p := Filed(children, p) + [id]];
    } else {
      FileReply(rows, k, children, id);
      roots' := roots + [id];
    }
  }

  method Distribute(rows: seq<Row>, parent: map<MsgId, MsgId>)
    returns (children: map<MsgId, seq<MsgId>>, roots: seq<MsgId>)
    requires ParentsOf(rows, parent, |rows|)
    ensures ChildrenOf(rows, children)
    ensures roots == IdsAt(rows, Kids(rows, None, |rows|))
  {
    children, roots := map[], [];
    for k := 0 to |rows|
      invariant ChildrenIn(rows, k, children)
      invariant roots == IdsAt(rows, Kids(rows, None, k))
    {
      children, roots := FileOne(rows, k, parent, children, roots);
    }
  }

  lemma {:induction false} SubtreesAppend(rows: seq<Row>, ids: seq<MsgId>, id: MsgId)
    ensures SubtreesOf(rows, ids + [id]) == SubtreesOf(rows, ids) + [SubtreeOf(rows, id)]
  {
    if ids == [] {
      assert ids + [id] == [id] && [id][1..] == [];
    } else {
      assert (ids + [id])[1..] == ids[1..] + [id];
      SubtreesAppend(rows, ids[1..], id);
    }
  }

  /** The reply forest of a thread. */
  method Tree(rows: seq<Row>) returns (forest: seq<Node>)
    requires DistinctIds(rows)
    ensures forest == Roots(rows)
  {
    var parent := FindParents(rows);
    var children, roots := Distribute(rows, parent);
    forest := [];
    for i := 0 to |roots|
      invariant forest == SubtreesOf(rows, roots[..i])
    {
      var node := BuildNode(roots[i], children, rows);
      SubtreesAppend(rows, roots[..i], roots[i]);
      TakeOneMore(roots, i);
      forest := forest + [node];
    }
    assert roots[..|roots|] == roots;
    ForestById(rows, Kids(rows, None, |rows|), 0);
  }

  // ----- flattening with an explicit stack -----

  datatype Pending = Pending(node: Node, depth: nat)

  /** The items the stack still stands for, its top first. */
  function Remaining(stack: seq<Pending>): seq<Item> {
    if stack == [] then []
    else
      var n := |stack| - 1;
      Preorder(stack[n].node, stack[n].depth) + Remaining(stack[..n])
  }

  function PendingSize(stack: seq<Pending>): nat {
    if stack == [] then 0
    else
      var n := |stack| - 1;
      Size(stack[n].node) + PendingSize(stack[..n])
  }

  /** Pushes nodes in reverse, so that the first is on top. */
  method PushNodes(stack: seq<Pending>, nodes: seq<Node>, depth: nat) returns (r: seq<Pending>)
    ensures Remaining(r) == PreorderAll(nodes, depth) + Remaining(stack)
    ensures PendingSize(r) == Sizes(nodes) + PendingSize(stack)
  {
    r := stack;
    var j := |nodes|;
    while j > 0
      invariant 0 <= j <= |nodes|
      invariant Remaining(r) == PreorderAll(nodes[j..], depth) + Remaining(stack)
      invariant PendingSize(r) == Sizes(nodes[j..]) + PendingSize(stack)
    {
      j := j - 1;
      PushOne(r, nodes, j, depth);
      Associative(Preorder(nodes[j], depth), PreorderAll(nodes[j + 1..], depth), Remaining(stack));
      r := r + [Pending(nodes[j], depth)];
    }
    assert nodes[0..] == nodes;
  }

  lemma PushOne(r: seq<Pending>, nodes: seq<Node>, j: nat, depth: nat)
    requires j < |nodes|
    ensures Remaining(r + [Pending(nodes[j], depth)]) == Preorder(nodes[j], depth) + Remaining(r)
    ensures PendingSize(r + [Pending(nodes[j], depth)]) == Size(nodes[j]) + PendingSize(r)
    ensures PreorderAll(nodes[j..], depth) == Preorder(nodes[j], depth) + PreorderAll(nodes[j + 1..], depth)
    ensures Sizes(nodes[j..]) == Size(nodes[j]) + Sizes(nodes[j + 1..])
  {
    assert (r + [Pending(nodes[j], depth)])[..|r|] == r;
    assert nodes[j..][1..] == nodes[j + 1..];
  }

  /** The listing drawn by the reading pane. */
  method Flatten(roots: seq<Node>) returns (items: seq<Item>)
    ensures items == PreorderAll(roots, 0)
  {
    items := [];
    var stack := PushNodes([], roots, 0);
    while stack != []
      invariant items + Remaining(stack) == PreorderAll(roots, 0)
      decreases PendingSize(stack)
    {
      var n := |stack| - 1;
      var node, depth := stack[n].node, stack[n].depth;
      ghost var below := stack[..n];
      items := items + [Item(node.id, depth)];
      stack := PushNodes(stack[..n], node.children, Deeper(depth));
    }
  }
}
