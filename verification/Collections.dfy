/** Small facts about the containers the source iterates over: a `BTreeSet` is walked in ascending
    order, a `sort_unstable` on distinct keys yields that same order, and `Option` stands for
    Rust's type of that name. */
module Collections {

  datatype Option<+T> = None | Some(value: T)

  datatype Result<+T> = Ok(value: T) | Err

  ghost predicate NoDuplicates<T(!new)>(s: seq<T>) {
    forall i, j :: 0 <= i < j < |s| ==> s[i] != s[j]
  }

  ghost function Elements<T>(s: seq<T>): set<T> {
    set x | x in s
  }

  /** Seconds in a day. */
  const DAY := 86400

  function Max(a: int, b: int): int {
    if a < b then b else a
  }

  /** How often `x` occurs. */
  function Count<T(==)>(s: seq<T>, x: T): nat {
    if s == [] then 0
    else Count(s[..|s| - 1], x) + if s[|s| - 1] == x then 1 else 0
  }

  lemma CountAppend<T>(s: seq<T>, last: T, x: T)
    ensures Count(s + [last], x) == Count(s, x) + if last == x then 1 else 0
  {
    assert (s + [last])[..|s|] == s;
  }

  predicate StrictlyAscending(s: seq<nat>) {
    forall i, j :: 0 <= i < j < |s| ==> s[i] < s[j]
  }

  predicate IsMinimum(m: nat, s: set<nat>) {
    m in s && forall x :: x in s ==> m <= x
  }

  lemma {:induction false} MinimumExists(s: set<nat>)
    requires s != {}
    ensures exists m :: IsMinimum(m, s)
  {
    var m :| m in s;
    var rest := s - {m};
    assert forall x :: x in s ==> x == m || x in rest;
    if rest == {} {
      assert IsMinimum(m, s);
    } else {
      MinimumExists(rest);
      var r :| IsMinimum(r, rest);
      assert IsMinimum(if m <= r then m else r, s);
    }
  }

  function Minimum(s: set<nat>): (m: nat)
    requires s != {}
    ensures IsMinimum(m, s)
  {
    MinimumExists(s);
    var m :| IsMinimum(m, s);
    m
  }

  /** The iteration order of a `BTreeSet`. */
  function Ascending(s: set<nat>): (r: seq<nat>)
    ensures StrictlyAscending(r)
    ensures forall x :: x in r <==> x in s
    ensures |r| == |s|
  {
    if s == {} then [] else
      var m := Minimum(s);
      var rest := Ascending(s - {m});
      assert forall x :: x in rest ==> m < x;
      [m] + rest
  }

  /** An ascending listing is determined by its elements. */
  lemma {:induction false} AscendingUnique(r: seq<nat>, s: set<nat>)
    requires StrictlyAscending(r) && forall x :: x in r <==> x in s
    ensures r == Ascending(s)
  {
    if r == [] {
      assert s == {};
    } else {
      assert r[0] in s;
      var m := Minimum(s);
      var i :| 0 <= i < |r| && r[i] == m;
      assert r == [m] + r[1..];
      AscendingUnique(r[1..], s - {m});
    }
  }

  lemma TakeOneMore<T>(s: seq<T>, i: nat)
    requires i < |s|
    ensures s[..i + 1] == s[..i] + [s[i]]
  {}

  lemma SplitLast<T>(s: seq<T>)
    requires s != []
    ensures s == s[..|s| - 1] + [s[|s| - 1]]
  {}

  lemma Associative<T>(a: seq<T>, b: seq<T>, c: seq<T>)
    ensures a + b + c == a + (b + c)
  {}
}
