/** The Autocrypt header: printing with folded key data, and parsing of its attributes. */
module Autocrypt {
  import opened Collections
  import opened Text

  // ----- white space -----

  /** Unicode's White_Space property. */
  predicate IsSpace(c: char) {
    var n := c as int;
    || 0x09 <= n <= 0x0D || n == 0x20 || n == 0x85 || n == 0xA0 || n == 0x1680
    || 0x2000 <= n <= 0x200A || n == 0x2028 || n == 0x2029 || n == 0x202F || n == 0x205F || n == 0x3000
  }

  ghost predicate AllSpace(s: string) {
    forall i :: 0 <= i < |s| ==> IsSpace(s[i])
  }

  ghost predicate NoSpace(s: string) {
    forall i :: 0 <= i < |s| ==> !IsSpace(s[i])
  }

  predicate Trimmed(s: string) {
    s == "" || (!IsSpace(s[0]) && !IsSpace(s[|s| - 1]))
  }

  function TrimStart(s: string): string {
    if s != "" && IsSpace(s[0]) then TrimStart(s[1..]) else s
  }

  function TrimEnd(s: string): string {
    if s != "" && IsSpace(s[|s| - 1]) then TrimEnd(s[..|s| - 1]) else s
  }

  function Trim(s: string): string {
    TrimEnd(TrimStart(s))
  }

  /** `split_whitespace().collect()` */
  function StripSpaces(s: string): string {
    if s == "" then ""
    else
      var n := |s| - 1;
      StripSpaces(s[..n]) + if IsSpace(s[n]) then "" else [s[n]]
  }

  lemma TrimFixed(s: string)
    requires Trimmed(s)
    ensures Trim(s) == s
  {}

  lemma {:induction false} TrimStartSuffix(s: string) returns (k: nat)
    ensures k <= |s| && TrimStart(s) == s[k..] && AllSpace(s[..k])
    ensures TrimStart(s) != "" ==> !IsSpace(TrimStart(s)[0])
  {
    if s != "" && IsSpace(s[0]) {
      var j := TrimStartSuffix(s[1..]);
      k := j + 1;
      assert s[1..][j..] == s[k..];
      assert forall i :: 0 < i < k ==> s[i] == s[1..][..j][i - 1];
    } else {
      k := 0;
    }
  }

  lemma {:induction false} TrimEndPrefix(s: string) returns (k: nat)
    ensures k <= |s| && TrimEnd(s) == s[..k] && AllSpace(s[k..])
    ensures TrimEnd(s) != "" ==> !IsSpace(TrimEnd(s)[|TrimEnd(s)| - 1])
  {
    if s != "" && IsSpace(s[|s| - 1]) {
      var n := |s| - 1;
      k := TrimEndPrefix(s[..n]);
      assert s[..n][..k] == s[..k];
      forall i | 0 <= i < |s[k..]| ensures IsSpace(s[k..][i]) {
        if k + i < n { assert s[k..][i] == s[..n][k..][i]; }
      }
    } else {
      k := |s|;
    }
  }

  lemma TrimIsTrimmed(s: string)
    ensures Trimmed(Trim(s))
  {
    var j := TrimStartSuffix(s);
    var k := TrimEndPrefix(TrimStart(s));
  }

  lemma TrimKeepsFree(s: string, c: char)
    requires Free(s, c)
    ensures Free(Trim(s), c)
  {
    var j := TrimStartSuffix(s);
    var k := TrimEndPrefix(TrimStart(s));
  }

  lemma {:induction false} TrimStartPad(pad: string, s: string)
    requires AllSpace(pad)
    ensures TrimStart(pad + s) == TrimStart(s)
  {
    if pad == "" {
      assert pad + s == s;
    } else {
      TrimStartPad(pad[1..], s);
      assert (pad + s)[1..] == pad[1..] + s;
    }
  }

  lemma {:induction false} TrimEndPad(s: string, pad: string)
    requires AllSpace(pad)
    ensures TrimEnd(s + pad) == TrimEnd(s)
  {
    if pad == "" {
      assert s + pad == s;
    } else {
      var n := |pad| - 1;
      TrimEndPad(s, pad[..n]);
      assert (s + pad)[..|s| + n] == s + pad[..n];
    }
  }

  lemma {:induction false} TrimStartAppend(s: string, pad: string)
    requires AllSpace(pad)
    ensures TrimStart(s + pad) == if AllSpace(s) then "" else TrimStart(s) + pad
    ensures AllSpace(s) ==> TrimStart(s) == ""
  {
    if s == "" {
      assert s + pad == pad + "";
      TrimStartPad(pad, "");
    } else {
      assert (s + pad)[0] == s[0];
      if IsSpace(s[0]) {
        TrimStartAppend(s[1..], pad);
        assert (s + pad)[1..] == s[1..] + pad;
        assert AllSpace(s) <==> AllSpace(s[1..]) by {
          assert forall i :: 1 <= i < |s| ==> s[i] == s[1..][i - 1];
        }
      }
    }
  }

  /** Surrounding white space does not matter to `trim`. */
  lemma TrimPadded(before: string, s: string, after: string)
    requires AllSpace(before) && AllSpace(after)
    ensures Trim(before + s + after) == Trim(s)
  {
    assert before + s + after == before + (s + after);
    TrimStartPad(before, s + after);
    TrimStartAppend(s, after);
    if !AllSpace(s) {
      TrimEndPad(TrimStart(s), after);
    }
  }

  // ----- attributes -----

  datatype Attribute = Attribute(key: string, value: string)

  function IndexOf(s: string, c: char): (i: nat)
    ensures i <= |s| && Free(s[..i], c) && (i < |s| ==> s[i] == c)
  {
    if s == "" || s[0] == c then 0
    else
      var i := IndexOf(s[1..], c);
      assert s[..i + 1] == [s[0]] + s[1..][..i];
      i + 1
  }

  /** One piece between semicolons: trimmed, then split at its first `=`. */
  function ParsePiece(piece: string): Option<Attribute> {
    var t := Trim(piece);
    var i := IndexOf(t, '=');
    if i == |t| then None else Some(Attribute(Trim(t[..i]), Trim(t[i + 1..])))
  }

  /** `filter_map` keeps the pieces that are attributes. */
  function Somes(parsed: seq<Option<Attribute>>): seq<Attribute> {
    if parsed == [] then []
    else
      var n := |parsed| - 1;
      Somes(parsed[..n]) + if parsed[n].Some? then [parsed[n].value] else []
  }

  function ParseAll(pieces: seq<string>): seq<Option<Attribute>> {
    seq(|pieces|, i requires 0 <= i < |pieces| => ParsePiece(pieces[i]))
  }

  function Attributes(pieces: seq<string>): seq<Attribute> {
    Somes(ParseAll(pieces))
  }

  function AttributeOf(piece: string): seq<Attribute> {
    var a := ParsePiece(piece);
    if a.Some? then [a.value] else []
  }

  lemma SomesLast(parsed: seq<Option<Attribute>>, p: Option<Attribute>)
    ensures Somes(parsed + [p]) == Somes(parsed) + if p.Some? then [p.value] else []
  {
    assert (parsed + [p])[..|parsed|] == parsed;
  }

  lemma SomesOne(p: Option<Attribute>)
    ensures Somes([p]) == if p.Some? then [p.value] else []
  {
    SomesLast([], p);
    assert [] + [p] == [p];
  }

  /** Collecting into a map: a repeated key takes its last value. */
  function ToMap(attributes: seq<Attribute>): map<string, string> {
    if attributes == [] then map[]
    else
      var n := |attributes| - 1;
      ToMap(attributes[..n])[attributes[n].key := attributes[n].value]
  }

  // ----- the header -----

  datatype EncryptPreference = NoPreference | Mutual

  datatype Aheader<K> = Aheader(addr: string, publicKey: K, prefer: EncryptPreference, verified: bool)

  /** Base64, OpenPGP and Unicode lower-casing; `decode` is applied after white space has been removed. */
  datatype Codec<!K> = Codec(
    encode: K -> string,
    decode: string -> Option<K>,
    verify: K -> bool,
    lower: string -> string)

  /** Keys survive the encoding, which has neither white space nor semicolons; lower-casing, which maps
      letters to letters, neither makes nor removes those. */
  ghost predicate Faithful<K(!new)>(c: Codec<K>) {
    && (forall k :: c.decode(c.encode(k)) == Some(k) && NoSpace(c.encode(k)) && Free(c.encode(k), ';'))
    && (forall s :: (Trimmed(c.lower(s)) <==> Trimmed(s)) && (Free(c.lower(s), ';') <==> Free(s, ';')))
  }

  const ADDR := "addr"
  const KEYDATA := "keydata"
  const PREFER := "prefer-encrypt"
  const VERIFIED := "_verified"

  predicate Ignorable(key: string) {
    key != "" && key[0] == '_'
  }

  predicate IsKnown(key: string) {
    key == ADDR || key == KEYDATA || key == PREFER || key == VERIFIED
  }

  function Preference(raw: Option<string>): EncryptPreference {
    if raw == Some("mutual") then Mutual else NoPreference
  }

  function Lookup(m: map<string, string>, key: string): Option<string> {
    if key in m then Some(m[key]) else None
  }

  function Interpret<K>(c: Codec<K>, m: map<string, string>): Result<Aheader<K>> {
    if ADDR !in m || KEYDATA !in m then Err
    else
      var k := c.decode(StripSpaces(m[KEYDATA]));
      if k.None? || !c.verify(k.value) || Leftover(m) then Err
      else Ok(Aheader(m[ADDR], k.value, Preference(Lookup(m, PREFER)), Lookup(m, VERIFIED).Some?))
  }

  function ParsePieces<K>(c: Codec<K>, pieces: seq<string>): Result<Aheader<K>> {
    Interpret(c, ToMap(Attributes(pieces)))
  }

  function Parse<K>(c: Codec<K>, s: string): Result<Aheader<K>> {
    ParsePieces(c, Split(s, ';'))
  }

  lemma CollectOneMore(pieces: seq<string>, i: nat)
    requires i < |pieces|
    ensures var a, before := ParsePiece(pieces[i]), ToMap(Attributes(pieces[..i]));
            ToMap(Attributes(pieces[..i + 1])) == if a.Some? then before[a.value.key := a.value.value] else before
  {
    var parsed, p := ParseAll(pieces[..i]), ParsePiece(pieces[i]);
    assert ParseAll(pieces[..i + 1]) == parsed + [p];
    SomesLast(parsed, p);
    assert Somes(parsed) + [] == Somes(parsed);
    if p.Some? {
      assert (Somes(parsed) + [p.value])[..|Somes(parsed)|] == Somes(parsed);
    }
  }

  method Collect(s: string) returns (attributes: map<string, string>)
    ensures attributes == ToMap(Attributes(Split(s, ';')))
  {
    var pieces := Split(s, ';');
    attributes := map[];
    for i := 0 to |pieces|
      invariant attributes == ToMap(Attributes(pieces[..i]))
    {
      CollectOneMore(pieces, i);
      var a := ParsePiece(pieces[i]);
      if a.Some? {
        attributes := attributes[a.value.key := a.value.value];
      }
    }
    assert pieces[..|pieces|] == pieces;
  }

  lemma KeysDistinct()
    ensures ADDR != KEYDATA && ADDR != PREFER && ADDR != VERIFIED
    ensures KEYDATA != PREFER && KEYDATA != VERIFIED && PREFER != VERIFIED
  {
    assert ADDR[0] == 'a' && KEYDATA[0] == 'k' && PREFER[0] == 'p' && VERIFIED[0] == '_';
  }

  /** Removing one known key leaves what the others say and what remains unknown. */
  lemma TakeKnown(m: map<string, string>, key: string)
    ensures forall k :: k != key ==> Lookup(m - {key}, k) == Lookup(m, k)
    ensures key !in m - {key}
  {}

  predicate Leftover(m: map<string, string>) {
    exists key :: key in m && !IsKnown(key) && !Ignorable(key)
  }

  lemma LeftoverAfter(m: map<string, string>, rest: map<string, string>)
    requires rest == m - {ADDR} - {KEYDATA} - {PREFER} - {VERIFIED}
    ensures (exists k :: k in rest && !Ignorable(k)) <==> Leftover(m)
  {
    assert forall k :: k in rest <==> k in m && !IsKnown(k);
  }

  /** Removes the known attributes one by one from the collected map. */
  method FromStr<K>(c: Codec<K>, s: string) returns (r: Result<Aheader<K>>)
    ensures r == Parse(c, s)
  {
    var m := Collect(s);
    KeysDistinct();
    if ADDR !in m { return Err; }
    var addr := m[ADDR];
    TakeKnown(m, ADDR);
    var m1 := m - {ADDR};
    if KEYDATA !in m1 { return Err; }
    var key := c.decode(StripSpaces(m1[KEYDATA]));
    TakeKnown(m1, KEYDATA);
    var m2 := m1 - {KEYDATA};
    if key.None? || !c.verify(key.value) { return Err; }
    var prefer := Preference(Lookup(m2, PREFER));
    TakeKnown(m2, PREFER);
    var m3 := m2 - {PREFER};
    var verified := Lookup(m3, VERIFIED).Some?;
    var m4 := m3 - {VERIFIED};
    LeftoverAfter(m, m4);
    if exists k :: k in m4 && !Ignorable(k) { return Err; }
    r := Ok(Aheader(addr, key.value, prefer, verified));
  }

  // ----- what parsing depends on -----

  function LastValue(attributes: seq<Attribute>, key: string): Option<string> {
    if attributes == [] then None
    else
      var n := |attributes| - 1;
      if attributes[n].key == key then Some(attributes[n].value) else LastValue(attributes[..n], key)
  }

  lemma {:induction false} MapHoldsLast(attributes: seq<Attribute>, key: string)
    ensures Lookup(ToMap(attributes), key) == LastValue(attributes, key)
  {
    if attributes != [] {
      MapHoldsLast(attributes[..|attributes| - 1], key);
    }
  }

  ghost predicate Mentions(attributes: seq<Attribute>, key: string) {
    exists i :: 0 <= i < |attributes| && attributes[i].key == key
  }

  lemma {:induction false} InMap(attributes: seq<Attribute>, key: string)
    ensures key in ToMap(attributes) <==> Mentions(attributes, key)
    ensures LastValue(attributes, key).Some? <==> Mentions(attributes, key)
  {
    if attributes != [] {
      var n := |attributes| - 1;
      InMap(attributes[..n], key);
      if Mentions(attributes[..n], key) {
        var i :| 0 <= i < n && attributes[..n][i].key == key;
        assert attributes[i].key == key;
      }
      if Mentions(attributes, key) && attributes[n].key != key {
        var i :| 0 <= i < n && attributes[i].key == key;
        assert attributes[..n][i].key == key;
      }
    }
  }

  /** What is not one of the four attributes and does not start with an underscore. */
  predicate IsUnknown(key: string) {
    && key != "addr" && key != "keydata" && key != "prefer-encrypt" && key != "_verified"
    && (key == "" || key[0] != '_')
  }

  lemma LeftoverIsUnknown(attributes: seq<Attribute>)
    ensures Leftover(ToMap(attributes)) <==> exists i :: 0 <= i < |attributes| && IsUnknown(attributes[i].key)
  {
    var m := ToMap(attributes);
    if Leftover(m) {
      var key :| key in m && !IsKnown(key) && !Ignorable(key);
      InMap(attributes, key);
      var i :| 0 <= i < |attributes| && attributes[i].key == key;
      assert IsUnknown(attributes[i].key);
    }
    if i :| 0 <= i < |attributes| && IsUnknown(attributes[i].key) {
      InMap(attributes, attributes[i].key);
      assert attributes[i].key in m && !IsKnown(attributes[i].key) && !Ignorable(attributes[i].key);
    }
  }

  /** When a header is valid and what it says, by the last value of each attribute. */
  lemma ParseMeaning<K>(c: Codec<K>, s: string)
    ensures var a, r := Attributes(Split(s, ';')), Parse(c, s);
            var addr, raw := LastValue(a, "addr"), LastValue(a, "keydata");
            && (r.Ok? <==>
                  && addr.Some? && raw.Some? && c.decode(StripSpaces(raw.value)).Some?
                  && c.verify(c.decode(StripSpaces(raw.value)).value)
                  && !exists i :: 0 <= i < |a| && IsUnknown(a[i].key))
            && (r.Ok? ==>
                  && r.value.addr == addr.value && Some(r.value.publicKey) == c.decode(StripSpaces(raw.value))
                  && (r.value.prefer == Mutual <==> LastValue(a, "prefer-encrypt") == Some("mutual"))
                  && (r.value.verified <==> LastValue(a, "_verified").Some?))
  {
    var a := Attributes(Split(s, ';'));
    MapHoldsLast(a, "addr");
    MapHoldsLast(a, "keydata");
    MapHoldsLast(a, "prefer-encrypt");
    MapHoldsLast(a, "_verified");
    LeftoverIsUnknown(a);
  }

  /** Same last value of every attribute that is not to be ignored. */
  ghost predicate SameMeaning(a: seq<Attribute>, b: seq<Attribute>) {
    forall key :: IsKnown(key) || !Ignorable(key) ==> LastValue(a, key) == LastValue(b, key)
  }

  lemma SameMeaningSameResult<K>(c: Codec<K>, a: seq<Attribute>, b: seq<Attribute>)
    requires SameMeaning(a, b)
    ensures Interpret(c, ToMap(a)) == Interpret(c, ToMap(b))
  {
    forall key | IsKnown(key) || !Ignorable(key) ensures Lookup(ToMap(a), key) == Lookup(ToMap(b), key) {
      MapHoldsLast(a, key);
      MapHoldsLast(b, key);
    }
    assert IsKnown(ADDR) && IsKnown(KEYDATA) && IsKnown(PREFER) && IsKnown(VERIFIED);
    var ma, mb := ToMap(a), ToMap(b);
    assert forall key :: !IsKnown(key) && !Ignorable(key) ==> (key in ma <==> key in mb) by {
      forall key | !IsKnown(key) && !Ignorable(key) ensures key in ma <==> key in mb {
        assert Lookup(ma, key) == Lookup(mb, key);
      }
    }
    assert Lookup(ma, ADDR) == Lookup(mb, ADDR) && Lookup(ma, KEYDATA) == Lookup(mb, KEYDATA);
    assert Lookup(ma, PREFER) == Lookup(mb, PREFER) && Lookup(ma, VERIFIED) == Lookup(mb, VERIFIED);
  }

  lemma {:induction false} LastValueConcat(a: seq<Attribute>, b: seq<Attribute>, key: string)
    ensures LastValue(a + b, key) == if LastValue(b, key).Some? then LastValue(b, key) else LastValue(a, key)
  {
    if b == [] {
      assert a + b == a;
    } else {
      var n := |b| - 1;
      LastValueConcat(a, b[..n], key);
      assert (a + b)[..|a| + n] == a + b[..n];
    }
  }

  lemma {:induction false} SomesConcat(a: seq<Option<Attribute>>, b: seq<Option<Attribute>>)
    ensures Somes(a + b) == Somes(a) + Somes(b)
  {
    if b == [] {
      assert a + b == a;
    } else {
      var start, last := b[..|b| - 1], b[|b| - 1];
      SplitLast(b);
      SomesConcat(a, start);
      SomesLast(a + start, last);
      Associative(a, start, [last]);
      SomesLast(start, last);
    }
  }

  lemma AttributesConcat(a: seq<string>, b: seq<string>)
    ensures Attributes(a + b) == Attributes(a) + Attributes(b)
  {
    assert ParseAll(a + b) == ParseAll(a) + ParseAll(b);
    SomesConcat(ParseAll(a), ParseAll(b));
  }

  lemma AttributesAround(before: seq<string>, piece: string, after: seq<string>)
    ensures Attributes(before + [piece] + after) == Attributes(before) + AttributeOf(piece) + Attributes(after)
  {
    assert ParseAll([piece]) == [ParsePiece(piece)];
    SomesOne(ParsePiece(piece));
    AttributesConcat(before, [piece]);
    AttributesConcat(before + [piece], after);
  }

  /** The pieces of a header are what stands between its semicolons. */
  lemma ParseJoined<K>(c: Codec<K>, pieces: seq<string>)
    requires pieces != [] && AllFree(pieces, ';')
    ensures Parse(c, Join(pieces, ';')) == ParsePieces(c, pieces)
  {
    SplitJoin(pieces, ';');
  }

  /** A piece without `=`, or with a key to be ignored, can be inserted anywhere. */
  lemma IgnoredPiece<K>(c: Codec<K>, before: seq<string>, piece: string, after: seq<string>)
    requires var a := ParsePiece(piece); a.None? || (Ignorable(a.value.key) && a.value.key != VERIFIED)
    ensures ParsePieces(c, before + [piece] + after) == ParsePieces(c, before + after)
  {
    var a, x, b := Attributes(before), AttributeOf(piece), Attributes(after);
    AttributesConcat(before, after);
    AttributesAround(before, piece, after);
    forall key | IsKnown(key) || !Ignorable(key) ensures LastValue(a + x + b, key) == LastValue(a + b, key) {
      LastValueConcat(a, b, key);
      LastValueConcat(a + x, b, key);
      LastValueConcat(a, x, key);
    }
    SameMeaningSameResult(c, a + x + b, a + b);
  }

  lemma PaddedAttribute(left: string, piece: string, right: string)
    requires AllSpace(left) && AllSpace(right)
    ensures AttributeOf(left + piece + right) == AttributeOf(piece)
  {
    TrimPadded(left, piece, right);
  }

  lemma SameAttributeSameResult<K>(c: Codec<K>, before: seq<string>, p: string, q: string, after: seq<string>)
    requires AttributeOf(p) == AttributeOf(q)
    ensures ParsePieces(c, before + [p] + after) == ParsePieces(c, before + [q] + after)
  {
    AttributesAround(before, p, after);
    AttributesAround(before, q, after);
  }

  /** White space around a piece does not matter. */
  lemma PaddedPiece<K>(c: Codec<K>, before: seq<string>, left: string, piece: string, right: string, after: seq<string>)
    requires AllSpace(left) && AllSpace(right)
    ensures ParsePieces(c, before + [left + piece + right] + after) == ParsePieces(c, before + [piece] + after)
  {
    PaddedAttribute(left, piece, right);
    SameAttributeSameResult(c, before, left + piece + right, piece, after);
  }

  ghost predicate DistinctKeys(a: seq<Attribute>) {
    forall i, j :: 0 <= i < j < |a| ==> a[i].key != a[j].key
  }

  lemma {:induction false} LastValueOfDistinct(a: seq<Attribute>, key: string)
    requires DistinctKeys(a)
    ensures forall i :: 0 <= i < |a| && a[i].key == key ==> LastValue(a, key) == Some(a[i].value)
    ensures LastValue(a, key).Some? ==> Attribute(key, LastValue(a, key).value) in a
  {
    if a != [] {
      var n := |a| - 1;
      LastValueOfDistinct(a[..n], key);
      assert forall i :: 0 <= i < n ==> a[..n][i] == a[i];
      assert a[..n] + [a[n]] == a;
    }
  }

  lemma ValueCarriesOver(a: seq<Attribute>, b: seq<Attribute>, key: string)
    requires DistinctKeys(a) && DistinctKeys(b) && Elements(a) <= Elements(b) && LastValue(a, key).Some?
    ensures LastValue(b, key) == LastValue(a, key)
  {
    LastValueOfDistinct(a, key);
    LastValueOfDistinct(b, key);
    var x := Attribute(key, LastValue(a, key).value);
    assert x in Elements(a);
    var i :| 0 <= i < |b| && b[i] == x;
  }

  /** Attributes with distinct keys may come in any order. */
  lemma AttributeOrderIrrelevant<K>(c: Codec<K>, p: seq<string>, q: seq<string>)
    requires DistinctKeys(Attributes(p)) && DistinctKeys(Attributes(q))
    requires Elements(Attributes(p)) == Elements(Attributes(q))
    ensures ParsePieces(c, p) == ParsePieces(c, q)
  {
    var a, b := Attributes(p), Attributes(q);
    forall key ensures LastValue(a, key) == LastValue(b, key) {
      if LastValue(a, key).Some? {
        ValueCarriesOver(a, b, key);
      } else if LastValue(b, key).Some? {
        ValueCarriesOver(b, a, key);
      }
    }
    SameMeaningSameResult(c, a, b);
  }

  /** An unknown attribute that may not be ignored makes the header invalid, wherever it stands. */
  lemma UnknownAttributeInvalid<K>(c: Codec<K>, before: seq<string>, piece: string, after: seq<string>)
    requires var a := ParsePiece(piece); a.Some? && !IsKnown(a.value.key) && !Ignorable(a.value.key)
    ensures ParsePieces(c, before + [piece] + after) == Err
  {
    var key := ParsePiece(piece).value.key;
    var a, x, b := Attributes(before), AttributeOf(piece), Attributes(after);
    AttributesAround(before, piece, after);
    LastValueConcat(a + x, b, key);
    LastValueConcat(a, x, key);
    MapHoldsLast(a + x + b, key);
  }

  /** Of several values for one key the last counts: an earlier one can be dropped. */
  lemma LastValueCounts<K>(c: Codec<K>, before: seq<string>, first: string, after: seq<string>)
    requires ParsePiece(first).Some? && LastValue(Attributes(after), ParsePiece(first).value.key).Some?
    ensures ParsePieces(c, before + [first] + after) == ParsePieces(c, before + after)
  {
    var a, x, b := Attributes(before), AttributeOf(first), Attributes(after);
    AttributesConcat(before, after);
    AttributesAround(before, first, after);
    forall key ensures LastValue(a + x + b, key) == LastValue(a + b, key) {
      LastValueConcat(a, b, key);
      LastValueConcat(a + x, b, key);
      LastValueConcat(a, x, key);
    }
    SameMeaningSameResult(c, a + x + b, a + b);
  }

  // ----- printing -----

  const LINE := 78

  /** A space goes before the characters that would start a new line of the keydata attribute. */
  predicate BreakBefore(i: nat) {
    i % LINE == LINE - |KEYDATA + "="|
  }

  function Fold(s: string): string {
    if s == "" then ""
    else
      var n := |s| - 1;
      Fold(s[..n]) + (if BreakBefore(n) then " " else "") + [s[n]]
  }

  function AddrPiece(addr: string): string {
    ADDR + "=" + addr
  }

  function PreferPiece(prefer: EncryptPreference): seq<string> {
    if prefer == Mutual then [" " + (PREFER + "=" + "mutual")] else []
  }

  function KeyPiece(encoded: string): string {
    " " + (KEYDATA + "=" + Fold(encoded))
  }

  function Pieces<K>(c: Codec<K>, h: Aheader<K>): seq<string> {
    [AddrPiece(c.lower(h.addr))] + PreferPiece(h.prefer) + [KeyPiece(c.encode(h.publicKey))]
  }

  function Print<K>(c: Codec<K>, h: Aheader<K>): string {
    var start := AddrPiece(c.lower(h.addr)) + ";";
    (if h.prefer == Mutual then start + (PreferPiece(h.prefer)[0] + ";") else start)
    + KeyPiece(c.encode(h.publicKey))
  }

  method Display<K>(c: Codec<K>, h: Aheader<K>) returns (out: string)
    ensures out == Print(c, h)
  {
    out := ADDR + "=" + c.lower(h.addr) + ";";
    if h.prefer == Mutual {
      out := out + (" " + (PREFER + "=" + "mutual") + ";");
    }
    var raw := c.encode(h.publicKey);
    var keydata := "";
    for i := 0 to |raw|
      invariant keydata == Fold(raw[..i])
    {
      assert raw[..i + 1][..i] == raw[..i];
      if BreakBefore(i) {
        keydata := keydata + " ";
      }
      keydata := keydata + [raw[i]];
    }
    assert raw[..|raw|] == raw;
    out := out + (" " + (KEYDATA + "=" + keydata));
  }

  // ----- folding -----

  lemma StripAppend(s: string, c: char)
    ensures StripSpaces(s + [c]) == StripSpaces(s) + if IsSpace(c) then "" else [c]
  {
    assert (s + [c])[..|s|] == s;
  }

  /** Removing the inserted spaces gives back the key data. */
  lemma {:induction false} StripFold(s: string)
    requires NoSpace(s)
    ensures StripSpaces(Fold(s)) == s
  {
    if s != "" {
      var n := |s| - 1;
      StripFold(s[..n]);
      var f := Fold(s[..n]);
      StripAppend(f, ' ');
      StripAppend(f, s[n]);
      StripAppend(f + " ", s[n]);
      assert f + "" == f;
      assert s[..n] + [s[n]] == s;
    }
  }

  /** The printed attribute has a space at every 79th place and nowhere else. */
  lemma {:induction false} FoldedLayout(s: string)
    requires NoSpace(s)
    ensures |Fold(s)| == |s| + (|s| + 7) / LINE
    ensures forall p :: 0 <= p < |Fold(s)| ==> (IsSpace(Fold(s)[p]) <==> (8 + p) % (LINE + 1) == LINE)
  {
    if s != "" {
      var n := |s| - 1;
      FoldedLayout(s[..n]);
      assert |KEYDATA + "="| == 8;
      LineArithmetic(n);
    }
  }

  lemma LineArithmetic(n: nat)
    ensures var at := 8 + n + (n + 7) / LINE;
            && (n + 8) / LINE == (n + 7) / LINE + (if n % LINE == 70 then 1 else 0)
            && (n % LINE == 70 ==> at % (LINE + 1) == LINE && (at + 1) % (LINE + 1) != LINE)
            && (n % LINE != 70 ==> at % (LINE + 1) != LINE)
  {
    var q, r := n / LINE, n % LINE;
    assert n == LINE * q + r;
    if r < 70 {
      assert (n + 7) / LINE == q && (n + 8) / LINE == q;
      assert 8 + n + q == (LINE + 1) * q + (8 + r);
    } else if r == 70 {
      assert (n + 7) / LINE == q && (n + 8) / LINE == q + 1;
      assert 8 + n + q == (LINE + 1) * q + LINE;
    } else {
      assert (n + 7) / LINE == q + 1 && (n + 8) / LINE == q + 1;
      assert 8 + n + q + 1 == (LINE + 1) * (q + 1) + (r - 70);
    }
  }

  lemma NextBreak(from: nat) returns (p: nat)
    ensures from <= p <= from + 78 && p % 79 == 78
  {
    p := from + (78 - from % 79);
  }

  /** Of any 79 consecutive characters of the printed attribute one is a space, so that no line
      need be longer than the 78 characters of section 2.1.1 of RFC 5322. */
  lemma EveryLineBreaks(s: string, from: nat) returns (p: nat)
    requires NoSpace(s) && from + 78 < |"keydata=" + Fold(s)|
    ensures from <= p <= from + 78 && IsSpace(("keydata=" + Fold(s))[p])
  {
    p := NextBreak(from);
    FoldedLayout(s);
    assert |"keydata="| == 8;
    assert ("keydata=" + Fold(s))[p] == Fold(s)[p - 8];
  }

  lemma PieceTexts(addr: string, folded: string)
    ensures ADDR + "=" + addr == "addr=" + addr
    ensures " " + (PREFER + "=" + "mutual") + ";" == " prefer-encrypt=mutual;"
    ensures " " + (KEYDATA + "=" + folded) == " keydata=" + folded
  {
    assert ADDR + "=" == "addr=";
    assert " " + (KEYDATA + "=") == " keydata=";
    assert " " + (KEYDATA + "=" + folded) == " " + (KEYDATA + "=") + folded;
  }

  /** The text of a printed header. */
  lemma PrintedText<K>(c: Codec<K>, h: Aheader<K>)
    ensures Print(c, h) ==
            "addr=" + c.lower(h.addr) + ";" + (if h.prefer == Mutual then " prefer-encrypt=mutual;" else "")
            + (" keydata=" + Fold(c.encode(h.publicKey)))
  {
    PieceTexts(c.lower(h.addr), Fold(c.encode(h.publicKey)));
    var start := "addr=" + c.lower(h.addr) + ";";
    assert start + "" == start;
  }

  // ----- round trip -----

  lemma {:induction false} IndexOfFirst(key: string, value: string)
    requires Free(key, '=')
    ensures IndexOf(key + "=" + value, '=') == |key|
  {
    var t := key + "=" + value;
    if key != "" {
      IndexOfFirst(key[1..], value);
      assert t[1..] == key[1..] + "=" + value && t[0] == key[0];
    }
  }

  lemma AssignmentIsTrimmed(key: string, value: string)
    requires key != "" && Trimmed(key) && Trimmed(value)
    ensures Trim(key + "=" + value) == key + "=" + value
  {
    var t := key + "=" + value;
    assert t[0] == key[0] && t[|t| - 1] == if value == "" then '=' else value[|value| - 1];
    TrimFixed(t);
  }

  lemma AssignmentParts(key: string, value: string)
    ensures var t := key + "=" + value; t[..|key|] == key && t[|key| + 1..] == value
  {}

  lemma PieceParsed(piece: string, t: string, i: nat)
    requires Trim(piece) == t && i < |t| && IndexOf(t, '=') == i
    ensures ParsePiece(piece) == Some(Attribute(Trim(t[..i]), Trim(t[i + 1..])))
  {}

  lemma ParseAssignment(pad: string, key: string, value: string)
    requires AllSpace(pad) && key != "" && Trimmed(key) && Free(key, '=') && Trimmed(value)
    ensures ParsePiece(pad + (key + "=" + value)) == Some(Attribute(key, value))
  {
    var t := key + "=" + value;
    TrimPadded(pad, t, "");
    assert pad + t + "" == pad + t;
    AssignmentIsTrimmed(key, value);
    IndexOfFirst(key, value);
    PieceParsed(pad + t, t, |key|);
    AssignmentParts(key, value);
    TrimFixed(key);
    TrimFixed(value);
  }

  /** Trimming takes white space off both ends, and all of it. */
  lemma TrimTakesSpace(s: string) returns (before: string, after: string)
    ensures s == before + Trim(s) + after && AllSpace(before) && AllSpace(after) && Trimmed(Trim(s))
    ensures Trim(s) == "" ==> AllSpace(s)
  {
    var j := TrimStartSuffix(s);
    var t := TrimStart(s);
    var k := TrimEndPrefix(t);
    before, after := s[..j], t[k..];
    TrimIsTrimmed(s);
    assert s == s[..j] + (t[..k] + t[k..]);
    if Trim(s) == "" {
      assert s == before + after;
    }
  }

  /** The same, with all of a blank string taken off one end. */
  lemma TrimTakesFront(s: string) returns (before: string, after: string)
    ensures s == before + Trim(s) + after && AllSpace(before) && AllSpace(after) && Trimmed(Trim(s))
    ensures Trim(s) == "" ==> after == ""
  {
    before, after := TrimTakesSpace(s);
    if Trim(s) == "" {
      before, after := s, "";
      assert s + "" + "" == s;
    }
  }

  lemma TrimTakesBack(s: string) returns (before: string, after: string)
    ensures s == before + Trim(s) + after && AllSpace(before) && AllSpace(after) && Trimmed(Trim(s))
    ensures Trim(s) == "" ==> before == ""
  {
    before, after := TrimTakesSpace(s);
    if Trim(s) == "" {
      before, after := "", s;
      assert "" + "" + s == s;
    }
  }

  lemma InnerTrimmed(key: string, a: string, b: string, value: string)
    requires Trimmed(key) && Trimmed(value) && (key == "" ==> a == "") && (value == "" ==> b == "")
    ensures Trimmed(key + a + "=" + (b + value))
  {
    var t := key + a + "=" + (b + value);
    assert t[0] == if key == "" then '=' else key[0];
    assert t[|t| - 1] == if value == "" then '=' else value[|value| - 1];
  }

  lemma TrimSides(key: string, a: string, b: string, value: string)
    requires Trimmed(key) && Trimmed(value) && AllSpace(a) && AllSpace(b)
    ensures Trim(key + a) == key && Trim(b + value) == value
  {
    TrimPadded("", key, a);
    TrimPadded(b, value, "");
    assert "" + key + a == key + a && b + value + "" == b + value;
    TrimFixed(key);
    TrimFixed(value);
  }

  /** With what is left between key and value. */
  lemma InnerAssignment(key: string, a: string, b: string, value: string)
    requires Trimmed(key) && Trimmed(value) && AllSpace(a) && AllSpace(b) && Free(key + a, '=')
    requires (key == "" ==> a == "") && (value == "" ==> b == "")
    ensures ParsePiece(key + a + "=" + (b + value)) == Some(Attribute(key, value))
  {
    InnerTrimmed(key, a, b, value);
    TrimSides(key, a, b, value);
    SplitAssignment(key + a, b + value);
  }

  lemma SplitAssignment(left: string, right: string)
    requires Free(left, '=') && Trimmed(left + "=" + right)
    ensures ParsePiece(left + "=" + right) == Some(Attribute(Trim(left), Trim(right)))
  {
    var t := left + "=" + right;
    TrimFixed(t);
    IndexOfFirst(left, right);
    PieceParsed(t, t, |left|);
    AssignmentParts(left, right);
  }

  lemma FreeSuffix(before: string, s: string, c: char)
    requires Free(before + s, c)
    ensures Free(s, c)
  {
    forall i | 0 <= i < |s| ensures s[i] != c {
      assert (before + s)[|before| + i] == s[i];
    }
  }

  lemma Regroup(b1: string, key: string, a1: string, b2: string, value: string, a2: string)
    ensures b1 + key + a1 + "=" + (b2 + value + a2) == b1 + (key + a1 + "=" + (b2 + value)) + a2
    ensures b1 + key + a1 == b1 + (key + a1)
  {}

  lemma PaddedSame(left: string, piece: string, right: string)
    requires AllSpace(left) && AllSpace(right)
    ensures ParsePiece(left + piece + right) == ParsePiece(piece)
  {
    TrimPadded(left, piece, right);
  }

  /** A piece with `=` is an attribute: its key is what stands before the first one, its value all that
      follows, both trimmed. */
  lemma PieceMeaning(key: string, value: string)
    requires Free(key, '=')
    ensures ParsePiece(key + "=" + value) == Some(Attribute(Trim(key), Trim(value)))
  {
    var b1, a1 := TrimTakesFront(key);
    var b2, a2 := TrimTakesBack(value);
    Regroup(b1, Trim(key), a1, b2, Trim(value), a2);
    FreeSuffix(b1, Trim(key) + a1, '=');
    InnerAssignment(Trim(key), a1, b2, Trim(value));
    PaddedSame(b1, Trim(key) + a1 + "=" + (b2 + Trim(value)), a2);
  }

  /** A piece without `=` is none. */
  lemma PieceWithoutEquals(piece: string)
    requires Free(piece, '=')
    ensures ParsePiece(piece) == None
  {
    TrimKeepsFree(piece, '=');
  }

  lemma {:induction false} FoldIsTrimmed(s: string)
    requires NoSpace(s)
    ensures Trimmed(Fold(s)) && (s != "" ==> Fold(s) != "" && Fold(s)[0] == s[0])
  {
    if s != "" {
      FoldIsTrimmed(s[..|s| - 1]);
      assert !BreakBefore(0) by { assert |KEYDATA + "="| == 8; }
    }
  }

  lemma {:induction false} FoldKeepsFree(s: string, c: char)
    requires Free(s, c) && c != ' '
    ensures Free(Fold(s), c)
  {
    if s != "" {
      FoldKeepsFree(s[..|s| - 1], c);
    }
  }

  lemma PrintJoinsPieces<K>(c: Codec<K>, h: Aheader<K>)
    ensures Print(c, h) == Join(Pieces(c, h), ';')
  {
    var a, k := AddrPiece(c.lower(h.addr)), KeyPiece(c.encode(h.publicKey));
    if h.prefer == Mutual {
      var p := PreferPiece(h.prefer)[0];
      assert Pieces(c, h) == [a, p, k];
      assert [a, p, k][1..] == [p, k] && [p, k][1..] == [k];
      assert Join([p, k], ';') == p + ";" + k;
      assert a + ";" + (p + ";") + k == a + ";" + (p + ";" + k);
    } else {
      assert Pieces(c, h) == [a, k];
      assert [a, k][1..] == [k];
    }
  }

  lemma PiecesFree<K(!new)>(c: Codec<K>, h: Aheader<K>)
    requires Faithful(c) && Free(h.addr, ';')
    ensures AllFree(Pieces(c, h), ';')
  {
    FoldKeepsFree(c.encode(h.publicKey), ';');
    assert Free(ADDR + "=", ';') && Free(" " + (PREFER + "=" + "mutual"), ';') && Free(" " + (KEYDATA + "="), ';');
    assert KeyPiece(c.encode(h.publicKey)) == " " + (KEYDATA + "=") + Fold(c.encode(h.publicKey));
  }

  function PrintedAttributes<K>(c: Codec<K>, h: Aheader<K>): seq<Attribute> {
    var a, k := Attribute(ADDR, c.lower(h.addr)), Attribute(KEYDATA, Fold(c.encode(h.publicKey)));
    if h.prefer == Mutual then [a, Attribute(PREFER, "mutual"), k] else [a, k]
  }

  lemma KeysAreKeys()
    ensures forall key :: IsKnown(key) ==> key != "" && Trimmed(key) && Free(key, '=')
    ensures Trimmed("mutual")
  {
    assert Trimmed(ADDR) && Trimmed(KEYDATA) && Trimmed(PREFER) && Trimmed(VERIFIED);
  }

  lemma PrintedPieces<K(!new)>(c: Codec<K>, h: Aheader<K>)
    requires Faithful(c) && Trimmed(h.addr)
    ensures AttributeOf(AddrPiece(c.lower(h.addr))) == [Attribute(ADDR, c.lower(h.addr))]
    ensures h.prefer == Mutual ==> AttributeOf(PreferPiece(h.prefer)[0]) == [Attribute(PREFER, "mutual")]
    ensures AttributeOf(KeyPiece(c.encode(h.publicKey))) == [Attribute(KEYDATA, Fold(c.encode(h.publicKey)))]
  {
    FoldIsTrimmed(c.encode(h.publicKey));
    KeysAreKeys();
    ParseAssignment("", ADDR, c.lower(h.addr));
    ParseAssignment(" ", PREFER, "mutual");
    ParseAssignment(" ", KEYDATA, Fold(c.encode(h.publicKey)));
    assert "" + (ADDR + "=" + c.lower(h.addr)) == AddrPiece(c.lower(h.addr));
  }

  lemma AttributesOfOne(a: string)
    ensures Attributes([a]) == AttributeOf(a)
  {
    AttributesAround([], a, []);
    assert [] + [a] + [] == [a];
  }

  lemma AttributesOfFew(a: string, p: string, k: string)
    ensures Attributes([a, k]) == AttributeOf(a) + AttributeOf(k)
    ensures Attributes([a, p, k]) == AttributeOf(a) + AttributeOf(p) + AttributeOf(k)
  {
    AttributesOfOne(a);
    AttributesOfOne(k);
    AttributesConcat([a], [k]);
    AttributesAround([a], p, [k]);
    assert [a] + [k] == [a, k] && [a] + [p] + [k] == [a, p, k];
  }

  lemma TwoAttributes(a: string, k: string, x: Attribute, z: Attribute)
    requires AttributeOf(a) == [x] && AttributeOf(k) == [z]
    ensures Attributes([a, k]) == [x, z]
  {
    AttributesOfFew(a, a, k);
  }

  lemma ThreeAttributes(a: string, p: string, k: string, x: Attribute, y: Attribute, z: Attribute)
    requires AttributeOf(a) == [x] && AttributeOf(p) == [y] && AttributeOf(k) == [z]
    ensures Attributes([a, p, k]) == [x, y, z]
  {
    AttributesOfFew(a, p, k);
  }

  lemma PiecesAre<K>(c: Codec<K>, h: Aheader<K>)
    ensures var a, k := AddrPiece(c.lower(h.addr)), KeyPiece(c.encode(h.publicKey));
            Pieces(c, h) == if h.prefer == Mutual then [a, PreferPiece(h.prefer)[0], k] else [a, k]
  {}

  lemma PiecesAttributes<K(!new)>(c: Codec<K>, h: Aheader<K>)
    requires Faithful(c) && Trimmed(h.addr)
    ensures Attributes(Pieces(c, h)) == PrintedAttributes(c, h)
  {
    var a, k := AddrPiece(c.lower(h.addr)), KeyPiece(c.encode(h.publicKey));
    var x, z := Attribute(ADDR, c.lower(h.addr)), Attribute(KEYDATA, Fold(c.encode(h.publicKey)));
    PrintedPieces(c, h);
    PiecesAre(c, h);
    if h.prefer == Mutual {
      ThreeAttributes(a, PreferPiece(h.prefer)[0], k, x, Attribute(PREFER, "mutual"), z);
    } else {
      TwoAttributes(a, k, x, z);
    }
  }

  lemma InterpretClear<K(!new)>(c: Codec<K>, h: Aheader<K>, m: map<string, string>)
    requires Faithful(c)
    requires Lookup(m, ADDR) == Some(c.lower(h.addr)) && Lookup(m, KEYDATA) == Some(Fold(c.encode(h.publicKey)))
    requires Preference(Lookup(m, PREFER)) == h.prefer && Lookup(m, VERIFIED) == None && !Leftover(m)
    ensures Interpret(c, m) ==
            if c.verify(h.publicKey) then Ok(Aheader(c.lower(h.addr), h.publicKey, h.prefer, false)) else Err
  {
    StripFold(c.encode(h.publicKey));
  }

  lemma PrintedMap(a: string, p: string, k: string)
    ensures ToMap([Attribute(ADDR, a), Attribute(KEYDATA, k)]) == map[ADDR := a][KEYDATA := k]
    ensures ToMap([Attribute(ADDR, a), Attribute(PREFER, p), Attribute(KEYDATA, k)]) == map[ADDR := a][PREFER := p][KEYDATA := k]
  {
    var x, y, z := Attribute(ADDR, a), Attribute(PREFER, p), Attribute(KEYDATA, k);
    assert [x][..0] == [];
    assert ToMap([x]) == map[ADDR := a];
    assert [x, z][..1] == [x] && [x, y][..1] == [x] && [x, y, z][..2] == [x, y];
    assert ToMap([x, y]) == map[ADDR := a][PREFER := p];
  }

  lemma InterpretPrinted<K(!new)>(c: Codec<K>, h: Aheader<K>)
    requires Faithful(c)
    ensures Interpret(c, ToMap(PrintedAttributes(c, h))) ==
            if c.verify(h.publicKey) then Ok(Aheader(c.lower(h.addr), h.publicKey, h.prefer, false)) else Err
  {
    KeysDistinct();
    PrintedMap(c.lower(h.addr), "mutual", Fold(c.encode(h.publicKey)));
    InterpretClear(c, h, ToMap(PrintedAttributes(c, h)));
  }

  /** What parsing can yield: a trimmed address without semicolon and a verified key. */
  lemma {:induction false} ParsedValuesClean(pieces: seq<string>, key: string)
    requires AllFree(pieces, ';')
    ensures var v := LastValue(Attributes(pieces), key); v.Some? ==> Trimmed(v.value) && Free(v.value, ';')
  {
    if pieces != [] {
      var n := |pieces| - 1;
      ParsedValuesClean(pieces[..n], key);
      var earlier := Attributes(pieces[..n]);
      AttributesAround(pieces[..n], pieces[n], []);
      assert pieces[..n] + [pieces[n]] + [] == pieces;
      assert earlier + AttributeOf(pieces[n]) + [] == earlier + AttributeOf(pieces[n]);
      LastValueConcat(earlier, AttributeOf(pieces[n]), key);
      var t := Trim(pieces[n]);
      var i := IndexOf(t, '=');
      TrimKeepsFree(pieces[n], ';');
      if i < |t| {
        TrimIsTrimmed(t[i + 1..]);
        TrimKeepsFree(t[i + 1..], ';');
        assert [ParsePiece(pieces[n]).value][..0] == [];
      }
    }
  }

  lemma ParsedIsClean<K>(c: Codec<K>, s: string)
    requires Parse(c, s).Ok?
    ensures var h := Parse(c, s).value; Trimmed(h.addr) && Free(h.addr, ';') && c.verify(h.publicKey)
  {
    SplitPiecesFree(s, ';');
    ParsedValuesClean(Split(s, ';'), ADDR);
    MapHoldsLast(Attributes(Split(s, ';')), ADDR);
  }

  /** Parsing a printed header gives back the lower-cased address, the key and the preference, never
      marked verified, exactly when the address is trimmed and free of semicolons and the key's
      bindings verify. */
  lemma RoundTripIff<K(!new)>(c: Codec<K>, h: Aheader<K>)
    requires Faithful(c)
    ensures Parse(c, Print(c, h)) == Ok(Aheader(c.lower(h.addr), h.publicKey, h.prefer, false)) <==>
            Trimmed(h.addr) && Free(h.addr, ';') && c.verify(h.publicKey)
  {
    if Trimmed(h.addr) && Free(h.addr, ';') {
      PrintJoinsPieces(c, h);
      PiecesFree(c, h);
      ParseJoined(c, Pieces(c, h));
      PiecesAttributes(c, h);
      InterpretPrinted(c, h);
    } else if Parse(c, Print(c, h)).Ok? {
      ParsedIsClean(c, Print(c, h));
    }
  }

  /** An address with a semicolon or a space at its end is not read back, whatever the key. */
  lemma AddressNotReadBack<K(!new)>(c: Codec<K>, key: K, prefer: EncryptPreference, verified: bool)
    requires Faithful(c)
    ensures var h := Aheader("a;b", key, prefer, verified);
            Parse(c, Print(c, h)) != Ok(Aheader(c.lower(h.addr), key, prefer, false))
    ensures var h := Aheader("a ", key, prefer, verified);
            Parse(c, Print(c, h)) != Ok(Aheader(c.lower(h.addr), key, prefer, false))
  {
    assert "a;b"[1] == ';' && !Free("a;b", ';');
    assert !Trimmed("a ");
    RoundTripIff(c, Aheader("a;b", key, prefer, verified));
    RoundTripIff(c, Aheader("a ", key, prefer, verified));
  }
}
