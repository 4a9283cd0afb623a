/** The order in which a plain JavaScript object lists its own string keys
    (`Object.keys`, `Object.entries`): keys that are array indices come first,
    in ascending numeric order, and every other key follows in the order it
    was first created (OrdinaryOwnPropertyKeys, section 10.1.11.1 of ECMA-262). */
module PropertyOrder {

  /** The largest array index, 2^32 - 2. */
  const MaxArrayIndex: int := 4294967294

  predicate IsDigit(c: char) {
    '0' <= c <= '9'
  }

  predicate AllDigits(k: string) {
    forall i :: 0 <= i < |k| ==> IsDigit(k[i])
  }

  /** The decimal value of a digit string. */
  function DigitsValue(k: string): int
  {
    if |k| == 0 then 0
    else DigitsValue(k[..|k| - 1]) * 10 + (k[|k| - 1] as int - '0' as int)
  }

  /** `k` is the canonical decimal spelling of an integer in [0, 2^32 - 2]. */
  predicate IsArrayIndex(k: string) {
    && |k| > 0
    && AllDigits(k)
    && (k[0] != '0' || |k| == 1)
    && DigitsValue(k) <= MaxArrayIndex
  }

  /** The keys of `ks` that satisfy (`keep`) or fail (`!keep`) IsArrayIndex, in order. */
  function Select(ks: seq<string>, keep: bool): seq<string> {
    if |ks| == 0 then [] else Pick(ks[0], keep) + Select(ks[1..], keep)
  }

  /** `[k]` when `k` has the selected classification, otherwise nothing. */
  function Pick(k: string, keep: bool): seq<string> {
    if IsArrayIndex(k) == keep then [k] else []
  }

  /** Numeric keys in ascending order of their value. */
  predicate Ascending(ks: seq<string>) {
    forall i :: 0 < i < |ks| ==> DigitsValue(ks[i - 1]) <= DigitsValue(ks[i])
  }

  function Insert(k: string, ks: seq<string>): (r: seq<string>)
    requires Ascending(ks)
    ensures Ascending(r)
    ensures multiset(r) == multiset(ks) + multiset{k}
    ensures |r| == |ks| + 1 && (r[0] == k || (|ks| > 0 && r[0] == ks[0]))
  {
    if |ks| == 0 then [k]
    else if DigitsValue(k) <= DigitsValue(ks[0]) then [k] + ks
    else
      var tail := Insert(k, ks[1..]);
      assert ks == [ks[0]] + ks[1..];
      [ks[0]] + tail
  }

  function SortByValue(ks: seq<string>): (r: seq<string>)
    ensures Ascending(r)
    ensures multiset(r) == multiset(ks)
  {
    if |ks| == 0 then []
    else
      assert ks == [ks[0]] + ks[1..];
      Insert(ks[0], SortByValue(ks[1..]))
  }

  /** The listing order of an object whose keys were created in the order `created`. */
  function OwnKeys(created: seq<string>): seq<string> {
    SortByValue(Select(created, true)) + Select(created, false)
  }

  /** The listing is a permutation of the keys created. */
  lemma OwnKeysPermutes(created: seq<string>)
    ensures multiset(OwnKeys(created)) == multiset(created)
  {
    SelectSplits(created);
  }

  /** Every selected key has the selected classification. */
  lemma {:induction false} SelectKeeps(ks: seq<string>, keep: bool)
    ensures forall k :: k in multiset(Select(ks, keep)) ==> IsArrayIndex(k) == keep
  {
    if |ks| > 0 {
      SelectKeeps(ks[1..], keep);
    }
  }

  /** Splitting by IsArrayIndex loses and duplicates nothing. */
  lemma {:induction false} SelectSplits(ks: seq<string>)
    ensures multiset(Select(ks, true)) + multiset(Select(ks, false)) == multiset(ks)
  {
    if |ks| > 0 {
      var k, t := ks[0], ks[1..];
      SelectSplits(t);
      var a, b := Select(t, true), Select(t, false);
      assert Select(ks, true) == Pick(k, true) + a;
      assert Select(ks, false) == Pick(k, false) + b;
      PickSplits(k);
      MultisetCons(ks);
    }
  }

  /** The multiset of a non-empty sequence is its head plus the rest. */
  lemma MultisetCons(ks: seq<string>)
    requires |ks| > 0
    ensures multiset(ks) == multiset{ks[0]} + multiset(ks[1..])
  {
    assert ks == [ks[0]] + ks[1..];
  }

  /** A key is picked by exactly one of the two selections. */
  lemma PickSplits(k: string)
    ensures multiset(Pick(k, true)) + multiset(Pick(k, false)) == multiset{k}
  {
  }

  /** OwnKeys lists the array-index keys first, ascending by value, then every
      other key in creation order. */
  lemma OwnKeysOrder(created: seq<string>)
    ensures var r := OwnKeys(created);
            var n := |Select(created, true)|;
            && n <= |r|
            && (forall i :: 0 <= i < n ==> IsArrayIndex(r[i]))
            && Ascending(r[..n])
            && r[n..] == Select(created, false)
  {
    var s := SortByValue(Select(created, true));
    assert |s| == |multiset(s)| == |Select(created, true)|;
    var r := OwnKeys(created);
    assert r[..|s|] == s;
    forall i | 0 <= i < |s|
      ensures IsArrayIndex(r[i])
    {
      SelectKeeps(created, true);
      assert r[i] in multiset(Select(created, true));
    }
  }

  /** A key appears in the listing exactly when it was created. */
  lemma OwnKeysMembers(created: seq<string>, k: string)
    ensures k in OwnKeys(created) <==> k in created
  {
    OwnKeysPermutes(created);
    assert k in OwnKeys(created) <==> k in multiset(OwnKeys(created));
  }

  lemma {:induction false} SelectAppend(a: seq<string>, b: seq<string>, keep: bool)
    ensures Select(a + b, keep) == Select(a, keep) + Select(b, keep)
  {
    if |a| == 0 {
      assert a + b == b;
    } else {
      var h := Pick(a[0], keep);
      assert (a + b)[0] == a[0];
      assert (a + b)[1..] == a[1..] + b;
      assert Select(a + b, keep) == h + Select(a[1..] + b, keep);
      SelectAppend(a[1..], b, keep);
      assert h + (Select(a[1..], keep) + Select(b, keep)) == (h + Select(a[1..], keep)) + Select(b, keep);
    }
  }

  lemma {:induction false} SelectUniform(ks: seq<string>, keep: bool)
    requires forall i :: 0 <= i < |ks| ==> IsArrayIndex(ks[i]) == keep
    ensures Select(ks, keep) == ks
    ensures Select(ks, !keep) == []
  {
    if |ks| > 0 {
      SelectUniform(ks[1..], keep);
      assert ks == [ks[0]] + ks[1..];
    }
  }

  lemma {:induction false} SortSorted(ks: seq<string>)
    requires Ascending(ks)
    ensures SortByValue(ks) == ks
  {
    if |ks| > 0 {
      SortSorted(ks[1..]);
      assert ks == [ks[0]] + ks[1..];
    }
  }

  /** Re-creating an object's keys in its own listing order (as lodash
      `mapValues` does) lists them in the same order again. */
  lemma OwnKeysIdempotent(created: seq<string>)
    ensures OwnKeys(OwnKeys(created)) == OwnKeys(created)
  {
    var s := SortByValue(Select(created, true));
    var o := Select(created, false);
    assert OwnKeys(created) == s + o;
    SelectKeeps(created, true);
    SelectKeeps(created, false);
    forall i | 0 <= i < |s|
      ensures IsArrayIndex(s[i])
    {
      assert s[i] in multiset(s);
    }
    forall i | 0 <= i < |o|
      ensures !IsArrayIndex(o[i])
    {
      assert o[i] in multiset(o);
    }
    SelectAppend(s, o, true);
    SelectAppend(s, o, false);
    SelectUniform(s, true);
    SelectUniform(o, false);
    assert s + [] == s;
    assert [] + o == o;
    SortSorted(s);
  }

  /** Keys that are not array indices are listed in creation order. */
  lemma OwnKeysPlain(created: seq<string>)
    requires forall i :: 0 <= i < |created| ==> !IsArrayIndex(created[i])
    ensures OwnKeys(created) == created
  {
    SelectUniform(created, false);
    assert [] + created == created;
  }

  /** "7" is an array index, so it is listed before "Zoe" although created after it. */
  lemma IndexKeyFirstExample()
    ensures OwnKeys(["Zoe", "7"]) == ["7", "Zoe"]
  {
    var ks := ["Zoe", "7"];
    ClassifyExample();
    assert ks[1..] == ["7"];
    assert ["7"][1..] == [];
    assert Select(["7"], true) == ["7"];
    assert Select(["7"], false) == [];
    assert Select(ks, true) == ["7"];
    assert Select(ks, false) == ["Zoe"];
    assert SortByValue(["7"]) == ["7"];
  }

  lemma ClassifyExample()
    ensures IsArrayIndex("7") && !IsArrayIndex("Zoe")
  {
    assert "7"[..0] == [];
    assert DigitsValue("7") == 7;
    assert "Zoe"[0] == 'Z';
  }
}
