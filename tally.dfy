/** Counting dictionaries and rankings over them.

    The audit code counts keys with the idiom
    `forEach(k => counts[k] = (counts[k] || 0) + 1)`, reads the dictionary back
    with `Object.entries` (keys in first-insertion order), and ranks the entries
    with the stable `sort((a, b) => b[1] - a[1])` followed by `slice(0, limit)`.
    This module models that idiom once for every caller. */
module Tally {
  import JsArray

  /** One `[key, count]` entry of `Object.entries`. */
  type Entry = (string, nat)

  /** How many times `x` occurs in `s`. */
  function Occurrences(s: seq<string>, x: string): (n: nat)
    ensures n <= |s|
    ensures n > 0 <==> x in s
  {
    if s == [] then 0
    else
      assert s == s[..|s| - 1] + [s[|s| - 1]];
      Occurrences(s[..|s| - 1], x) + (if s[|s| - 1] == x then 1 else 0)
  }

  predicate NoDuplicates<T(==)>(s: seq<T>) {
    forall i, j :: 0 <= i < j < |s| ==> s[i] != s[j]
  }

  /** The distinct keys of `s` in order of first occurrence: the key order of
      a dictionary filled from `s`. */
  function Distinct(s: seq<string>): (d: seq<string>)
    ensures forall x :: x in d <==> x in s
    ensures NoDuplicates(d)
    ensures |d| <= |s|
  {
    if s == [] then []
    else
      var p := Distinct(s[..|s| - 1]);
      assert s == s[..|s| - 1] + [s[|s| - 1]];
      if s[|s| - 1] in p then p else p + [s[|s| - 1]]
  }

  /** The entries of the dictionary with key order `d` holding the counts of `s`. */
  function EntriesFor(d: seq<string>, s: seq<string>): (es: seq<Entry>)
    ensures |es| == |d|
  {
    seq(|d|, i requires 0 <= i < |d| => (d[i], Occurrences(s, d[i])))
  }

  /** `Object.entries` of the dictionary that counts the keys `s`. */
  function Entries(s: seq<string>): seq<Entry> {
    EntriesFor(Distinct(s), s)
  }

  /** The dictionary as a map, together with its key order. */
  function EntriesOf(order: seq<string>, counts: map<string, nat>): seq<Entry>
    requires forall i :: 0 <= i < |order| ==> order[i] in counts
  {
    seq(|order|, i requires 0 <= i < |order| => (order[i], counts[order[i]]))
  }

  /** The `forEach` loop that fills the counting dictionary from `keys`. */
  method Count(keys: seq<string>) returns (order: seq<string>, counts: map<string, nat>)
    ensures order == Distinct(keys)
    ensures forall k :: k in counts <==> k in keys
    ensures forall k :: k in counts ==> counts[k] == Occurrences(keys, k)
    ensures EntriesOf(order, counts) == Entries(keys)
  {
    order, counts := [], map[];
    var i := 0;
    while i < |keys|
      invariant 0 <= i <= |keys|
      invariant Counted(keys[..i], order, counts)
    {
      var k := keys[i];
      assert keys[..i + 1] == keys[..i] + [k];
      CountStep(keys[..i], k, order, counts);
      if k !in counts {
        order := order + [k];
      }
      counts := Bump(counts, k);
      i := i + 1;
    }
    assert keys[..|keys|] == keys;
    CountedEntries(keys, order, counts);
  }

  /** `counts[k] = (counts[k] || 0) + 1` on a dictionary of numbers. */
  function Bump(counts: map<string, nat>, k: string): map<string, nat> {
    counts[k := (if k in counts then counts[k] else 0) + 1]
  }

  /** The dictionary with key order `order` and values `counts` counts the
      keys `p`. */
  ghost predicate Counted(p: seq<string>, order: seq<string>, counts: map<string, nat>) {
    && order == Distinct(p)
    && (forall x :: x in counts <==> x in p)
    && (forall x :: x in counts ==> counts[x] == Occurrences(p, x))
  }

  /** One more key keeps the counting loop's invariant: it is added to the
      key order when new, and its count goes up by one. */
  lemma CountStep(p: seq<string>, k: string, order: seq<string>, counts: map<string, nat>)
    requires Counted(p, order, counts)
    ensures Counted(p + [k], if k in counts then order else order + [k], Bump(counts, k))
  {
    var s := p + [k];
    assert s[..|s| - 1] == p;
    assert k in counts <==> k in Distinct(p);
    assert Distinct(s) == if k in counts then order else order + [k];
    forall x
      ensures Occurrences(s, x) == Occurrences(p, x) + (if x == k then 1 else 0)
    {
    }
    forall x | x in Bump(counts, k)
      ensures Bump(counts, k)[x] == Occurrences(s, x)
    {
    }
  }

  /** The filled dictionary read back with `Object.entries`. */
  lemma CountedEntries(keys: seq<string>, order: seq<string>, counts: map<string, nat>)
    requires Counted(keys, order, counts)
    ensures forall i :: 0 <= i < |order| ==> order[i] in counts
    ensures EntriesOf(order, counts) == Entries(keys)
  {
    assert forall i :: 0 <= i < |order| ==> order[i] in counts;
    assert forall i :: 0 <= i < |order| ==> EntriesOf(order, counts)[i] == Entries(keys)[i];
  }

  /** The sum of the counts of the keys `d` in `s`. */
  function SumOver(d: seq<string>, s: seq<string>): nat {
    if d == [] then 0 else SumOver(d[..|d| - 1], s) + Occurrences(s, d[|d| - 1])
  }

  /** The sum of the counts of a list of entries. */
  function SumCounts(es: seq<Entry>): nat {
    if es == [] then 0 else SumCounts(es[..|es| - 1]) + es[|es| - 1].1
  }

  lemma {:induction false} SumOverSnoc(d: seq<string>, p: seq<string>, x: string)
    requires NoDuplicates(d)
    ensures SumOver(d, p + [x]) == SumOver(d, p) + (if x in d then 1 else 0)
  {
    if d != [] {
      var d0 := d[..|d| - 1];
      assert d == d0 + [d[|d| - 1]];
      assert (p + [x])[..|p|] == p;
      SumOverSnoc(d0, p, x);
    }
  }

  lemma {:induction false} SumCountsOfEntries(d: seq<string>, s: seq<string>)
    ensures SumCounts(EntriesFor(d, s)) == SumOver(d, s)
  {
    if d != [] {
      assert EntriesFor(d, s)[..|d| - 1] == EntriesFor(d[..|d| - 1], s);
      SumCountsOfEntries(d[..|d| - 1], s);
    }
  }

  /** The counts of the dictionary filled from `s` add up to `|s|`: every key
      is counted once, under its own entry. */
  lemma {:induction false} CountsSumToLength(s: seq<string>)
    ensures SumCounts(Entries(s)) == |s|
  {
    CountsSumToLengthOver(s);
    SumCountsOfEntries(Distinct(s), s);
  }

  lemma {:induction false} CountsSumToLengthOver(s: seq<string>)
    ensures SumOver(Distinct(s), s) == |s|
  {
    if s != [] {
      var p, x := s[..|s| - 1], s[|s| - 1];
      assert s == p + [x];
      var d := Distinct(p);
      CountsSumToLengthOver(p);
      SumOverSnoc(d, p, x);
      if x !in d {
        assert (d + [x])[..|d|] == d;
        assert Occurrences(p, x) == 0;
      }
    }
  }

  /** Every entry of the dictionary filled from `s` is a key of `s` with its
      number of occurrences, at least one, and no key appears twice. */
  lemma EntriesAreCounts(s: seq<string>)
    ensures forall i :: 0 <= i < |Entries(s)| ==>
      Entries(s)[i].0 in s && Entries(s)[i].1 == Occurrences(s, Entries(s)[i].0) && Entries(s)[i].1 >= 1
    ensures forall i, j :: 0 <= i < j < |Entries(s)| ==> Entries(s)[i].0 != Entries(s)[j].0
    ensures forall x :: x in s ==> (x, Occurrences(s, x)) in Entries(s)
  {
    var d := Distinct(s);
    forall x | x in s ensures (x, Occurrences(s, x)) in Entries(s) {
      var i :| 0 <= i < |d| && d[i] == x;
      assert Entries(s)[i] == (x, Occurrences(s, x));
    }
  }

  /** Non-increasing by count. */
  predicate SortedDesc(es: seq<Entry>) {
    forall i, j :: 0 <= i < j < |es| ==> es[i].1 >= es[j].1
  }

  /** One step of a stable descending insertion sort: `x` goes after every
      entry whose count is at least its own. */
  function Insert(x: Entry, t: seq<Entry>): (r: seq<Entry>)
    ensures |r| == |t| + 1
  {
    if t == [] then [x]
    else if t[0].1 >= x.1 then [t[0]] + Insert(x, t[1..])
    else [x] + t
  }

  lemma {:induction false} InsertIsPermutation(x: Entry, t: seq<Entry>)
    ensures multiset(Insert(x, t)) == multiset(t) + multiset{x}
  {
    if t != [] && t[0].1 >= x.1 {
      InsertIsPermutation(x, t[1..]);
      assert t == [t[0]] + t[1..];
    }
  }

  lemma {:induction false} InsertKeepsSorted(x: Entry, t: seq<Entry>)
    requires SortedDesc(t)
    ensures SortedDesc(Insert(x, t))
  {
    if t != [] && t[0].1 >= x.1 {
      var rest := Insert(x, t[1..]);
      assert SortedDesc(t[1..]);
      InsertKeepsSorted(x, t[1..]);
      InsertIsPermutation(x, t[1..]);
      forall k | 0 <= k < |rest| ensures rest[k].1 <= t[0].1 {
        assert rest[k] in multiset(rest);
        if rest[k] != x {
          assert rest[k] in multiset(t[1..]);
          var j :| 0 <= j < |t[1..]| && t[1..][j] == rest[k];
          assert t[j + 1] == rest[k];
        }
      }
      var r := Insert(x, t);
      assert r == [t[0]] + rest;
      forall i, j | 0 <= i < j < |r| ensures r[i].1 >= r[j].1 {
        assert r[j] == rest[j - 1];
        if i > 0 {
          assert r[i] == rest[i - 1];
        }
      }
    }
  }

  /** `entries.sort((a, b) => b[1] - a[1])`: `Array.prototype.sort` is stable,
      so entries with equal counts keep their order. */
  function SortByCount(s: seq<Entry>): (r: seq<Entry>)
    ensures |r| == |s|
    ensures multiset(r) == multiset(s)
    ensures SortedDesc(r)
  {
    if s == [] then []
    else
      var p := SortByCount(s[..|s| - 1]);
      InsertIsPermutation(s[|s| - 1], p);
      InsertKeepsSorted(s[|s| - 1], p);
      assert s == s[..|s| - 1] + [s[|s| - 1]];
      Insert(s[|s| - 1], p)
  }

  /** The entries of `es` whose count is `c`, in order. */
  function WithCount(es: seq<Entry>, c: nat): seq<Entry> {
    if es == [] then [] else (if es[0].1 == c then [es[0]] else []) + WithCount(es[1..], c)
  }

  lemma {:induction false} WithCountAppend(a: seq<Entry>, b: seq<Entry>, c: nat)
    ensures WithCount(a + b, c) == WithCount(a, c) + WithCount(b, c)
  {
    if a != [] {
      var head := if a[0].1 == c then [a[0]] else [];
      assert (a + b)[0] == a[0];
      assert (a + b)[1..] == a[1..] + b;
      assert WithCount(a + b, c) == head + WithCount(a[1..] + b, c);
      WithCountAppend(a[1..], b, c);
      assert WithCount(a, c) == head + WithCount(a[1..], c);
    } else {
      assert a + b == b;
    }
  }

  lemma {:induction false} WithCountNone(t: seq<Entry>, c: nat)
    requires forall i :: 0 <= i < |t| ==> t[i].1 < c
    ensures WithCount(t, c) == []
  {
    if t != [] {
      WithCountNone(t[1..], c);
    }
  }

  lemma {:induction false} InsertIsStable(x: Entry, t: seq<Entry>, c: nat)
    requires SortedDesc(t)
    ensures WithCount(Insert(x, t), c) == WithCount(t, c) + (if x.1 == c then [x] else [])
  {
    if t == [] {
    } else if t[0].1 >= x.1 {
      var r := Insert(x, t);
      var head := if t[0].1 == c then [t[0]] else [];
      assert r == [t[0]] + Insert(x, t[1..]);
      assert r[0] == t[0] && r[1..] == Insert(x, t[1..]);
      assert WithCount(r, c) == head + WithCount(Insert(x, t[1..]), c);
      assert WithCount(t, c) == head + WithCount(t[1..], c);
      assert SortedDesc(t[1..]);
      InsertIsStable(x, t[1..], c);
    } else {
      var r := Insert(x, t);
      assert r == [x] + t;
      assert r[0] == x && r[1..] == t;
      if x.1 == c {
        WithCountNone(t, c);
      }
    }
  }

  /** The sort is stable: for every count, the entries with that count appear
      in the sorted list in the order they had before sorting. */
  lemma {:induction false} SortIsStable(s: seq<Entry>, c: nat)
    ensures WithCount(SortByCount(s), c) == WithCount(s, c)
  {
    if s != [] {
      var p, x := s[..|s| - 1], s[|s| - 1];
      SortIsStable(p, c);
      InsertIsStable(x, SortByCount(p), c);
      assert s == p + [x];
      WithCountAppend(p, [x], c);
    }
  }

  /** The `limit` most frequent keys of `keys`, with their counts. */
  function Ranking(keys: seq<string>, limit: nat): seq<Entry> {
    JsArray.Slice(SortByCount(Entries(keys)), 0, limit)
  }

  lemma {:induction false} MultisetCountOfNoDuplicates<T>(s: seq<T>, x: T)
    requires NoDuplicates(s)
    ensures multiset(s)[x] <= 1
  {
    if s != [] {
      assert s == [s[0]] + s[1..];
      MultisetCountOfNoDuplicates(s[1..], x);
      if s[0] == x {
        assert x !in s[1..];
      }
    }
  }

  lemma NoDuplicatesOfPermutation<T>(a: seq<T>, b: seq<T>)
    requires multiset(a) == multiset(b)
    requires NoDuplicates(b)
    ensures NoDuplicates(a)
  {
    forall i, j | 0 <= i < j < |a| ensures a[i] != a[j] {
      if a[i] == a[j] {
        assert a == a[..j] + a[j..];
        assert a[i] in a[..j];
        assert a[j] in a[j..];
        assert multiset(a)[a[i]] == multiset(a[..j])[a[i]] + multiset(a[j..])[a[i]];
        MultisetCountOfNoDuplicates(b, a[i]);
        assert false;
      }
    }
  }

  /** The sorted entries are the entries, each with its exact count, and no
      key appears twice among them. */
  lemma SortedEntries(keys: seq<string>)
    ensures forall i :: 0 <= i < |SortByCount(Entries(keys))| ==>
      var e := SortByCount(Entries(keys))[i]; e.0 in keys && e.1 == Occurrences(keys, e.0) && e.1 >= 1
    ensures forall i, j :: 0 <= i < j < |SortByCount(Entries(keys))| ==>
      SortByCount(Entries(keys))[i].0 != SortByCount(Entries(keys))[j].0
  {
    var es := Entries(keys);
    var sorted := SortByCount(es);
    EntriesAreCounts(keys);
    forall i | 0 <= i < |sorted| ensures sorted[i] in es {
      assert sorted[i] in multiset(sorted);
    }
    assert NoDuplicates(es) by {
      forall i, j | 0 <= i < j < |es| ensures es[i] != es[j] {
      }
    }
    NoDuplicatesOfPermutation(sorted, es);
  }

  /** The ranking that `getTopPages` returns: at most `limit` entries, sorted by
      non-increasing count, each a distinct key of `keys` with its exact count. */
  lemma {:induction false} RankingIsSortedCounts(keys: seq<string>, limit: nat)
    ensures |Ranking(keys, limit)| == if |Distinct(keys)| < limit then |Distinct(keys)| else limit
    ensures SortedDesc(Ranking(keys, limit))
    ensures forall i :: 0 <= i < |Ranking(keys, limit)| ==>
      var e := Ranking(keys, limit)[i]; e.0 in keys && e.1 == Occurrences(keys, e.0) && e.1 >= 1
    ensures forall i, j :: 0 <= i < j < |Ranking(keys, limit)| ==>
      Ranking(keys, limit)[i].0 != Ranking(keys, limit)[j].0
  {
    var sorted := SortByCount(Entries(keys));
    var r := Ranking(keys, limit);
    SortedEntries(keys);
    assert r == sorted[..|r|];
  }

  /** Nothing better is left out: a key of `keys` missing from the ranking
      means the ranking is full and every ranked key occurs at least as often. */
  lemma {:induction false} RankingKeepsTheMostFrequent(keys: seq<string>, limit: nat, k: string)
    requires k in keys
    requires forall i :: 0 <= i < |Ranking(keys, limit)| ==> Ranking(keys, limit)[i].0 != k
    ensures |Ranking(keys, limit)| == limit
    ensures forall i :: 0 <= i < |Ranking(keys, limit)| ==> Ranking(keys, limit)[i].1 >= Occurrences(keys, k)
  {
    var es := Entries(keys);
    var sorted := SortByCount(es);
    var r := Ranking(keys, limit);
    EntriesAreCounts(keys);
    var e := (k, Occurrences(keys, k));
    assert e in multiset(es);
    assert e in multiset(sorted);
    var p :| 0 <= p < |sorted| && sorted[p] == e;
    assert r == sorted[..|r|];
    assert forall i :: 0 <= i < |r| ==> sorted[i] != e;
    assert p >= |r|;
    forall i | 0 <= i < |r| ensures r[i].1 >= Occurrences(keys, k) {
      assert r[i] == sorted[i];
    }
  }

  // ----- The idiom as written, on a plain object -----

  /** The methods a plain object `{}` inherits from `Object.prototype`: reading
      one of them from an empty dictionary finds a function, not `undefined`. */
  const InheritedMethods: seq<string> := [
    "constructor", "hasOwnProperty", "isPrototypeOf", "propertyIsEnumerable",
    "toLocaleString", "toString", "valueOf",
    "__defineGetter__", "__defineSetter__", "__lookupGetter__", "__lookupSetter__"]

  /** What a slot of the dictionary can hold: a number, or the text that `+ 1`
      makes of an inherited function. */
  datatype Value = Number(n: int) | Text(s: string)

  /** The source text of the inherited function named `k`, as `+` turns a
      function into a string. */
  function NativeSource(k: string): string {
    "function " + (if k == "constructor" then "Object" else k) + "() { [native code] }"
  }

  /** `o[k] = (o[k] || 0) + 1` on a plain object: an own number counts up, a
      missing own key reads as `undefined` unless a method of that name is
      inherited, and a function or a text followed by `+ 1` is concatenated. */
  function CountStepAsWritten(o: map<string, Value>, k: string): map<string, Value> {
    var next :=
      if k in o then
        match o[k]
        case Number(n) => Number(n + 1)
        case Text(t) => if t == "" then Number(1) else Text(t + "1")
      else if k in InheritedMethods then Text(NativeSource(k) + "1")
      else Number(1);
    o[k := next]
  }

  /** The counting loop as written, over a dictionary that starts as `{}`. */
  function CountAsWritten(keys: seq<string>): map<string, Value> {
    if keys == [] then map[]
    else CountStepAsWritten(CountAsWritten(keys[..|keys| - 1]), keys[|keys| - 1])
  }

  /** As written, every key that is no inherited method is counted exactly, as
      `Count` counts it, and every key occurring in the list gets a slot. */
  lemma {:induction false} OwnKeysAreCounted(keys: seq<string>, k: string)
    requires k !in InheritedMethods
    ensures k in CountAsWritten(keys) <==> k in keys
    ensures k in keys ==> CountAsWritten(keys)[k] == Number(Occurrences(keys, k))
  {
    if keys != [] {
      var p := keys[..|keys| - 1];
      assert keys == p + [keys[|keys| - 1]];
      OwnKeysAreCounted(p, k);
    }
  }

  /** As written, an inherited method name among the keys ends up holding text
      instead of its count: for the key list `["constructor"]` the slot holds
      `"function Object() { [native code] }1"`, not 1. */
  lemma {:induction false} InheritedKeysBecomeText(keys: seq<string>, k: string)
    requires k in InheritedMethods && k in keys
    ensures k in CountAsWritten(keys) && CountAsWritten(keys)[k].Text?
    ensures CountAsWritten(keys)[k] != Number(Occurrences(keys, k))
    ensures CountAsWritten(keys)[k].s != ""
  {
    var p := keys[..|keys| - 1];
    assert keys == p + [keys[|keys| - 1]];
    if k in p {
      InheritedKeysBecomeText(p, k);
    } else {
      InheritedSlotIsUnset(p, k);
    }
  }

  lemma {:induction false} InheritedSlotIsUnset(keys: seq<string>, k: string)
    requires k !in keys
    ensures k !in CountAsWritten(keys)
  {
    if keys != [] {
      var p := keys[..|keys| - 1];
      assert keys == p + [keys[|keys| - 1]];
      InheritedSlotIsUnset(p, k);
    }
  }

  lemma ConstructorCountIsText()
    ensures CountAsWritten(["constructor"])["constructor"] == Text("function Object() { [native code] }1")
  {
    var keys := ["constructor"];
    assert keys[..0] == [];
    assert InheritedMethods[0] == "constructor";
    assert CountAsWritten(keys) == CountStepAsWritten(map[], "constructor");
  }
}
