/**
 Orders and sorting shared by the whole model: Go's byte-wise string order, and
 `sort.Slice` as insertion sort over an arbitrary strict weak order.  A sorted
 permutation is unique whenever the order tells the sorted elements apart
 (`SortedUnique`), so nothing below depends on which sorting algorithm runs.
 */
module Ordering {

  /** Go's `<` on strings. */
  predicate Less(a: string, b: string)
    decreases |a|
  {
    |b| > 0 && (|a| == 0 || a[0] < b[0] || (a[0] == b[0] && Less(a[1..], b[1..])))
  }

  lemma {:induction false} LessIrreflexive(a: string)
    ensures !Less(a, a)
    decreases |a|
  {
    if a != "" { LessIrreflexive(a[1..]); }
  }

  lemma {:induction false} LessTransitive(a: string, b: string, c: string)
    requires Less(a, b) && Less(b, c)
    ensures Less(a, c)
    decreases |a|
  {
    if a != "" && a[0] == b[0] && b[0] == c[0] { LessTransitive(a[1..], b[1..], c[1..]); }
  }

  lemma {:induction false} LessTotal(a: string, b: string)
    ensures Less(a, b) || Less(b, a) || a == b
    decreases |a|
  {
    if a != "" && b != "" && a[0] == b[0] {
      LessTotal(a[1..], b[1..]);
      assert a == [a[0]] + a[1..] && b == [b[0]] + b[1..];
    }
  }

  /** `a` ends, or has the smaller character, where the two first differ. */
  ghost predicate SmallerAt(a: string, b: string, k: nat) {
    k <= |a| && k < |b| && a[..k] == b[..k] && (k == |a| || a[k] < b[k])
  }

  lemma SharedHead(a: string, b: string, k: nat)
    requires SmallerAt(a, b, k) && k > 0
    ensures a != "" && b != "" && a[0] == b[0]
  {
    assert a[..k][0] == b[..k][0];
  }

  /** The order is the lexicographic one. */
  lemma {:induction false} LessIsLexicographic(a: string, b: string)
    ensures Less(a, b) <==> exists k: nat :: SmallerAt(a, b, k)
    decreases |a|
  {
    if a == "" || b == "" || a[0] != b[0] {
      if Less(a, b) { assert SmallerAt(a, b, 0); }
      forall k: nat | SmallerAt(a, b, k) ensures Less(a, b) {
        if k > 0 { SharedHead(a, b, k); }
      }
    } else {
      LessIsLexicographic(a[1..], b[1..]);
      if Less(a, b) {
        var k: nat :| SmallerAt(a[1..], b[1..], k);
        assert a[..k + 1] == [a[0]] + a[1..][..k] && b[..k + 1] == [b[0]] + b[1..][..k];
        assert SmallerAt(a, b, k + 1);
      }
      forall k: nat | SmallerAt(a, b, k) ensures Less(a, b) {
        assert k > 0;
        assert a[1..][..k - 1] == a[..k][1..] && b[1..][..k - 1] == b[..k][1..];
        assert SmallerAt(a[1..], b[1..], k - 1);
      }
    }
  }

  ghost predicate StrictWeak<T(!new)>(before: (T, T) -> bool) {
    && (forall x :: !before(x, x))
    && (forall x, y, z :: before(x, y) && before(y, z) ==> before(x, z))
    && (forall x, y, z :: before(x, z) ==> before(x, y) || before(y, z))
  }

  lemma LessIsStrictWeak()
    ensures StrictWeak(Less)
  {
    forall x: string, y: string, z: string
      ensures !Less(x, x)
      ensures Less(x, y) && Less(y, z) ==> Less(x, z)
      ensures Less(x, z) ==> Less(x, y) || Less(y, z)
    {
      LessIrreflexive(x);
      if Less(x, y) && Less(y, z) { LessTransitive(x, y, z); }
      LessTotal(x, y);
      if Less(y, x) && Less(x, z) { LessTransitive(y, x, z); }
    }
  }

  ghost predicate Sorted<T>(before: (T, T) -> bool, s: seq<T>) {
    forall i, j :: 0 <= i < j < |s| ==> !before(s[j], s[i])
  }

  /** The order tells any two different elements of `s` apart. */
  ghost predicate Separates<T>(before: (T, T) -> bool, s: seq<T>) {
    forall x, y :: x in s && y in s && x != y ==> before(x, y) || before(y, x)
  }

  function Insert<T>(before: (T, T) -> bool, x: T, s: seq<T>): (r: seq<T>)
    ensures multiset(r) == multiset(s) + multiset{x}
    ensures |r| == |s| + 1
  {
    if s == [] then [x]
    else if before(x, s[0]) then [x] + s
    else
      assert s == [s[0]] + s[1..];
      [s[0]] + Insert(before, x, s[1..])
  }

  function Sort<T>(before: (T, T) -> bool, s: seq<T>): (r: seq<T>)
    ensures multiset(r) == multiset(s)
    ensures |r| == |s|
  {
    if s == [] then []
    else
      var n := |s| - 1;
      assert s == s[..n] + [s[n]];
      Insert(before, s[n], Sort(before, s[..n]))
  }

  lemma SameElements<T>(s: seq<T>, t: seq<T>)
    requires multiset(s) == multiset(t)
    ensures |s| == |t|
    ensures forall x :: x in s <==> x in t
  {
    assert |s| == |multiset(s)| == |multiset(t)| == |t|;
    forall x ensures x in s <==> x in t {
      assert x in s <==> x in multiset(s);
      assert x in t <==> x in multiset(t);
    }
  }

  lemma SortedCons<T>(before: (T, T) -> bool, x: T, s: seq<T>)
    requires Sorted(before, s) && forall y :: y in s ==> !before(y, x)
    ensures Sorted(before, [x] + s)
  {
    var r := [x] + s;
    forall i, j | 0 <= i < j < |r| ensures !before(r[j], r[i]) {
      assert r[j] == s[j - 1] && s[j - 1] in s;
      if i > 0 { assert r[i] == s[i - 1]; }
    }
  }

  lemma HeadIsFirst<T>(before: (T, T) -> bool, s: seq<T>, y: T)
    requires Sorted(before, s) && y in s
    ensures y == s[0] || !before(y, s[0])
  {
    var k :| 0 <= k < |s| && s[k] == y;
  }

  lemma {:induction false} InsertSorted<T(!new)>(before: (T, T) -> bool, x: T, s: seq<T>)
    requires StrictWeak(before) && Sorted(before, s)
    ensures Sorted(before, Insert(before, x, s))
  {
    if s != [] {
      if before(x, s[0]) {
        forall y | y in s ensures !before(y, x) { HeadIsFirst(before, s, y); }
        SortedCons(before, x, s);
      } else {
        var rest := Insert(before, x, s[1..]);
        InsertSorted(before, x, s[1..]);
        assert multiset(rest) == multiset([x] + s[1..]);
        SameElements(rest, [x] + s[1..]);
        forall y | y in rest ensures !before(y, s[0]) {
          assert y in [x] + s[1..];
          if y != x { assert exists k :: 1 <= k < |s| && s[k] == y; }
        }
        SortedCons(before, s[0], rest);
      }
    }
  }

  lemma {:induction false} SortSorted<T(!new)>(before: (T, T) -> bool, s: seq<T>)
    requires StrictWeak(before)
    ensures Sorted(before, Sort(before, s))
  {
    if s != [] {
      SortSorted(before, s[..|s| - 1]);
      InsertSorted(before, s[|s| - 1], Sort(before, s[..|s| - 1]));
    }
  }

  lemma SameFirst<T>(before: (T, T) -> bool, s: seq<T>, t: seq<T>)
    requires s != [] && Separates(before, s)
    requires Sorted(before, s) && Sorted(before, t) && multiset(s) == multiset(t)
    ensures t != [] && s[0] == t[0]
  {
    SameElements(s, t);
    assert s[0] in t;
    var i :| 0 <= i < |t| && t[i] == s[0];
    assert t[0] in s;
    var j :| 0 <= j < |s| && s[j] == t[0];
    assert i == 0 || !before(t[i], t[0]);
    assert j == 0 || !before(s[j], s[0]);
  }

  lemma DropFirst<T>(before: (T, T) -> bool, s: seq<T>)
    requires s != []
    ensures multiset(s[1..]) == multiset(s) - multiset{s[0]}
    ensures Sorted(before, s) ==> Sorted(before, s[1..])
    ensures Separates(before, s) ==> Separates(before, s[1..])
  {
    assert s == [s[0]] + s[1..];
  }

  lemma Rejoin<T>(s: seq<T>, t: seq<T>)
    requires s != [] && t != [] && s[0] == t[0] && s[1..] == t[1..]
    ensures s == t
  {
    assert s == [s[0]] + s[1..] && t == [t[0]] + t[1..];
  }

  /** Sorting has one answer when the order separates the elements. */
  lemma {:induction false} SortedUnique<T>(before: (T, T) -> bool, s: seq<T>, t: seq<T>)
    requires Separates(before, s)
    requires Sorted(before, s) && Sorted(before, t) && multiset(s) == multiset(t)
    ensures s == t
    decreases |s|
  {
    SameElements(s, t);
    if s != [] {
      SameFirst(before, s, t);
      DropFirst(before, s);
      DropFirst(before, t);
      SortedUnique(before, s[1..], t[1..]);
      Rejoin(s, t);
    }
  }

  /** Sorting depends only on the multiset of its input. */
  lemma SortPermutation<T(!new)>(before: (T, T) -> bool, s: seq<T>, t: seq<T>)
    requires StrictWeak(before) && Separates(before, s) && multiset(s) == multiset(t)
    ensures Sort(before, s) == Sort(before, t)
  {
    SortSorted(before, s);
    SortSorted(before, t);
    SameElements(s, Sort(before, s));
    SortedUnique(before, Sort(before, s), Sort(before, t));
  }

  /** A list is sorted by strictly increasing string keys. */
  ghost predicate KeySorted<T>(key: T -> string, s: seq<T>) {
    forall i, j :: 0 <= i < j < |s| ==> Less(key(s[i]), key(s[j]))
  }

  lemma InTail<T>(key: T -> string, s: seq<T>, x: T)
    requires s != [] && KeySorted(key, s)
    ensures x in s[1..] <==> x in s && x != s[0]
  {
    LessIrreflexive(key(s[0]));
    if x in s[1..] {
      var k :| 1 <= k < |s| && s[k] == x;
      assert Less(key(s[0]), key(s[k]));
    }
    assert s == [s[0]] + s[1..];
  }

  lemma SomeMember<T>(s: seq<T>)
    requires s != []
    ensures s[0] in s
  {
  }

  lemma SameKeyedFirst<T>(key: T -> string, s: seq<T>, t: seq<T>)
    requires KeySorted(key, s) && KeySorted(key, t) && s != []
    requires forall x :: x in s <==> x in t
    ensures t != [] && s[0] == t[0]
  {
    SomeMember(s);
    SomeMember(t);
    var i :| 0 <= i < |t| && t[i] == s[0];
    var j :| 0 <= j < |s| && s[j] == t[0];
    if i > 0 && j > 0 { NotBothBefore(key, s, t, i, j); }
  }

  lemma NotBothBefore<T>(key: T -> string, s: seq<T>, t: seq<T>, i: nat, j: nat)
    requires KeySorted(key, s) && KeySorted(key, t)
    requires 0 < i < |t| && 0 < j < |s| && t[i] == s[0]
    ensures s[j] != t[0]
  {
    if s[j] == t[0] {
      LessTransitive(key(s[0]), key(t[0]), key(s[0]));
      LessIrreflexive(key(s[0]));
    }
  }

  /** Two strictly key-sorted lists with the same members are the same list. */
  lemma {:induction false} KeySortedUnique<T>(key: T -> string, s: seq<T>, t: seq<T>)
    requires KeySorted(key, s) && KeySorted(key, t)
    requires forall x :: x in s <==> x in t
    ensures s == t
    decreases |s|
  {
    if s != [] {
      SameKeyedFirst(key, s, t);
      forall x ensures x in s[1..] <==> x in t[1..] {
        InTail(key, s, x);
        InTail(key, t, x);
      }
      KeySortedUnique(key, s[1..], t[1..]);
      assert s == [s[0]] + s[1..] && t == [t[0]] + t[1..];
    } else if t != [] {
      SameKeyedFirst(key, t, s);
    }
  }

  /** Sort by key; keys must be distinct for the result to be strictly sorted. */
  function SortByKey<T>(key: T -> string, s: seq<T>): seq<T> {
    Sort((x: T, y: T) => Less(key(x), key(y)), s)
  }

  ghost predicate DistinctKeys<T>(key: T -> string, s: seq<T>) {
    forall i, j :: 0 <= i < j < |s| ==> key(s[i]) != key(s[j])
  }

  lemma DistinctKeysNext<T>(key: T -> string, s: seq<T>, x: T)
    requires DistinctKeys(key, s) && forall y :: y in s ==> key(y) != key(x)
    ensures DistinctKeys(key, s + [x])
  {
  }

  lemma SortByKeySorted<T(!new)>(key: T -> string, s: seq<T>)
    requires DistinctKeys(key, s)
    ensures KeySorted(key, SortByKey(key, s))
    ensures multiset(SortByKey(key, s)) == multiset(s)
    ensures forall x :: x in SortByKey(key, s) <==> x in s
  {
    var before := (x: T, y: T) => Less(key(x), key(y));
    LessIsStrictWeak();
    assert StrictWeak(before);
    SortSorted(before, s);
    var r := SortByKey(key, s);
    SameElements(s, r);
    DistinctOnce(key, s);
    forall i, j | 0 <= i < j < |r| ensures Less(key(r[i]), key(r[j])) {
      assert !before(r[j], r[i]);
      LessTotal(key(r[i]), key(r[j]));
      if key(r[i]) == key(r[j]) {
        assert r[i] in s && r[j] in s;
        var a :| 0 <= a < |s| && s[a] == r[i];
        var b :| 0 <= b < |s| && s[b] == r[j];
        assert a == b;
        TwiceCounted(r, i, j);
        assert false;
      }
    }
  }

  lemma {:induction false} DistinctOnce<T>(key: T -> string, s: seq<T>)
    requires DistinctKeys(key, s)
    ensures forall x :: multiset(s)[x] <= 1
  {
    if s != [] {
      DistinctOnce(key, s[1..]);
      assert s == [s[0]] + s[1..];
      assert s[0] !in s[1..];
    }
  }

  // ---- Listing a set of keys in order ----

  function Id(s: string): string { s }

  ghost function Enumerate(keys: set<string>): seq<string> {
    if keys == {} then []
    else
      var x :| x in keys;
      [x] + Enumerate(keys - {x})
  }

  lemma {:induction false} EnumerateExact(keys: set<string>)
    ensures forall x :: x in Enumerate(keys) <==> x in keys
    ensures DistinctKeys(Id, Enumerate(keys))
    ensures |Enumerate(keys)| == |keys|
  {
    if keys != {} {
      var x :| x in keys && Enumerate(keys) == [x] + Enumerate(keys - {x});
      EnumerateExact(keys - {x});
    }
  }

  ghost function SortedKeys(keys: set<string>): seq<string> {
    SortByKey(Id, Enumerate(keys))
  }

  lemma SortedKeysListed(keys: set<string>)
    ensures KeySorted(Id, SortedKeys(keys))
    ensures forall x :: x in SortedKeys(keys) <==> x in keys
    ensures |SortedKeys(keys)| == |keys|
  {
    EnumerateExact(keys);
    SortByKeySorted(Id, Enumerate(keys));
    SameElements(SortedKeys(keys), Enumerate(keys));
  }

  /** A map's values in the order of their keys. */
  ghost function ListMap<V>(m: map<string, V>): (r: seq<V>)
    ensures |r| == |m|
  {
    var ks := SortedKeys(m.Keys);
    SortedKeysListed(m.Keys);
    seq(|ks|, i requires 0 <= i < |ks| => assert ks[i] in ks; m[ks[i]])
  }

  ghost predicate KeyedBy<V>(key: V -> string, m: map<string, V>) {
    forall k :: k in m ==> key(m[k]) == k
  }

  ghost predicate Lists<V(!new)>(key: V -> string, m: map<string, V>, r: seq<V>) {
    forall v :: v in r <==> key(v) in m && m[key(v)] == v
  }

  lemma ListMapAt<V>(m: map<string, V>, i: nat)
    requires i < |m|
    ensures |SortedKeys(m.Keys)| == |m| && SortedKeys(m.Keys)[i] in m
    ensures ListMap(m)[i] == m[SortedKeys(m.Keys)[i]]
  {
    SortedKeysListed(m.Keys);
    assert SortedKeys(m.Keys)[i] in SortedKeys(m.Keys);
  }

  lemma ListMapSorted<V>(key: V -> string, m: map<string, V>)
    requires KeyedBy(key, m)
    ensures KeySorted(key, ListMap(m))
  {
    var ks, r := SortedKeys(m.Keys), ListMap(m);
    SortedKeysListed(m.Keys);
    forall i, j | 0 <= i < j < |r| ensures Less(key(r[i]), key(r[j])) {
      ListMapAt(m, i);
      ListMapAt(m, j);
      assert Less(Id(ks[i]), Id(ks[j]));
    }
  }

  /** The listing is strictly sorted and holds exactly the map's values. */
  lemma ListMapExact<V(!new)>(key: V -> string, m: map<string, V>)
    requires KeyedBy(key, m)
    ensures KeySorted(key, ListMap(m)) && Lists(key, m, ListMap(m))
  {
    ListMapSorted(key, m);
    var ks, r := SortedKeys(m.Keys), ListMap(m);
    SortedKeysListed(m.Keys);
    forall v ensures v in r <==> key(v) in m && m[key(v)] == v {
      if v in r {
        var i :| 0 <= i < |r| && r[i] == v;
        ListMapAt(m, i);
      }
      if key(v) in m && m[key(v)] == v {
        assert key(v) in ks;
        var i :| 0 <= i < |ks| && ks[i] == key(v);
        ListMapAt(m, i);
      }
    }
  }

  lemma ListMapUnique<V(!new)>(key: V -> string, m: map<string, V>, r: seq<V>)
    requires KeyedBy(key, m) && KeySorted(key, r) && Lists(key, m, r)
    ensures r == ListMap(m)
  {
    ListMapExact(key, m);
    KeySortedUnique(key, r, ListMap(m));
  }

  // ---- Sums over a set ----

  ghost function SumOver(keys: set<string>, f: string -> int): int {
    if keys == {} then 0
    else
      var x :| x in keys;
      f(x) + SumOver(keys - {x}, f)
  }

  lemma {:induction false} SumOverTake(keys: set<string>, f: string -> int, x: string)
    requires x in keys
    ensures SumOver(keys, f) == f(x) + SumOver(keys - {x}, f)
  {
    var y :| y in keys && SumOver(keys, f) == f(y) + SumOver(keys - {y}, f);
    if x != y {
      SumOverTake(keys - {y}, f, x);
      SumOverTake(keys - {x}, f, y);
      assert keys - {y} - {x} == keys - {x} - {y};
    }
  }

  lemma {:induction false} SumOverSame(keys: set<string>, f: string -> int, g: string -> int)
    requires forall x :: x in keys ==> f(x) == g(x)
    ensures SumOver(keys, f) == SumOver(keys, g)
  {
    if keys != {} {
      var x :| x in keys && SumOver(keys, f) == f(x) + SumOver(keys - {x}, f);
      SumOverTake(keys, g, x);
      SumOverSame(keys - {x}, f, g);
    }
  }

  // ---- Lists without duplicates ----

  ghost predicate NoDuplicates<T>(s: seq<T>) {
    forall i, j :: 0 <= i < j < |s| ==> s[i] != s[j]
  }

  lemma {:induction false} NoDuplicatesOnce<T>(s: seq<T>)
    requires NoDuplicates(s)
    ensures forall x :: multiset(s)[x] == if x in s then 1 else 0
  {
    if s != [] {
      NoDuplicatesOnce(s[1..]);
      assert s == [s[0]] + s[1..];
      assert s[0] !in s[1..];
    }
  }

  /** Duplicate-free lists with the same members are permutations of each other. */
  lemma SameMembersPermute<T>(s: seq<T>, t: seq<T>)
    requires NoDuplicates(s) && NoDuplicates(t) && forall x :: x in s <==> x in t
    ensures multiset(s) == multiset(t)
  {
    NoDuplicatesOnce(s);
    NoDuplicatesOnce(t);
  }

  lemma KeySortedNoDuplicates<T>(key: T -> string, s: seq<T>)
    requires KeySorted(key, s)
    ensures NoDuplicates(s)
  {
    forall i, j | 0 <= i < j < |s| ensures s[i] != s[j] {
      LessIrreflexive(key(s[i]));
    }
  }

  lemma RemoveOne<T>(s: seq<T>, k: nat)
    requires k < |s|
    ensures multiset(s[..k] + s[k + 1..]) == multiset(s) - multiset{s[k]}
  {
    assert s == s[..k] + [s[k]] + s[k + 1..];
  }

  /** Taking out one element before the last, and the last one separately. */
  lemma CutNext<T>(b: seq<T>, k: nat)
    requires k < |b| - 1
    ensures var n := |b| - 1; b[..n][k] == b[k] && b[..k] + b[k + 1..] == b[..n][..k] + b[..n][k + 1..] + [b[n]]
  {
  }

  lemma TakeTake<T>(s: seq<T>, i: nat, n: nat)
    requires i <= n <= |s|
    ensures s[..n][..i] == s[..i]
  {
  }

  lemma TakeNext<T>(s: seq<T>, i: nat)
    requires i < |s|
    ensures s[..i + 1] == s[..i] + [s[i]]
  {
  }

  lemma TwiceCounted<T>(s: seq<T>, i: nat, j: nat)
    requires i < j < |s| && s[i] == s[j]
    ensures multiset(s)[s[i]] >= 2
  {
    assert s == s[..j] + s[j..];
    assert s[i] == s[..j][i] && s[..j][i] in s[..j] && s[j] == s[j..][0];
  }

  lemma PermutedNoDuplicates<T>(s: seq<T>, t: seq<T>)
    requires NoDuplicates(s) && multiset(s) == multiset(t)
    ensures NoDuplicates(t)
  {
    NoDuplicatesOnce(s);
    forall i, j | 0 <= i < j < |t| ensures t[i] != t[j] {
      if t[i] == t[j] { TwiceCounted(t, i, j); }
    }
  }
}
