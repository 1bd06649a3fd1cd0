/**
 * Sequence utilities behind the source's `Array.prototype.sort` (a stable
 * sort under a comparator), `Array.from(new Set(...))` (distinct elements in
 * first-appearance order) and the store reads that return every record of a
 * keyed table once, in an order the model leaves open.
 */
module Seqs {
  import opened Wrappers
  import Strings

  /** `le` is a total preorder: the comparator contract a sort relies on. */
  ghost predicate TotalPreorder<T(!new)>(le: (T, T) -> bool) {
    && (forall a, b :: le(a, b) || le(b, a))
    && (forall a, b, c :: le(a, b) && le(b, c) ==> le(a, c))
  }

  ghost predicate SortedBy<T>(s: seq<T>, le: (T, T) -> bool) {
    forall i, j :: 0 <= i < j < |s| ==> le(s[i], s[j])
  }

  /** Inserts `x` in front of the first element it is `le` to. */
  function InsertBy<T>(x: T, s: seq<T>, le: (T, T) -> bool): seq<T> {
    if |s| == 0 then [x]
    else if le(x, s[0]) then [x] + s
    else [s[0]] + InsertBy(x, s[1..], le)
  }

  /** Stable insertion sort. */
  function SortBy<T>(s: seq<T>, le: (T, T) -> bool): seq<T> {
    if |s| == 0 then [] else InsertBy(s[0], SortBy(s[1..], le), le)
  }

  lemma {:induction false} InsertBySorted<T(!new)>(x: T, s: seq<T>, le: (T, T) -> bool)
    requires TotalPreorder(le)
    requires SortedBy(s, le)
    ensures SortedBy(InsertBy(x, s, le), le)
    ensures multiset(InsertBy(x, s, le)) == multiset(s) + multiset{x}
  {
    if |s| > 0 && !le(x, s[0]) {
      InsertBySorted(x, s[1..], le);
      assert s == [s[0]] + s[1..];
      var r := InsertBy(x, s[1..], le);
      HeadBelowAll(x, s, r, le);
      SortedCons(s[0], r, le);
    }
  }

  /** The head of a sorted sequence is below everything in its tail with `x` added. */
  lemma HeadBelowAll<T(!new)>(x: T, s: seq<T>, r: seq<T>, le: (T, T) -> bool)
    requires TotalPreorder(le) && SortedBy(s, le)
    requires |s| > 0 && !le(x, s[0])
    requires multiset(r) == multiset(s[1..]) + multiset{x}
    ensures forall k :: 0 <= k < |r| ==> le(s[0], r[k])
  {
    forall k | 0 <= k < |r| ensures le(s[0], r[k]) {
      assert r[k] in multiset(r);
      if r[k] != x {
        assert r[k] in multiset(s[1..]);
        var m :| 0 <= m < |s[1..]| && s[1..][m] == r[k];
        assert s[1 + m] == r[k];
      }
    }
  }

  lemma SortedCons<T>(a: T, r: seq<T>, le: (T, T) -> bool)
    requires SortedBy(r, le)
    requires forall k :: 0 <= k < |r| ==> le(a, r[k])
    ensures SortedBy([a] + r, le)
  {
    var t := [a] + r;
    forall i, j | 0 <= i < j < |t| ensures le(t[i], t[j]) {
      if i > 0 {
        assert t[i] == r[i - 1] && t[j] == r[j - 1];
      } else {
        assert t[j] == r[j - 1];
      }
    }
  }

  /** The sort returns an ordered permutation of its input. */
  lemma {:induction false} SortBySorted<T(!new)>(s: seq<T>, le: (T, T) -> bool)
    requires TotalPreorder(le)
    ensures SortedBy(SortBy(s, le), le)
    ensures multiset(SortBy(s, le)) == multiset(s)
  {
    if |s| > 0 {
      SortBySorted(s[1..], le);
      InsertBySorted(s[0], SortBy(s[1..], le), le);
      assert s == [s[0]] + s[1..];
    }
  }

  /** Array.prototype.filter. */
  function Filter<T(!new)>(s: seq<T>, p: T -> bool): (r: seq<T>)
    ensures |r| <= |s|
    ensures forall x :: x in r <==> x in s && p(x)
  {
    if |s| == 0 then []
    else Filter(s[..|s| - 1], p) + (if p(s[|s| - 1]) then [s[|s| - 1]] else [])
  }

  /** Filtering a sequence grown by one element filters that element alone. */
  lemma FilterSnoc<T(!new)>(s: seq<T>, x: T, p: T -> bool)
    ensures Filter(s + [x], p) == Filter(s, p) + (if p(x) then [x] else [])
  {
    assert (s + [x])[..|s|] == s;
  }

  /** Extending a prefix of `b` by one element, after a fixed `a`. */
  lemma SnocSlice<T>(a: seq<T>, b: seq<T>, j: nat)
    requires j < |b|
    ensures a + b[..j + 1] == (a + b[..j]) + [b[j]]
  {
    assert b[..j + 1] == b[..j] + [b[j]];
  }

  /** Array.prototype.map. */
  function Map<T, U>(s: seq<T>, f: T -> U): (r: seq<U>)
    ensures |r| == |s| && forall i :: 0 <= i < |s| ==> r[i] == f(s[i])
  {
    seq(|s|, i requires 0 <= i < |s| => f(s[i]))
  }

  lemma MapMembership<T, U>(s: seq<T>, f: T -> U, y: U)
    ensures y in Map(s, f) <==> exists x :: x in s && f(x) == y
  {
    if y in Map(s, f) {
      var i :| 0 <= i < |s| && Map(s, f)[i] == y;
      assert s[i] in s;
    }
  }

  lemma MapSnoc<T, U>(s: seq<T>, x: T, f: T -> U)
    ensures Map(s + [x], f) == Map(s, f) + [f(x)]
  {
    assert Map(s + [x], f)[..|s|] == Map(s, f);
  }

  lemma {:induction false} FilterConcat<T(!new)>(a: seq<T>, b: seq<T>, p: T -> bool)
    ensures Filter(a + b, p) == Filter(a, p) + Filter(b, p)
  {
    if |b| > 0 {
      var b', x := b[..|b| - 1], b[|b| - 1];
      FilterConcat(a, b', p);
      assert (a + b)[..|a + b| - 1] == a + b';
      assert (a + b)[|a + b| - 1] == x;
      var tail := if p(x) then [x] else [];
      calc {
        Filter(a + b, p);
        Filter(a + b', p) + tail;
        Filter(a, p) + Filter(b', p) + tail;
        Filter(a, p) + (Filter(b', p) + tail);
        Filter(a, p) + Filter(b, p);
      }
    } else {
      assert a + b == a;
    }
  }

  /** A filter every element passes gives back the whole sequence. */
  lemma {:induction false} FilterAll<T(!new)>(s: seq<T>, p: T -> bool)
    requires forall x :: x in s ==> p(x)
    ensures Filter(s, p) == s
  {
    if |s| > 0 {
      FilterAll(s[..|s| - 1], p);
      assert s == s[..|s| - 1] + [s[|s| - 1]];
    }
  }

  /** A filter nothing passes gives the empty sequence. */
  lemma {:induction false} FilterNone<T(!new)>(s: seq<T>, p: T -> bool)
    requires forall x :: x in s ==> !p(x)
    ensures Filter(s, p) == []
  {
    if |s| > 0 {
      FilterNone(s[..|s| - 1], p);
      assert s[|s| - 1] in s;
    }
  }

  /** A filter that keeps as many elements as it was given kept all of them. */
  lemma {:induction false} FilterSameLength<T(!new)>(s: seq<T>, p: T -> bool)
    requires |Filter(s, p)| == |s|
    ensures Filter(s, p) == s
  {
    if |s| > 0 {
      var init := s[..|s| - 1];
      if !p(s[|s| - 1]) {
        assert false;
      }
      FilterSameLength(init, p);
      assert s == init + [s[|s| - 1]];
    }
  }

  /** Filtering a duplicate-free sequence leaves it duplicate-free. */
  lemma {:induction false} FilterNoDuplicates<T(!new)>(s: seq<T>, p: T -> bool)
    requires NoDuplicates(s)
    ensures NoDuplicates(Filter(s, p))
  {
    if |s| > 0 {
      var init, x := s[..|s| - 1], s[|s| - 1];
      assert NoDuplicates(init);
      FilterNoDuplicates(init, p);
      if p(x) {
        assert x !in init;
        assert x !in Filter(init, p);
      }
    }
  }

  /** Elements in order of first appearance, as a JavaScript Set iterates them. */
  function Distinct<T(==)>(s: seq<T>): seq<T> {
    if |s| == 0 then []
    else
      var init := Distinct(s[..|s| - 1]);
      if s[|s| - 1] in s[..|s| - 1] then init else init + [s[|s| - 1]]
  }

  ghost predicate NoDuplicates<T>(s: seq<T>) {
    forall i, j :: 0 <= i < j < |s| ==> s[i] != s[j]
  }

  lemma {:induction false} DistinctCorrect<T>(s: seq<T>)
    ensures NoDuplicates(Distinct(s))
    ensures forall x :: x in Distinct(s) <==> x in s
  {
    if |s| > 0 {
      var init := s[..|s| - 1];
      DistinctCorrect(init);
      assert s == init + [s[|s| - 1]];
    }
  }

  /** Permutations preserve duplicate-freedom. */
  lemma {:induction false} PermutationNoDuplicates<T>(a: seq<T>, b: seq<T>)
    requires multiset(a) == multiset(b)
    requires NoDuplicates(a)
    ensures NoDuplicates(b)
  {
    forall i, j | 0 <= i < j < |b| ensures b[i] != b[j] {
      if b[i] == b[j] {
        var x := b[i];
        assert multiset(b)[x] >= 2 by {
          assert b == b[..i] + [b[i]] + b[i + 1..j] + [b[j]] + b[j + 1..];
        }
        CountAtMostOne(a, x);
        assert false;
      }
    }
  }

  lemma {:induction false} CountAtMostOne<T>(a: seq<T>, x: T)
    requires NoDuplicates(a)
    ensures multiset(a)[x] <= 1
  {
    if |a| > 0 {
      var init := a[..|a| - 1];
      CountAtMostOne(init, x);
      assert a == init + [a[|a| - 1]];
      if a[|a| - 1] == x {
        assert x !in init;
      }
    }
  }

  /**
   * Every element of a finite set once, in an order left open: a store's
   * getAll over a keyed table or an SQL query without ORDER BY.
   */
  method Enumerate<K>(keys: set<K>) returns (r: seq<K>)
    ensures |r| == |keys|
    ensures forall k :: k in r <==> k in keys
    ensures NoDuplicates(r)
  {
    r := [];
    var rest := keys;
    while rest != {}
      invariant rest !! set k | k in r
      invariant keys == rest + set k | k in r
      invariant NoDuplicates(r)
      decreases |rest|
    {
      var k :| k in rest;
      ghost var seen := set x | x in r;
      assert (set x | x in r + [k]) == seen + {k};
      r := r + [k];
      rest := rest - {k};
    }
    NoDuplicatesCard(r);
  }

  lemma {:induction false} NoDuplicatesCard<K>(r: seq<K>)
    requires NoDuplicates(r)
    ensures |set k | k in r| == |r|
  {
    if |r| > 0 {
      var init := r[..|r| - 1];
      NoDuplicatesCard(init);
      assert (set k | k in r) == (set k | k in init) + {r[|r| - 1]};
    }
  }

  /** `new Map(s.map(x => [key(x), x]))`: later elements overwrite earlier ones with the same key. */
  function IndexBy<K, T>(s: seq<T>, key: T -> K): (m: map<K, T>)
  {
    if |s| == 0 then map[]
    else IndexBy(s[..|s| - 1], key)[key(s[|s| - 1]) := s[|s| - 1]]
  }

  lemma IndexBySnoc<K, T>(s: seq<T>, x: T, key: T -> K)
    ensures IndexBy(s + [x], key) == IndexBy(s, key)[key(x) := x]
  {
    assert (s + [x])[..|s|] == s;
  }

  /** Two maps with the same keys and the same value under each key are equal. */
  lemma MapExtensional<K, V>(a: map<K, V>, b: map<K, V>)
    requires forall k :: k in a <==> k in b
    requires forall k :: k in a ==> a[k] == b[k]
    ensures a == b
  {
  }

  /** Map.prototype.get: None where the source reads `undefined`. */
  function Lookup<K, V>(m: map<K, V>, k: K): (r: Option<V>)
    ensures r.Some? <==> k in m
    ensures r.Some? ==> r.value == m[k]
  {
    if k in m then Some(m[k]) else None
  }

  /** Every element's key is indexed, and the index holds the last element carrying it. */
  lemma {:induction false} IndexByLast<K, T>(s: seq<T>, key: T -> K, i: nat)
    requires i < |s|
    requires forall j :: i < j < |s| ==> key(s[j]) != key(s[i])
    ensures key(s[i]) in IndexBy(s, key) && IndexBy(s, key)[key(s[i])] == s[i]
  {
    if i < |s| - 1 {
      IndexByLast(s[..|s| - 1], key, i);
    }
  }

  /** Each indexed value is an element of the sequence carrying its key. */
  lemma {:induction false} IndexByValue<K, T>(s: seq<T>, key: T -> K, k: K)
    requires k in IndexBy(s, key)
    ensures key(IndexBy(s, key)[k]) == k && IndexBy(s, key)[k] in s
  {
    if |s| > 0 && k != key(s[|s| - 1]) {
      IndexByValue(s[..|s| - 1], key, k);
    }
  }

  /** A key is indexed exactly when some element carries it. */
  lemma {:induction false} IndexByKeys<K, T>(s: seq<T>, key: T -> K, k: K)
    ensures k in IndexBy(s, key) <==> exists x :: x in s && key(x) == k
  {
    if |s| > 0 {
      IndexByKeys(s[..|s| - 1], key, k);
      assert s == s[..|s| - 1] + [s[|s| - 1]];
    }
  }

  /**
   * The rows of a keyed table that satisfy `p`, in an order left open: an
   * SQL SELECT with a WHERE clause and no ORDER BY. Each row is read once:
   * `picked` holds the key of each row, without duplicates.
   */
  method Select<K, V(==)>(table: map<K, V>, p: V -> bool) returns (rows: seq<V>, picked: seq<K>)
    ensures forall r :: r in rows <==> r in table.Values && p(r)
    ensures |picked| == |rows| && NoDuplicates(picked)
    ensures forall i :: 0 <= i < |rows| ==> picked[i] in table && rows[i] == table[picked[i]]
  {
    var keys := Enumerate(table.Keys);
    rows, picked := [], [];
    var i := 0;
    while i < |keys|
      invariant 0 <= i <= |keys|
      invariant forall r :: r in rows <==> exists k :: 0 <= k < i && table[keys[k]] == r && p(r)
      invariant |picked| == |rows| && NoDuplicates(picked)
      invariant forall m :: 0 <= m < |rows| ==> picked[m] in table && rows[m] == table[picked[m]]
      invariant forall x :: x in picked ==> x in keys[..i]
    {
      if p(table[keys[i]]) {
        assert keys[i] !in keys[..i];
        rows, picked := rows + [table[keys[i]]], picked + [keys[i]];
      }
      assert keys[..i + 1] == keys[..i] + [keys[i]];
      i := i + 1;
    }
    forall r | r in table.Values && p(r) ensures r in rows {
      var key :| key in table && table[key] == r;
      var k :| 0 <= k < |keys| && keys[k] == key;
    }
  }

  /** `s.findIndex(x => key(x) === id)`: the index of the first element with that key, or None. */
  function FindBy<T, K(==)>(s: seq<T>, key: T -> K, id: K): (r: Option<nat>)
    ensures r.Some? ==> r.value < |s| && key(s[r.value]) == id
    ensures r.Some? ==> forall k :: 0 <= k < r.value ==> key(s[k]) != id
    ensures r.None? ==> forall k :: 0 <= k < |s| ==> key(s[k]) != id
  {
    if |s| == 0 then None
    else if key(s[0]) == id then Some(0)
    else match FindBy(s[1..], key, id)
      case None => None
      case Some(k) => Some(k + 1)
  }

  /** Two sequences of the same length that agree at every index are equal. */
  lemma Extensional<T>(a: seq<T>, b: seq<T>)
    requires |a| == |b|
    requires forall k :: 0 <= k < |a| ==> a[k] == b[k]
    ensures a == b
  {
  }

  /** Mapping `f` over `s` gives `t` when `f` takes each element of `s` to the element of `t` at its index. */
  lemma MapPointwise<T, U>(s: seq<T>, f: T -> U, t: seq<U>)
    requires |s| == |t|
    requires forall k :: 0 <= k < |s| ==> f(s[k]) == t[k]
    ensures Map(s, f) == t
  {
    Extensional(Map(s, f), t);
  }

  /** The code-point order on strings is a total preorder, so sorting by it is well defined. */
  lemma StringOrder()
    ensures TotalPreorder(Strings.Le)
  {
    forall a, b ensures Strings.Le(a, b) || Strings.Le(b, a) {
      Strings.LeTotal(a, b);
    }
    forall a, b, c | Strings.Le(a, b) && Strings.Le(b, c) ensures Strings.Le(a, c) {
      Strings.LeTransitive(a, b, c);
    }
  }
}
