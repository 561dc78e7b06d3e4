/** The two orderings the article stores produce: `Array.prototype.sort()` with the default
    string comparison (article listings), and a sort by a numeric key, largest first
    (statistics by modification time, search hits by number of matches). Both are insertion
    sorts stated by what they guarantee: the output is ordered and is a permutation of the input. */
module Sorting {
  import opened Text

  /** Ascending in the default string order. */
  predicate Sorted(s: seq<string>) {
    forall i, j :: 0 <= i < j < |s| ==> StrLe(s[i], s[j])
  }

  predicate Distinct<T(==)>(s: seq<T>) {
    forall i, j :: 0 <= i < j < |s| ==> s[i] != s[j]
  }

  lemma SortedCons(x: string, s: seq<string>)
    requires Sorted(s) && s != [] && StrLe(x, s[0])
    ensures Sorted([x] + s)
  {
    forall j | 0 <= j < |s|
      ensures StrLe(x, s[j])
    {
      if j > 0 {
        StrLeTransitive(x, s[0], s[j]);
      }
    }
  }

  lemma SortedConsBelow(h: string, t: seq<string>)
    requires Sorted(t)
    requires forall e :: e in multiset(t) ==> StrLe(h, e)
    ensures Sorted([h] + t)
  {
    forall j | 0 <= j < |t|
      ensures StrLe(h, t[j])
    {
      assert t[j] in multiset(t);
    }
  }

  /** Places `x` into an ascending sequence. */
  function Insert(x: string, s: seq<string>): (r: seq<string>)
    requires Sorted(s)
    ensures Sorted(r)
    ensures multiset(r) == multiset(s) + multiset{x}
    decreases |s|
  {
    if s == [] then [x]
    else if StrLe(x, s[0]) then
      SortedCons(x, s);
      [x] + s
    else
      StrLeTotal(x, s[0]);
      var t := Insert(x, s[1..]);
      TailMultiset(s);
      LowerBoundOfInsert(s, x, t);
      SortedConsBelow(s[0], t);
      [s[0]] + t
  }

  lemma LowerBoundOfInsert(s: seq<string>, x: string, t: seq<string>)
    requires Sorted(s) && s != [] && StrLe(s[0], x)
    requires multiset(t) == multiset(s[1..]) + multiset{x}
    ensures forall e :: e in multiset(t) ==> StrLe(s[0], e)
  {
    forall e | e in multiset(t)
      ensures StrLe(s[0], e)
    {
      if e != x {
        assert e in s[1..];
      }
    }
  }

  /** `names.sort()`: the same names, ascending. */
  function SortStrings(s: seq<string>): (r: seq<string>)
    ensures Sorted(r)
    ensures multiset(r) == multiset(s)
  {
    if s == [] then []
    else
      assert s == [s[0]] + s[1..];
      Insert(s[0], SortStrings(s[1..]))
  }

  lemma SortedHeadsEqual(a: seq<string>, b: seq<string>)
    requires Sorted(a) && Sorted(b) && multiset(a) == multiset(b) && a != [] && b != []
    ensures a[0] == b[0]
  {
    assert a[0] in multiset(b) && b[0] in multiset(a);
    var k :| 0 <= k < |b| && b[k] == a[0];
    var m :| 0 <= m < |a| && a[m] == b[0];
    if k > 0 && m > 0 {
      assert StrLe(b[0], b[k]) && StrLe(a[0], a[m]);
      StrLeAntisymmetric(a[0], b[0]);
    }
  }

  lemma TailMultiset<T>(a: seq<T>)
    requires a != []
    ensures multiset(a[1..]) == multiset(a) - multiset{a[0]}
  {
    assert a == [a[0]] + a[1..];
  }

  lemma RemoveAtMultiset<T>(b: seq<T>, k: int)
    requires 0 <= k < |b|
    ensures multiset(b[..k] + b[k + 1..]) == multiset(b) - multiset{b[k]}
  {
    assert b == b[..k] + [b[k]] + b[k + 1..];
  }

  /** Two ascending arrangements of the same names are the same sequence, so a sorted listing
      does not depend on the order in which the names were found. */
  lemma {:induction false} SortedPermutationUnique(a: seq<string>, b: seq<string>)
    requires Sorted(a) && Sorted(b) && multiset(a) == multiset(b)
    ensures a == b
    decreases |a|
  {
    if a != [] {
      assert |b| == |multiset(b)| == |multiset(a)| == |a|;
      SortedHeadsEqual(a, b);
      TailMultiset(a);
      TailMultiset(b);
      assert Sorted(a[1..]) && Sorted(b[1..]);
      SortedPermutationUnique(a[1..], b[1..]);
      assert a == [a[0]] + a[1..] && b == [b[0]] + b[1..];
    }
  }

  /** Some enumeration of a finite set of names. */
  ghost function Enumerate(keys: set<string>): (r: seq<string>)
    ensures multiset(r) == multiset(keys)
  {
    if keys == {} then []
    else
      var k :| k in keys;
      assert multiset(keys) == multiset{k} + multiset(keys - {k});
      [k] + Enumerate(keys - {k})
  }

  /** The names of a set, ascending: what sorting any enumeration of them yields. */
  ghost function SortedSet(keys: set<string>): (r: seq<string>)
    ensures Sorted(r)
    ensures multiset(r) == multiset(keys)
  {
    SortStrings(Enumerate(keys))
  }

  lemma CountOfPair<T>(s: seq<T>, i: int, j: int)
    requires 0 <= i < j < |s|
    ensures multiset(s)[s[i]] >= 1 + (if s[j] == s[i] then 1 else 0)
  {
    assert s == s[..j] + [s[j]] + s[j + 1..];
    assert s[..j][i] == s[i];
  }

  /** A sequence whose multiset is a set holds each name once. */
  lemma DistinctOfSet<T>(s: seq<T>, keys: set<T>)
    requires multiset(s) == multiset(keys)
    ensures Distinct(s)
  {
    forall i, j | 0 <= i < j < |s|
      ensures s[i] != s[j]
    {
      CountOfPair(s, i, j);
    }
  }

  /** Descending in a numeric key. */
  predicate SortedDescBy<T>(s: seq<T>, key: T -> int) {
    forall i, j :: 0 <= i < j < |s| ==> key(s[i]) >= key(s[j])
  }

  lemma KeyBoundOfPermutation<T>(h: T, t: seq<T>, rest: seq<T>, x: T, key: T -> int)
    requires multiset(t) == multiset(rest) + multiset{x}
    requires key(h) >= key(x)
    requires forall j :: 0 <= j < |rest| ==> key(h) >= key(rest[j])
    ensures forall j :: 0 <= j < |t| ==> key(h) >= key(t[j])
  {
    forall j | 0 <= j < |t|
      ensures key(h) >= key(t[j])
    {
      assert t[j] in multiset(t);
      if t[j] != x {
        assert t[j] in rest;
      }
    }
  }

  /** Places `x` into a sequence that is descending in `key`, before the entries with an equal key. */
  function InsertDescBy<T(==)>(x: T, s: seq<T>, key: T -> int): (r: seq<T>)
    requires SortedDescBy(s, key)
    ensures SortedDescBy(r, key)
    ensures multiset(r) == multiset(s) + multiset{x}
    decreases |s|
  {
    if s == [] then [x]
    else if key(x) >= key(s[0]) then
      assert forall j :: 0 <= j < |s| ==> key(s[0]) >= key(s[j]);
      SortedDescCons(x, s, key);
      [x] + s
    else
      var t := InsertDescBy(x, s[1..], key);
      TailMultiset(s);
      KeyBoundOfPermutation(s[0], t, s[1..], x, key);
      SortedDescCons(s[0], t, key);
      [s[0]] + t
  }

  lemma SortedDescCons<T>(h: T, t: seq<T>, key: T -> int)
    requires SortedDescBy(t, key)
    requires forall j :: 0 <= j < |t| ==> key(h) >= key(t[j])
    ensures SortedDescBy([h] + t, key)
  {
  }

  /** `entries.sort((a, b) => key(b) - key(a))`: the same entries, largest key first. */
  function SortDescBy<T(==)>(s: seq<T>, key: T -> int): (r: seq<T>)
    ensures SortedDescBy(r, key)
    ensures multiset(r) == multiset(s)
  {
    if s == [] then []
    else
      assert s == [s[0]] + s[1..];
      InsertDescBy(s[0], SortDescBy(s[1..], key), key)
  }
}
