/** Name-keyed pairs and the sort Python applies to them: `sorted(kwargs.items())`
    in the key derivation and `sort_keys=True` in `json.dumps`. Both sort
    pairs whose names are distinct (a dict never repeats a key), so the sort
    is decided by the names alone. */
module NameSort {
  import opened PyStrings

  /** One `(name, value)` pair: an item of a dict or one keyword argument. */
  datatype Named<T> = Named(name: string, value: T)

  predicate DistinctNames<T>(s: seq<Named<T>>)
  {
    forall i, j :: 0 <= i < j < |s| ==> s[i].name != s[j].name
  }

  predicate Sorted<T>(s: seq<Named<T>>)
  {
    forall i, j :: 0 <= i < j < |s| ==> LessEq(s[i].name, s[j].name)
  }

  predicate StrictlySorted<T>(s: seq<Named<T>>)
  {
    forall i, j :: 0 <= i < j < |s| ==> Less(s[i].name, s[j].name)
  }

  function NameSet<T>(s: seq<Named<T>>): set<string>
  {
    set i | 0 <= i < |s| :: s[i].name
  }

  /** Applies `f` to every value, keeping names and positions. */
  function MapValues<T, U>(f: T -> U, s: seq<Named<T>>): (r: seq<Named<U>>)
    ensures |r| == |s|
    ensures forall i :: 0 <= i < |s| ==> r[i] == Named(s[i].name, f(s[i].value))
  {
    if s == [] then [] else [Named(s[0].name, f(s[0].value))] + MapValues(f, s[1..])
  }

  /** Places `x` before the first pair whose name is not smaller than its own. */
  function Insert<T>(x: Named<T>, s: seq<Named<T>>): (r: seq<Named<T>>)
    ensures |r| == |s| + 1
  {
    if s == [] || LessEq(x.name, s[0].name) then [x] + s else [s[0]] + Insert(x, s[1..])
  }

  /** `sorted(pairs)` for pairs with distinct names, as an insertion sort. */
  function SortByName<T>(s: seq<Named<T>>): (r: seq<Named<T>>)
    ensures |r| == |s|
  {
    if s == [] then [] else Insert(s[0], SortByName(s[1..]))
  }

  lemma {:induction false} InsertPosition<T>(x: Named<T>, s: seq<Named<T>>) returns (i: nat)
    ensures i <= |s|
    ensures Insert(x, s) == s[..i] + [x] + s[i..]
  {
    if s == [] || LessEq(x.name, s[0].name) {
      i := 0;
    } else {
      var k := InsertPosition(x, s[1..]);
      i := k + 1;
      assert s[..i] == [s[0]] + s[1..][..k];
      assert s[i..] == s[1..][k..];
    }
  }

  lemma {:induction false} InsertNames<T>(x: Named<T>, s: seq<Named<T>>)
    ensures NameSet(Insert(x, s)) == NameSet(s) + {x.name}
  {
    var i := InsertPosition(x, s);
    var r := Insert(x, s);
    forall n | n in NameSet(r) ensures n in NameSet(s) + {x.name} {
      var k :| 0 <= k < |r| && r[k].name == n;
      if k > i { assert r[k] == s[k - 1]; } else if k < i { assert r[k] == s[k]; }
    }
    forall n | n in NameSet(s) + {x.name} ensures n in NameSet(r) {
      if n == x.name {
        assert r[i] == x;
      } else {
        var k :| 0 <= k < |s| && s[k].name == n;
        if k < i { assert r[k] == s[k]; } else { assert r[k + 1] == s[k]; }
      }
    }
  }

  lemma {:induction false} SortNames<T>(s: seq<Named<T>>)
    ensures NameSet(SortByName(s)) == NameSet(s)
  {
    if s != [] {
      SortNames(s[1..]);
      InsertNames(s[0], SortByName(s[1..]));
      assert NameSet(s) == NameSet(s[1..]) + {s[0].name} by {
        forall n | n in NameSet(s) ensures n in NameSet(s[1..]) + {s[0].name} {
          var k :| 0 <= k < |s| && s[k].name == n;
          if k > 0 { assert s[1..][k - 1] == s[k]; }
        }
        forall n | n in NameSet(s[1..]) ensures n in NameSet(s) {
          var k :| 0 <= k < |s[1..]| && s[1..][k].name == n;
          assert s[k + 1] == s[1..][k];
        }
      }
    }
  }

  lemma {:induction false} InsertPermutes<T>(x: Named<T>, s: seq<Named<T>>)
    ensures multiset(Insert(x, s)) == multiset(s) + multiset{x}
  {
    var i := InsertPosition(x, s);
    assert s == s[..i] + s[i..];
  }

  /** Sorting only reorders: the result holds exactly the input's pairs. */
  lemma {:induction false} SortPermutes<T>(s: seq<Named<T>>)
    ensures multiset(SortByName(s)) == multiset(s)
  {
    if s != [] {
      SortPermutes(s[1..]);
      InsertPermutes(s[0], SortByName(s[1..]));
      assert s == [s[0]] + s[1..];
    }
  }

  lemma {:induction false} InsertSorted<T>(x: Named<T>, s: seq<Named<T>>)
    requires Sorted(s)
    ensures Sorted(Insert(x, s))
  {
    var r := Insert(x, s);
    if s == [] || LessEq(x.name, s[0].name) {
      forall i, j | 0 <= i < j < |r| ensures LessEq(r[i].name, r[j].name) {
        if i == 0 && j > 1 {
          LessEqTransitive(x.name, s[0].name, s[j - 1].name);
        }
      }
    } else {
      InsertSorted(x, s[1..]);
      LessTotal(x.name, s[0].name);
      LessAsymmetric(s[0].name, x.name);
      var i := InsertPosition(x, s[1..]);
      forall j | 0 < j < |r| ensures LessEq(r[0].name, r[j].name) {
        if j == i + 1 {
          assert r[j] == x;
        } else if j <= i {
          assert r[j] == s[j];
        } else {
          assert r[j] == s[j - 1];
        }
      }
    }
  }

  /** The sort's result is in ascending name order. */
  lemma {:induction false} SortSorted<T>(s: seq<Named<T>>)
    ensures Sorted(SortByName(s))
  {
    if s != [] {
      SortSorted(s[1..]);
      InsertSorted(s[0], SortByName(s[1..]));
    }
  }

  lemma {:induction false} InsertDistinct<T>(x: Named<T>, s: seq<Named<T>>)
    requires DistinctNames(s) && x.name !in NameSet(s)
    ensures DistinctNames(Insert(x, s))
  {
    var i := InsertPosition(x, s);
    var r := Insert(x, s);
    forall a, b | 0 <= a < b < |r| ensures r[a].name != r[b].name {
      if a == i {
        assert r[b] == s[b - 1];
      } else if b == i {
        assert r[a] == s[a];
      } else {
        var a' := if a < i then a else a - 1;
        var b' := if b < i then b else b - 1;
        assert r[a] == s[a'] && r[b] == s[b'];
      }
    }
  }

  lemma {:induction false} SortDistinct<T>(s: seq<Named<T>>)
    requires DistinctNames(s)
    ensures DistinctNames(SortByName(s))
  {
    if s != [] {
      SortDistinct(s[1..]);
      SortNames(s[1..]);
      assert s[0].name !in NameSet(s[1..]);
      InsertDistinct(s[0], SortByName(s[1..]));
    }
  }

  lemma StrictFromDistinct<T>(s: seq<Named<T>>)
    requires Sorted(s) && DistinctNames(s)
    ensures StrictlySorted(s)
  {
    forall i, j | 0 <= i < j < |s| ensures Less(s[i].name, s[j].name) {
      LessTotal(s[i].name, s[j].name);
    }
  }

  lemma StrictlySortedTail<T>(a: seq<Named<T>>)
    requires StrictlySorted(a) && a != []
    ensures StrictlySorted(a[1..])
  {
    forall i, k | 0 <= i < k < |a[1..]| ensures Less(a[1..][i].name, a[1..][k].name) {
      assert a[1..][i] == a[i + 1] && a[1..][k] == a[k + 1];
    }
  }

  /** The first pair of a strictly sorted sequence has the least name, so two
      such sequences holding the same pairs start with the same pair. */
  lemma StrictlySortedHeads<T>(a: seq<Named<T>>, b: seq<Named<T>>)
    requires StrictlySorted(a) && StrictlySorted(b)
    requires multiset(a) == multiset(b) && a != []
    ensures b != [] && a[0] == b[0]
  {
    assert a[0] in multiset(b);
    var j :| 0 <= j < |b| && b[j] == a[0];
    assert b[0] in multiset(a);
    var i :| 0 <= i < |a| && a[i] == b[0];
    if j != 0 {
      if i == 0 {
        LessIrreflexive(a[0].name);
      } else {
        LessAsymmetric(a[0].name, a[i].name);
      }
    }
  }

  lemma MultisetCancel<X>(x: X, m: multiset<X>, n: multiset<X>)
    requires multiset{x} + m == multiset{x} + n
    ensures m == n
  {
    assert m == (multiset{x} + m) - multiset{x};
    assert n == (multiset{x} + n) - multiset{x};
  }

  /** Two strictly sorted sequences holding the same pairs are equal. */
  lemma {:induction false} StrictlySortedUnique<T>(a: seq<Named<T>>, b: seq<Named<T>>)
    requires StrictlySorted(a) && StrictlySorted(b)
    requires multiset(a) == multiset(b)
    ensures a == b
  {
    if a == [] {
      assert |b| == |multiset(b)| == 0;
    } else {
      StrictlySortedHeads(a, b);
      assert a == [a[0]] + a[1..] && b == [b[0]] + b[1..];
      assert multiset(a[1..]) == multiset(b[1..]) by {
        assert multiset(a) == multiset{a[0]} + multiset(a[1..]);
        assert multiset(b) == multiset{a[0]} + multiset(b[1..]);
        MultisetCancel(a[0], multiset(a[1..]), multiset(b[1..]));
      }
      StrictlySortedTail(a);
      StrictlySortedTail(b);
      StrictlySortedUnique(a[1..], b[1..]);
    }
  }

  /** The sorted result does not depend on the input order: reordering pairs
      with distinct names does not change `sorted(...)`. */
  lemma SortIgnoresOrder<T>(s: seq<Named<T>>, t: seq<Named<T>>)
    requires DistinctNames(s) && DistinctNames(t)
    requires multiset(s) == multiset(t)
    ensures SortByName(s) == SortByName(t)
  {
    SortSorted(s);
    SortSorted(t);
    SortDistinct(s);
    SortDistinct(t);
    StrictFromDistinct(SortByName(s));
    StrictFromDistinct(SortByName(t));
    SortPermutes(s);
    SortPermutes(t);
    StrictlySortedUnique(SortByName(s), SortByName(t));
  }

  /** Sorting an already sorted sequence leaves it as it is. */
  lemma {:induction false} SortOfSorted<T>(s: seq<Named<T>>)
    requires Sorted(s)
    ensures SortByName(s) == s
  {
    if s != [] {
      assert Sorted(s[1..]);
      SortOfSorted(s[1..]);
      assert s == [s[0]] + s[1..];
    }
  }

  lemma SortIdempotent<T>(s: seq<Named<T>>)
    ensures SortByName(SortByName(s)) == SortByName(s)
  {
    SortSorted(s);
    SortOfSorted(SortByName(s));
  }

  lemma {:induction false} InsertMapValues<T, U>(f: T -> U, x: Named<T>, s: seq<Named<T>>)
    ensures MapValues(f, Insert(x, s)) == Insert(Named(x.name, f(x.value)), MapValues(f, s))
  {
    if s != [] && !LessEq(x.name, s[0].name) {
      InsertMapValues(f, x, s[1..]);
      assert MapValues(f, s)[1..] == MapValues(f, s[1..]);
    }
  }

  /** The sort looks at names only, so it commutes with rewriting the values. */
  lemma {:induction false} SortMapValues<T, U>(f: T -> U, s: seq<Named<T>>)
    ensures SortByName(MapValues(f, s)) == MapValues(f, SortByName(s))
  {
    if s != [] {
      SortMapValues(f, s[1..]);
      InsertMapValues(f, s[0], SortByName(s[1..]));
      assert MapValues(f, s)[1..] == MapValues(f, s[1..]);
    }
  }

  lemma PermutationKeepsAll<T>(P: T -> bool, s: seq<Named<T>>, t: seq<Named<T>>)
    requires multiset(s) == multiset(t)
    requires forall i :: 0 <= i < |s| ==> P(s[i].value)
    ensures forall i :: 0 <= i < |t| ==> P(t[i].value)
  {
    forall i | 0 <= i < |t| ensures P(t[i].value) {
      assert t[i] in multiset(s);
    }
  }
}
