/**
 * The Python list operations the source relies on: `list.count`, `max`, `min`,
 * `list.index` and `sorted(..., reverse=True)`.
 */
module Lists {

  /** `s.count(v)`: how often `v` occurs in `s`. */
  function Count<T(==)>(s: seq<T>, v: T): nat {
    if s == [] then 0 else (if s[0] == v then 1 else 0) + Count(s[1..], v)
  }

  /** `s.count(v)` is the multiplicity of `v` in `s`. */
  lemma {:induction false} CountMultiset<T>(s: seq<T>, v: T)
    ensures Count(s, v) == multiset(s)[v]
  {
    if s != [] {
      CountMultiset(s[1..], v);
      assert s == [s[0]] + s[1..];
    }
  }

  lemma CountsMultiset<T>(s: seq<T>)
    ensures forall v :: Count(s, v) == multiset(s)[v]
  {
    forall v ensures Count(s, v) == multiset(s)[v] {
      CountMultiset(s, v);
    }
  }

  /** `max(s)` of a non-empty list. */
  function Max(s: seq<int>): (m: int)
    requires |s| > 0
    ensures m in s
    ensures forall i :: 0 <= i < |s| ==> s[i] <= m
  {
    if |s| == 1 then s[0]
    else
      var rest := Max(s[1..]);
      if s[0] >= rest then s[0] else rest
  }

  /** `min(s)` of a non-empty list. */
  function Min(s: seq<int>): (m: int)
    requires |s| > 0
    ensures m in s
    ensures forall i :: 0 <= i < |s| ==> m <= s[i]
  {
    if |s| == 1 then s[0]
    else
      var rest := Min(s[1..]);
      if s[0] <= rest then s[0] else rest
  }

  /** `s.index(v)`: the first position holding `v`. */
  function IndexOf<T(==)>(s: seq<T>, v: T): (i: nat)
    requires v in s
    ensures i < |s| && s[i] == v
    ensures forall j :: 0 <= j < i ==> s[j] != v
  {
    if s[0] == v then 0 else 1 + IndexOf(s[1..], v)
  }

  /** No value occurs twice. */
  predicate Distinct<T(==)>(s: seq<T>) {
    forall i, j :: 0 <= i < j < |s| ==> s[i] != s[j]
  }

  /** `ge` is a total order (what Python's `>=` is on the values sorted here). */
  ghost predicate TotalOrder<T(!new)>(ge: (T, T) -> bool) {
    && (forall a, b :: ge(a, b) || ge(b, a))
    && (forall a, b :: ge(a, b) && ge(b, a) ==> a == b)
    && (forall a, b, c :: ge(a, b) && ge(b, c) ==> ge(a, c))
  }

  /** Every element is `ge` every later one. */
  ghost predicate SortedBy<T>(s: seq<T>, ge: (T, T) -> bool) {
    forall i, j :: 0 <= i < j < |s| ==> ge(s[i], s[j])
  }

  /** Places `x` in front of the first element it is `ge` to. */
  function Insert<T>(x: T, s: seq<T>, ge: (T, T) -> bool): (r: seq<T>)
    ensures |r| == |s| + 1
    ensures multiset(r) == multiset(s) + multiset{x}
  {
    if s == [] || ge(x, s[0]) then [x] + s
    else
      assert s == [s[0]] + s[1..];
      [s[0]] + Insert(x, s[1..], ge)
  }

  /** `sorted(s, reverse=True)` under the order `ge`. */
  function SortDesc<T>(s: seq<T>, ge: (T, T) -> bool): (r: seq<T>)
    ensures |r| == |s|
    ensures multiset(r) == multiset(s)
  {
    if s == [] then []
    else
      assert s == [s[0]] + s[1..];
      Insert(s[0], SortDesc(s[1..], ge), ge)
  }

  lemma {:induction false} InsertSorted<T(!new)>(x: T, s: seq<T>, ge: (T, T) -> bool)
    requires TotalOrder(ge) && SortedBy(s, ge)
    ensures SortedBy(Insert(x, s, ge), ge)
  {
    if s == [] || ge(x, s[0]) {
    } else {
      InsertSorted(x, s[1..], ge);
      var r := Insert(x, s[1..], ge);
      assert multiset(r) == multiset(s[1..]) + multiset{x};
      forall k | 0 <= k < |r| ensures ge(s[0], r[k]) {
        assert r[k] in multiset(r);
        if r[k] != x {
          assert r[k] in multiset(s[1..]);
          var m :| 0 <= m < |s[1..]| && s[1..][m] == r[k];
          assert s[m + 1] == r[k];
        }
      }
    }
  }

  /** The result of `SortDesc` is in descending order and a permutation of its input. */
  lemma {:induction false} SortDescSorted<T(!new)>(s: seq<T>, ge: (T, T) -> bool)
    requires TotalOrder(ge)
    ensures SortedBy(SortDesc(s, ge), ge)
    ensures multiset(SortDesc(s, ge)) == multiset(s)
  {
    if s != [] {
      SortDescSorted(s[1..], ge);
      InsertSorted(s[0], SortDesc(s[1..], ge), ge);
    }
  }

  /** Python's `>=` on integers. */
  function IntGe(a: int, b: int): bool { a >= b }

  /** Two integer lists sorted in descending order with the same elements are equal. */
  lemma {:induction false} SortedUnique(s: seq<int>, t: seq<int>)
    requires SortedBy(s, IntGe) && SortedBy(t, IntGe)
    requires multiset(s) == multiset(t)
    ensures s == t
  {
    if s == [] {
      assert |t| == |multiset(t)| == 0;
    } else {
      assert |t| == |multiset(t)| == |multiset(s)| == |s|;
      assert s[0] in multiset(t);
      assert s[0] in t;
      assert t[0] in multiset(s);
      assert t[0] in s;
      assert forall j :: 0 <= j < |t| ==> t[0] >= t[j] by {
        forall j | 0 <= j < |t| ensures t[0] >= t[j] {
          if j > 0 { assert IntGe(t[0], t[j]); }
        }
      }
      assert forall j :: 0 <= j < |s| ==> s[0] >= s[j] by {
        forall j | 0 <= j < |s| ensures s[0] >= s[j] {
          if j > 0 { assert IntGe(s[0], s[j]); }
        }
      }
      assert s[0] == t[0];
      assert s == [s[0]] + s[1..] && t == [t[0]] + t[1..];
      assert multiset(s) == multiset{s[0]} + multiset(s[1..]);
      assert multiset(t) == multiset{t[0]} + multiset(t[1..]);
      forall v ensures multiset(s[1..])[v] == multiset(t[1..])[v] {
        assert multiset(s)[v] == multiset{s[0]}[v] + multiset(s[1..])[v];
        assert multiset(t)[v] == multiset{t[0]}[v] + multiset(t[1..])[v];
      }
      assert multiset(s[1..]) == multiset(t[1..]);
      SortedUnique(s[1..], t[1..]);
    }
  }

  /** `sorted(s, reverse=True)` on integers is the one descending arrangement of `s`. */
  lemma SortDescInts(s: seq<int>, t: seq<int>)
    requires SortedBy(t, IntGe) && multiset(t) == multiset(s)
    ensures SortDesc(s, IntGe) == t
  {
    IntGeTotal();
    SortDescSorted(s, IntGe);
    SortedUnique(SortDesc(s, IntGe), t);
  }

  lemma IntGeTotal()
    ensures TotalOrder(IntGe)
  {
  }

  /** A value that occurs in `s` is counted at least once. */
  lemma {:induction false} CountPositive<T>(s: seq<T>, v: T)
    requires v in s
    ensures Count(s, v) > 0
  {
    if s[0] != v {
      assert v in s[1..];
      CountPositive(s[1..], v);
    }
  }

  /** A value that does not occur in `s` is counted zero times. */
  lemma {:induction false} CountAbsent<T>(s: seq<T>, v: T)
    requires v !in s
    ensures Count(s, v) == 0
  {
    if s != [] {
      assert v !in s[1..];
      CountAbsent(s[1..], v);
    }
  }

  /** In a list without repetitions every element is counted exactly once. */
  lemma {:induction false} CountDistinctOne<T>(s: seq<T>, i: nat)
    requires Distinct(s) && i < |s|
    ensures Count(s, s[i]) == 1
  {
    if i == 0 {
      assert s[0] !in s[1..] by {
        forall j | 0 <= j < |s[1..]| ensures s[1..][j] != s[0] {
          assert s[1..][j] == s[j + 1];
        }
      }
      CountAbsent(s[1..], s[0]);
    } else {
      assert s[1..][i - 1] == s[i];
      CountDistinctOne(s[1..], i - 1);
    }
  }

  /** `random.choice(s)`, the random number generator's output given as `draw`. */
  function Choice<T>(s: seq<T>, draw: nat): (r: T)
    requires |s| > 0
    ensures r in s
  {
    s[draw % |s|]
  }
}
