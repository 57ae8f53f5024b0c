/** `ORDER BY` as a function: a stable insertion sort under a total preorder,
    and the orders the repositories sort by; and the order in which a form's
    checks report their message lines. */
module Ordering {
  import opened Text

  /** `le` is total and transitive, as every `ORDER BY` key order is. */
  ghost predicate TotalPreorder<T(!new)>(le: (T, T) -> bool) {
    && (forall a, b :: le(a, b) || le(b, a))
    && (forall a, b, c :: le(a, b) && le(b, c) ==> le(a, c))
  }

  /** Every element is `le` every later element. */
  ghost predicate Sorted<T>(s: seq<T>, le: (T, T) -> bool) {
    forall i, j :: 0 <= i < j < |s| ==> le(s[i], s[j])
  }

  /** Every element has a lower rank than every later one: the message lines
      of a form check come in the order the checks run. */
  ghost predicate Ranked<T>(s: seq<T>, rank: T -> nat) {
    forall i, j :: 0 <= i < j < |s| ==> rank(s[i]) < rank(s[j])
  }

  /** At most one line of check `k` in front of lines of later checks keeps the order. */
  lemma PrependRanked<T>(rank: T -> nat, a: seq<T>, k: nat, b: seq<T>)
    requires |a| <= 1 && (forall x :: x in a ==> rank(x) == k)
    requires Ranked(b, rank) && (forall y :: y in b ==> rank(y) > k)
    ensures Ranked(a + b, rank) && forall y :: y in a + b ==> rank(y) >= k
  {
    forall i, j | 0 <= i < j < |a + b|
      ensures rank((a + b)[i]) < rank((a + b)[j])
    {
      if i < |a| {
        assert (a + b)[i] in a && (a + b)[j] == b[j - |a|];
      } else {
        assert (a + b)[i] == b[i - |a|] && (a + b)[j] == b[j - |a|];
      }
    }
  }

  /** Places `x` before the first element it is `le`. */
  function InsertBy<T>(x: T, s: seq<T>, le: (T, T) -> bool): (r: seq<T>)
    ensures multiset(r) == multiset(s) + multiset{x}
    ensures |r| == |s| + 1
  {
    if s == [] then [x]
    else if le(x, s[0]) then [x] + s
    else
      assert s == [s[0]] + s[1..];
      [s[0]] + InsertBy(x, s[1..], le)
  }

  /** Insertion sort: a permutation of `s` ordered by `le`. */
  function SortBy<T>(s: seq<T>, le: (T, T) -> bool): (r: seq<T>)
    ensures multiset(r) == multiset(s)
    ensures |r| == |s|
  {
    if s == [] then []
    else
      assert s == [s[0]] + s[1..];
      InsertBy(s[0], SortBy(s[1..], le), le)
  }

  /** An element `le` every element of a sorted sequence can go in front of it. */
  lemma PrependSorted<T>(x: T, s: seq<T>, le: (T, T) -> bool)
    requires Sorted(s, le) && forall y :: y in s ==> le(x, y)
    ensures Sorted([x] + s, le)
  {
    var r := [x] + s;
    forall i, j | 0 <= i < j < |r|
      ensures le(r[i], r[j])
    {
      if i == 0 {
        assert r[j] == s[j - 1];
      } else {
        assert r[i] == s[i - 1] && r[j] == s[j - 1];
      }
    }
  }

  /** Inserting into a sorted sequence keeps it sorted. */
  lemma {:induction false} InsertKeepsSorted<T(!new)>(x: T, s: seq<T>, le: (T, T) -> bool)
    requires TotalPreorder(le)
    requires Sorted(s, le)
    ensures Sorted(InsertBy(x, s, le), le)
  {
    if s == [] {
    } else if le(x, s[0]) {
      forall y | y in s
        ensures le(x, y)
      {
        var k :| 0 <= k < |s| && s[k] == y;
        if k > 0 {
          assert le(s[0], s[k]);
        }
      }
      PrependSorted(x, s, le);
    } else {
      var tail := InsertBy(x, s[1..], le);
      InsertKeepsSorted(x, s[1..], le);
      forall y | y in tail
        ensures le(s[0], y)
      {
        assert y in multiset(tail);
        if y != x {
          assert y in multiset(s[1..]);
          var k :| 0 <= k < |s[1..]| && s[1..][k] == y;
          assert le(s[0], s[k + 1]);
        }
      }
      PrependSorted(s[0], tail, le);
    }
  }

  /** The result of `SortBy` is in `le` order. */
  lemma {:induction false} SortBySorted<T(!new)>(s: seq<T>, le: (T, T) -> bool)
    requires TotalPreorder(le)
    ensures Sorted(SortBy(s, le), le)
  {
    if s != [] {
      SortBySorted(s[1..], le);
      InsertKeepsSorted(s[0], SortBy(s[1..], le), le);
    }
  }

  /** `ORDER BY key`: compares the keys in the collation. */
  function ByKey<T>(key: T -> string): (T, T) -> bool {
    (a: T, b: T) => StrLe(key(a), key(b))
  }

  /** `ORDER BY key1, key2`: the first key, then the second among equals. */
  function ByKeys<T>(key1: T -> string, key2: T -> string): (T, T) -> bool {
    (a: T, b: T) => StrLt(key1(a), key1(b)) || (key1(a) == key1(b) && StrLe(key2(a), key2(b)))
  }

  lemma ByKeyIsTotalPreorder<T(!new)>(key: T -> string)
    ensures TotalPreorder(ByKey(key))
  {
    var le := ByKey(key);
    forall a, b
      ensures le(a, b) || le(b, a)
    {
      StrLeTotal(key(a), key(b));
    }
    forall a, b, c | le(a, b) && le(b, c)
      ensures le(a, c)
    {
      StrLeTransitive(key(a), key(b), key(c));
    }
  }

  lemma ByKeysIsTotalPreorder<T(!new)>(key1: T -> string, key2: T -> string)
    ensures TotalPreorder(ByKeys(key1, key2))
  {
    var le := ByKeys(key1, key2);
    forall a, b
      ensures le(a, b) || le(b, a)
    {
      StrLeTotal(key1(a), key1(b));
      StrLeTotal(key2(a), key2(b));
    }
    forall a, b, c | le(a, b) && le(b, c)
      ensures le(a, c)
    {
      if key1(a) == key1(b) && key1(b) == key1(c) {
        StrLeTransitive(key2(a), key2(b), key2(c));
      } else {
        StrLeTotal(key1(a), key1(a));
        StrLeTotal(key1(b), key1(b));
        StrLeTransitive(key1(a), key1(b), key1(c));
        if key1(a) == key1(c) {
          StrLeAntisymmetric(key1(a), key1(b));
        }
      }
    }
  }
}
