/**
 * The two descending sorts of the widget. Both copy their input and call
 * `Array.prototype.sort` with the comparator `(a, b) => (a < b ? 1 : -1)` on a
 * string key: the summary keys themselves (`sortKeysDescending`) or the
 * entries' dates (the table sort in `render`). The built-in sort is modelled by
 * an insertion sort on a sequence; only what any correct sort guarantees is
 * stated about it: the result is a permutation, ordered by the comparator.
 */
module Sorting {
  import opened Text

  /** Every key is at least as large as every key after it. */
  ghost predicate Descending<T>(s: seq<T>, key: T -> string)
  {
    forall i, j :: 0 <= i < j < |s| ==> !Less(key(s[i]), key(s[j]))
  }

  /** Every string is strictly larger than every string after it. */
  ghost predicate StrictlyDescending(s: seq<string>)
  {
    forall i, j :: 0 <= i < j < |s| ==> Less(s[j], s[i])
  }

  ghost predicate Distinct<T>(s: seq<T>)
  {
    forall i, j :: 0 <= i < j < |s| ==> s[i] != s[j]
  }

  /** Places `x` in front of the first element whose key is not larger than its own. */
  function Insert<T>(x: T, s: seq<T>, key: T -> string): (r: seq<T>)
    ensures |r| == |s| + 1
    ensures multiset(r) == multiset(s) + multiset{x}
  {
    if s == [] || !Less(key(x), key(s[0])) then [x] + s
    else
      assert s == [s[0]] + s[1..];
      [s[0]] + Insert(x, s[1..], key)
  }

  /** A copy of `s` ordered by descending key. */
  function SortDesc<T>(s: seq<T>, key: T -> string): (r: seq<T>)
    ensures |r| == |s|
    ensures multiset(r) == multiset(s)
  {
    if s == [] then []
    else
      assert s == [s[0]] + s[1..];
      Insert(s[0], SortDesc(s[1..], key), key)
  }

  lemma {:induction false} InsertDescending<T>(x: T, s: seq<T>, key: T -> string)
    requires Descending(s, key)
    ensures Descending(Insert(x, s, key), key)
  {
    var r := Insert(x, s, key);
    if s == [] {
    } else if !Less(key(x), key(s[0])) {
      forall j | 1 <= j < |r|
        ensures !Less(key(x), key(r[j]))
      {
        if j > 1 {
          AtLeastTransitive(key(x), key(s[0]), key(s[j - 1]));
        }
      }
    } else {
      var t := Insert(x, s[1..], key);
      InsertDescending(x, s[1..], key);
      forall j | 0 <= j < |t|
        ensures !Less(key(s[0]), key(t[j]))
      {
        assert t[j] in multiset(t);
        if t[j] == x {
          LessAsymmetric(key(x), key(s[0]));
        } else {
          assert t[j] in multiset(s[1..]);
          var m :| 0 <= m < |s[1..]| && s[1..][m] == t[j];
          assert s[m + 1] == t[j];
        }
      }
      assert r == [s[0]] + t;
    }
  }

  lemma {:induction false} SortDescDescending<T>(s: seq<T>, key: T -> string)
    ensures Descending(SortDesc(s, key), key)
  {
    if s != [] {
      SortDescDescending(s[1..], key);
      InsertDescending(s[0], SortDesc(s[1..], key), key);
    }
  }

  /** Under a strict total order, descending with no repeats is strictly descending. */
  lemma DescendingDistinctIsStrict(s: seq<string>)
    requires Descending(s, Identity) && Distinct(s)
    ensures StrictlyDescending(s)
  {
    forall i, j | 0 <= i < j < |s|
      ensures Less(s[j], s[i])
    {
      assert !Less(Identity(s[i]), Identity(s[j]));
      LessTotal(s[i], s[j]);
    }
  }

  lemma {:induction false} DistinctCountsOnce<T>(a: seq<T>, x: T)
    requires Distinct(a)
    ensures multiset(a)[x] <= 1
  {
    if a != [] {
      DistinctCountsOnce(a[1..], x);
      assert a == [a[0]] + a[1..];
      if x == a[0] {
        assert x !in a[1..];
      }
    }
  }

  lemma RepeatCountsTwice<T>(b: seq<T>, i: nat, j: nat)
    requires i < j < |b| && b[i] == b[j]
    ensures multiset(b)[b[i]] >= 2
  {
    assert b == b[..i] + [b[i]] + b[i + 1..j] + [b[j]] + b[j + 1..];
  }

  lemma PermutationKeepsDistinct<T>(a: seq<T>, b: seq<T>)
    requires multiset(a) == multiset(b) && Distinct(a)
    ensures Distinct(b)
  {
    forall i, j | 0 <= i < j < |b|
      ensures b[i] != b[j]
    {
      if b[i] == b[j] {
        RepeatCountsTwice(b, i, j);
        DistinctCountsOnce(a, b[i]);
      }
    }
  }

  function Identity(s: string): string
  {
    s
  }

  /**
   * `sortKeysDescending`: a sorted copy of the keys. The keys of a dictionary are
   * distinct, and then the order is strict.
   */
  function SortKeysDescending(keys: seq<string>): (r: seq<string>)
    ensures multiset(r) == multiset(keys)
    ensures Distinct(keys) ==> StrictlyDescending(r)
  {
    DistinctKeysSortStrictly(keys);
    SortDesc(keys, Identity)
  }

  lemma DistinctKeysSortStrictly(keys: seq<string>)
    ensures Distinct(keys) ==> StrictlyDescending(SortDesc(keys, Identity))
  {
    var r := SortDesc(keys, Identity);
    SortDescDescending(keys, Identity);
    if Distinct(keys) {
      PermutationKeepsDistinct(keys, r);
      DescendingDistinctIsStrict(r);
    }
  }

  /** A strictly descending sequence is determined by its set of elements. */
  lemma {:induction false} StrictlyDescendingUnique(a: seq<string>, b: seq<string>)
    requires StrictlyDescending(a) && StrictlyDescending(b)
    requires forall x :: x in a <==> x in b
    ensures a == b
  {
    assert a != [] ==> a[0] in b;
    assert b != [] ==> b[0] in a;
    if a != [] {
      if a[0] != b[0] {
        var i :| 0 <= i < |a| && a[i] == b[0];
        var j :| 0 <= j < |b| && b[j] == a[0];
        assert i > 0 && j > 0;
        LessAsymmetric(a[0], b[0]);
      }
      forall x
        ensures x in a[1..] <==> x in b[1..]
      {
        if x in a[1..] {
          var i :| 1 <= i < |a| && a[i] == x;
          LessIrreflexive(x);
          assert x in b;
        }
        if x in b[1..] {
          var i :| 1 <= i < |b| && b[i] == x;
          LessIrreflexive(x);
          assert x in a;
        }
      }
      StrictlyDescendingUnique(a[1..], b[1..]);
      assert a == [a[0]] + a[1..] && b == [b[0]] + b[1..];
    }
  }
}
