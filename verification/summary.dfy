/**
 * The running totals of `render`: the fold of the entries into month-keyed and
 * year-keyed sums of `totalHours`, and `renderSummaryList`, which lists a
 * dictionary's keys in descending order with their sums.
 */
module Summary {
  import opened Text
  import opened Keys
  import opened Sorting
  import opened Entries

  /** The keys of period `p` that occur among the entries. */
  ghost function PeriodKeys(es: seq<Entry>, p: Period): set<string>
  {
    set i | 0 <= i < |es| :: PeriodKey(p, es[i].date)
  }

  /** The sum of `totalHours` over the entries whose key of period `p` is `k`. */
  function PeriodTotal(es: seq<Entry>, p: Period, k: string): real
  {
    if es == [] then 0.0
    else
      var last := es[|es| - 1];
      PeriodTotal(es[..|es| - 1], p, k) + (if PeriodKey(p, last.date) == k then last.totalHours else 0.0)
  }

  /** The dictionary the fold builds for period `p`, stated directly. */
  ghost function Totals(es: seq<Entry>, p: Period): map<string, real>
  {
    map k | k in PeriodKeys(es, p) :: PeriodTotal(es, p, k)
  }

  lemma PeriodKeysSnoc(es: seq<Entry>, e: Entry, p: Period)
    ensures PeriodKeys(es + [e], p) == PeriodKeys(es, p) + {PeriodKey(p, e.date)}
  {
    var t := es + [e];
    forall k | k in PeriodKeys(t, p)
      ensures k in PeriodKeys(es, p) + {PeriodKey(p, e.date)}
    {
      var i :| 0 <= i < |t| && PeriodKey(p, t[i].date) == k;
      if i < |es| {
        assert t[i] == es[i];
      }
    }
    forall k | k in PeriodKeys(es, p)
      ensures k in PeriodKeys(t, p)
    {
      var i :| 0 <= i < |es| && PeriodKey(p, es[i].date) == k;
      assert t[i] == es[i];
    }
    assert t[|es|] == e;
  }

  lemma PeriodTotalSnoc(es: seq<Entry>, e: Entry, p: Period, k: string)
    ensures PeriodTotal(es + [e], p, k)
         == PeriodTotal(es, p, k) + (if PeriodKey(p, e.date) == k then e.totalHours else 0.0)
  {
    assert (es + [e])[..|es|] == es;
  }

  /** `m` holds, for each key of period `p` among `es`, the sum over the entries with that key. */
  ghost predicate SumsByKey(m: map<string, real>, es: seq<Entry>, p: Period)
  {
    && m.Keys == PeriodKeys(es, p)
    && forall k :: k in m ==> m[k] == PeriodTotal(es, p, k)
  }

  /** A dictionary that holds the sums is the `Totals` map. */
  lemma SumsAreTotals(m: map<string, real>, es: seq<Entry>, p: Period)
    requires m.Keys == PeriodKeys(es, p)
    requires forall k :: k in m ==> m[k] == PeriodTotal(es, p, k)
    ensures m == Totals(es, p)
  {
  }

  /** `m[key] = (m[key] || 0) + hours`. */
  function AddTo(m: map<string, real>, key: string, hours: real): (r: map<string, real>)
    ensures r.Keys == m.Keys + {key}
    ensures r[key] == (if key in m then m[key] else 0.0) + hours
    ensures forall k :: k in m && k != key ==> r[k] == m[k]
  {
    m[key := (if key in m then m[key] else 0.0) + hours]
  }

  /** Adding one more entry to its key keeps the dictionary equal to the sums. */
  lemma AddToKeepsSums(m: map<string, real>, es: seq<Entry>, e: Entry, p: Period)
    requires SumsByKey(m, es, p)
    ensures SumsByKey(AddTo(m, PeriodKey(p, e.date), e.totalHours), es + [e], p)
  {
    var key := PeriodKey(p, e.date);
    var r := AddTo(m, key, e.totalHours);
    PeriodKeysSnoc(es, e, p);
    forall k | k in r
      ensures r[k] == PeriodTotal(es + [e], p, k)
    {
      PeriodTotalSnoc(es, e, p, k);
      PeriodTotalAbsent(es, p, k);
    }
  }

  /**
   * The `state.entries.forEach` fold of `render`: one pass that adds each entry's
   * total to its month's and its year's running sum, starting a key at zero.
   * The dictionaries it leaves have exactly the keys that occur among the
   * entries, each holding the sum over the entries with that key.
   */
  method Aggregate(entries: seq<Entry>) returns (monthly: map<string, real>, yearly: map<string, real>)
    ensures monthly.Keys == PeriodKeys(entries, Month)
    ensures forall k :: k in monthly ==> monthly[k] == PeriodTotal(entries, Month, k)
    ensures yearly.Keys == PeriodKeys(entries, Year)
    ensures forall k :: k in yearly ==> yearly[k] == PeriodTotal(entries, Year, k)
  {
    monthly, yearly := map[], map[];
    for i := 0 to |entries|
      invariant SumsByKey(monthly, entries[..i], Month)
      invariant SumsByKey(yearly, entries[..i], Year)
    {
      var entry := entries[i];
      AddToKeepsSums(monthly, entries[..i], entry, Month);
      AddToKeepsSums(yearly, entries[..i], entry, Year);
      monthly := AddTo(monthly, MonthKey(entry.date), entry.totalHours);
      yearly := AddTo(yearly, YearKey(entry.date), entry.totalHours);
      assert entries[..i + 1] == entries[..i] + [entry];
    }
    assert entries[..|entries|] == entries;
  }

  /** A key that no entry has sums to zero. */
  lemma {:induction false} PeriodTotalAbsent(es: seq<Entry>, p: Period, k: string)
    ensures k !in PeriodKeys(es, p) ==> PeriodTotal(es, p, k) == 0.0
  {
    if es != [] && k !in PeriodKeys(es, p) {
      var init := es[..|es| - 1];
      assert es == init + [es[|es| - 1]];
      PeriodKeysSnoc(init, es[|es| - 1], p);
      PeriodTotalAbsent(init, p, k);
    }
  }

  /** The sums are additive over consecutive runs of entries. */
  lemma {:induction false} PeriodTotalAppend(a: seq<Entry>, b: seq<Entry>, p: Period, k: string)
    ensures PeriodTotal(a + b, p, k) == PeriodTotal(a, p, k) + PeriodTotal(b, p, k)
    decreases |b|
  {
    if b == [] {
      assert a + b == a;
    } else {
      var init := b[..|b| - 1];
      var last := b[|b| - 1];
      assert b == init + [last];
      assert a + b == (a + init) + [last];
      PeriodTotalSnoc(a + init, last, p, k);
      PeriodTotalSnoc(init, last, p, k);
      PeriodTotalAppend(a, init, p, k);
    }
  }

  /** With no negative totals among the entries, no sum is negative. */
  lemma {:induction false} PeriodTotalNonNegative(es: seq<Entry>, p: Period, k: string)
    requires forall i :: 0 <= i < |es| ==> es[i].totalHours >= 0.0
    ensures PeriodTotal(es, p, k) >= 0.0
  {
    if es != [] {
      PeriodTotalNonNegative(es[..|es| - 1], p, k);
    }
  }

  /** Every year key is the year key of a month key, and every month key's year key is a year key. */
  lemma YearKeysFromMonthKeys(es: seq<Entry>)
    ensures PeriodKeys(es, Year) == set m | m in PeriodKeys(es, Month) :: YearKey(m)
  {
    forall i | 0 <= i < |es|
      ensures YearKey(MonthKey(es[i].date)) == YearKey(es[i].date)
    {
      YearKeyWithinMonthKey(es[i].date);
    }
  }

  /** Being a largest element of a set of strings. */
  predicate IsLargest(k: string, s: set<string>)
  {
    k in s && forall y :: y in s ==> !Less(k, y)
  }

  lemma {:induction false} LargestExists(s: set<string>)
    requires s != {}
    ensures exists k :: IsLargest(k, s)
    decreases |s|
  {
    var x :| x in s;
    if s != {x} {
      var rest := s - {x};
      LargestExists(rest);
      var m :| IsLargest(m, rest);
      LessTotal(m, x);
      if Less(m, x) {
        forall y | y in s
          ensures !Less(x, y)
        {
          LessIrreflexive(x);
          if y != x {
            assert y in rest;
            LessTotal(m, y);
            LessAsymmetric(m, x);
            if Less(x, y) && Less(y, m) {
              LessTransitive(x, y, m);
            }
          }
        }
        assert IsLargest(x, s);
      } else {
        LessIrreflexive(x);
        assert IsLargest(m, s);
      }
    } else {
      LessIrreflexive(x);
      assert IsLargest(x, s);
    }
  }

  lemma LargestUnique(s: set<string>)
    ensures forall a, b :: IsLargest(a, s) && IsLargest(b, s) ==> a == b
  {
    forall a, b | IsLargest(a, s) && IsLargest(b, s)
      ensures a == b
    {
      LessTotal(a, b);
    }
  }

  /** The keys of a dictionary, largest first: what `sortKeysDescending(Object.keys(m))` yields. */
  function SortedKeys(s: set<string>): (r: seq<string>)
    ensures |r| == |s|
    ensures forall x :: x in r <==> x in s
    ensures StrictlyDescending(r)
    decreases |s|
  {
    if s == {} then []
    else
      LargestExists(s);
      LargestUnique(s);
      var k :| IsLargest(k, s);
      var rest := SortedKeys(s - {k});
      assert forall j :: 0 <= j < |rest| ==> Less(rest[j], k) by {
        forall j | 0 <= j < |rest|
          ensures Less(rest[j], k)
        {
          assert rest[j] in s - {k};
          LessTotal(rest[j], k);
        }
      }
      [k] + rest
  }

  /** Two keys are listed larger first. */
  lemma SortedPair(x: string, y: string)
    requires Less(y, x)
    ensures SortedKeys({x, y}) == [x, y]
  {
    LessIrreflexive(x);
    StrictlyDescendingUnique(SortedKeys({x, y}), [x, y]);
  }

  /**
   * The order `renderSummaryList` lists keys in does not depend on the order the
   * dictionary enumerates them in: sorting any enumeration gives `SortedKeys`.
   */
  lemma SortedKeysIsSortKeysDescending(keys: seq<string>, s: set<string>)
    requires Distinct(keys)
    requires forall x :: x in keys <==> x in s
    ensures SortKeysDescending(keys) == SortedKeys(s)
  {
    var sorted := SortKeysDescending(keys);
    forall x
      ensures x in sorted <==> x in SortedKeys(s)
    {
      assert x in sorted <==> x in multiset(sorted);
      assert x in keys <==> x in multiset(keys);
    }
    StrictlyDescendingUnique(sorted, SortedKeys(s));
  }

  /** One item of a summary list: the placeholder, or a key with its sum. */
  datatype SummaryItem = NoEntriesYet | KeyTotal(key: string, hours: real)

  /**
   * `renderSummaryList`: the single placeholder item for an empty dictionary,
   * otherwise one item per key, keys strictly descending, each with its sum.
   */
  function SummaryList(m: map<string, real>): (r: seq<SummaryItem>)
    ensures m == map[] ==> r == [NoEntriesYet]
    ensures m != map[] ==> |r| == |m|
    ensures m != map[] ==> forall i :: 0 <= i < |r| ==> r[i].KeyTotal? && r[i].key in m && r[i].hours == m[r[i].key]
    ensures m != map[] ==> forall k :: k in m ==> exists i :: 0 <= i < |r| && r[i].key == k
    ensures m != map[] ==> forall i, j :: 0 <= i < j < |r| ==> Less(r[j].key, r[i].key)
  {
    if m == map[] then [NoEntriesYet]
    else
      SortedMapKeys(m);
      ItemsCover(SortedKeys(m.Keys), m);
      ItemsOrder(SortedKeys(m.Keys), m);
      Items(SortedKeys(m.Keys), m)
  }

  lemma SortedMapKeys(m: map<string, real>)
    ensures |SortedKeys(m.Keys)| == |m|
    ensures forall k :: k in SortedKeys(m.Keys) <==> k in m
    ensures SortedKeys(m.Keys) == [] <==> m == map[]
  {
    var keys := SortedKeys(m.Keys);
    if keys == [] {
      assert forall k :: k in m ==> k in keys;
    }
  }

  /** The `keys.map(...)` step: each key with its sum, in the given order. */
  function Items(keys: seq<string>, m: map<string, real>): (r: seq<SummaryItem>)
    requires forall i :: 0 <= i < |keys| ==> keys[i] in m
    ensures |r| == |keys|
    ensures forall i :: 0 <= i < |r| ==> r[i] == KeyTotal(keys[i], m[keys[i]])
  {
    seq(|keys|, i requires 0 <= i < |keys| => KeyTotal(keys[i], m[keys[i]]))
  }

  lemma ItemsOrder(keys: seq<string>, m: map<string, real>)
    requires forall i :: 0 <= i < |keys| ==> keys[i] in m
    requires StrictlyDescending(keys)
    ensures forall i, j :: 0 <= i < j < |Items(keys, m)| ==> Less(Items(keys, m)[j].key, Items(keys, m)[i].key)
  {
  }

  lemma ItemsCover(keys: seq<string>, m: map<string, real>)
    requires forall k :: k in keys <==> k in m
    ensures forall k :: k in m ==> exists i :: 0 <= i < |Items(keys, m)| && Items(keys, m)[i].key == k
  {
    forall k | k in m
      ensures exists i :: 0 <= i < |Items(keys, m)| && Items(keys, m)[i].key == k
    {
      var i :| 0 <= i < |keys| && keys[i] == k;
      assert Items(keys, m)[i].key == k;
    }
  }
}
