/**
 * The data `show_progress` puts on screen: the day entries sorted newest
 * first, as `sorted(daily_scores.items(), reverse=True)` orders the
 * (date, score) pairs, and the best day, which is the first entry with the
 * highest score, or ("N/A", 0) when there are none.
 */
module Progress {
  import opened Wrappers
  import opened DailyScores

  /** Python's `<` on strings: code point by code point, and a proper prefix is smaller. */
  predicate StrLt(a: string, b: string) {
    if a == [] then b != []
    else if b == [] then false
    else if a[0] != b[0] then a[0] < b[0]
    else StrLt(a[1..], b[1..])
  }

  lemma {:induction false} StrLtIrreflexive(a: string)
    ensures !StrLt(a, a)
    decreases |a|
  {
    if a != [] {
      StrLtIrreflexive(a[1..]);
    }
  }

  lemma {:induction false} StrLtTransitive(a: string, b: string, c: string)
    requires StrLt(a, b) && StrLt(b, c)
    ensures StrLt(a, c)
    decreases |a|
  {
    if a != [] && a[0] == b[0] && b[0] == c[0] {
      StrLtTransitive(a[1..], b[1..], c[1..]);
    }
  }

  lemma {:induction false} StrLtTotal(a: string, b: string)
    requires a != b
    ensures StrLt(a, b) || StrLt(b, a)
    decreases |a|
  {
    if a != [] && b != [] && a[0] == b[0] {
      assert a == [a[0]] + a[1..] && b == [b[0]] + b[1..];
      StrLtTotal(a[1..], b[1..]);
    }
  }

  lemma {:induction false} StrLtAsymmetric(a: string, b: string)
    requires StrLt(a, b)
    ensures !StrLt(b, a)
  {
    if StrLt(b, a) {
      StrLtTransitive(a, b, a);
      StrLtIrreflexive(a);
    }
  }

  /** Python's `<` on (date, score) pairs: by date, then by score. */
  predicate EntryLt(x: (string, int), y: (string, int)) {
    StrLt(x.0, y.0) || (x.0 == y.0 && x.1 < y.1)
  }

  lemma EntryLtOrder(x: (string, int), y: (string, int), z: (string, int))
    ensures !EntryLt(x, x)
    ensures EntryLt(x, y) && EntryLt(y, z) ==> EntryLt(x, z)
    ensures x != y ==> EntryLt(x, y) || EntryLt(y, x)
  {
    StrLtIrreflexive(x.0);
    if EntryLt(x, y) && EntryLt(y, z) && StrLt(x.0, y.0) && StrLt(y.0, z.0) {
      StrLtTransitive(x.0, y.0, z.0);
    }
    if x.0 != y.0 {
      StrLtTotal(x.0, y.0);
    }
  }

  /** No entry is followed by a greater one. */
  predicate SortedDescending(es: Entries) {
    forall i, j :: 0 <= i < j < |es| ==> !EntryLt(es[i], es[j])
  }

  /** An entry's date differs from every date in es. */
  predicate NewKey(e: (string, int), es: Entries) {
    forall k :: 0 <= k < |es| ==> es[k].0 != e.0
  }

  /** Puts e in front of the first entry that is not greater than it. */
  function InsertDescending(e: (string, int), es: Entries): (r: Entries)
    requires SortedDescending(es)
    ensures SortedDescending(r)
    ensures multiset(r) == multiset(es) + multiset{e}
    ensures DistinctKeys(es) && NewKey(e, es) ==> DistinctKeys(r)
    decreases |es|
  {
    if es == [] then [e]
    else if !EntryLt(e, es[0]) then
      forall j | 0 <= j < |es|
        ensures !EntryLt(e, es[j])
      {
        EntryLtOrder(e, es[j], es[0]);
        EntryLtOrder(es[0], es[j], e);
      }
      ConsSorted(e, es);
      [e] + es
    else
      assert es == [es[0]] + es[1..];
      var rest := InsertDescending(e, es[1..]);
      HeadStaysFirst(e, es, rest);
      [es[0]] + rest
  }

  lemma ConsSorted(x: (string, int), rest: Entries)
    requires SortedDescending(rest)
    requires forall j :: 0 <= j < |rest| ==> !EntryLt(x, rest[j])
    ensures SortedDescending([x] + rest)
  {
    var r := [x] + rest;
    forall i, j | 0 <= i < j < |r|
      ensures !EntryLt(r[i], r[j])
    {
      assert r[j] == rest[j - 1];
      if i > 0 {
        assert r[i] == rest[i - 1];
      }
    }
  }

  /** When e sorts after the head of es, the head stays first in front of the rest with e inserted. */
  lemma HeadStaysFirst(e: (string, int), es: Entries, rest: Entries)
    requires SortedDescending(es) && es != [] && EntryLt(e, es[0])
    requires SortedDescending(rest) && multiset(rest) == multiset(es[1..]) + multiset{e}
    requires DistinctKeys(es[1..]) && NewKey(e, es[1..]) ==> DistinctKeys(rest)
    ensures SortedDescending([es[0]] + rest)
    ensures DistinctKeys(es) && NewKey(e, es) ==> DistinctKeys([es[0]] + rest)
  {
    forall j | 0 <= j < |rest|
      ensures !EntryLt(es[0], rest[j])
      ensures DistinctKeys(es) && NewKey(e, es) ==> es[0].0 != rest[j].0
    {
      assert rest[j] in multiset(es[1..]) + multiset{e};
      if rest[j] == e {
        EntryLtOrder(es[0], e, es[0]);
      } else {
        assert rest[j] in multiset(es[1..]);
        var k :| 0 <= k < |es[1..]| && es[1..][k] == rest[j];
        assert es[k + 1] == rest[j];
      }
    }
    ConsSorted(es[0], rest);
    if DistinctKeys(es) && NewKey(e, es) {
      var r := [es[0]] + rest;
      forall i, j | 0 <= i < j < |r|
        ensures r[i].0 != r[j].0
      {
        assert r[j] == rest[j - 1];
        if i > 0 {
          assert r[i] == rest[i - 1];
        }
      }
    }
  }

  /** `sorted(items, reverse=True)`: the same entries, in descending order. */
  function SortDescending(es: Entries): (r: Entries)
    ensures SortedDescending(r)
    ensures multiset(r) == multiset(es)
    ensures DistinctKeys(es) ==> DistinctKeys(r)
  {
    if es == [] then []
    else
      assert es == [es[0]] + es[1..];
      var sortedRest := SortDescending(es[1..]);
      HeadKeyIsNew(es, sortedRest);
      InsertDescending(es[0], sortedRest)
  }

  /** With distinct dates, the head's date is not among the dates of any reordering of the tail. */
  lemma HeadKeyIsNew(es: Entries, rest: Entries)
    requires es != [] && multiset(rest) == multiset(es[1..])
    ensures DistinctKeys(es) ==> NewKey(es[0], rest)
  {
    forall k | 0 <= k < |rest| && DistinctKeys(es)
      ensures rest[k].0 != es[0].0
    {
      assert rest[k] in multiset(es[1..]);
      var p :| 0 <= p < |es[1..]| && es[1..][p] == rest[k];
      assert es[p + 1] == rest[k];
    }
  }

  /** In a dictionary, whose dates are distinct, the listing has each date strictly after the next. */
  lemma DatesStrictlyDescending(es: Entries)
    requires DistinctKeys(es)
    ensures forall i, j :: 0 <= i < j < |SortDescending(es)| ==>
      StrLt(SortDescending(es)[j].0, SortDescending(es)[i].0)
  {
    var r := SortDescending(es);
    forall i, j | 0 <= i < j < |r|
      ensures StrLt(r[j].0, r[i].0)
    {
      StrLtTotal(r[i].0, r[j].0);
    }
  }

  /** The index `max(..., key=score)` picks: the first entry with the highest score. */
  function BestIndex(es: Entries): (i: nat)
    requires es != []
    ensures i < |es|
    ensures forall j :: 0 <= j < |es| ==> es[j].1 <= es[i].1
    ensures forall j :: 0 <= j < i ==> es[j].1 < es[i].1
  {
    if |es| == 1 then 0
    else
      var k := BestIndex(es[..|es| - 1]);
      if es[|es| - 1].1 > es[k].1 then |es| - 1 else k
  }

  /** The best day of `show_progress`, with its default for no entries. */
  function BestDay(es: Entries): (r: (string, int))
    ensures es == [] ==> r == ("N/A", 0)
    ensures es != [] ==> r in es && forall j :: 0 <= j < |es| ==> es[j].1 <= r.1
    ensures es != [] ==> exists i :: 0 <= i < |es| && r == es[i] && forall j :: 0 <= j < i ==> es[j].1 < r.1
  {
    if es == [] then ("N/A", 0) else es[BestIndex(es)]
  }

  /** Of dates tied on the highest score, the best day is the one stored first. */
  lemma BestDayFirst(d: Dict)
    requires d.order != []
    ensures exists i :: 0 <= i < |d.order| && BestDay(Items(d)).0 == d.order[i] &&
                        (forall j :: 0 <= j < i ==> d.scores[d.order[j]] < BestDay(Items(d)).1)
  {
    var es := Items(d);
    var i := BestIndex(es);
    forall j | 0 <= j < i
      ensures d.scores[d.order[j]] < es[i].1
    {
      assert Get(d, es[j].0) == Some(es[j].1);
    }
    assert BestDay(es) == es[i];
  }

  /** What the progress screen shows: the sorted listing and the best day. */
  datatype View = NoScores | Listing(entries: Entries, best: (string, int))

  /** What the progress screen shows for the dictionary d: nothing when it is empty. */
  function ProgressView(d: Dict): (v: View)
    ensures d.order == [] <==> v == NoScores
    ensures v.Listing? ==> multiset(v.entries) == multiset(Items(d)) && SortedDescending(v.entries)
    ensures v.Listing? ==> Get(d, v.best.0) == Some(v.best.1)
    ensures v.Listing? ==> forall k :: k in d.scores ==> d.scores[k] <= v.best.1
    ensures v.Listing? ==> v.best == BestDay(Items(d))
    ensures v.Listing? ==>
      exists i :: 0 <= i < |d.order| && v.best.0 == d.order[i] &&
                  (forall j :: 0 <= j < i ==> d.scores[d.order[j]] < v.best.1)
  {
    var items := Items(d);
    if items == [] then NoScores
    else
      var best := BestDay(items);
      BestDayFirst(d);
      assert forall k :: k in d.scores ==> d.scores[k] <= best.1 by {
        forall k | k in d.scores
          ensures d.scores[k] <= best.1
        {
          var i :| 0 <= i < |d.order| && d.order[i] == k;
          assert items[i].0 == k;
        }
      }
      Listing(SortDescending(items), best)
  }
}
