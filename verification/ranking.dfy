/**
 The output table of `main` and its order: material ascending, then
 relevance descending, then publication time descending.
 */
module Ranking {
  import opened Text
  import opened Dates

  /** One row of the output table. */
  datatype Record = Record(
    material: string,
    queryVariant: string,
    source: string,
    title: string,
    summary: string,
    url: string,
    published: DateTime,
    relevance: int)

  /** `a < b` on `datetime`: field by field, from the year down to the second. */
  predicate Earlier(a: DateTime, b: DateTime) {
    || a.year < b.year
    || (a.year == b.year && a.month < b.month)
    || (a.year == b.year && a.month == b.month && a.day < b.day)
    || (a.year == b.year && a.month == b.month && a.day == b.day && a.hour < b.hour)
    || (a.year == b.year && a.month == b.month && a.day == b.day && a.hour == b.hour && a.minute < b.minute)
    || (a.year == b.year && a.month == b.month && a.day == b.day && a.hour == b.hour && a.minute == b.minute
        && a.second < b.second)
  }

  /** `a` may come before `b` in the sorted table. */
  predicate RecordLe(a: Record, b: Record) {
    || StrLess(a.material, b.material)
    || (&& a.material == b.material
        && (|| a.relevance > b.relevance
            || (a.relevance == b.relevance && !Earlier(a.published, b.published))))
  }

  lemma RecordLeTotal(a: Record, b: Record)
    ensures RecordLe(a, b) || RecordLe(b, a)
  {
    StrLessTotal(a.material, b.material);
  }

  lemma RecordLeTransitive(a: Record, b: Record, c: Record)
    requires RecordLe(a, b) && RecordLe(b, c)
    ensures RecordLe(a, c)
  {
    if StrLess(a.material, b.material) && StrLess(b.material, c.material) {
      StrLessTransitive(a.material, b.material, c.material);
    }
  }

  ghost predicate Sorted(s: seq<Record>) {
    forall i, j :: 0 <= i < j < |s| ==> RecordLe(s[i], s[j])
  }

  /** `x` put in front of the first row it may precede. */
  function Insert(x: Record, s: seq<Record>): (r: seq<Record>)
    ensures multiset(r) == multiset(s) + multiset{x}
    ensures |r| == |s| + 1
    decreases |s|
  {
    if |s| == 0 then [x]
    else if RecordLe(x, s[0]) then [x] + s
    else
      assert s == [s[0]] + s[1..];
      [s[0]] + Insert(x, s[1..])
  }

  /** A row that may precede every row of a sorted table keeps it sorted in front. */
  lemma ConsSorted(y: Record, t: seq<Record>)
    requires Sorted(t)
    requires forall j :: 0 <= j < |t| ==> RecordLe(y, t[j])
    ensures Sorted([y] + t)
  {
    var r := [y] + t;
    forall i, j | 0 <= i < j < |r|
      ensures RecordLe(r[i], r[j])
    {
      if i == 0 {
        assert r[j] == t[j - 1];
      } else {
        assert r[i] == t[i - 1] && r[j] == t[j - 1];
      }
    }
  }

  /** A lower bound of `x` and of every row of `s` bounds every row of `Insert(x, s)`. */
  lemma InsertBelow(y: Record, x: Record, s: seq<Record>)
    requires RecordLe(y, x)
    requires forall k :: 0 <= k < |s| ==> RecordLe(y, s[k])
    ensures forall j :: 0 <= j < |Insert(x, s)| ==> RecordLe(y, Insert(x, s)[j])
  {
    var t := Insert(x, s);
    forall j | 0 <= j < |t|
      ensures RecordLe(y, t[j])
    {
      assert t[j] in multiset(t);
      if t[j] != x {
        assert t[j] in multiset(s);
        var k :| 0 <= k < |s| && s[k] == t[j];
      }
    }
  }

  lemma {:induction false} InsertSorted(x: Record, s: seq<Record>)
    requires Sorted(s)
    ensures Sorted(Insert(x, s))
    decreases |s|
  {
    if |s| == 0 {
    } else if RecordLe(x, s[0]) {
      forall j | 0 <= j < |s|
        ensures RecordLe(x, s[j])
      {
        if j > 0 {
          RecordLeTransitive(x, s[0], s[j]);
        }
      }
      ConsSorted(x, s);
    } else {
      RecordLeTotal(x, s[0]);
      var rest := s[1..];
      assert Sorted(rest);
      InsertSorted(x, rest);
      forall k | 0 <= k < |rest|
        ensures RecordLe(s[0], rest[k])
      {
        assert rest[k] == s[k + 1];
      }
      InsertBelow(s[0], x, rest);
      ConsSorted(s[0], Insert(x, rest));
    }
  }

  /** `df.sort_values(["Material", "Relevance", "Published"], ascending=[True, False, False])`. */
  function SortRecords(xs: seq<Record>): (r: seq<Record>)
    ensures multiset(r) == multiset(xs)
    ensures |r| == |xs|
    ensures Sorted(r)
    decreases |xs|
  {
    if |xs| == 0 then []
    else
      var rest := SortRecords(xs[1..]);
      InsertSorted(xs[0], rest);
      assert xs == [xs[0]] + xs[1..];
      Insert(xs[0], rest)
  }

  /** In the sorted table, rows of one material are ordered by relevance, highest first. */
  lemma SortedByRelevanceWithinMaterial(s: seq<Record>, i: nat, j: nat)
    requires Sorted(s) && i < j < |s| && s[i].material == s[j].material
    ensures s[i].relevance >= s[j].relevance
  {
    assert RecordLe(s[i], s[j]);
    StrLessIrreflexive(s[i].material);
  }

  /** Materials never go backwards in the sorted table. */
  lemma SortedByMaterial(s: seq<Record>, i: nat, j: nat)
    requires Sorted(s) && i < j < |s|
    ensures s[i].material == s[j].material || StrLess(s[i].material, s[j].material)
  {
    assert RecordLe(s[i], s[j]);
  }
}
