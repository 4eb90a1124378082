/**
  `consolidateCSVData`: one pass over the parsed rows of every CSV file that
  groups them by `cleanedClass-dayOfWeek-classTime`, followed by a pass over
  the groups in the order they were first seen, which turns each into a
  record with totals and averages.
 */
module Consolidation {
  import opened Wrappers
  import opened Numbers
  import opened Records
  import ClassNames

  /**
    A parsed CSV row. Each column's text is None when the column is absent.
    The class date enters through what the source derives from it: the day
    of the week, the time, the `Mon-YY` period and the ISO text of the date
    (None when the date is invalid). Revenue and hours enter as the numbers
    `parseFloat(...) || 0` read from their columns.
   */
  datatype Row = Row(
    className: Option<string>,
    location: Option<string>,
    teacherFirstName: Option<string>,
    teacherLastName: Option<string>,
    checkedIn: Option<string>,
    lateCancellations: Option<string>,
    nonPaidCustomers: Option<string>,
    revenue: int,
    time: int,
    dayOfWeek: string,
    classTime: string,
    period: string,
    isoDate: Option<string>)

  /** What a template literal writes for a column: `undefined` when it is absent. */
  function Template(o: Option<string>): string
  {
    match o
    case Some(s) => s
    case None => "undefined"
  }

  /** `parseInt(column) || 0`: an absent or non-numeric column counts as 0. */
  function Count(o: Option<string>): int
  {
    match o
    case Some(s) => ParseIntOrZero(s)
    case None => 0
  }

  function CheckedIn(r: Row): int { Count(r.checkedIn) }
  function LateCancelled(r: Row): int { Count(r.lateCancellations) }
  function NonPaid(r: Row): int { Count(r.nonPaidCustomers) }
  function Revenue(r: Row): int { r.revenue }
  function Hours(r: Row): int { r.time }

  /** 1 for a class nobody checked in to. */
  function EmptyClass(r: Row): int { if CheckedIn(r) == 0 then 1 else 0 }

  /** A row takes part unless its class name is missing or empty. */
  predicate Kept(r: Row)
  {
    r.className.Some? && r.className.value != ""
  }

  /**
    The class-name normaliser the consolidation applies. The functions below
    take it as a parameter, `normalise`; `Consolidate` passes
    `ClassNames.CleanedClassName`, and nothing proved here depends on which
    normaliser it is.
   */
  type Normaliser = string -> string

  /** The uniqueID `${cleanedClass}-${dayOfWeek}-${classTime}`. */
  function Key(r: Row, normalise: Normaliser): string
    requires Kept(r)
  {
    normalise(r.className.value) + "-" + r.dayOfWeek + "-" + r.classTime
  }

  /** The totals gathered for one uniqueID, with the identity of the row that created it. */
  datatype Acc = Acc(
    cleanedClass: string,
    dayOfWeek: string,
    classTime: string,
    location: Option<string>,
    teacherName: string,
    period: string,
    classDate: Option<string>,
    totalOccurrences: int,
    totalCancelled: int,
    totalCheckins: int,
    totalEmpty: int,
    totalLateCancelled: int,
    totalRevenue: int,
    totalTime: int,
    totalNonPaid: int)

  /** The entry created on the first sighting of a key: identity from the row, counters at 0. */
  function NewAcc(r: Row, normalise: Normaliser): Acc
    requires Kept(r)
  {
    Acc(normalise(r.className.value), r.dayOfWeek, r.classTime, r.location,
        Template(r.teacherFirstName) + " " + Template(r.teacherLastName),
        r.period, r.isoDate, 0, 0, 0, 0, 0, 0, 0, 0)
  }

  /** The counter updates every kept row makes to its entry. */
  function AddRow(a: Acc, r: Row): Acc
  {
    a.(totalOccurrences := a.totalOccurrences + 1,
       totalCancelled := a.totalCancelled + LateCancelled(r),
       totalCheckins := a.totalCheckins + CheckedIn(r),
       totalEmpty := a.totalEmpty + EmptyClass(r),
       totalLateCancelled := a.totalLateCancelled + LateCancelled(r),
       totalRevenue := a.totalRevenue + Revenue(r),
       totalTime := a.totalTime + Hours(r),
       totalNonPaid := a.totalNonPaid + NonPaid(r))
  }

  /**
    The `uniqueData` object: its entries, and its keys in insertion order,
    which is the order `for...in` visits them (a key always contains '-', so
    it is never an array index, which `for...in` would visit first).
   */
  datatype Table = Table(entries: map<string, Acc>, order: seq<string>)

  /** What the row callback does to the table. */
  function Step(t: Table, r: Row, normalise: Normaliser): Table
  {
    if !Kept(r) then t
    else
      var k := Key(r, normalise);
      if k in t.entries then Table(t.entries[k := AddRow(t.entries[k], r)], t.order)
      else Table(t.entries[k := AddRow(NewAcc(r, normalise), r)], t.order + [k])
  }

  /** The table after all the rows, in order. */
  function Fold(rows: seq<Row>, normalise: Normaliser): Table
  {
    if rows == [] then Table(map[], [])
    else Step(Fold(rows[..|rows| - 1], normalise), rows[|rows| - 1], normalise)
  }

  /** The rows of all the files, file after file. */
  function Flatten(files: seq<seq<Row>>): seq<Row>
  {
    if files == [] then [] else Flatten(files[..|files| - 1]) + files[|files| - 1]
  }

  lemma FoldSnoc(rows: seq<Row>, r: Row, normalise: Normaliser)
    ensures Fold(rows + [r], normalise) == Step(Fold(rows, normalise), r, normalise)
  {
    assert (rows + [r])[..|rows|] == rows;
  }

  lemma FlattenSnoc(files: seq<seq<Row>>, i: nat)
    requires i < |files|
    ensures Flatten(files[..i + 1]) == Flatten(files[..i]) + files[i]
  {
    assert files[..i + 1][..i] == files[..i];
  }

  /** The kept rows with key k, in order. */
  function Matching(rows: seq<Row>, k: string, normalise: Normaliser): (ms: seq<Row>)
    ensures forall i :: 0 <= i < |ms| ==> Kept(ms[i]) && Key(ms[i], normalise) == k
  {
    if rows == [] then []
    else
      var r := rows[|rows| - 1];
      Matching(rows[..|rows| - 1], k, normalise) + if Kept(r) && Key(r, normalise) == k then [r] else []
  }

  /**
    Matching picks every kept row with key k, as many times as it occurs in
    the rows, and nothing else.
   */
  lemma {:induction false} MatchingCount(rows: seq<Row>, k: string, normalise: Normaliser, x: Row)
    ensures multiset(Matching(rows, k, normalise))[x] ==
      if Kept(x) && Key(x, normalise) == k then multiset(rows)[x] else 0
    decreases |rows|
  {
    if rows != [] {
      var init, r := rows[..|rows| - 1], rows[|rows| - 1];
      assert rows == init + [r];
      MatchingCount(init, k, normalise, x);
    }
  }

  function Sum(ms: seq<Row>, f: Row -> int): int
  {
    if ms == [] then 0 else Sum(ms[..|ms| - 1], f) + f(ms[|ms| - 1])
  }

  /**
    The entry of a key, defined directly from the rows with that key:
    identity from the first of them, the number of them, and the sums of
    their counters.
   */
  function Summary(ms: seq<Row>, normalise: Normaliser): (a: Acc)
    requires ms != [] && Kept(ms[0])
    ensures EntryBounds(a) && a.classDate == ms[0].isoDate
  {
    SumEmptyBounds(ms);
    var a := NewAcc(ms[0], normalise);
    a.(totalOccurrences := |ms|,
       totalCancelled := Sum(ms, LateCancelled),
       totalCheckins := Sum(ms, CheckedIn),
       totalEmpty := Sum(ms, EmptyClass),
       totalLateCancelled := Sum(ms, LateCancelled),
       totalRevenue := Sum(ms, Revenue),
       totalTime := Sum(ms, Hours),
       totalNonPaid := Sum(ms, NonPaid))
  }

  lemma MatchingSnoc(rows: seq<Row>, r: Row, k: string, normalise: Normaliser)
    ensures Matching(rows + [r], k, normalise) == Matching(rows, k, normalise) + if Kept(r) && Key(r, normalise) == k then [r] else []
  {
    assert (rows + [r])[..|rows|] == rows;
  }

  lemma SumSnoc(ms: seq<Row>, r: Row, f: Row -> int)
    ensures Sum(ms + [r], f) == Sum(ms, f) + f(r)
  {
    assert (ms + [r])[..|ms|] == ms;
  }

  /** Adding a row to the summary of some rows summarises them all. */
  lemma SummarySnoc(ms: seq<Row>, r: Row, normalise: Normaliser)
    requires ms != [] && Kept(ms[0])
    ensures Summary(ms + [r], normalise) == AddRow(Summary(ms, normalise), r)
  {
    SumSnoc(ms, r, LateCancelled);
    SumSnoc(ms, r, CheckedIn);
    SumSnoc(ms, r, EmptyClass);
    SumSnoc(ms, r, Revenue);
    SumSnoc(ms, r, Hours);
    SumSnoc(ms, r, NonPaid);
  }

  lemma SummarySingle(r: Row, normalise: Normaliser)
    requires Kept(r)
    ensures Summary([r], normalise) == AddRow(NewAcc(r, normalise), r)
  {
    SumSnoc([], r, LateCancelled);
    SumSnoc([], r, CheckedIn);
    SumSnoc([], r, EmptyClass);
    SumSnoc([], r, Revenue);
    SumSnoc([], r, Hours);
    SumSnoc([], r, NonPaid);
    assert [] + [r] == [r];
  }

  /**
    The fold keeps exactly the keys of the kept rows, and each entry is the
    summary of its rows: the first row seen for the key fixes location,
    teacher, period and date, totalOccurrences counts the rows and every
    other counter is the sum of the rows' values.
   */
  lemma {:induction false} FoldEntries(rows: seq<Row>, k: string, normalise: Normaliser)
    ensures k in Fold(rows, normalise).entries <==> Matching(rows, k, normalise) != []
    ensures k in Fold(rows, normalise).entries ==> Fold(rows, normalise).entries[k] == Summary(Matching(rows, k, normalise), normalise)
    decreases |rows|
  {
    if rows != [] {
      var init, r := rows[..|rows| - 1], rows[|rows| - 1];
      assert rows == init + [r];
      FoldEntries(init, k, normalise);
      FoldSnoc(init, r, normalise);
      MatchingSnoc(init, r, k, normalise);
      var ms := Matching(init, k, normalise);
      if Kept(r) && Key(r, normalise) == k {
        if ms == [] {
          SummarySingle(r, normalise);
          assert [] + [r] == [r];
        } else {
          SummarySnoc(ms, r, normalise);
          assert (ms + [r])[0] == ms[0];
        }
      } else {
        assert ms + [] == ms;
      }
    }
  }

  // ----- Order independence -----

  lemma {:induction false} SumAppend(a: seq<Row>, b: seq<Row>, f: Row -> int)
    ensures Sum(a + b, f) == Sum(a, f) + Sum(b, f)
    decreases |b|
  {
    if b == [] {
      assert a + b == a;
    } else {
      var c := b[..|b| - 1];
      SumAppend(a, c, f);
      assert (a + b)[..|a + b| - 1] == a + c;
      assert (a + b)[|a + b| - 1] == b[|b| - 1];
    }
  }

  /** The sum counts the row at j once, beside the sum of the others. */
  lemma SumRemove(b: seq<Row>, j: nat, f: Row -> int)
    requires j < |b|
    ensures Sum(b, f) == Sum(b[..j] + b[j + 1..], f) + f(b[j])
  {
    var x := b[j];
    assert b == b[..j] + [x] + b[j + 1..];
    SumAppend(b[..j] + [x], b[j + 1..], f);
    SumAppend(b[..j], [x], f);
    SumAppend(b[..j], b[j + 1..], f);
    SumSnoc([], x, f);
    assert [] + [x] == [x];
  }

  /** Taking the last row of a and a matching row of b leaves runs with equal multisets. */
  lemma RowsRemove(a: seq<Row>, b: seq<Row>, j: nat)
    requires multiset(a) == multiset(b) && a != [] && j < |b| && b[j] == a[|a| - 1]
    ensures multiset(a[..|a| - 1]) == multiset(b[..j] + b[j + 1..])
  {
    var x := b[j];
    var rest, others := a[..|a| - 1], b[..j] + b[j + 1..];
    assert a == rest + [x];
    assert b == b[..j] + [x] + b[j + 1..];
    assert multiset(others) + multiset{x} == multiset(b);
    assert multiset(rest) + multiset{x} == multiset(a);
    assert multiset(rest) == multiset(a) - multiset{x};
    assert multiset(others) == multiset(b) - multiset{x};
  }

  /** A sum over rows depends only on the multiset of the rows. */
  lemma {:induction false} SumPermutation(a: seq<Row>, b: seq<Row>, f: Row -> int)
    requires multiset(a) == multiset(b)
    ensures Sum(a, f) == Sum(b, f)
    decreases |a|
  {
    if a != [] {
      var x := a[|a| - 1];
      assert x in multiset(b) by {
        assert a == a[..|a| - 1] + [x];
      }
      var j :| 0 <= j < |b| && b[j] == x;
      RowsRemove(a, b, j);
      SumPermutation(a[..|a| - 1], b[..j] + b[j + 1..], f);
      SumRemove(b, j, f);
    }
  }

  /** Reordering the rows reorders the rows of each key, and no more. */
  lemma MatchingPermutation(rows1: seq<Row>, rows2: seq<Row>, k: string, normalise: Normaliser)
    requires multiset(rows1) == multiset(rows2)
    ensures multiset(Matching(rows1, k, normalise)) == multiset(Matching(rows2, k, normalise))
  {
    forall x
      ensures multiset(Matching(rows1, k, normalise))[x] == multiset(Matching(rows2, k, normalise))[x]
    {
      MatchingCount(rows1, k, normalise, x);
      MatchingCount(rows2, k, normalise, x);
    }
  }

  /** Two entries agree on every counter. */
  predicate SameCounters(a: Acc, b: Acc)
  {
    a.totalOccurrences == b.totalOccurrences && a.totalCancelled == b.totalCancelled &&
    a.totalCheckins == b.totalCheckins && a.totalEmpty == b.totalEmpty &&
    a.totalLateCancelled == b.totalLateCancelled && a.totalRevenue == b.totalRevenue &&
    a.totalTime == b.totalTime && a.totalNonPaid == b.totalNonPaid
  }

  /** Summaries of two orderings of the same rows agree on every counter. */
  lemma SummaryPermutation(ms1: seq<Row>, ms2: seq<Row>, normalise: Normaliser)
    requires multiset(ms1) == multiset(ms2)
    requires ms1 != [] && Kept(ms1[0]) && ms2 != [] && Kept(ms2[0])
    ensures SameCounters(Summary(ms1, normalise), Summary(ms2, normalise))
  {
    assert |ms1| == |multiset(ms1)| == |multiset(ms2)| == |ms2|;
    SumPermutation(ms1, ms2, LateCancelled);
    SumPermutation(ms1, ms2, CheckedIn);
    SumPermutation(ms1, ms2, EmptyClass);
    SumPermutation(ms1, ms2, Revenue);
    SumPermutation(ms1, ms2, Hours);
    SumPermutation(ms1, ms2, NonPaid);
  }

  /**
    The counters do not depend on the order of the rows: two orderings of
    the same rows give tables with the same keys and, for every key, the
    same counters. The identity fields (location, teacher, period, date)
    come from the first row of a key and the key order from the first
    sightings, so those can differ.
   */
  lemma FoldCountersPermutation(rows1: seq<Row>, rows2: seq<Row>, k: string, normalise: Normaliser)
    requires multiset(rows1) == multiset(rows2)
    ensures k in Fold(rows1, normalise).entries <==> k in Fold(rows2, normalise).entries
    ensures k in Fold(rows1, normalise).entries ==>
      SameCounters(Fold(rows1, normalise).entries[k], Fold(rows2, normalise).entries[k])
  {
    FoldEntries(rows1, k, normalise);
    FoldEntries(rows2, k, normalise);
    var ms1, ms2 := Matching(rows1, k, normalise), Matching(rows2, k, normalise);
    MatchingPermutation(rows1, rows2, k, normalise);
    if ms1 != [] {
      assert |ms2| == |multiset(ms2)| == |multiset(ms1)| == |ms1|;
      SummaryPermutation(ms1, ms2, normalise);
    } else {
      assert |ms2| == |multiset(ms2)| == |multiset(ms1)| == 0;
    }
  }

  /** The keys of the kept rows, one per row. */
  function KeysOf(rows: seq<Row>, normalise: Normaliser): seq<string>
  {
    if rows == [] then []
    else
      var r := rows[|rows| - 1];
      KeysOf(rows[..|rows| - 1], normalise) + if Kept(r) then [Key(r, normalise)] else []
  }

  /** The first occurrence of each element, in order. */
  function FirstOccurrences(s: seq<string>): (d: seq<string>)
    ensures (set x | x in d) == (set x | x in s)
    ensures forall i, j :: 0 <= i < j < |d| ==> d[i] != d[j]
  {
    if s == [] then []
    else
      var init, last := s[..|s| - 1], s[|s| - 1];
      var d := FirstOccurrences(init);
      assert s == init + [last];
      assert (set x | x in s) == (set x | x in init) + {last};
      if last in d then d
      else
        assert (set x | x in d + [last]) == (set x | x in d) + {last};
        d + [last]
  }

  /**
    The insertion order lists each key once, in the order of the rows that
    first carry it, and the entries are exactly those keys.
   */
  lemma {:induction false} FoldOrder(rows: seq<Row>, normalise: Normaliser)
    ensures Fold(rows, normalise).order == FirstOccurrences(KeysOf(rows, normalise))
    ensures forall k :: k in Fold(rows, normalise).entries <==> k in Fold(rows, normalise).order
    decreases |rows|
  {
    if rows != [] {
      var init, r := rows[..|rows| - 1], rows[|rows| - 1];
      assert rows == init + [r];
      FoldOrder(init, normalise);
      FoldSnoc(init, r, normalise);
      assert (init + [r])[..|init|] == init;
      if Kept(r) {
        assert KeysOf(rows, normalise) == KeysOf(init, normalise) + [Key(r, normalise)];
        assert KeysOf(rows, normalise)[..|KeysOf(rows, normalise)| - 1] == KeysOf(init, normalise);
      } else {
        assert KeysOf(rows, normalise) == KeysOf(init, normalise);
      }
    }
  }

  /** Rows without a class name leave the table exactly as the other rows make it. */
  function KeptRows(rows: seq<Row>): (ks: seq<Row>)
    ensures forall i :: 0 <= i < |ks| ==> Kept(ks[i])
  {
    if rows == [] then []
    else
      var r := rows[|rows| - 1];
      KeptRows(rows[..|rows| - 1]) + if Kept(r) then [r] else []
  }

  lemma {:induction false} FoldIgnoresSkipped(rows: seq<Row>, normalise: Normaliser)
    ensures Fold(rows, normalise) == Fold(KeptRows(rows), normalise)
    decreases |rows|
  {
    if rows != [] {
      var init, r := rows[..|rows| - 1], rows[|rows| - 1];
      FoldIgnoresSkipped(init, normalise);
      if Kept(r) {
        FoldSnoc(KeptRows(init), r, normalise);
      } else {
        assert KeptRows(rows) == KeptRows(init) + [];
        assert KeptRows(init) + [] == KeptRows(init);
      }
    }
  }

  /** A row with an empty or missing class name changes nothing. */
  lemma SkippedRowChangesNothing(rows: seq<Row>, r: Row, normalise: Normaliser)
    requires !Kept(r)
    ensures Fold(rows + [r], normalise) == Fold(rows, normalise)
  {
    FoldSnoc(rows, r, normalise);
  }

  /** Every entry counts at least one row, and no more empty classes than rows. */
  predicate EntryBounds(a: Acc)
  {
    a.totalOccurrences >= 1 && 0 <= a.totalEmpty <= a.totalOccurrences &&
    a.totalLateCancelled == a.totalCancelled
  }

  lemma {:induction false} SumEmptyBounds(ms: seq<Row>)
    ensures 0 <= Sum(ms, EmptyClass) <= |ms|
    decreases |ms|
  {
    if ms != [] {
      SumEmptyBounds(ms[..|ms| - 1]);
    }
  }

  /** Every entry of the fold keeps the bounds. */
  lemma FoldBounds(rows: seq<Row>, k: string, normalise: Normaliser)
    requires k in Fold(rows, normalise).entries
    ensures EntryBounds(Fold(rows, normalise).entries[k])
  {
    FoldEntries(rows, k, normalise);
    SumEmptyBounds(Matching(rows, k, normalise));
  }

  const RangeError := "RangeError: Invalid time value"

  /** `(n).toFixed(2)` for an integer n. */
  function Fixed2OfInt(n: int): string
  {
    IntToString(n) + ".00"
  }

  /** The record pushed for key k and its entry a, once a's date is valid. */
  function MakeRecord(k: string, a: Acc): Record
    requires EntryBounds(a) && a.classDate.Some?
  {
    var nonEmpty := a.totalOccurrences - a.totalEmpty;
    Record(k, a.cleanedClass, a.dayOfWeek, a.classTime, a.location, a.teacherName, a.period,
           a.totalOccurrences, a.totalCancelled, a.totalCheckins, a.totalEmpty, nonEmpty,
           ToFixed1(a.totalCheckins, a.totalOccurrences),
           if nonEmpty > 0 then ToFixed1(a.totalCheckins, nonEmpty) else "N/A",
           a.totalRevenue, Fixed2OfInt(a.totalTime), a.totalNonPaid, a.classDate.value, a.totalCheckins)
  }

  /** The records for the keys, in order; `toISOString` throws on the first invalid date. */
  function Finalise(entries: map<string, Acc>, keys: seq<string>): Result<seq<Record>, string>
    requires forall k :: k in keys ==> k in entries && EntryBounds(entries[k])
  {
    if keys == [] then Success([])
    else
      match Finalise(entries, keys[..|keys| - 1])
      case Failure(e) => Failure(e)
      case Success(rs) =>
        var k := keys[|keys| - 1];
        if entries[k].classDate.None? then Failure(RangeError)
        else Success(rs + [MakeRecord(k, entries[k])])
  }

  /** The table's records are well defined: its entries keep the bounds. */
  predicate Finalisable(t: Table)
  {
    forall k :: k in t.order ==> k in t.entries && EntryBounds(t.entries[k])
  }

  lemma FoldFinalisable(rows: seq<Row>, normalise: Normaliser)
    ensures Finalisable(Fold(rows, normalise))
  {
    FoldOrder(rows, normalise);
    forall k | k in Fold(rows, normalise).order
      ensures EntryBounds(Fold(rows, normalise).entries[k])
    {
      FoldBounds(rows, k, normalise);
    }
  }

  /** What `consolidateCSVData` returns for the files' rows, or the exception it throws. */
  function Consolidated(files: seq<seq<Row>>, normalise: Normaliser): (result: Result<seq<Record>, string>)
    ensures result.Success? ==>
      forall i, j :: 0 <= i < j < |result.value| ==> result.value[i].uniqueID != result.value[j].uniqueID
  {
    var t := Fold(Flatten(files), normalise);
    FoldFinalisable(Flatten(files), normalise);
    FinaliseFacts(t.entries, t.order);
    FoldOrder(Flatten(files), normalise);
    Finalise(t.entries, t.order)
  }

  /** `consolidateCSVData` */
  method Consolidate(files: seq<seq<Row>>) returns (result: Result<seq<Record>, string>)
    ensures result == Consolidated(files, ClassNames.CleanedClassName)
  {
    var entries, order := GroupRows(files, ClassNames.CleanedClassName);
    FoldFinalisable(Flatten(files), ClassNames.CleanedClassName);
    result := FinaliseGroups(entries, order);
  }

  /** The nested `forEach` over the files and their rows, filling `uniqueData`. */
  method GroupRows(files: seq<seq<Row>>, normalise: Normaliser) returns (entries: map<string, Acc>, order: seq<string>)
    ensures Table(entries, order) == Fold(Flatten(files), normalise)
  {
    entries, order := map[], [];
    var i := 0;
    while i < |files|
      invariant 0 <= i <= |files|
      invariant Table(entries, order) == Fold(Flatten(files[..i]), normalise)
    {
      entries, order := GroupFileRows(entries, order, Flatten(files[..i]), files[i], normalise);
      FlattenSnoc(files, i);
      i := i + 1;
    }
    assert files[..|files|] == files;
  }

  /** The inner `forEach` over the rows of one file, after the rows `done` of the earlier files. */
  method GroupFileRows(entries0: map<string, Acc>, order0: seq<string>, ghost done: seq<Row>, rows: seq<Row>, normalise: Normaliser)
    returns (entries: map<string, Acc>, order: seq<string>)
    requires Table(entries0, order0) == Fold(done, normalise)
    ensures Table(entries, order) == Fold(done + rows, normalise)
  {
    entries, order := entries0, order0;
    var j := 0;
    assert done + rows[..0] == done;
    while j < |rows|
      invariant 0 <= j <= |rows|
      invariant Table(entries, order) == Fold(done + rows[..j], normalise)
    {
      FoldSnoc(done + rows[..j], rows[j], normalise);
      assert done + rows[..j + 1] == done + rows[..j] + [rows[j]];
      entries, order := GroupRow(entries, order, rows[j], normalise);
      j := j + 1;
    }
    assert rows[..|rows|] == rows;
  }

  /** The row callback: a kept row opens its key's entry when it is new, then adds to it. */
  method GroupRow(entries0: map<string, Acc>, order0: seq<string>, row: Row, normalise: Normaliser)
    returns (entries: map<string, Acc>, order: seq<string>)
    ensures Table(entries, order) == Step(Table(entries0, order0), row, normalise)
  {
    entries, order := entries0, order0;
    if Kept(row) {
      var key := Key(row, normalise);
      if key !in entries {
        entries := entries[key := NewAcc(row, normalise)];
        order := order + [key];
      }
      entries := entries[key := AddRow(entries[key], row)];
    }
  }

  /** The `for...in` loop that pushes one record per key, in insertion order. */
  method FinaliseGroups(entries: map<string, Acc>, order: seq<string>) returns (result: Result<seq<Record>, string>)
    requires forall k :: k in order ==> k in entries && EntryBounds(entries[k])
    ensures result == Finalise(entries, order)
  {
    var out: seq<Record> := [];
    var n := 0;
    while n < |order|
      invariant 0 <= n <= |order|
      invariant Finalise(entries, order[..n]) == Success(out)
    {
      var key := order[n];
      var data := entries[key];
      assert order[..n + 1][..n] == order[..n];
      if data.classDate.None? {
        FinaliseFailureStays(entries, order, n + 1);
        return Failure(RangeError);
      }
      out := out + [MakeRecord(key, data)];
      n := n + 1;
    }
    assert order[..|order|] == order;
    result := Success(out);
  }

  /** Once a prefix of the keys fails, so do all the keys. */
  lemma {:induction false} FinaliseFailureStays(entries: map<string, Acc>, keys: seq<string>, m: nat)
    requires m <= |keys|
    requires forall k :: k in keys ==> k in entries && EntryBounds(entries[k])
    requires Finalise(entries, keys[..m]) == Failure(RangeError)
    ensures Finalise(entries, keys) == Failure(RangeError)
    decreases |keys| - m
  {
    if m < |keys| {
      assert keys[..m + 1][..m] == keys[..m];
      FinaliseFailureStays(entries, keys, m + 1);
    } else {
      assert keys[..m] == keys;
    }
  }

  /**
    The finalised records: one per key, in key order, each the record of its
    entry; it throws exactly when some entry's date is invalid.
   */
  lemma {:induction false} FinaliseFacts(entries: map<string, Acc>, keys: seq<string>)
    requires forall k :: k in keys ==> k in entries && EntryBounds(entries[k])
    ensures Finalise(entries, keys).Failure? <==> exists k :: k in keys && entries[k].classDate.None?
    ensures Finalise(entries, keys).Success? ==>
      var rs := Finalise(entries, keys).value;
      |rs| == |keys| &&
      forall i :: 0 <= i < |keys| ==> rs[i] == MakeRecord(keys[i], entries[keys[i]])
    decreases |keys|
  {
    if keys != [] {
      var init := keys[..|keys| - 1];
      assert forall k :: k in init ==> k in keys;
      FinaliseFacts(entries, init);
      assert keys == init + [keys[|keys| - 1]];
    }
  }

  /**
    `consolidateCSVData` as a whole: one record per distinct uniqueID of the
    kept rows, in the order the IDs first occur, each made from the summary
    of the rows with that ID; the call throws exactly when the first row of
    some ID has an invalid date.
   */
  lemma ConsolidatedRecords(files: seq<seq<Row>>, normalise: Normaliser)
    ensures forall k :: k in FirstOccurrences(KeysOf(Flatten(files), normalise)) ==>
      Matching(Flatten(files), k, normalise) != []
    ensures Consolidated(files, normalise).Failure? <==>
      exists k :: k in FirstOccurrences(KeysOf(Flatten(files), normalise)) &&
        Matching(Flatten(files), k, normalise)[0].isoDate.None?
    ensures Consolidated(files, normalise).Success? ==>
      var keys := FirstOccurrences(KeysOf(Flatten(files), normalise));
      var rs := Consolidated(files, normalise).value;
      |rs| == |keys| &&
      forall i :: 0 <= i < |keys| ==>
        rs[i] == MakeRecord(keys[i], Summary(Matching(Flatten(files), keys[i], normalise), normalise))
  {
    var rows := Flatten(files);
    var t := Fold(rows, normalise);
    FoldOrder(rows, normalise);
    FoldFinalisable(rows, normalise);
    forall k | k in t.order
      ensures Matching(rows, k, normalise) != []
      ensures t.entries[k] == Summary(Matching(rows, k, normalise), normalise)
    {
      FoldEntries(rows, k, normalise);
    }
    FinaliseFacts(t.entries, t.order);
  }

  /** Each record counts at least one class, and no more empty classes than classes. */
  lemma RecordCounts(k: string, a: Acc)
    requires EntryBounds(a) && a.classDate.Some?
    ensures var r := MakeRecord(k, a);
      r.uniqueID == k && r.totalOccurrences >= 1 &&
      0 <= r.totalEmpty <= r.totalOccurrences &&
      r.totalNonEmpty == r.totalOccurrences - r.totalEmpty >= 0 &&
      r.attendance == r.totalCheckins
  {
  }

  /** The average including empty classes reads back as check-ins per class, rounded to tenths. */
  lemma RecordAverage(k: string, a: Acc)
    requires EntryBounds(a) && a.classDate.Some?
    ensures var r := MakeRecord(k, a);
      NumberValue(r.classAverageIncludingEmpty) ==
        Some(Decimal(RoundedTenths(r.totalCheckins, r.totalOccurrences), 1))
  {
    NumberOfFixed1(a.totalCheckins, a.totalOccurrences);
  }

  /** The text toFixed(1) writes is never 'N/A'. */
  lemma Fixed1IsNotNotApplicable(num: int, den: nat)
    requires den > 0
    ensures ToFixed1(num, den) != "N/A"
  {
    NumberOfFixed1(num, den);
    NotApplicableIsNaN();
  }

  /**
    The average excluding empty classes is 'N/A' exactly when no class was
    attended, and otherwise reads back as check-ins per attended class.
   */
  lemma RecordAverageExcludingEmpty(k: string, a: Acc)
    requires EntryBounds(a) && a.classDate.Some?
    ensures var r := MakeRecord(k, a);
      (r.classAverageExcludingEmpty == "N/A" <==> r.totalNonEmpty == 0) &&
      (r.totalNonEmpty > 0 ==>
         NumberValue(r.classAverageExcludingEmpty) == Some(Decimal(RoundedTenths(r.totalCheckins, r.totalNonEmpty), 1)))
  {
    var r := MakeRecord(k, a);
    var nonEmpty := a.totalOccurrences - a.totalEmpty;
    assert r.totalNonEmpty == nonEmpty && r.totalCheckins == a.totalCheckins;
    if nonEmpty > 0 {
      var avg := ToFixed1(a.totalCheckins, nonEmpty);
      assert r.classAverageExcludingEmpty == avg;
      NumberOfFixed1(a.totalCheckins, nonEmpty);
      Fixed1IsNotNotApplicable(a.totalCheckins, nonEmpty);
    } else {
      assert r.classAverageExcludingEmpty == "N/A";
    }
  }

  /** 'N/A' is not a number. */
  lemma NotApplicableIsNaN()
    ensures NumberValue("N/A") == None
  {
    var t := "N/A";
    assert !IsJsWhite(t[0]) && !IsJsWhite(t[|t| - 1]);
    TrimStartKeeps(t);
    TrimEndKeeps(t);
    assert DigitRun(t, 10) == 0;
  }
}
