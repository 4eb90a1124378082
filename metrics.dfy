/**
  The summary figures of the metrics panel: sums of record fields, the
  guarded averages, the distinct class types and instructors, and the
  Indian formatting of an amount of rupees in crores, lakhs or thousands.
 */
module Metrics {
  import opened Wrappers
  import opened Text
  import opened Numbers
  import opened Records
  import Consolidation
  import Dashboard

  // ----- formatIndianCurrency -----

  /** One crore: ten million. */
  const Crore: nat := 10000000

  /** One lakh: a hundred thousand. */
  const Lakh: nat := 100000

  /**
    `formatIndianCurrency(value)` for an integer amount: tenths of a crore
    or of a lakh for large amounts, thousands and a three-digit remainder
    between a thousand and a lakh, and the plain amount below a thousand.
   */
  function FormatIndianCurrency(value: int): string
  {
    if value >= Crore then "₹" + ToFixed1(value, Crore) + " Cr"
    else if value >= Lakh then "₹" + ToFixed1(value, Lakh) + " L"
    else if value >= 1000 then "₹" + IntToString(value / 1000) + "," + PadStart(IntToString(value % 1000), 3, '0')
    else "₹" + IntToString(value)
  }

  /** A digit string holds no comma. */
  lemma DigitsHaveNoComma(s: string)
    requires AllDigits(s, 10)
    ensures ',' !in s
  {
    forall i | 0 <= i < |s|
      ensures s[i] != ','
    {
      assert IsRadixDigit(s[i], 10);
    }
  }

  /** The text of an integer holds no comma and ends with a digit. */
  lemma IntTextShape(n: int)
    ensures var s := IntToString(n); |s| >= 1 && ',' !in s && IsDigit(s[|s| - 1])
  {
    var m := if n < 0 then -n else n;
    var d := NatToString(m);
    NatToStringDigits(m);
    DigitsHaveNoComma(d);
    assert IsRadixDigit(d[|d| - 1], 10);
    assert IntToString(n) == if n < 0 then "-" + d else d;
  }

  /** The text toFixed(1) writes holds no comma. */
  lemma Fixed1HasNoComma(num: int, den: nat)
    requires den > 0
    ensures ',' !in ToFixed1(num, den)
  {
    var t := Tenths(Magnitude(num), den);
    var w := NatToString(t / 10);
    NatToStringDigits(t / 10);
    DigitsHaveNoComma(w);
    assert TenthsText(t) == w + "." + [DigitChar(t % 10)];
  }

  /** A text that ends with p ends with p's last character. */
  lemma EndsWithLast(r: string, p: string)
    requires |p| >= 1
    ensures EndsWith(r, p) ==> r[|r| - 1] == p[|p| - 1]
  {
    if EndsWith(r, p) {
      assert r[|r| - |p|..][|p| - 1] == r[|r| - 1];
    }
  }

  /**
    The bucket can be told from the text: it ends with ' Cr' exactly for a
    crore or more, with ' L' exactly from a lakh up to a crore, and holds a
    comma exactly from a thousand up to a lakh.
   */
  lemma CurrencyBucket(value: int)
    ensures var r := FormatIndianCurrency(value);
      (EndsWith(r, " Cr") <==> value >= Crore) &&
      (EndsWith(r, " L") <==> Lakh <= value < Crore) &&
      (',' in r <==> 1000 <= value < Lakh)
  {
    var r := FormatIndianCurrency(value);
    EndsWithLast(r, " Cr");
    EndsWithLast(r, " L");
    if value >= Crore {
      CroreBucket(value);
    } else if value >= Lakh {
      LakhBucket(value);
    } else if value >= 1000 {
      ThousandsBucket(value);
    } else {
      PlainBucket(value);
    }
  }

  lemma CroreBucket(value: int)
    requires value >= Crore
    ensures var r := FormatIndianCurrency(value);
      EndsWith(r, " Cr") && r[|r| - 1] == 'r' && ',' !in r
  {
    var t := ToFixed1(value, Crore);
    Fixed1HasNoComma(value, Crore);
    var r := "₹" + t + " Cr";
    assert r[|r| - 3..] == " Cr";
  }

  lemma LakhBucket(value: int)
    requires Lakh <= value < Crore
    ensures var r := FormatIndianCurrency(value);
      EndsWith(r, " L") && r[|r| - 1] == 'L' && ',' !in r
  {
    var t := ToFixed1(value, Lakh);
    Fixed1HasNoComma(value, Lakh);
    var r := "₹" + t + " L";
    assert r[|r| - 2..] == " L";
  }

  lemma ThousandsBucket(value: int)
    requires 1000 <= value < Lakh
    ensures var r := FormatIndianCurrency(value);
      IsDigit(r[|r| - 1]) && ',' in r
  {
    var w := IntToString(value / 1000);
    var p := PadStart(IntToString(value % 1000), 3, '0');
    ThousandsParts(value);
    var r := "₹" + w + "," + p;
    assert r[1 + |w|] == ',';
    assert IsRadixDigit(p[2], 10);
    assert r[|r| - 1] == p[2];
  }

  lemma PlainBucket(value: int)
    requires value < 1000
    ensures var r := FormatIndianCurrency(value);
      IsDigit(r[|r| - 1]) && ',' !in r
  {
    var s := IntToString(value);
    IntTextShape(value);
    var r := "₹" + s;
    assert r[|r| - 1] == s[|s| - 1];
  }

  /** The two numbers of the thousands bucket: the thousands and the padded three-digit remainder. */
  lemma ThousandsParts(value: int)
    requires 1000 <= value < Lakh
    ensures var w := IntToString(value / 1000);
      var p := PadStart(IntToString(value % 1000), 3, '0');
      |w| >= 1 && AllDigits(w, 10) && DigitsValue(w, 10) == value / 1000 &&
      |p| == 3 && AllDigits(p, 10) && DigitsValue(p, 10) == value % 1000
  {
    var q := NatToString(value % 1000);
    NatToStringDigits(value / 1000);
    NatToStringDigits(value % 1000);
    assert Pow10(3) == 1000;
    NatToStringLength(value % 1000, 3);
    PadStartZeros(q, 3);
  }

  /**
    From a thousand up to a lakh the text reads back exactly: after the
    rupee sign it splits at its one comma into the thousands and a remainder
    of exactly three digits, which together spell the value.
   */
  lemma ThousandsText(value: int)
    requires 1000 <= value < Lakh
    ensures var r := FormatIndianCurrency(value);
      var parts := Split(r[1..], ',');
      r[0] == '₹' && |parts| == 2 && |parts[1]| == 3 &&
      AllDigits(parts[0], 10) && AllDigits(parts[1], 10) &&
      DigitsValue(parts[0], 10) * 1000 + DigitsValue(parts[1], 10) == value
  {
    var w := IntToString(value / 1000);
    var p := PadStart(IntToString(value % 1000), 3, '0');
    ThousandsParts(value);
    DigitsHaveNoComma(w);
    DigitsHaveNoComma(p);
    var r := "₹" + w + "," + p;
    assert r[1..] == w + [','] + p;
    SplitAfter(w, p, ',');
    SplitFree(p, ',');
  }

  /** Amounts in crores or lakhs: the rupee sign, the amount in tenths of the unit, and the unit. */
  lemma UnitText(value: int, unit: nat, suffix: string)
    requires value >= 0 && unit > 0
    ensures var r := "₹" + ToFixed1(value, unit) + suffix;
      var t := RoundedTenths(value, unit);
      r[0] == '₹' && EndsWith(r, suffix) &&
      NumberValue(r[1..|r| - |suffix|]) == Some(Decimal(t, 1)) &&
      2 * t * unit - unit <= 20 * value < 2 * t * unit + unit
  {
    var s := ToFixed1(value, unit);
    var r := "₹" + s + suffix;
    assert r[1..|r| - |suffix|] == s;
    assert r[|r| - |suffix|..] == suffix;
    NumberOfFixed1(value, unit);
    TenthsNearest(value, unit);
  }

  /**
    A crore or more is written in crores: the number between the rupee sign
    and ' Cr' reads back as the value in crores, rounded to the nearest
    tenth (a tie going up).
   */
  lemma CroreText(value: int)
    requires value >= Crore
    ensures var r := FormatIndianCurrency(value);
      var t := RoundedTenths(value, Crore);
      r[0] == '₹' && EndsWith(r, " Cr") &&
      NumberValue(r[1..|r| - 3]) == Some(Decimal(t, 1)) &&
      2 * t * Crore - Crore <= 20 * value < 2 * t * Crore + Crore
  {
    UnitText(value, Crore, " Cr");
  }

  /** From a lakh up to a crore the amount is written in lakhs, rounded to the nearest tenth. */
  lemma LakhText(value: int)
    requires Lakh <= value < Crore
    ensures var r := FormatIndianCurrency(value);
      var t := RoundedTenths(value, Lakh);
      r[0] == '₹' && EndsWith(r, " L") &&
      NumberValue(r[1..|r| - 2]) == Some(Decimal(t, 1)) &&
      2 * t * Lakh - Lakh <= 20 * value < 2 * t * Lakh + Lakh
  {
    UnitText(value, Lakh, " L");
  }

  /** Below a thousand (negative amounts included) the text after the rupee sign reads back as the value. */
  lemma PlainText(value: int)
    requires value < 1000
    ensures var r := FormatIndianCurrency(value);
      r[0] == '₹' && NumberValue(r[1..]) == Some(Decimal(value, 0))
  {
    var s := IntToString(value);
    assert ("₹" + s)[1..] == s;
    NumberOfString(value);
  }

  // ----- Totals -----

  /** `data.reduce((sum, item) => sum + field(item), 0)` */
  function Total(data: seq<Record>, field: Record -> int): int
  {
    if data == [] then 0 else Total(data[..|data| - 1], field) + field(data[|data| - 1])
  }

  /** The total of two runs of records is the sum of their totals. */
  lemma {:induction false} TotalAppend(a: seq<Record>, b: seq<Record>, field: Record -> int)
    ensures Total(a + b, field) == Total(a, field) + Total(b, field)
    decreases |b|
  {
    if b == [] {
      assert a + b == a;
    } else {
      var c := b[..|b| - 1];
      TotalAppend(a, c, field);
      assert (a + b)[..|a + b| - 1] == a + c;
      assert (a + b)[|a + b| - 1] == b[|b| - 1];
    }
  }

  /** A total does not depend on the order of the records. */
  lemma {:induction false} TotalPermutation(a: seq<Record>, b: seq<Record>, field: Record -> int)
    requires multiset(a) == multiset(b)
    ensures Total(a, field) == Total(b, field)
    decreases |a|
  {
    if a != [] {
      var x := a[|a| - 1];
      assert x in multiset(b) by {
        assert a == a[..|a| - 1] + [x];
      }
      var j :| 0 <= j < |b| && b[j] == x;
      MultisetRemove(a, b, j);
      TotalPermutation(a[..|a| - 1], b[..j] + b[j + 1..], field);
      TotalRemove(b, j, field);
    }
  }

  /** Taking the last record of a and a matching record of b leaves runs with equal multisets. */
  lemma MultisetRemove(a: seq<Record>, b: seq<Record>, j: nat)
    requires multiset(a) == multiset(b) && a != [] && j < |b| && b[j] == a[|a| - 1]
    ensures multiset(a[..|a| - 1]) == multiset(b[..j] + b[j + 1..])
  {
    var x := b[j];
    var rest, others := a[..|a| - 1], b[..j] + b[j + 1..];
    assert a == rest + [x];
    assert b == b[..j] + [x] + b[j + 1..];
    assert multiset(others) + multiset{x} == multiset(b);
    assert multiset(rest) + multiset{x} == multiset(a);
    assert multiset(rest) == multiset(a) - multiset{x};
    assert multiset(others) == multiset(b) - multiset{x};
  }

  /** The total counts the record at j once, beside the total of the others. */
  lemma TotalRemove(b: seq<Record>, j: nat, field: Record -> int)
    requires j < |b|
    ensures Total(b, field) == Total(b[..j] + b[j + 1..], field) + field(b[j])
  {
    var x := b[j];
    assert b == b[..j] + [x] + b[j + 1..];
    TotalAppend(b[..j] + [x], b[j + 1..], field);
    TotalAppend(b[..j], [x], field);
    TotalAppend(b[..j], b[j + 1..], field);
    assert Total([x], field) == field(x) by {
      assert [x][..0] == [];
    }
  }

  /** Where every record's first field is no greater than its second, so are the totals. */
  lemma {:induction false} TotalAtMost(data: seq<Record>, low: Record -> int, high: Record -> int)
    requires forall i :: 0 <= i < |data| ==> low(data[i]) <= high(data[i])
    ensures Total(data, low) <= Total(data, high)
    decreases |data|
  {
    if data != [] {
      TotalAtMost(data[..|data| - 1], low, high);
    }
  }

  /** Where every record's field is non-negative, so is the total. */
  lemma {:induction false} TotalNonNegative(data: seq<Record>, field: Record -> int)
    requires forall i :: 0 <= i < |data| ==> field(data[i]) >= 0
    ensures Total(data, field) >= 0
    decreases |data|
  {
    if data != [] {
      TotalNonNegative(data[..|data| - 1], field);
    }
  }

  function Occurrences(r: Record): int { r.totalOccurrences }
  function Checkins(r: Record): int { r.totalCheckins }
  function Revenue(r: Record): int { r.totalRevenue }
  function NonPaid(r: Record): int { r.totalNonPaid }
  function Cancelled(r: Record): int { r.totalCancelled }
  function Empty(r: Record): int { r.totalEmpty }
  function CleanedClassOf(r: Record): string { r.cleanedClass }
  function TeacherNameOf(r: Record): string { r.teacherName }

  // ----- Distinct values -----

  /** `data.map(field)` */
  function Column(data: seq<Record>, field: Record -> string): (vs: seq<string>)
    ensures |vs| == |data|
    ensures forall i :: 0 <= i < |data| ==> vs[i] == field(data[i])
  {
    seq(|data|, i requires 0 <= i < |data| => field(data[i]))
  }

  /** `new Set(xs).size`: each value the set has not seen yet adds one. */
  function SetSize(xs: seq<string>): (n: nat)
    ensures n <= |xs|
    ensures xs != [] ==> n >= 1
  {
    if xs == [] then 0
    else SetSize(xs[..|xs| - 1]) + if xs[|xs| - 1] in xs[..|xs| - 1] then 0 else 1
  }

  /** The size the set reaches is the number of distinct values. */
  lemma {:induction false} SetSizeDistinct(xs: seq<string>)
    ensures SetSize(xs) == |set x | x in xs|
    decreases |xs|
  {
    if xs != [] {
      var init := xs[..|xs| - 1];
      var last := xs[|xs| - 1];
      SetSizeDistinct(init);
      assert xs == init + [last];
      assert (set x | x in xs) == (set x | x in init) + {last};
      if last !in init {
        assert last !in (set x | x in init);
      }
    }
  }

  /** The values of a column are the field's values on the records. */
  lemma ColumnValues(data: seq<Record>, field: Record -> string)
    ensures (set x | x in Column(data, field)) == (set r | r in data :: field(r))
  {
    var vs := Column(data, field);
    forall x | x in vs
      ensures x in (set r | r in data :: field(r))
    {
      var i :| 0 <= i < |vs| && vs[i] == x;
      assert data[i] in data;
    }
    forall x | x in (set r | r in data :: field(r))
      ensures x in vs
    {
      var r :| r in data && field(r) == x;
      var i :| 0 <= i < |data| && data[i] == r;
      assert vs[i] == x;
    }
  }

  /** The number of distinct values of a field over the records. */
  lemma DistinctValues(data: seq<Record>, field: Record -> string)
    ensures SetSize(Column(data, field)) == |set r | r in data :: field(r)|
  {
    SetSizeDistinct(Column(data, field));
    ColumnValues(data, field);
  }

  // ----- The panel's figures -----

  /** `den > 0 ? (num / den).toFixed(1) : '0'`: an average with one decimal, '0' when nothing is counted. */
  function Average1(num: int, den: int): string
  {
    if den > 0 then ToFixed1(num, den) else "0"
  }

  /** The average is '0' without a count, and otherwise reads back as num / den rounded to tenths. */
  lemma Average1Text(num: int, den: int)
    ensures den <= 0 ==> Average1(num, den) == "0"
    ensures den > 0 ==> NumberValue(Average1(num, den)) == Some(Decimal(RoundedTenths(num, den), 1))
  {
    if den > 0 {
      NumberOfFixed1(num, den);
    }
  }

  /** The figures the panel computes before it lays them out as cards. */
  datatype Summary = Summary(
    totalClasses: int,
    totalCheckins: int,
    totalRevenue: int,
    revenue: string,
    nonPaidCustomers: int,
    totalCancelled: int,
    totalEmptyClasses: int,
    avgAttendance: string,
    avgUtilization: string,
    uniqueClassTypes: nat,
    uniqueInstructors: nat)

  /**
    The `useMemo` of the metrics panel: no figures at all without data;
    otherwise the totals, 'Revenue' as Indian currency, the average
    attendance and the utilisation in percent with one decimal ('0' when
    there are no classes), and the distinct class types and instructors.
   */
  function Calculate(data: seq<Record>): (m: Option<Summary>)
    ensures m.None? <==> data == []
  {
    if |data| == 0 then None
    else
      Some(Summarise(
        Total(data, Occurrences), Total(data, Checkins), Total(data, Revenue),
        Total(data, NonPaid), Total(data, Cancelled), Total(data, Empty),
        SetSize(Column(data, CleanedClassOf)), SetSize(Column(data, TeacherNameOf))))
  }

  /** The figures the panel derives from its totals and distinct counts. */
  function Summarise(
    totalClasses: int, totalCheckins: int, totalRevenue: int, nonPaidCustomers: int,
    totalCancelled: int, totalEmptyClasses: int, uniqueClassTypes: nat, uniqueInstructors: nat): Summary
  {
    Summary(
      totalClasses, totalCheckins, totalRevenue, FormatIndianCurrency(totalRevenue),
      nonPaidCustomers, totalCancelled, totalEmptyClasses,
      Average1(totalCheckins, totalClasses),
      Average1((totalClasses - totalEmptyClasses) * 100, totalClasses),
      uniqueClassTypes, uniqueInstructors)
  }

  /**
    The average attendance is '0' without classes, and otherwise reads back
    as the check-ins per class rounded to tenths.
   */
  lemma AverageAttendance(data: seq<Record>)
    requires data != []
    ensures var m := Calculate(data).value;
      (m.totalClasses == 0 ==> m.avgAttendance == "0") &&
      (m.totalClasses > 0 ==>
         NumberValue(m.avgAttendance) == Some(Decimal(RoundedTenths(m.totalCheckins, m.totalClasses), 1)))
  {
    var m := Calculate(data).value;
    Average1Text(m.totalCheckins, m.totalClasses);
  }

  /** No record has more empty classes than classes, nor fewer than none. */
  predicate EmptyWithinClasses(data: seq<Record>)
  {
    forall i :: 0 <= i < |data| ==> 0 <= data[i].totalEmpty <= data[i].totalOccurrences
  }

  /**
    The utilisation is '0' without classes. Otherwise, when no record has
    more empty classes than classes, it reads back as a number of tenths of
    a percent between 0 and 1000, that is between 0% and 100%.
   */
  lemma Utilisation(data: seq<Record>)
    requires data != [] && EmptyWithinClasses(data)
    ensures var m := Calculate(data).value;
      (m.totalClasses == 0 ==> m.avgUtilization == "0") &&
      (m.totalClasses > 0 ==>
         var u := RoundedTenths((m.totalClasses - m.totalEmptyClasses) * 100, m.totalClasses);
         0 <= u <= 1000 && NumberValue(m.avgUtilization) == Some(Decimal(u, 1)))
  {
    var m := Calculate(data).value;
    assert m.totalClasses == Total(data, Occurrences) && m.totalEmptyClasses == Total(data, Empty);
    TotalNonNegative(data, Empty);
    TotalAtMost(data, Empty, Occurrences);
    UtilisationText(m.totalClasses, m.totalEmptyClasses);
  }

  /** The utilisation text for a count of classes and of empty classes among them. */
  lemma UtilisationText(classes: int, empty: int)
    requires 0 <= empty <= classes
    ensures var text := Average1((classes - empty) * 100, classes);
      (classes == 0 ==> text == "0") &&
      (classes > 0 ==>
         var u := RoundedTenths((classes - empty) * 100, classes);
         0 <= u <= 1000 && NumberValue(text) == Some(Decimal(u, 1)))
  {
    Average1Text((classes - empty) * 100, classes);
    if classes > 0 {
      PercentInRange(classes - empty, classes);
    }
  }

  /** Rounding used / classes * 100 to tenths gives at most 1000 tenths when used <= classes. */
  lemma PercentInRange(used: nat, classes: nat)
    requires 0 < classes && used <= classes
    ensures 0 <= RoundedTenths(used * 100, classes) <= 1000
  {
    var n := used * 100;
    var t := Tenths(n, classes);
    assert RoundedTenths(n, classes) == t;
    TenthsNearest(n, classes);
    assert 20 * n <= 2000 * classes;
    TenthsAtMost(t, classes);
  }

  lemma TenthsAtMost(t: int, c: int)
    requires c > 0 && 2 * t * c - c <= 2000 * c
    ensures t <= 1000
  {
  }

  /** The distinct counts are the numbers of distinct class types and instructors, one at least of each. */
  lemma DistinctCounts(data: seq<Record>)
    requires data != []
    ensures var m := Calculate(data).value;
      m.uniqueClassTypes == |set r | r in data :: r.cleanedClass| &&
      m.uniqueInstructors == |set r | r in data :: r.teacherName| &&
      1 <= m.uniqueClassTypes <= |data| && 1 <= m.uniqueInstructors <= |data|
  {
    ClassTypes(data);
    Instructors(data);
  }

  lemma ClassTypes(data: seq<Record>)
    ensures SetSize(Column(data, CleanedClassOf)) == |set r | r in data :: r.cleanedClass|
  {
    var vs := Column(data, CleanedClassOf);
    SetSizeDistinct(vs);
    var plain := set r | r in data :: r.cleanedClass;
    forall x | x in vs
      ensures x in plain
    {
      var i :| 0 <= i < |vs| && vs[i] == x;
      assert data[i] in data;
    }
    forall x | x in plain
      ensures x in vs
    {
      var r :| r in data && r.cleanedClass == x;
      var i :| 0 <= i < |data| && data[i] == r;
      assert vs[i] == x;
    }
    assert (set x | x in vs) == plain;
  }

  lemma Instructors(data: seq<Record>)
    ensures SetSize(Column(data, TeacherNameOf)) == |set r | r in data :: r.teacherName|
  {
    var vs := Column(data, TeacherNameOf);
    SetSizeDistinct(vs);
    var plain := set r | r in data :: r.teacherName;
    forall x | x in vs
      ensures x in plain
    {
      var i :| 0 <= i < |vs| && vs[i] == x;
      assert data[i] in data;
    }
    forall x | x in plain
      ensures x in vs
    {
      var r :| r in data && r.teacherName == x;
      var i :| 0 <= i < |data| && data[i] == r;
      assert vs[i] == x;
    }
    assert (set x | x in vs) == plain;
  }

  /** The figures do not depend on the order of the records, so sorting the view leaves them unchanged. */
  lemma CalculatePermutation(a: seq<Record>, b: seq<Record>)
    requires multiset(a) == multiset(b)
    ensures Calculate(a) == Calculate(b)
  {
    if a != [] {
      assert |a| == |multiset(a)| == |b|;
      TotalPermutation(a, b, Occurrences);
      TotalPermutation(a, b, Checkins);
      TotalPermutation(a, b, Revenue);
      TotalPermutation(a, b, NonPaid);
      TotalPermutation(a, b, Cancelled);
      TotalPermutation(a, b, Empty);
      SameDistinct(a, b, CleanedClassOf);
      SameDistinct(a, b, TeacherNameOf);
    } else {
      assert |b| == |multiset(b)| == 0;
    }
  }

  lemma SameDistinct(a: seq<Record>, b: seq<Record>, field: Record -> string)
    requires multiset(a) == multiset(b)
    ensures SetSize(Column(a, field)) == SetSize(Column(b, field))
  {
    DistinctValues(a, field);
    DistinctValues(b, field);
    forall r
      ensures r in a <==> r in b
    {
      assert r in a <==> r in multiset(a);
      assert r in b <==> r in multiset(b);
    }
    assert (set r | r in a :: field(r)) == (set r | r in b :: field(r));
  }

  // ----- The panel on the dashboard's view -----

  /** Every consolidated record has no more empty classes than classes. */
  lemma ConsolidatedWithinClasses(files: seq<seq<Consolidation.Row>>, normalise: Consolidation.Normaliser)
    requires Consolidation.Consolidated(files, normalise).Success?
    ensures EmptyWithinClasses(Consolidation.Consolidated(files, normalise).value)
  {
    Consolidation.ConsolidatedRecords(files, normalise);
    var rows := Consolidation.Flatten(files);
    var keys := Consolidation.FirstOccurrences(Consolidation.KeysOf(rows, normalise));
    var rs := Consolidation.Consolidated(files, normalise).value;
    forall i | 0 <= i < |rs|
      ensures 0 <= rs[i].totalEmpty <= rs[i].totalOccurrences
    {
      var a := Consolidation.Summary(Consolidation.Matching(rows, keys[i], normalise), normalise);
      assert keys[i] in keys;
      Consolidation.RecordCounts(keys[i], a);
    }
  }

  /** Records drawn from records with no more empty classes than classes have that bound too. */
  lemma WithinClassesDrawn(data: seq<Record>, view: seq<Record>)
    requires EmptyWithinClasses(data)
    requires forall r :: r in view ==> r in data
    ensures EmptyWithinClasses(view)
  {
    forall i | 0 <= i < |view|
      ensures 0 <= view[i].totalEmpty <= view[i].totalOccurrences
    {
      assert view[i] in data;
    }
  }

  /**
    The panel shows the dashboard's view of consolidated records: its
    figures are those of the selected records whatever order the sort put
    them in, and its utilisation lies between 0% and 100%.
   */
  lemma PanelOfView(
    files: seq<seq<Consolidation.Row>>, normalise: Consolidation.Normaliser, today: Dashboard.YearMonth,
    searchQuery: string, filters: seq<Dashboard.FilterOption>, view: seq<Record>)
    requires Consolidation.Consolidated(files, normalise).Success?
    requires multiset(view) == multiset(Dashboard.Selected(Consolidation.Consolidated(files, normalise).value, today, searchQuery, filters))
    requires view != []
    ensures Calculate(view) == Calculate(Dashboard.Selected(Consolidation.Consolidated(files, normalise).value, today, searchQuery, filters))
    ensures var m := Calculate(view).value;
      m.totalClasses > 0 ==>
        var u := RoundedTenths((m.totalClasses - m.totalEmptyClasses) * 100, m.totalClasses);
        0 <= u <= 1000 && NumberValue(m.avgUtilization) == Some(Decimal(u, 1))
  {
    var data := Consolidation.Consolidated(files, normalise).value;
    var selected := Dashboard.Selected(data, today, searchQuery, filters);
    CalculatePermutation(view, selected);
    ConsolidatedWithinClasses(files, normalise);
    Dashboard.SelectedRecords(data, today, searchQuery, filters);
    forall r | r in view
      ensures r in data
    {
      assert r in multiset(view);
      assert r in selected;
    }
    WithinClassesDrawn(data, view);
    Utilisation(view);
  }
}
