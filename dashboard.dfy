/**
  What the dashboard shows of the consolidated records: the records whose
  period is not in the future, that match the search box and every filter
  the user set, sorted by the user's sort keys. Each time one of its inputs
  changes the dashboard recomputes that view from the full data.
 */
module Dashboard {
  import opened Wrappers
  import opened Text
  import opened Numbers
  import opened Records

  // ----- Keeping the elements a predicate accepts -----

  /** `xs.filter(keep)` */
  function Filter<T(!new)>(xs: seq<T>, keep: T -> bool): (r: seq<T>)
    ensures |r| <= |xs|
    ensures forall x :: x in r <==> x in xs && keep(x)
    ensures forall x :: multiset(r)[x] == if keep(x) then multiset(xs)[x] else 0
  {
    if xs == [] then []
    else
      var rest := Filter(xs[1..], keep);
      assert xs == [xs[0]] + xs[1..];
      if keep(xs[0]) then [xs[0]] + rest else rest
  }

  /** a is b with some of its elements left out, the others in their order. */
  predicate Subsequence<T(==)>(a: seq<T>, b: seq<T>)
    decreases |b|
  {
    a == [] || (b != [] && ((a[0] == b[0] && Subsequence(a[1..], b[1..])) || Subsequence(a, b[1..])))
  }

  /** A filter keeps the order of what it keeps. */
  lemma {:induction false} FilterSubsequence<T(!new)>(xs: seq<T>, keep: T -> bool)
    ensures Subsequence(Filter(xs, keep), xs)
    decreases |xs|
  {
    if xs != [] {
      FilterSubsequence(xs[1..], keep);
      if keep(xs[0]) {
        assert ([xs[0]] + Filter(xs[1..], keep))[1..] == Filter(xs[1..], keep);
      }
    }
  }

  /** Dropping from a subsequence of b keeps it a subsequence of b. */
  lemma {:induction false} SubsequenceTrans<T>(a: seq<T>, b: seq<T>, c: seq<T>)
    requires Subsequence(a, b) && Subsequence(b, c)
    ensures Subsequence(a, c)
    decreases |c|
  {
    if a != [] && c != [] {
      if b[0] == c[0] && Subsequence(b[1..], c[1..]) {
        if a[0] == b[0] && Subsequence(a[1..], b[1..]) {
          SubsequenceTrans(a[1..], b[1..], c[1..]);
        } else {
          SubsequenceTrans(a, b[1..], c[1..]);
        }
      } else {
        SubsequenceTrans(a, b, c[1..]);
      }
    }
  }

  // ----- Leaving out future periods -----

  const Months: seq<string> := ["Jan", "Feb", "Mar", "Apr", "May", "Jun", "Jul", "Aug", "Sep", "Oct", "Nov", "Dec"]

  /** `xs.indexOf(x)`: the first index holding x, or -1. */
  function IndexOf(xs: seq<string>, x: string): (i: int)
    ensures -1 <= i < |xs|
    ensures i == -1 <==> x !in xs
    ensures 0 <= i ==> xs[i] == x && x !in xs[..i]
  {
    if xs == [] then -1
    else if xs[0] == x then 0
    else
      var j := IndexOf(xs[1..], x);
      assert xs == [xs[0]] + xs[1..];
      if j == -1 then -1
      else
        assert xs[..j + 1] == [xs[0]] + xs[1..][..j];
        j + 1
  }

  /**
    A month of the calendar, its month counted from 0 for January.
    `new Date(year, month)` carries a month outside 0..11 into the year, so
    a month is identified by year * 12 + month.
   */
  datatype YearMonth = YearMonth(year: int, month: int)

  function MonthCount(d: YearMonth): int
  {
    d.year * 12 + d.month
  }

  /**
    The future-period test: a record without a period stays; otherwise
    its `Mon-YY` period is read as the first of that month of 2000 + YY
    and the record stays when that is no later than today. An unknown
    month name makes the month -1, December of the year before; a year
    that does not parse gives an invalid date, which is never <= today.
   */
  predicate PeriodKept(period: string, today: YearMonth)
  {
    if period == "" then true
    else
      var parts := Split(period, '-');
      var year := if |parts| >= 2 then ParseInt(parts[1]) else None;
      match year
      case None => false
      case Some(y) => MonthCount(YearMonth(2000 + y, IndexOf(Months, parts[0]))) <= MonthCount(today)
  }

  lemma MonthsDistinct()
    ensures forall i, j :: 0 <= i < j < |Months| ==> Months[i] != Months[j]
    ensures forall i :: 0 <= i < |Months| ==> '-' !in Months[i]
  {
  }

  /** Every month name is found at its own index. */
  lemma MonthIndex(m: nat)
    requires m < 12
    ensures IndexOf(Months, Months[m]) == m
  {
    MonthsDistinct();
    assert Months[m] in Months;
  }

  /**
    A period `month-year` whose parts have no dash stays exactly when the
    year parses and its month is no later than today's; in particular a
    period with no year after the dash is always dropped.
   */
  lemma PeriodParts(month: string, year: string, today: YearMonth)
    requires '-' !in month && '-' !in year
    ensures PeriodKept(month + "-" + year, today) <==>
      ParseInt(year).Some? && MonthCount(YearMonth(2000 + ParseInt(year).value, IndexOf(Months, month))) <= MonthCount(today)
  {
    PeriodSplit(month, year);
    assert |month + "-" + year| > 0;
  }

  /** A dash between dash-free texts splits them apart. */
  lemma PeriodSplit(month: string, year: string)
    requires '-' !in month && '-' !in year
    ensures Split(month + "-" + year, '-') == [month, year]
  {
    SplitAfter(month, year, '-');
    SplitFree(year, '-');
    assert month + "-" + year == month + ['-'] + year;
  }

  /**
    The year of a period never holds a minus sign, so it is read as at
    least 2000 and the two-digit-year rule of `new Date` never applies.
   */
  lemma PeriodYearFrom2000(period: string)
    ensures var parts := Split(period, '-');
      |parts| >= 2 && ParseInt(parts[1]).Some? ==> 2000 + ParseInt(parts[1]).value >= 2000
  {
    var parts := Split(period, '-');
    SplitPiecesFree(period, '-');
    if |parts| >= 2 {
      ParseIntWithoutMinus(parts[1]);
    }
  }

  /** The two-digit text of a year of the century. */
  function TwoDigits(yy: nat): string
  {
    PadStart(NatToString(yy), 2, '0')
  }

  lemma TwoDigitsParse(yy: nat)
    requires yy < 100
    ensures '-' !in TwoDigits(yy)
    ensures ParseInt(TwoDigits(yy)) == Some(yy)
  {
    var t := TwoDigits(yy);
    NatToStringDigits(yy);
    NatToStringLength(yy, 2);
    PadStartZeros(NatToString(yy), 2);
    assert |t| == 2;
    ParseIntDigits(t);
    forall i | 0 <= i < |t|
      ensures t[i] != '-'
    {
      assert IsRadixDigit(t[i], 10);
    }
  }

  /**
    A period `Mon-YY`, as the consolidation writes it, stays exactly when
    the first of that month of 2000 + YY is no later than today; a record
    without a period always stays.
   */
  lemma PeriodMonYY(m: nat, yy: nat, today: YearMonth)
    requires m < 12 && yy < 100
    ensures PeriodKept(Months[m] + "-" + TwoDigits(yy), today) <==>
      MonthCount(YearMonth(2000 + yy, m)) <= MonthCount(today)
    ensures PeriodKept("", today)
  {
    MonthsDistinct();
    TwoDigitsParse(yy);
    MonthIndex(m);
    PeriodParts(Months[m], TwoDigits(yy), today);
  }

  // ----- The search box -----

  /** Some value, as `String` writes it and lower-cased, includes the query. */
  predicate SomeValueIncludes(vs: seq<Value>, query: string)
  {
    exists i :: 0 <= i < |vs| && Includes(Lower(StringOf(vs[i])), query)
  }

  /** The search test: some value of the record includes the lower-cased query. */
  predicate SearchKept(r: Record, searchQuery: string)
  {
    SomeValueIncludes(Values(r), Lower(searchQuery))
  }

  /**
    A record matches the search exactly when one of its fields, as text and
    lower-cased, includes the lower-cased query; the case of the query does
    not matter.
   */
  lemma SearchFields(r: Record, searchQuery: string)
    ensures SearchKept(r, searchQuery) <==>
      exists f: Field :: Includes(Lower(StringOf(Get(r, f))), Lower(searchQuery))
    ensures SearchKept(r, searchQuery) == SearchKept(r, Lower(searchQuery))
  {
    LowerIdempotent(searchQuery);
    var vs := Values(r);
    if exists f: Field :: Includes(Lower(StringOf(Get(r, f))), Lower(searchQuery)) {
      var f: Field :| Includes(Lower(StringOf(Get(r, f))), Lower(searchQuery));
      FieldsComplete(f);
      var i :| 0 <= i < |Fields| && Fields[i] == f;
      assert Includes(Lower(StringOf(vs[i])), Lower(searchQuery));
    }
    if SearchKept(r, searchQuery) {
      var i :| 0 <= i < |vs| && Includes(Lower(StringOf(vs[i])), Lower(searchQuery));
      assert vs[i] == Get(r, Fields[i]);
    }
  }

  // ----- The filters -----

  /** One filter the user set: a field, an operator name and the value typed. */
  datatype FilterOption = FilterOption(field: Field, operator: string, value: string)

  /** The operators a filter can name; any other name is Unknown. */
  datatype Operator = Contains | Equals | Starts | Ends | Greater | Less | Unknown

  function OperatorOf(name: string): Operator
  {
    if name == "contains" then Contains
    else if name == "equals" then Equals
    else if name == "starts" then Starts
    else if name == "ends" then Ends
    else if name == "greater" then Greater
    else if name == "less" then Less
    else Unknown
  }

  /** a > b, false when either side is NaN. */
  predicate NumberGreater(a: Option<Decimal>, b: Option<Decimal>)
  {
    a.Some? && b.Some? && DecimalGreater(a.value, b.value)
  }

  /**
    Whether a record passes one filter. `in` on the period keeps the record
    when its period is one of the comma-separated values; every other case
    compares the field's text: case-insensitively for `contains`, `equals`,
    `starts` and `ends`, as numbers for `greater` and `less`; any other
    operator, `in` on any other field included, passes every record.
   */
  predicate FilterHolds(r: Record, filter: FilterOption)
  {
    if filter.field == Period && filter.operator == "in" then
      r.period in Split(filter.value, ',')
    else
      var fieldValue := StringOf(Get(r, filter.field));
      match OperatorOf(filter.operator)
      case Contains => Includes(Lower(fieldValue), Lower(filter.value))
      case Equals => Lower(fieldValue) == Lower(filter.value)
      case Starts => StartsWith(Lower(fieldValue), Lower(filter.value))
      case Ends => EndsWith(Lower(fieldValue), Lower(filter.value))
      case Greater => NumberGreater(NumberValue(fieldValue), NumberValue(filter.value))
      case Less => NumberGreater(NumberValue(filter.value), NumberValue(fieldValue))
      case Unknown => true
  }

  /** `filters.every(...)` */
  predicate AllFiltersHold(r: Record, filters: seq<FilterOption>)
  {
    forall i :: 0 <= i < |filters| ==> FilterHolds(r, filters[i])
  }

  lemma OperatorNames()
    ensures OperatorOf("greater") == Greater && OperatorOf("less") == Less
    ensures "greater" != "in" && "less" != "in"
  {
  }

  /** A period filter built from a list of periods keeps exactly the records whose period is listed. */
  lemma PeriodInList(r: Record, periods: seq<string>)
    requires |periods| >= 1
    requires forall i :: 0 <= i < |periods| ==> ',' !in periods[i]
    ensures FilterHolds(r, FilterOption(Period, "in", Join(periods, ","))) <==> r.period in periods
  {
    SplitJoin(periods, ',');
  }

  /** The text operators ignore the case of the value typed. */
  lemma TextFilterIgnoresCase(r: Record, filter: FilterOption)
    requires OperatorOf(filter.operator) in {Contains, Equals, Starts, Ends}
    ensures FilterHolds(r, filter) == FilterHolds(r, filter.(value := Lower(filter.value)))
  {
    LowerIdempotent(filter.value);
  }

  /**
    On a numeric field compared with the text of a whole number, `greater`
    and `less` are the comparisons of the two numbers.
   */
  lemma NumericFilter(r: Record, field: Field, m: int)
    requires Get(r, field).Num?
    ensures FilterHolds(r, FilterOption(field, "greater", IntToString(m))) <==> Get(r, field).n > m
    ensures FilterHolds(r, FilterOption(field, "less", IntToString(m))) <==> Get(r, field).n < m
  {
    var n := Get(r, field).n;
    NumberOfString(m);
    NumberOfString(n);
    GreaterHolds(r, field, IntToString(m));
    LessHolds(r, field, IntToString(m));
    assert Pow10(0) == 1;
  }

  lemma GreaterHolds(r: Record, field: Field, value: string)
    ensures FilterHolds(r, FilterOption(field, "greater", value)) <==>
      NumberGreater(NumberValue(StringOf(Get(r, field))), NumberValue(value))
  {
    OperatorNames();
  }

  lemma LessHolds(r: Record, field: Field, value: string)
    ensures FilterHolds(r, FilterOption(field, "less", value)) <==>
      NumberGreater(NumberValue(value), NumberValue(StringOf(Get(r, field))))
  {
    OperatorNames();
  }

  /** No record is both greater and less than the same value. */
  lemma GreaterLessExclusive(r: Record, field: Field, value: string)
    ensures !(FilterHolds(r, FilterOption(field, "greater", value)) && FilterHolds(r, FilterOption(field, "less", value)))
  {
    OperatorNames();
  }

  // ----- The sort -----

  datatype Direction = Asc | Desc

  /** One sort key the user set. */
  datatype SortOption = SortOption(field: Field, direction: Direction)

  /** The sign of `s.localeCompare(t)`, taken as the order of the characters' code points. */
  function LexCompare(s: string, t: string): (c: int)
    ensures -1 <= c <= 1
  {
    if s == [] && t == [] then 0
    else if s == [] then -1
    else if t == [] then 1
    else if s[0] < t[0] then -1
    else if s[0] > t[0] then 1
    else LexCompare(s[1..], t[1..])
  }

  lemma {:induction false} LexCompareAntisymmetric(s: string, t: string)
    ensures LexCompare(s, t) == -LexCompare(t, s)
    ensures LexCompare(s, t) == 0 <==> s == t
    decreases |s|
  {
    if s != [] && t != [] && s[0] == t[0] {
      LexCompareAntisymmetric(s[1..], t[1..]);
      assert s == [s[0]] + s[1..] && t == [t[0]] + t[1..];
    }
  }

  /** A comparison of the values of one key; only its sign matters. */
  type KeyOrder = (Value, Value) -> int

  /** Swapping the values turns the comparison round. */
  ghost predicate Antisymmetric(keyCompare: KeyOrder)
  {
    forall x, y :: keyCompare(x, y) == -keyCompare(y, x)
  }

  /**
    The sign of `comparison` for one key: `Number(a) - Number(b)` when both
    values are numbers, otherwise the text order.
   */
  function KeyCompare(a: Value, b: Value): (c: int)
    ensures -1 <= c <= 1
  {
    NumericOrText(NumberOf(a), NumberOf(b), StringOf(a), StringOf(b))
  }

  /** Compare as numbers when both are numbers, otherwise as texts. */
  function NumericOrText(x: Option<Decimal>, y: Option<Decimal>, s: string, t: string): (c: int)
    ensures -1 <= c <= 1
  {
    if x.Some? && y.Some? then DecimalCompare(x.value, y.value) else LexCompare(s, t)
  }

  lemma NumericOrTextAntisymmetric(x: Option<Decimal>, y: Option<Decimal>, s: string, t: string)
    ensures NumericOrText(x, y, s, t) == -NumericOrText(y, x, t, s)
  {
    LexCompareAntisymmetric(s, t);
  }

  /** The comparison of one key of the dashboard is antisymmetric. */
  lemma KeyCompareAntisymmetric()
    ensures Antisymmetric(KeyCompare)
  {
    forall a: Value, b: Value
      ensures KeyCompare(a, b) == -KeyCompare(b, a)
    {
      NumericOrTextAntisymmetric(NumberOf(a), NumberOf(b), StringOf(a), StringOf(b));
    }
  }

  /** The comparison of one key, turned round for a descending key. */
  function Directed(c: int, direction: Direction): int
  {
    if direction == Asc then c else -c
  }

  /** The comparator: the first key on which the records differ decides; 0 when they agree on all. */
  function Comparison(a: Record, b: Record, sorts: seq<SortOption>, keyCompare: KeyOrder): int
  {
    if sorts == [] then 0
    else
      var c := keyCompare(Get(a, sorts[0].field), Get(b, sorts[0].field));
      if c != 0 then Directed(c, sorts[0].direction) else Comparison(a, b, sorts[1..], keyCompare)
  }

  /** Swapping the records turns the comparison round; a record ties with itself. */
  lemma {:induction false} ComparisonAntisymmetric(a: Record, b: Record, sorts: seq<SortOption>, keyCompare: KeyOrder)
    requires Antisymmetric(keyCompare)
    ensures Comparison(a, b, sorts, keyCompare) == -Comparison(b, a, sorts, keyCompare)
    ensures Comparison(a, a, sorts, keyCompare) == 0
    decreases |sorts|
  {
    if sorts != [] {
      var f := sorts[0].field;
      assert keyCompare(Get(a, f), Get(b, f)) == -keyCompare(Get(b, f), Get(a, f));
      assert keyCompare(Get(a, f), Get(a, f)) == -keyCompare(Get(a, f), Get(a, f));
      ComparisonAntisymmetric(a, b, sorts[1..], keyCompare);
    }
  }

  /** The comparison of key k of the records. */
  function KeyAt(a: Record, b: Record, sorts: seq<SortOption>, keyCompare: KeyOrder, k: nat): int
    requires k < |sorts|
  {
    keyCompare(Get(a, sorts[k].field), Get(b, sorts[k].field))
  }

  /**
    The comparison is 0 exactly when the records tie on every key, and
    otherwise it is the directed comparison of the first key on which they
    differ. With no sort keys every pair ties.
   */
  lemma {:induction false} ComparisonFirstKey(a: Record, b: Record, sorts: seq<SortOption>, keyCompare: KeyOrder)
    ensures Comparison(a, b, sorts, keyCompare) == 0 <==>
      forall k :: 0 <= k < |sorts| ==> KeyAt(a, b, sorts, keyCompare, k) == 0
    ensures Comparison(a, b, sorts, keyCompare) != 0 ==>
      exists k :: 0 <= k < |sorts| &&
        (forall j :: 0 <= j < k ==> KeyAt(a, b, sorts, keyCompare, j) == 0) &&
        Comparison(a, b, sorts, keyCompare) == Directed(KeyAt(a, b, sorts, keyCompare, k), sorts[k].direction)
    decreases |sorts|
  {
    if sorts != [] {
      var rest := sorts[1..];
      ComparisonFirstKey(a, b, rest, keyCompare);
      forall k | 0 <= k < |rest|
        ensures KeyAt(a, b, rest, keyCompare, k) == KeyAt(a, b, sorts, keyCompare, k + 1)
      {
        assert rest[k] == sorts[k + 1];
      }
      if KeyAt(a, b, sorts, keyCompare, 0) == 0 {
        if Comparison(a, b, sorts, keyCompare) != 0 {
          var k :| 0 <= k < |rest| &&
            (forall j :: 0 <= j < k ==> KeyAt(a, b, rest, keyCompare, j) == 0) &&
            Comparison(a, b, rest, keyCompare) == Directed(KeyAt(a, b, rest, keyCompare, k), rest[k].direction);
          forall j | 0 <= j < k + 1
            ensures KeyAt(a, b, sorts, keyCompare, j) == 0
          {
            if j > 0 {
              assert KeyAt(a, b, rest, keyCompare, j - 1) == 0;
            }
          }
          assert rest[k] == sorts[k + 1];
        } else {
          forall k | 0 <= k < |sorts|
            ensures KeyAt(a, b, sorts, keyCompare, k) == 0
          {
            if k > 0 {
              assert KeyAt(a, b, rest, keyCompare, k - 1) == 0;
            }
          }
        }
      } else {
        assert Comparison(a, b, sorts, keyCompare) == Directed(KeyAt(a, b, sorts, keyCompare, 0), sorts[0].direction);
      }
    }
  }

  /** The comparator callback: for each sort key in turn, return its directed comparison once it is not 0. */
  method Compare(a: Record, b: Record, sorts: seq<SortOption>, keyCompare: KeyOrder) returns (comparison: int)
    ensures comparison == Comparison(a, b, sorts, keyCompare)
  {
    var i := 0;
    while i < |sorts|
      invariant 0 <= i <= |sorts|
      invariant Comparison(a, b, sorts, keyCompare) == Comparison(a, b, sorts[i..], keyCompare)
    {
      var sort := sorts[i];
      var valueA, valueB := Get(a, sort.field), Get(b, sort.field);
      var c := keyCompare(valueA, valueB);
      assert sorts[i..][0] == sort && sorts[i..][1..] == sorts[i + 1..];
      if c != 0 {
        return if sort.direction == Asc then c else -c;
      }
      i := i + 1;
    }
    return 0;
  }

  /** Each record is no greater than the next. */
  predicate AdjacentOrdered(s: seq<Record>, sorts: seq<SortOption>, keyCompare: KeyOrder)
  {
    forall i :: 0 < i < |s| ==> Comparison(s[i - 1], s[i], sorts, keyCompare) <= 0
  }

  /** The comparator is transitive on the records of s. */
  predicate TransitiveOn(s: seq<Record>, sorts: seq<SortOption>, keyCompare: KeyOrder)
  {
    forall i, j, k ::
      (0 <= i < |s| && 0 <= j < |s| && 0 <= k < |s| &&
       Comparison(s[i], s[j], sorts, keyCompare) <= 0 && Comparison(s[j], s[k], sorts, keyCompare) <= 0) ==>
      Comparison(s[i], s[k], sorts, keyCompare) <= 0
  }

  lemma {:induction false} AdjacentOrderedFrom(s: seq<Record>, sorts: seq<SortOption>, keyCompare: KeyOrder, i: nat, j: nat)
    requires AdjacentOrdered(s, sorts, keyCompare) && TransitiveOn(s, sorts, keyCompare)
    requires i < j < |s|
    ensures Comparison(s[i], s[j], sorts, keyCompare) <= 0
    decreases j - i
  {
    if i + 1 < j {
      AdjacentOrderedFrom(s, sorts, keyCompare, i, j - 1);
      assert Comparison(s[j - 1], s[j], sorts, keyCompare) <= 0;
    }
  }

  /** Where the comparator is transitive, each record is no greater than every later one. */
  lemma AdjacentOrderedSorted(s: seq<Record>, sorts: seq<SortOption>, keyCompare: KeyOrder)
    requires AdjacentOrdered(s, sorts, keyCompare) && TransitiveOn(s, sorts, keyCompare)
    ensures forall i, j :: 0 <= i < j < |s| ==> Comparison(s[i], s[j], sorts, keyCompare) <= 0
  {
    forall i, j | 0 <= i < j < |s|
      ensures Comparison(s[i], s[j], sorts, keyCompare) <= 0
    {
      AdjacentOrderedFrom(s, sorts, keyCompare, i, j);
    }
  }

  /**
    The dashboard's comparator is not transitive when a sort field mixes
    numbers and other text: as class times "9" < "10" by number, "10" <
    "5a" and "5a" < "9" by text.
   */
  lemma ComparisonNotTransitive(r: Record)
    ensures var sorts := [SortOption(ClassTime, Asc)];
      var a, b, c := r.(classTime := "9"), r.(classTime := "10"), r.(classTime := "5a");
      Comparison(a, b, sorts, KeyCompare) < 0 && Comparison(b, c, sorts, KeyCompare) < 0 &&
      Comparison(c, a, sorts, KeyCompare) < 0
  {
    var sort := SortOption(ClassTime, Asc);
    var a, b, c := r.(classTime := "9"), r.(classTime := "10"), r.(classTime := "5a");
    assert Get(a, ClassTime) == Text("9") && Get(b, ClassTime) == Text("10") && Get(c, ClassTime) == Text("5a");
    ClassTimeKeys();
    OneKey(a, b, sort, KeyCompare);
    OneKey(b, c, sort, KeyCompare);
    OneKey(c, a, sort, KeyCompare);
  }

  /** With one sort key the comparison is that key's directed comparison. */
  lemma OneKey(a: Record, b: Record, sort: SortOption, keyCompare: KeyOrder)
    ensures Comparison(a, b, [sort], keyCompare) == Directed(keyCompare(Get(a, sort.field), Get(b, sort.field)), sort.direction)
  {
    assert [sort][1..] == [];
  }

  lemma ClassTimeKeys()
    ensures KeyCompare(Text("9"), Text("10")) == -1
    ensures KeyCompare(Text("10"), Text("5a")) == -1
    ensures KeyCompare(Text("5a"), Text("9")) == -1
  {
    ClassTimeNumbers();
    ClassTimeTexts();
    TextKey("9", "10");
    TextKey("10", "5a");
    TextKey("5a", "9");
  }

  lemma TextKey(x: string, y: string)
    ensures KeyCompare(Text(x), Text(y)) ==
      if NumberValue(x).Some? && NumberValue(y).Some? then DecimalCompare(NumberValue(x).value, NumberValue(y).value)
      else LexCompare(x, y)
  {
  }

  lemma ClassTimeNumbers()
    ensures NumberValue("9") == Some(Decimal(9, 0)) && NumberValue("10") == Some(Decimal(10, 0))
    ensures NumberValue("5a") == None
  {
    NineText();
    TenText();
    NotANumberText();
  }

  lemma NineText()
    ensures NumberValue("9") == Some(Decimal(9, 0))
  {
    WholeNumberText("9");
    assert DigitsValue("9", 10) == 9;
  }

  lemma TenText()
    ensures NumberValue("10") == Some(Decimal(10, 0))
  {
    WholeNumberText("10");
    assert "10"[..1] == "1";
    assert DigitsValue("10", 10) == 10;
  }

  lemma WholeNumberText(w: string)
    requires |w| >= 1 && AllDigits(w, 10)
    ensures NumberValue(w) == Some(Decimal(DigitsValue(w, 10), 0))
  {
    assert IsRadixDigit(w[0], 10) && IsRadixDigit(w[|w| - 1], 10);
    UnsignedDecimalWhole(w);
    NumberValueUnsigned(w, Decimal(DigitsValue(w, 10), 0));
  }

  lemma NotANumberText()
    ensures NumberValue("5a") == None
  {
    TrimStartKeeps("5a");
    TrimEndKeeps("5a");
    assert "5a"[..1] == "5";
    DigitRunSplit("5a", 1);
  }

  lemma ClassTimeTexts()
    ensures LexCompare("10", "5a") == -1 && LexCompare("5a", "9") == -1
  {
  }

  /**
    `result.sort(comparator)`, as an insertion sort: each record moves left
    past the records that compare greater than it. The result is a
    permutation in which each record is no greater than the next.
   */
  method SortRecords(a: array<Record>, sorts: seq<SortOption>, keyCompare: KeyOrder)
    requires Antisymmetric(keyCompare)
    modifies a
    ensures multiset(a[..]) == multiset(old(a[..]))
    ensures AdjacentOrdered(a[..], sorts, keyCompare)
  {
    if a.Length == 0 {
      return;
    }
    var i := 1;
    while i < a.Length
      invariant 1 <= i <= a.Length
      invariant multiset(a[..]) == multiset(old(a[..]))
      invariant AdjacentOrdered(a[..i], sorts, keyCompare)
    {
      Insert(a, i, sorts, keyCompare);
      i := i + 1;
    }
    assert a[..a.Length] == a[..];
  }

  /**
    While a[i] moves left, it stands at j: the pairs around it are not yet
    known to be ordered, every other pair of s[..i + 1] is, it is less than
    the record just passed, and the records on either side of it are ordered.
   */
  predicate Inserting(s: seq<Record>, i: nat, j: nat, sorts: seq<SortOption>, keyCompare: KeyOrder)
  {
    j <= i < |s| &&
    (forall k :: 0 < k <= i && k != j && k != j + 1 ==> Comparison(s[k - 1], s[k], sorts, keyCompare) <= 0) &&
    (j < i ==> Comparison(s[j], s[j + 1], sorts, keyCompare) < 0) &&
    (0 < j < i ==> Comparison(s[j - 1], s[j + 1], sorts, keyCompare) <= 0)
  }

  lemma InsertingStart(s: seq<Record>, i: nat, sorts: seq<SortOption>, keyCompare: KeyOrder)
    requires i < |s| && AdjacentOrdered(s[..i], sorts, keyCompare)
    ensures Inserting(s, i, i, sorts, keyCompare)
  {
    forall k | 0 < k < i
      ensures Comparison(s[k - 1], s[k], sorts, keyCompare) <= 0
    {
      assert s[k - 1] == s[..i][k - 1] && s[k] == s[..i][k];
    }
  }

  lemma InsertingSwap(s: seq<Record>, t: seq<Record>, i: nat, j: nat, sorts: seq<SortOption>, keyCompare: KeyOrder)
    requires Antisymmetric(keyCompare)
    requires Inserting(s, i, j, sorts, keyCompare) && 0 < j && Comparison(s[j - 1], s[j], sorts, keyCompare) > 0
    requires t == s[j - 1 := s[j]][j := s[j - 1]]
    ensures Inserting(t, i, j - 1, sorts, keyCompare)
  {
    ComparisonAntisymmetric(s[j - 1], s[j], sorts, keyCompare);
    forall k | 0 < k <= i && k != j - 1 && k != j
      ensures Comparison(t[k - 1], t[k], sorts, keyCompare) <= 0
    {
      if k == j + 1 {
        assert t[k - 1] == s[j - 1] && t[k] == s[j + 1];
      } else {
        assert t[k - 1] == s[k - 1] && t[k] == s[k];
      }
    }
    if 0 < j - 1 {
      assert t[j - 2] == s[j - 2] && t[j] == s[j - 1];
      assert Comparison(s[j - 2], s[j - 1], sorts, keyCompare) <= 0;
    }
  }

  lemma InsertingDone(s: seq<Record>, i: nat, j: nat, sorts: seq<SortOption>, keyCompare: KeyOrder)
    requires Inserting(s, i, j, sorts, keyCompare) && (j == 0 || Comparison(s[j - 1], s[j], sorts, keyCompare) <= 0)
    ensures AdjacentOrdered(s[..i + 1], sorts, keyCompare)
  {
    forall k | 0 < k <= i
      ensures Comparison(s[k - 1], s[k], sorts, keyCompare) <= 0
    {
      if k == j {
        assert Comparison(s[j - 1], s[j], sorts, keyCompare) <= 0;
      } else if k == j + 1 {
        assert Comparison(s[j], s[j + 1], sorts, keyCompare) < 0;
      }
    }
  }

  /** The record moving left passes the greater record before it. */
  method SwapDown(a: array<Record>, i: nat, j: nat, sorts: seq<SortOption>, keyCompare: KeyOrder)
    requires Antisymmetric(keyCompare)
    requires Inserting(a[..], i, j, sorts, keyCompare) && 0 < j && Comparison(a[j - 1], a[j], sorts, keyCompare) > 0
    modifies a
    ensures a[..] == old(a[..])[j - 1 := old(a[j])][j := old(a[j - 1])]
    ensures multiset(a[..]) == multiset(old(a[..]))
    ensures Inserting(a[..], i, j - 1, sorts, keyCompare)
  {
    InsertingSwap(a[..], a[..][j - 1 := a[j]][j := a[j - 1]], i, j, sorts, keyCompare);
    a[j - 1], a[j] := a[j], a[j - 1];
  }

  /** One step of the insertion sort: a[i] moves left into the ordered a[..i]. */
  method Insert(a: array<Record>, i: nat, sorts: seq<SortOption>, keyCompare: KeyOrder)
    requires Antisymmetric(keyCompare)
    requires i < a.Length
    requires AdjacentOrdered(a[..i], sorts, keyCompare)
    modifies a
    ensures multiset(a[..]) == multiset(old(a[..]))
    ensures AdjacentOrdered(a[..i + 1], sorts, keyCompare)
    ensures a[i + 1..] == old(a[i + 1..])
  {
    InsertingStart(a[..], i, sorts, keyCompare);
    var j := i;
    while j > 0
      invariant 0 <= j <= i
      invariant multiset(a[..]) == multiset(old(a[..]))
      invariant a[i + 1..] == old(a[i + 1..])
      invariant Inserting(a[..], i, j, sorts, keyCompare)
    {
      var c := Compare(a[j - 1], a[j], sorts, keyCompare);
      if c <= 0 {
        break;
      }
      SwapDown(a, i, j, sorts, keyCompare);
      j := j - 1;
    }
    InsertingDone(a[..], i, j, sorts, keyCompare);
  }

  // ----- The whole view -----

  /** The records the view keeps, in the order of the data: the three filters one after the other. */
  function Selected(data: seq<Record>, today: YearMonth, searchQuery: string, filters: seq<FilterOption>): seq<Record>
  {
    var current := Filter(data, (r: Record) => PeriodKept(r.period, today));
    var searched := if searchQuery != "" then Filter(current, (r: Record) => SearchKept(r, searchQuery)) else current;
    if |filters| > 0 then Filter(searched, (r: Record) => AllFiltersHold(r, filters)) else searched
  }

  /**
    The view's records keep the order of the data, and a record is among
    them exactly when its period is not in the future, it matches a
    non-empty search and it passes every filter.
   */
  lemma SelectedRecords(data: seq<Record>, today: YearMonth, searchQuery: string, filters: seq<FilterOption>)
    ensures Subsequence(Selected(data, today, searchQuery, filters), data)
    ensures forall r :: r in Selected(data, today, searchQuery, filters) <==>
      r in data && PeriodKept(r.period, today) && (searchQuery == "" || SearchKept(r, searchQuery)) && AllFiltersHold(r, filters)
  {
    var current := Filter(data, (r: Record) => PeriodKept(r.period, today));
    var searched := if searchQuery != "" then Filter(current, (r: Record) => SearchKept(r, searchQuery)) else current;
    FilterSubsequence(data, (r: Record) => PeriodKept(r.period, today));
    if searchQuery != "" {
      FilterSubsequence(current, (r: Record) => SearchKept(r, searchQuery));
      SubsequenceTrans(searched, current, data);
    }
    if |filters| > 0 {
      FilterSubsequence(searched, (r: Record) => AllFiltersHold(r, filters));
      SubsequenceTrans(Selected(data, today, searchQuery, filters), searched, data);
    }
  }

  /**
    The effect that recomputes the view. With no data it leaves the view as
    it was (None); otherwise the view holds the selected records, sorted
    when there are sort keys and in the order of the data when there are
    none.
   */
  method UpdateView(data: seq<Record>, today: YearMonth, searchQuery: string, filters: seq<FilterOption>, sortOptions: seq<SortOption>)
    returns (filteredData: Option<seq<Record>>)
    ensures filteredData.None? <==> data == []
    ensures filteredData.Some? ==>
      multiset(filteredData.value) == multiset(Selected(data, today, searchQuery, filters)) &&
      AdjacentOrdered(filteredData.value, sortOptions, KeyCompare)
    ensures filteredData.Some? && sortOptions == [] ==> filteredData.value == Selected(data, today, searchQuery, filters)
  {
    if |data| == 0 {
      return None;
    }
    var result := Filter(data, (r: Record) => PeriodKept(r.period, today));
    if searchQuery != "" {
      result := Filter(result, (r: Record) => SearchKept(r, searchQuery));
    }
    if |filters| > 0 {
      result := Filter(result, (r: Record) => AllFiltersHold(r, filters));
    }
    assert result == Selected(data, today, searchQuery, filters);
    result := SortView(result, sortOptions);
    return Some(result);
  }

  /** `if (sortOptions.length > 0) result.sort(...)`: a copy of the view sorted in place by the comparator. */
  method SortView(view: seq<Record>, sortOptions: seq<SortOption>) returns (sorted: seq<Record>)
    ensures multiset(sorted) == multiset(view)
    ensures AdjacentOrdered(sorted, sortOptions, KeyCompare)
    ensures sortOptions == [] ==> sorted == view
  {
    if |sortOptions| > 0 {
      var a := new Record[|view|](i requires 0 <= i < |view| => view[i]);
      assert a[..] == view;
      KeyCompareAntisymmetric();
      SortRecords(a, sortOptions, KeyCompare);
      sorted := a[..];
    } else {
      sorted := view;
      assert AdjacentOrdered(sorted, sortOptions, KeyCompare);
    }
  }
}
