/**
  The consolidated record (`ProcessedData`) as `consolidateCSVData` builds
  it, its fields in the order the record literal lists them, and the two
  JavaScript conversions the dashboard applies to a field's value:
  `String(value)` and `Number(value)`.
 */
module Records {
  import opened Wrappers
  import opened Numbers

  /**
    One consolidated class slot. `location` is None when the CSV had no
    Location column: JavaScript then stores `undefined` there.
   */
  datatype Record = Record(
    uniqueID: string,
    cleanedClass: string,
    dayOfWeek: string,
    classTime: string,
    location: Option<string>,
    teacherName: string,
    period: string,
    totalOccurrences: int,
    totalCancelled: int,
    totalCheckins: int,
    totalEmpty: int,
    totalNonEmpty: int,
    classAverageIncludingEmpty: string,
    classAverageExcludingEmpty: string,
    totalRevenue: int,
    totalTime: string,
    totalNonPaid: int,
    date: string,
    attendance: int)

  /** The record's fields, by name. */
  datatype Field =
    | UniqueID | CleanedClass | DayOfWeek | ClassTime | Location | TeacherName | Period
    | TotalOccurrences | TotalCancelled | TotalCheckins | TotalEmpty | TotalNonEmpty
    | ClassAverageIncludingEmpty | ClassAverageExcludingEmpty | TotalRevenue | TotalTime
    | TotalNonPaid | Date | Attendance

  /** The fields in the order the record literal creates them, which is the order of `Object.values`. */
  const Fields: seq<Field> := [
    UniqueID, CleanedClass, DayOfWeek, ClassTime, Location, TeacherName, Period,
    TotalOccurrences, TotalCancelled, TotalCheckins, TotalEmpty, TotalNonEmpty,
    ClassAverageIncludingEmpty, ClassAverageExcludingEmpty, TotalRevenue, TotalTime,
    TotalNonPaid, Date, Attendance]

  /** A JavaScript value held by a record field. */
  datatype Value = Text(s: string) | Num(n: int) | Undefined

  /** `record[field]` */
  function Get(r: Record, f: Field): Value
  {
    match f
    case UniqueID => Text(r.uniqueID)
    case CleanedClass => Text(r.cleanedClass)
    case DayOfWeek => Text(r.dayOfWeek)
    case ClassTime => Text(r.classTime)
    case Location => if r.location.Some? then Text(r.location.value) else Undefined
    case TeacherName => Text(r.teacherName)
    case Period => Text(r.period)
    case TotalOccurrences => Num(r.totalOccurrences)
    case TotalCancelled => Num(r.totalCancelled)
    case TotalCheckins => Num(r.totalCheckins)
    case TotalEmpty => Num(r.totalEmpty)
    case TotalNonEmpty => Num(r.totalNonEmpty)
    case ClassAverageIncludingEmpty => Text(r.classAverageIncludingEmpty)
    case ClassAverageExcludingEmpty => Text(r.classAverageExcludingEmpty)
    case TotalRevenue => Num(r.totalRevenue)
    case TotalTime => Text(r.totalTime)
    case TotalNonPaid => Num(r.totalNonPaid)
    case Date => Text(r.date)
    case Attendance => Num(r.attendance)
  }

  /** `String(value)`; also what a template literal writes for the value. */
  function StringOf(v: Value): string
  {
    match v
    case Text(s) => s
    case Num(n) => IntToString(n)
    case Undefined => "undefined"
  }

  /** `Number(value)`; None stands for NaN. */
  function NumberOf(v: Value): Option<Decimal>
  {
    match v
    case Text(s) => NumberValue(s)
    case Num(n) => Some(Decimal(n, 0))
    case Undefined => None
  }

  /** `Object.values(record)` */
  function Values(r: Record): (vs: seq<Value>)
    ensures |vs| == |Fields|
    ensures forall i :: 0 <= i < |Fields| ==> vs[i] == Get(r, Fields[i])
  {
    seq(|Fields|, i requires 0 <= i < |Fields| => Get(r, Fields[i]))
  }

  /** Every field is among the values, so a search can find any of them. */
  lemma FieldsComplete(f: Field)
    ensures f in Fields
  {
  }

  /**
    The values of a record are exactly the values of its fields: each
    field's value is listed, and nothing else is.
   */
  lemma ValuesAreFields(r: Record, v: Value)
    ensures v in Values(r) <==> exists f: Field :: v == Get(r, f)
  {
    if v in Values(r) {
      var i :| 0 <= i < |Values(r)| && Values(r)[i] == v;
      assert v == Get(r, Fields[i]);
    }
    if f: Field :| v == Get(r, f) {
      FieldsComplete(f);
      var i :| 0 <= i < |Fields| && Fields[i] == f;
      assert Values(r)[i] == v;
    }
  }

  /** Number reads back the String of every number a field holds. */
  lemma NumberOfStringOfNum(n: int)
    ensures NumberOf(Text(StringOf(Num(n)))) == NumberOf(Num(n))
  {
    NumberOfString(n);
  }
}
