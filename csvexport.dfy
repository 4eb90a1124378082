/**
  The text `exportToCSV` builds: a header line naming the columns, then one
  comma-joined line per record with the record's fields in the same order,
  each line ending in a newline.
 */
module CsvExport {
  import opened Text
  import opened Records

  /** A column of the export: its header name and the field it shows. */
  datatype Column = Column(name: string, field: Field)

  /** The columns in header order. */
  const Columns: seq<Column> := [
    Column("Unique ID", UniqueID),
    Column("Cleaned Class", CleanedClass),
    Column("Day of the Week", DayOfWeek),
    Column("Class Time", ClassTime),
    Column("Location", Location),
    Column("Trainer Name", TeacherName),
    Column("Period", Period),
    Column("Total Occurrences", TotalOccurrences),
    Column("Total Cancelled", TotalCancelled),
    Column("Total Checkins", TotalCheckins),
    Column("Total Empty", TotalEmpty),
    Column("Total Non-Empty", TotalNonEmpty),
    Column("Class Average (Including Empty)", ClassAverageIncludingEmpty),
    Column("Class Average (Excluding Empty)", ClassAverageExcludingEmpty),
    Column("Total Revenue", TotalRevenue),
    Column("Total Time", TotalTime),
    Column("Total Non-Paid", TotalNonPaid),
    Column("Date", Date)
  ]

  function ColumnNames(): (names: seq<string>)
    ensures |names| == |Columns|
    ensures forall i :: 0 <= i < |Columns| ==> names[i] == Columns[i].name
  {
    seq(|Columns|, i requires 0 <= i < |Columns| => Columns[i].name)
  }

  /** The header line, without its newline. */
  function Header(): string
  {
    Join(ColumnNames(), ",")
  }

  /** What the template writes for each column of a record, in header order. */
  function LineFields(r: Record): (vs: seq<string>)
    ensures |vs| == |Columns|
    ensures forall i :: 0 <= i < |Columns| ==> vs[i] == StringOf(Get(r, Columns[i].field))
  {
    seq(|Columns|, i requires 0 <= i < |Columns| => StringOf(Get(r, Columns[i].field)))
  }

  /** The line of one record, without its newline. */
  function Line(r: Record): string
  {
    Join(LineFields(r), ",")
  }

  function Lines(data: seq<Record>): (ls: seq<string>)
    ensures |ls| == |data|
    ensures forall i :: 0 <= i < |data| ==> ls[i] == Line(data[i])
  {
    seq(|data|, i requires 0 <= i < |data| => Line(data[i]))
  }

  /**
    The whole file: the header and every record's line, each followed by a
    newline. Whatever the fields hold, its first line is the header.
   */
  function CsvText(data: seq<Record>): (csv: string)
    ensures Split(csv, '\n')[0] == Header()
  {
    HeaderColumns();
    var ls := [Header()] + Lines(data);
    assert ls[1..] == Lines(data);
    SplitAfter(Header(), Terminated(Lines(data), '\n'), '\n');
    Terminated(ls, '\n')
  }

  /** The `csvContent` accumulation of `exportToCSV`. */
  method BuildCsv(data: seq<Record>) returns (csvContent: string)
    ensures csvContent == CsvText(data)
  {
    csvContent := Header() + "\n";
    assert Terminated([Header()], '\n') == Header() + "\n";
    assert Lines(data[..0]) == [];
    var i := 0;
    while i < |data|
      invariant 0 <= i <= |data|
      invariant csvContent == Terminated([Header()] + Lines(data[..i]), '\n')
    {
      TerminatedNextLine(Header(), data, i);
      csvContent := csvContent + Line(data[i]) + "\n";
      i := i + 1;
    }
    assert data[..|data|] == data;
  }

  /** One more record adds its line and a newline. */
  lemma TerminatedNextLine(header: string, data: seq<Record>, i: nat)
    requires i < |data|
    ensures Terminated([header] + Lines(data[..i + 1]), '\n') ==
      Terminated([header] + Lines(data[..i]), '\n') + Line(data[i]) + "\n"
  {
    TerminatedSnoc([header] + Lines(data[..i]), Line(data[i]), '\n');
    assert [header] + Lines(data[..i + 1]) == [header] + Lines(data[..i]) + [Line(data[i])];
  }

  /** The text of a value has no comma and no newline. */
  predicate Plain(s: string)
  {
    forall i :: 0 <= i < |s| ==> s[i] != ',' && s[i] != '\n'
  }

  lemma PlainHasNeither(s: string)
    requires Plain(s)
    ensures ',' !in s && '\n' !in s
  {
  }

  /** No column name holds a comma or a newline. */
  lemma ColumnNamesPlain()
    ensures forall i :: 0 <= i < |Columns| ==> Plain(Columns[i].name)
  {
    ColumnNamesPlainFrom0();
    ColumnNamesPlainFrom3();
    ColumnNamesPlainFrom6();
    ColumnNamesPlainFrom9();
    ColumnNamesPlainFrom12();
    ColumnNamesPlainFrom15();
  }

  lemma ColumnNamesPlainFrom0()
    ensures Plain(Columns[0].name) && Plain(Columns[1].name) && Plain(Columns[2].name)
  {
  }

  lemma ColumnNamesPlainFrom3()
    ensures Plain(Columns[3].name) && Plain(Columns[4].name) && Plain(Columns[5].name)
  {
  }

  lemma ColumnNamesPlainFrom6()
    ensures Plain(Columns[6].name) && Plain(Columns[7].name) && Plain(Columns[8].name)
  {
  }

  lemma ColumnNamesPlainFrom9()
    ensures Plain(Columns[9].name) && Plain(Columns[10].name) && Plain(Columns[11].name)
  {
  }

  lemma ColumnNamesPlainFrom12()
    ensures Plain(Columns[12].name) && Plain(Columns[13].name) && Plain(Columns[14].name)
  {
  }

  lemma ColumnNamesPlainFrom15()
    ensures Plain(Columns[15].name) && Plain(Columns[16].name) && Plain(Columns[17].name)
  {
  }

  /** Splitting the header at its commas gives the column names, in order. */
  lemma HeaderColumns()
    ensures Split(Header(), ',') == ColumnNames()
    ensures '\n' !in Header()
  {
    ColumnNamesPlain();
    forall i | 0 <= i < |ColumnNames()|
      ensures ',' !in ColumnNames()[i] && '\n' !in ColumnNames()[i]
    {
      PlainHasNeither(ColumnNames()[i]);
    }
    SplitJoin(ColumnNames(), ',');
    JoinFree(ColumnNames(), ",", '\n');
  }

  /**
    When no field of the record holds a comma, splitting its line at the
    commas gives the fields in header order: column i of the line is the
    record's value of the field named by header column i.
   */
  lemma LineColumns(r: Record)
    requires forall i :: 0 <= i < |Columns| ==> Plain(StringOf(Get(r, Columns[i].field)))
    ensures Split(Line(r), ',') == LineFields(r)
    ensures '\n' !in Line(r)
  {
    forall i | 0 <= i < |Columns|
      ensures ',' !in LineFields(r)[i] && '\n' !in LineFields(r)[i]
    {
      PlainHasNeither(LineFields(r)[i]);
    }
    SplitJoin(LineFields(r), ',');
    JoinFree(LineFields(r), ",", '\n');
  }

  /**
    Without quoting, a field that holds a comma cannot be read back: the
    line then does not split into the record's fields, because no piece of
    a split holds the separator.
   */
  lemma LineColumnsNeedPlain(r: Record, i: nat)
    requires i < |Columns| && ',' in StringOf(Get(r, Columns[i].field))
    ensures Split(Line(r), ',') != LineFields(r)
  {
    SplitPiecesFree(Line(r), ',');
    assert ',' in LineFields(r)[i];
  }

  /**
    When no field holds a comma or a newline, the file splits into the
    header, one line per record in order, and the empty piece after the last
    newline: |data| + 2 pieces in all.
   */
  lemma CsvLines(data: seq<Record>)
    requires forall j, i :: 0 <= j < |data| && 0 <= i < |Columns| ==> Plain(StringOf(Get(data[j], Columns[i].field)))
    ensures Split(CsvText(data), '\n') == [Header()] + Lines(data) + [""]
  {
    HeaderColumns();
    var ls := [Header()] + Lines(data);
    forall k | 0 <= k < |ls|
      ensures '\n' !in ls[k]
    {
      if k > 0 {
        LineColumns(data[k - 1]);
      }
    }
    SplitTerminated(ls, '\n');
  }

  /** Line j + 1 of the file, split at its commas, is record j's fields in header order. */
  lemma CsvRecordFields(data: seq<Record>, j: nat)
    requires j < |data|
    requires forall j, i :: 0 <= j < |data| && 0 <= i < |Columns| ==> Plain(StringOf(Get(data[j], Columns[i].field)))
    ensures |Split(CsvText(data), '\n')| == |data| + 2
    ensures Split(Split(CsvText(data), '\n')[j + 1], ',') == LineFields(data[j])
  {
    CsvLines(data);
    LineColumns(data[j]);
  }
}
