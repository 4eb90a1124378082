# Class-attendance dashboard: a Dafny model

The system reads CSV exports of a fitness studio's class bookings and
consolidates them into one record per class slot. A slot is a cleaned class
name together with a day of the week and a time. A dashboard then filters,
searches and sorts these records, and a metrics panel sums them up.

This project models the core of that pipeline and proves properties of it:

- **Class-name normaliser (`getCleanedClassName`).** Modelled as an ordered
  rule table over lower-cased substring tests, with a first-match
  classifier. It is proved equal to the literal if/else chain, together
  with the precedence facts the order creates (module `ClassNames` in
  `classterms.dfy` and `classnames.dfy`; module `ClassNameFacts` in
  `classfacts.dfy`).
- **Consolidation (`consolidateCSVData`).** An imperative pass over the
  parsed rows of every file. It fills a dictionary keyed by
  `${class}-${day}-${time}`, keeps the keys in the order they first appear,
  and finalises each entry into a record. The method is proved equal to a fold
  over the rows, and the fold is proved to give one record per distinct key
  with counters that are the sums over that key's rows (`consolidation.dfy`;
  the record type is in `records.dfy`).
- **CSV export (`exportToCSV`).** The export text is built line by line. Its
  first line is always the header. When no field holds a comma or a newline,
  it is proved to split back into the header and one line per record, with
  fields in header order. The source does not quote fields, so a field such
  as a location "Kemps Corner, Mumbai" shifts every later column; the model
  proves that such a line does not split back into the record's fields
  (`csvexport.dfy`).
- **Dashboard pipeline (the `useEffect` of `Dashboard.tsx`).** Covers the
  not-in-the-future period filter, the search over every field, the
  operator filters and the multi-key comparator. The in-place sort is an
  insertion sort on an array, proved to permute the view and leave each
  neighbouring pair in comparator order (`dashboard.dfy`).
- **Metrics panel.** Covers totals as folds, the guarded averages, the
  distinct class types and instructors, and `formatIndianCurrency` over
  integer amounts (`metrics.dfy`).

Supporting modules:

- `text.dfy`: JavaScript `toLowerCase` (ASCII), `includes`, `startsWith`,
  `endsWith`, `split` and `join`.
- `numbers.dfy`: `String(n)`, `parseInt`, `Number()` on decimal text read
  as an exact decimal, `toFixed(1)` as rounding to the nearest tenth, and
  `padStart`.
- `wrappers.dfy`: `Option` and `Result`.

Inputs that the source obtains from I/O or from the clock are parameters:

- the parsed CSV rows: the output of `Papa.parse`, with the date already
  split into day, time, period and ISO text;
- `today`, as a year and a month;
- the search query, the filter options and the sort options.

An invalid class date makes `toISOString` throw a RangeError at
src/utils/fileProcessing.ts:277, so the whole consolidation fails; the model
returns `Failure`.

## Model

| member | source | states |
|---|---|---|
| Text.Lower | src/utils/fileProcessing.ts:78 | lower-casing keeps the length and lower-cases each character |
| Text.LowerIdempotent | src/utils/fileProcessing.ts:78 | lower-casing twice is the same as once |
| Text.IncludesIffOccurs | src/utils/fileProcessing.ts:80 | `includes` holds exactly when the needle occurs at some index |
| Text.IncludesTrans | src/utils/fileProcessing.ts:132 | a string includes whatever a string it includes includes |
| Text.SplitJoin | src/components/Dashboard.tsx:132 | splitting a join of separator-free strings gives them back |
| Text.JoinSplit | src/components/Dashboard.tsx:132 | joining the pieces of a split gives back the string |
| Text.SplitTerminated | src/utils/fileProcessing.ts:286-290 | splitting newline-terminated lines gives the lines and a final empty piece |
| Numbers.NatToStringDigits | src/components/MetricsPanel.tsx:28 | the text of a number is a non-empty digit string worth that number |
| Numbers.PadStartZeros | src/components/MetricsPanel.tsx:28 | left-padding digits with zeros keeps them digits and keeps their value |
| Numbers.ParseIntOfString | src/utils/fileProcessing.ts:209 | `parseInt` reads back every integer `String` writes |
| Numbers.ParseIntDigits | src/components/Dashboard.tsx:108 | `ParseInt` of a digit string is the value of its digits |
| Numbers.NumberOfString | src/components/Dashboard.tsx:148 | `NumberValue` (`Number`) reads back every integer `String` writes |
| Numbers.TenthsNearest | src/utils/fileProcessing.ts:256 | the tenths `toFixed(1)` writes are within half a tenth of num / den |
| Numbers.NumberOfFixed1 | src/utils/fileProcessing.ts:256-257 | the text `ToFixed1` (`toFixed(1)`) writes reads back as the rounded tenths, sign included |
| Records.ValuesAreFields | src/components/Dashboard.tsx:120 | the values `Object.values` lists are exactly the values of the record's fields |
| Records.NumberOfStringOfNum | src/components/Dashboard.tsx:136 | `Number(String(v))` is `Number(v)` for every numeric field value |
| ClassNames.CleanedClassName | src/utils/fileProcessing.ts:77-192 | the label of the first rule of `Rules` that holds on the lower-cased name, or 'Uncategorized'; never empty (ChainAgrees: the table is the chain) |
| ClassNames.CategoryText | src/utils/fileProcessing.ts:80-191 | every label is non-empty; only Uncategorized is 'Uncategorized' and only Others is 'Others' |
| ClassNames.LeadingAgrees | src/utils/fileProcessing.ts:80-92 | the first four rules of the table act as the first four branches of the chain |
| ClassNames.FormatsAgrees | src/utils/fileProcessing.ts:93-124 | the express/non-express rules of the table act as those branches of the chain |
| ClassNames.SpecialsAgrees | src/utils/fileProcessing.ts:125-148 | the sweat, recovery, hosted, powerCycle and Others rules act as those branches |
| ClassNames.PassesAgrees | src/utils/fileProcessing.ts:149-188 | the pass and package rules act as the remaining branches |
| ClassNameFacts.ClassifyOrAppend | src/utils/fileProcessing.ts:80-191 | classifying by two tables in a row is classifying by the first with the second as fallback |
| ClassNameFacts.ChainAgrees | src/utils/fileProcessing.ts:80-191 | the first-match classifier over the rule table `Rules` equals the literal if/else chain |
| ClassNameFacts.UncategorizedIff | src/utils/fileProcessing.ts:189-191 | the result is Uncategorized exactly when no rule's condition holds |
| ClassNameFacts.CleanedClassNameFirstMatch | src/utils/fileProcessing.ts:77-192 | the label is 'Uncategorized' with no rule matching, or the label of the first matching rule; it is never empty |
| ClassNameFacts.CaseInsensitive | src/utils/fileProcessing.ts:78 | normalising a lower-cased name gives the same label |
| ClassNameFacts.AmpedWins | src/utils/fileProcessing.ts:80-81 | a name containing 'amped' is 'Studio Amped Up!' whatever else it contains |
| ClassNameFacts.HostedBeforeFormats | src/utils/fileProcessing.ts:82-88 | without 'amped', the hosted terms (including 'hc') decide before any format rule |
| ClassNameFacts.InvalidWhenNotApplicable | src/utils/fileProcessing.ts:91-92 | 'n/a' without the earlier terms gives Invalid |
| ClassNameFacts.FormatsDecide | src/utils/fileProcessing.ts:93-124 | without the leading terms, the format rules decide before the later groups |
| ClassNameFacts.BackExpressPair | src/utils/fileProcessing.ts:93-96 | 'back' gives Back Body Blaze Express with 'express' and Back Body Blaze without |
| ClassNameFacts.Barre57ExpressPair | src/utils/fileProcessing.ts:97-100 | 'barre 57' pairs up with and without 'express' |
| ClassNameFacts.CardioExpressPair | src/utils/fileProcessing.ts:101-104 | 'cardio' pairs up with and without 'express' |
| ClassNameFacts.MatExpressPair | src/utils/fileProcessing.ts:105-108 | 'mat' pairs up with and without 'express' |
| ClassNameFacts.HiitExpressPair | src/utils/fileProcessing.ts:109-112 | 'hiit' pairs up with and without 'express' |
| ClassNameFacts.FoundationExpressPair | src/utils/fileProcessing.ts:113-116 | 'foundation' pairs up with and without 'express' |
| ClassNameFacts.FitExpressPair | src/utils/fileProcessing.ts:117-120 | 'fit' pairs up with and without 'express' |
| ClassNameFacts.TrainerExpressPair | src/utils/fileProcessing.ts:121-124 | 'trainer' pairs up with and without 'express' |
| ClassNameFacts.OthersTerms | src/utils/fileProcessing.ts:129-148 | an Others label means no 'x physique 57' and one of the four Others terms |
| ClassNameFacts.RugbyTermIncludes | src/utils/fileProcessing.ts:132 | a name with the rugby-club term contains 'x physique 57' |
| ClassNameFacts.RugbyClubShadowed | src/utils/fileProcessing.ts:146 | the rugby-club term alone never yields 'Others': one of the other three terms is needed |
| Consolidation.Matching | src/utils/fileProcessing.ts:220 | the rows picked for a key are kept rows with that key |
| Consolidation.MatchingCount | src/utils/fileProcessing.ts:202-222 | every kept row with the key is picked, as many times as it occurs, and no other row |
| Consolidation.Summary | src/utils/fileProcessing.ts:222-249 | an entry counts at least one row and at most that many empty classes; its date is its first row's |
| Consolidation.FirstOccurrences | src/utils/fileProcessing.ts:253 | the insertion order holds every key once and only the keys |
| Consolidation.FoldEntries | src/utils/fileProcessing.ts:220-249 | in the table `Fold` builds, a key has an entry exactly when some kept row has it, and the entry is the summary of those rows |
| Consolidation.FoldOrder | src/utils/fileProcessing.ts:222-223 | keys are enumerated in the order the rows first carry them, and they are exactly the entries |
| Consolidation.FoldIgnoresSkipped | src/utils/fileProcessing.ts:202 | folding all rows is folding only those with a class name |
| Consolidation.SkippedRowChangesNothing | src/utils/fileProcessing.ts:202 | a row with an empty class name creates no key and changes no counter |
| Consolidation.SumEmptyBounds | src/utils/fileProcessing.ts:245 | the empty-class count lies between 0 and the number of rows |
| Consolidation.SumPermutation | src/utils/fileProcessing.ts:242-249 | a sum of row counters depends only on the multiset of the rows |
| Consolidation.MatchingPermutation | src/utils/fileProcessing.ts:220 | reordering the rows leaves the multiset of each key's rows unchanged |
| Consolidation.SummaryPermutation | src/utils/fileProcessing.ts:242-249 | two orderings of a key's rows give the same counters |
| Consolidation.FoldCountersPermutation | src/utils/fileProcessing.ts:198-251 | reordering the rows keeps the same keys and, for every key, the same counters |
| Consolidation.FoldBounds | src/utils/fileProcessing.ts:242-245 | every entry has 1 or more occurrences and 0 to that many empty classes |
| Consolidation.GroupRow | src/utils/fileProcessing.ts:202-249 | one row step of the loop is one step of the fold |
| Consolidation.GroupFileRows | src/utils/fileProcessing.ts:201-250 | the loop over one file's rows extends the fold by those rows |
| Consolidation.GroupRows | src/utils/fileProcessing.ts:198-251 | the nested loops build the table the fold over all rows gives |
| Consolidation.FinaliseGroups | src/utils/fileProcessing.ts:253-280 | the loop over the keys gives the finalised records, or the RangeError |
| Consolidation.Consolidate | src/utils/fileProcessing.ts:194-283 | the method's result is the consolidation of the files with the class-name normaliser |
| Consolidation.FinaliseFacts | src/utils/fileProcessing.ts:253-280 | `Finalise` fails exactly when some entry's date is invalid; otherwise there is one record per key, in key order |
| Consolidation.Consolidated | src/utils/fileProcessing.ts:194-283 | the records returned have pairwise distinct uniqueIDs |
| Consolidation.ConsolidatedRecords | src/utils/fileProcessing.ts:194-283 | one record per distinct ID of the kept rows, in first-seen order, made by `MakeRecord` from the summary of that ID's rows; failure exactly on an invalid first date |
| Consolidation.RecordCounts | src/utils/fileProcessing.ts:255 | a record has its key as ID, one or more occurrences, 0 to that many empty classes, non-empty = occurrences - empty, attendance = check-ins |
| Consolidation.RecordAverage | src/utils/fileProcessing.ts:256 | the average including empty classes reads back as check-ins per class, rounded to tenths |
| Consolidation.RecordAverageExcludingEmpty | src/utils/fileProcessing.ts:257 | the average excluding empty classes is 'N/A' exactly when no class was attended, and otherwise reads back as check-ins per attended class |
| Consolidation.Fixed1IsNotNotApplicable | src/utils/fileProcessing.ts:257 | no text toFixed(1) writes is 'N/A' |
| CsvExport.CsvText | src/utils/fileProcessing.ts:285-290 | whatever the fields hold, the first line of the export is the header |
| CsvExport.BuildCsv | src/utils/fileProcessing.ts:285-290 | the `+=` loop builds the header line followed by one line per record |
| CsvExport.HeaderColumns | src/utils/fileProcessing.ts:286 | the header splits at commas into the column names and has no newline |
| CsvExport.LineColumns | src/utils/fileProcessing.ts:289 | a line of comma- and newline-free fields splits back into those fields |
| CsvExport.LineColumnsNeedPlain | src/utils/fileProcessing.ts:289 | a line with a field that holds a comma does not split back into the record's fields |
| CsvExport.CsvLines | src/utils/fileProcessing.ts:286-290 | when no field holds a comma or a newline, the export splits into the header, one line per record and a final empty piece |
| CsvExport.CsvRecordFields | src/utils/fileProcessing.ts:286-290 | when no field holds a comma or a newline, the export has records + 2 pieces and line j + 1 splits into record j's fields |
| Dashboard.Filter | src/components/Dashboard.tsx:102 | `filter` keeps exactly the elements that pass, each as many times as it occurs, and never lengthens the list |
| Dashboard.FilterSubsequence | src/components/Dashboard.tsx:102-155 | every filter keeps the order of what it keeps |
| Dashboard.IndexOf | src/components/Dashboard.tsx:107 | `indexOf` is -1 exactly when absent, else the first position of the value |
| Dashboard.MonthIndex | src/components/Dashboard.tsx:106-107 | each month name is found at its own position |
| Dashboard.PeriodParts | src/components/Dashboard.tsx:104-111 | under `PeriodKept`, a `Mon-YY` period is kept exactly when its year parses and its month is not after today |
| Dashboard.PeriodMonYY | src/components/Dashboard.tsx:104-113 | `Mon-YY` is kept exactly when month Mon of 2000 + YY is not after today; an empty period is always kept |
| Dashboard.PeriodYearFrom2000 | src/components/Dashboard.tsx:108 | the year of a parsed period is 2000 or later |
| Dashboard.SearchFields | src/components/Dashboard.tsx:117-123 | under `SearchKept`, a record matches exactly when some field's lower-cased text includes the lower-cased query |
| Dashboard.PeriodInList | src/components/Dashboard.tsx:131-133 | `period in` keeps a record exactly when its period is one of the comma-separated values |
| Dashboard.TextFilterIgnoresCase | src/components/Dashboard.tsx:139-146 | the text operators do not depend on the case of the filter value |
| Dashboard.NumericFilter | src/components/Dashboard.tsx:147-150 | under `FilterHolds`, against a whole number, `greater` and `less` on a numeric field are > and < |
| Dashboard.GreaterLessExclusive | src/components/Dashboard.tsx:147-150 | no record passes both `greater` and `less` for the same value |
| Dashboard.LexCompareAntisymmetric | src/components/Dashboard.tsx:172 | swapping the strings negates the text comparison |
| Dashboard.KeyCompare | src/components/Dashboard.tsx:166-172 | the comparison of one key is -1, 0 or 1 |
| Dashboard.KeyCompareAntisymmetric | src/components/Dashboard.tsx:166-172 | swapping the values negates the comparison of one key |
| Dashboard.ComparisonAntisymmetric | src/components/Dashboard.tsx:160-181 | swapping the records negates the comparator; a record ties with itself |
| Dashboard.ComparisonFirstKey | src/components/Dashboard.tsx:161-180 | the comparator `Comparison` is 0 exactly when every key ties, else the directed comparison of the first key that differs |
| Dashboard.Compare | src/components/Dashboard.tsx:160-181 | the loop with early return computes the comparator |
| Dashboard.AdjacentOrderedSorted | src/components/Dashboard.tsx:160 | where the comparator is transitive, neighbour order is order of every pair |
| Dashboard.ComparisonNotTransitive | src/components/Dashboard.tsx:166-172 | class times '9' < '10' < '5a' < '9': mixed numeric and text keys make the comparator cyclic |
| Dashboard.SwapDown | src/components/Dashboard.tsx:160 | one move of the insertion swaps the greater record and the record moving left, and changes nothing else |
| Dashboard.Insert | src/components/Dashboard.tsx:160 | inserting one element permutes the array, extends the ordered prefix by one and leaves the unsorted tail as it was |
| Dashboard.SortRecords | src/components/Dashboard.tsx:160-181 | the in-place sort permutes the array and leaves each neighbouring pair in comparator order |
| Dashboard.SelectedRecords | src/components/Dashboard.tsx:102-156 | the records `Selected` returns are a subsequence of the data, holding exactly the records kept by period, search and every filter |
| Dashboard.SortView | src/components/Dashboard.tsx:159-182 | sorting permutes the view into comparator order, and with no sort keys changes nothing |
| Dashboard.UpdateView | src/components/Dashboard.tsx:97-185 | no view without data; otherwise a permutation of the selected records in comparator order, exactly the selection with no sort keys |
| Metrics.CurrencyBucket | src/components/MetricsPanel.tsx:22-32 | the text `FormatIndianCurrency` writes ends with ' Cr' exactly from a crore, with ' L' exactly from a lakh below a crore, and has a comma exactly from a thousand below a lakh |
| Metrics.CroreText | src/components/MetricsPanel.tsx:23-24 | from a crore up, the number before ' Cr' is the value in crores rounded to the nearest tenth |
| Metrics.LakhText | src/components/MetricsPanel.tsx:25-26 | from a lakh below a crore, the number before ' L' is the value in lakhs rounded to the nearest tenth |
| Metrics.ThousandsText | src/components/MetricsPanel.tsx:27-28 | from a thousand below a lakh, the text splits at one comma into thousands and exactly three digits that spell the value |
| Metrics.PlainText | src/components/MetricsPanel.tsx:29-31 | below a thousand, the text after the rupee sign reads back as the value |
| Metrics.TotalAppend | src/components/MetricsPanel.tsx:41-61 | the `Total` of two runs of records is the sum of their totals |
| Metrics.TotalPermutation | src/components/MetricsPanel.tsx:41-61 | a total does not depend on the order of the records |
| Metrics.TotalAtMost | src/components/MetricsPanel.tsx:41-61 | totals keep a field-by-field bound |
| Metrics.TotalNonNegative | src/components/MetricsPanel.tsx:41-61 | a total of non-negative fields is non-negative |
| Metrics.SetSize | src/components/MetricsPanel.tsx:69-70 | a set of values is no larger than the list and not empty for a non-empty list |
| Metrics.SetSizeDistinct | src/components/MetricsPanel.tsx:69-70 | the size of the set is the number of distinct values |
| Metrics.Calculate | src/components/MetricsPanel.tsx:36 | there are no figures exactly when there is no data |
| Metrics.Average1Text | src/components/MetricsPanel.tsx:64-66 | a guarded average `Average1` is '0' without classes, and otherwise reads back as the ratio rounded to tenths |
| Metrics.AverageAttendance | src/components/MetricsPanel.tsx:64 | the average attendance is '0' without classes, and otherwise check-ins per class rounded to tenths |
| Metrics.Utilisation | src/components/MetricsPanel.tsx:66 | the utilisation is '0' without classes; otherwise, when no record has more empty classes than classes, it is 0 to 1000 tenths of a percent |
| Metrics.DistinctCounts | src/components/MetricsPanel.tsx:69-70 | the unique counts are the numbers of distinct class names and of distinct teachers, each 1 to the number of records |
| Metrics.CalculatePermutation | src/components/MetricsPanel.tsx:35-70 | the figures do not depend on the order of the records |
| Metrics.ConsolidatedWithinClasses | src/utils/fileProcessing.ts:245 | every consolidated record has 0 to totalOccurrences empty classes |
| Metrics.PanelOfView | src/components/Dashboard.tsx:360 | the panel's figures for the sorted view are those of the selection, and the utilisation of consolidated data lies in 0% to 100% |

## Left out

- `processZipFile` (reading the zip archive, the promises and the progress counter) is asynchronous I/O and is not part of this model.
- `Papa.parse` is a foreign CSV library. The model takes its output, the parsed rows, as input.
- `getMonthYear`, `getDayOfWeek`, `getTime` and `new Date(...).toISOString()` depend on the JavaScript Date implementation and the locale. Each row carries their results as strings, and the ISO text is None where the date is invalid.
- `parseFloat` for revenue and hours: rows carry these as integers, so fractional amounts are not modelled. `totalTime.toFixed(2)` is therefore the integer followed by ".00".
- `toFixed(1)` (Numbers.ToFixed1) rounds the exact quotient to the nearest tenth with ties going up. Binary floating point can round a tie the other way.
- `Number()` (Numbers.NumberValue) is modelled on optionally signed decimal text with surrounding white space, and on the empty string. Exponents, hexadecimal (`0x`), binary (`0b`) and octal (`0o`) literals and `Infinity` are not modelled: the model reads them as NaN (None), so `greater`, `less` and the numeric sort key treat such text as non-numeric where JavaScript would not.
- `Number()` (Numbers.NumberValue) reads decimal text as an exact decimal, whereas JavaScript rounds it to the nearest double: "0.1" and "0.10000000000000001" are equal numbers in JavaScript but not in the model, so `greater`, `less` and the numeric sort can differ on such text.
- Integers are unbounded in the model. JavaScript numbers are doubles, exact only up to 2^53, so counts, sums and parsed integers beyond that are not modelled.
- `localeCompare` is modelled as code-point order of the strings, comparing Unicode scalar values one by one. This is neither the locale's collation nor UTF-16 code-unit order: a character above U+FFFF sorts after one in U+E000 to U+FFFF here, but before it in UTF-16 code units. Only the sign of a comparison is kept, which is all `sort` uses, so the difference `Number(a) - Number(b)` is modelled by its sign.
- Text.Lower: lower-cases ASCII letters only. JavaScript's `toLowerCase` also folds other alphabets.
- Dashboard.SortRecords: the JavaScript engine's sorting algorithm is unspecified, so the model is an insertion sort. Against the comparator it proves a permutation with every neighbouring pair in order, not the order of every pair: the comparator is not transitive (Dashboard.ComparisonNotTransitive). Stability, which `Array.prototype.sort` guarantees, is not stated.
- Dashboard.SortView: states only a permutation with every neighbouring pair in order, as Dashboard.SortRecords does; the stability of `sort` (records that tie keep their order) is not stated.
- Dashboard.UpdateView: the sorted view is stated only as a permutation of the selection with every neighbouring pair in order; the stability of `sort` is not stated.
- `new Date()` is the clock: the model takes `today` as a year and a month. The first of a month is no later than today exactly when its year and month are not after today's, so the day and time of day are not needed.
- The "Revenue Per Class" and "Total Hours" cards use floating-point division, `parseFloat` and `Math.round`, and are not modelled. Neither is the card list itself.
- `formatIndianCurrency` (Metrics.FormatIndianCurrency) takes integer amounts only, so `Math.floor` is the identity and `%` of a fractional amount is not modelled.
- The `Blob`, object URL and anchor download of the export, the JSON export, the rendering, the animations and `src/pages/Index.tsx` are UI and I/O and are not part of this model.
