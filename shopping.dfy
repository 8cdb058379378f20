/** The bookkeeping of shopping.py: the month table, the encoding of one spreadsheet row
    into 17 evidence values and a label, the loading loop, and the confusion counts behind
    sensitivity and specificity. CSV fields arrive already split; `int()` and `float()` are
    parameters that may reject a field. */
module Shopping {
  import opened Wrappers
  import opened Seqs

  /** `months`: the twelve month names of the spreadsheet and their indices. June is spelt out. */
  const Months: map<string, int> := map[
    "Jan" := 0, "Feb" := 1, "Mar" := 2, "Apr" := 3, "May" := 4, "June" := 5,
    "Jul" := 6, "Aug" := 7, "Sep" := 8, "Oct" := 9, "Nov" := 10, "Dec" := 11]

  /** The keys of `months` in calendar order. */
  const MonthNames: seq<string> := ["Jan", "Feb", "Mar", "Apr", "May", "June", "Jul", "Aug", "Sep", "Oct", "Nov", "Dec"]

  /** The twelve names are the keys, and each maps to its place in the calendar. */
  lemma MonthsInCalendarOrder()
    ensures Months.Keys == set m | m in MonthNames
    ensures forall i :: 0 <= i < |MonthNames| ==> MonthNames[i] in Months && Months[MonthNames[i]] == i
  {
  }

  /** No two months share an index, every index is 0..11, and "Jun" is not a key. */
  lemma MonthsInjective()
    ensures forall a, b :: a in Months && b in Months && Months[a] == Months[b] ==> a == b
    ensures forall m :: m in Months ==> 0 <= Months[m] < 12
    ensures "Jun" !in Months
  {
    MonthsInCalendarOrder();
    forall a, b | a in Months && b in Months && Months[a] == Months[b] ensures a == b {
      var i :| 0 <= i < |MonthNames| && MonthNames[i] == a;
      var j :| 0 <= j < |MonthNames| && MonthNames[j] == b;
    }
  }

  /** Column indices of the spreadsheet. */
  const Administrative := 0
  const AdministrativeDuration := 1
  const Informational := 2
  const InformationalDuration := 3
  const ProductRelated := 4
  const ProductRelatedDuration := 5
  const BounceRates := 6
  const ExitRates := 7
  const PageValues := 8
  const SpecialDay := 9
  const Month := 10
  const OperatingSystems := 11
  const Browser := 12
  const Region := 13
  const TrafficType := 14
  const VisitorType := 15
  const Weekend := 16
  const Revenue := 17

  /** An evidence value: Python `int` or `float`. */
  datatype Value = IntVal(i: int) | FloatVal(x: real)

  /** How the documented layout encodes each evidence column. */
  datatype Kind = Integer | Float | MonthIndex | Returning | Flag

  /** The number of evidence values per row: columns 0..16. */
  const EvidenceColumns := 17

  /** How the docstring of load_data lists each evidence column: integer page counts, floating-point
      durations and rates, the month index, four integers, the visitor type and the weekend flag. */
  function KindOf(c: nat): (k: Kind) {
    if c == Month then MonthIndex
    else if c == VisitorType then Returning
    else if c == Weekend then Flag
    else if c == AdministrativeDuration || c == InformationalDuration || ProductRelatedDuration <= c <= SpecialDay then Float
    else Integer
  }

  /** Why a row cannot be encoded: IndexError, ValueError from int()/float(), KeyError on `months`. */
  datatype RowError = MissingColumn(column: nat) | NotANumber(column: nat, field: string) | UnknownMonth(field: string)

  /** Why load_data fails: StopIteration on a file without a header line, or a bad data row. */
  datatype LoadError = NoHeader | BadRow(line: nat, problem: RowError)

  /** One encoded row. */
  datatype Sample = Sample(evidence: seq<Value>, revenue: int)

  /** `1 if field == text else 0`. */
  function Indicator(field: string, text: string): (b: int)
    ensures b == 0 || b == 1
    ensures b == 1 <==> field == text
  {
    if field == text then 1 else 0
  }

  /** A field converted as its column's kind prescribes, or None when the conversion fails. */
  function Convert(kind: Kind, field: string, toInt: string -> Option<int>, toFloat: string -> Option<real>): (v: Option<Value>) {
    match kind
    case Integer => if toInt(field).Some? then Some(IntVal(toInt(field).value)) else None
    case Float => if toFloat(field).Some? then Some(FloatVal(toFloat(field).value)) else None
    case MonthIndex => if field in Months then Some(IntVal(Months[field])) else None
    case Returning => Some(IntVal(Indicator(field, "Returning_Visitor")))
    case Flag => Some(IntVal(Indicator(field, "TRUE")))
  }

  /** Column `c` of the row exists and, for an evidence column, converts. */
  predicate Readable(row: seq<string>, c: nat, toInt: string -> Option<int>, toFloat: string -> Option<real>)
    requires c <= Revenue
  {
    c < |row| && (c < Revenue ==> Convert(KindOf(c), row[c], toInt, toFloat).Some?)
  }

  /** Columns 0..c-1 all exist and convert. */
  predicate ReadableUpTo(row: seq<string>, c: nat, toInt: string -> Option<int>, toFloat: string -> Option<real>)
    requires c <= Revenue + 1
  {
    c == 0 || (ReadableUpTo(row, c - 1, toInt, toFloat) && Readable(row, c - 1, toInt, toFloat))
  }

  /** Columns are read in increasing order, so the error raised is the one of the first unreadable column. */
  predicate FirstUnreadable(row: seq<string>, c: nat, toInt: string -> Option<int>, toFloat: string -> Option<real>)
    requires c <= Revenue
  {
    ReadableUpTo(row, c, toInt, toFloat) && !Readable(row, c, toInt, toFloat)
  }

  /** The evidence values of the first `c` columns, as the layout prescribes. */
  function Encoded(row: seq<string>, c: nat, toInt: string -> Option<int>, toFloat: string -> Option<real>): (e: seq<Value>)
    requires c <= EvidenceColumns && ReadableUpTo(row, c, toInt, toFloat)
    ensures |e| == c
  {
    if c == 0 then []
    else Encoded(row, c - 1, toInt, toFloat) + [Convert(KindOf(c - 1), row[c - 1], toInt, toFloat).value]
  }

  /** Every encoded value is its own column's field converted by that column's kind. */
  lemma {:induction false} EncodedColumns(row: seq<string>, c: nat, toInt: string -> Option<int>, toFloat: string -> Option<real>)
    requires c <= EvidenceColumns && ReadableUpTo(row, c, toInt, toFloat)
    ensures c <= |row|
    ensures forall d :: 0 <= d < c ==> Some(Encoded(row, c, toInt, toFloat)[d]) == Convert(KindOf(d), row[d], toInt, toFloat)
  {
    if c > 0 {
      EncodedColumns(row, c - 1, toInt, toFloat);
    }
  }

  /** An unreadable column makes every longer prefix unreadable. */
  lemma {:induction false} UnreadableBlocks(row: seq<string>, c: nat, e: nat, toInt: string -> Option<int>, toFloat: string -> Option<real>)
    requires c < e <= Revenue + 1 && !Readable(row, c, toInt, toFloat)
    ensures !ReadableUpTo(row, e, toInt, toFloat)
    decreases e
  {
    if e - 1 > c {
      UnreadableBlocks(row, c, e - 1, toInt, toFloat);
    }
  }

  /** The error an unreadable column raises. */
  function ErrorAt(row: seq<string>, c: nat): (e: RowError)
    requires c <= Revenue
  {
    if c >= |row| then MissingColumn(c)
    else if c == Month then UnknownMonth(row[c])
    else NotANumber(c, row[c])
  }

  /** The column an error is about. */
  function ErrorColumn(e: RowError): (c: nat) {
    match e
    case MissingColumn(c) => c
    case NotANumber(c, _) => c
    case UnknownMonth(_) => Month
  }

  /** `row[c]`, or the IndexError. */
  function FieldAt(row: seq<string>, c: nat): (r: Result<string, RowError>)
    ensures r.Ok? <==> c < |row|
    ensures r.Ok? ==> r.value == row[c]
    ensures r.Err? ==> r.error == MissingColumn(c)
  {
    if c < |row| then Ok(row[c]) else Err(MissingColumn(c))
  }

  /** `int(row[c])`. */
  function IntField(row: seq<string>, c: nat, toInt: string -> Option<int>): (r: Result<Value, RowError>)
    ensures r.Ok? <==> c < |row| && toInt(row[c]).Some?
    ensures r.Ok? ==> r.value == IntVal(toInt(row[c]).value)
    ensures r.Err? ==> r.error == if c < |row| then NotANumber(c, row[c]) else MissingColumn(c)
  {
    if c >= |row| then Err(MissingColumn(c))
    else match toInt(row[c])
      case None => Err(NotANumber(c, row[c]))
      case Some(i) => Ok(IntVal(i))
  }

  /** `float(row[c])`. */
  function FloatField(row: seq<string>, c: nat, toFloat: string -> Option<real>): (r: Result<Value, RowError>)
    ensures r.Ok? <==> c < |row| && toFloat(row[c]).Some?
    ensures r.Ok? ==> r.value == FloatVal(toFloat(row[c]).value)
    ensures r.Err? ==> r.error == if c < |row| then NotANumber(c, row[c]) else MissingColumn(c)
  {
    if c >= |row| then Err(MissingColumn(c))
    else match toFloat(row[c])
      case None => Err(NotANumber(c, row[c]))
      case Some(x) => Ok(FloatVal(x))
  }

  /** `months[row[MONTH]]`. */
  function MonthField(row: seq<string>): (r: Result<Value, RowError>)
    ensures r.Ok? <==> Month < |row| && row[Month] in Months
    ensures r.Ok? ==> r.value == IntVal(Months[row[Month]])
    ensures r.Err? ==> r.error == if Month < |row| then UnknownMonth(row[Month]) else MissingColumn(Month)
  {
    if Month >= |row| then Err(MissingColumn(Month))
    else if row[Month] in Months then Ok(IntVal(Months[row[Month]]))
    else Err(UnknownMonth(row[Month]))
  }

  /** `temp_list.append(int(row[c]))` for an integer column `c`. */
  method AppendInt(row: seq<string>, c: nat, tempList: seq<Value>, toInt: string -> Option<int>, toFloat: string -> Option<real>)
    returns (r: Result<seq<Value>, RowError>)
    requires c < EvidenceColumns && KindOf(c) == Integer
    requires ReadableUpTo(row, c, toInt, toFloat) && tempList == Encoded(row, c, toInt, toFloat)
    ensures r.Ok? ==> ReadableUpTo(row, c + 1, toInt, toFloat) && r.value == Encoded(row, c + 1, toInt, toFloat)
    ensures r.Err? ==> ErrorColumn(r.error) == c && FirstUnreadable(row, c, toInt, toFloat) && r.error == ErrorAt(row, c)
  {
    var value :- IntField(row, c, toInt);
    r := Ok(tempList + [value]);
  }

  /** `temp_list.append(float(row[c]))` for a floating-point column `c`. */
  method AppendFloat(row: seq<string>, c: nat, tempList: seq<Value>, toInt: string -> Option<int>, toFloat: string -> Option<real>)
    returns (r: Result<seq<Value>, RowError>)
    requires c < EvidenceColumns && KindOf(c) == Float
    requires ReadableUpTo(row, c, toInt, toFloat) && tempList == Encoded(row, c, toInt, toFloat)
    ensures r.Ok? ==> ReadableUpTo(row, c + 1, toInt, toFloat) && r.value == Encoded(row, c + 1, toInt, toFloat)
    ensures r.Err? ==> ErrorColumn(r.error) == c && FirstUnreadable(row, c, toInt, toFloat) && r.error == ErrorAt(row, c)
  {
    var value :- FloatField(row, c, toFloat);
    r := Ok(tempList + [value]);
  }

  /** `temp_list.append(months[row[MONTH]])`. */
  method AppendMonth(row: seq<string>, tempList: seq<Value>, toInt: string -> Option<int>, toFloat: string -> Option<real>)
    returns (r: Result<seq<Value>, RowError>)
    requires ReadableUpTo(row, Month, toInt, toFloat) && tempList == Encoded(row, Month, toInt, toFloat)
    ensures r.Ok? ==> ReadableUpTo(row, Month + 1, toInt, toFloat) && r.value == Encoded(row, Month + 1, toInt, toFloat)
    ensures r.Err? ==> ErrorColumn(r.error) == Month && FirstUnreadable(row, Month, toInt, toFloat) && r.error == ErrorAt(row, Month)
  {
    var monthInt :- MonthField(row);
    r := Ok(tempList + [monthInt]);
  }

  /** Part of load_data's row loop: append the page counts and durations of columns 0..4 to `temp_list`. */
  method AppendPageCounts(row: seq<string>, tempList: seq<Value>, toInt: string -> Option<int>, toFloat: string -> Option<real>)
    returns (r: Result<seq<Value>, RowError>)
    requires ReadableUpTo(row, 0, toInt, toFloat) && tempList == Encoded(row, 0, toInt, toFloat)
    ensures r.Ok? ==> ReadableUpTo(row, 5, toInt, toFloat) && r.value == Encoded(row, 5, toInt, toFloat)
    ensures r.Err? ==>
      && 0 <= ErrorColumn(r.error) < 5
      && FirstUnreadable(row, ErrorColumn(r.error), toInt, toFloat)
      && r.error == ErrorAt(row, ErrorColumn(r.error))
  {
    var list := tempList;
    list :- AppendInt(row, Administrative, list, toInt, toFloat);
    list :- AppendFloat(row, AdministrativeDuration, list, toInt, toFloat);
    list :- AppendInt(row, Informational, list, toInt, toFloat);
    list :- AppendFloat(row, InformationalDuration, list, toInt, toFloat);
    list :- AppendInt(row, ProductRelated, list, toInt, toFloat);
    r := Ok(list);
  }

  /** Part of load_data's row loop: append the duration and rates of columns 5..9 to `temp_list`. */
  method AppendRates(row: seq<string>, tempList: seq<Value>, toInt: string -> Option<int>, toFloat: string -> Option<real>)
    returns (r: Result<seq<Value>, RowError>)
    requires ReadableUpTo(row, 5, toInt, toFloat) && tempList == Encoded(row, 5, toInt, toFloat)
    ensures r.Ok? ==> ReadableUpTo(row, 10, toInt, toFloat) && r.value == Encoded(row, 10, toInt, toFloat)
    ensures r.Err? ==>
      && 5 <= ErrorColumn(r.error) < 10
      && FirstUnreadable(row, ErrorColumn(r.error), toInt, toFloat)
      && r.error == ErrorAt(row, ErrorColumn(r.error))
  {
    var list := tempList;
    list :- AppendFloat(row, ProductRelatedDuration, list, toInt, toFloat);
    list :- AppendFloat(row, BounceRates, list, toInt, toFloat);
    list :- AppendFloat(row, ExitRates, list, toInt, toFloat);
    list :- AppendFloat(row, PageValues, list, toInt, toFloat);
    list :- AppendFloat(row, SpecialDay, list, toInt, toFloat);
    r := Ok(list);
  }

  /** Part of load_data's row loop: append the month and the four session integers of columns 10..14 to `temp_list`. */
  method AppendSession(row: seq<string>, tempList: seq<Value>, toInt: string -> Option<int>, toFloat: string -> Option<real>)
    returns (r: Result<seq<Value>, RowError>)
    requires ReadableUpTo(row, 10, toInt, toFloat) && tempList == Encoded(row, 10, toInt, toFloat)
    ensures r.Ok? ==> ReadableUpTo(row, 15, toInt, toFloat) && r.value == Encoded(row, 15, toInt, toFloat)
    ensures r.Err? ==>
      && 10 <= ErrorColumn(r.error) < 15
      && FirstUnreadable(row, ErrorColumn(r.error), toInt, toFloat)
      && r.error == ErrorAt(row, ErrorColumn(r.error))
  {
    var list := tempList;
    list :- AppendMonth(row, list, toInt, toFloat);
    list :- AppendInt(row, OperatingSystems, list, toInt, toFloat);
    list :- AppendInt(row, Browser, list, toInt, toFloat);
    list :- AppendInt(row, Region, list, toInt, toFloat);
    list :- AppendInt(row, TrafficType, list, toInt, toFloat);
    r := Ok(list);
  }

  /** The body of load_data's row loop: append the 17 evidence values to `temp_list` in column
      order, then encode the revenue label. The first column that is missing or does not convert
      raises its error. */
  method EncodeRow(row: seq<string>, toInt: string -> Option<int>, toFloat: string -> Option<real>)
    returns (r: Result<Sample, RowError>)
    ensures r.Ok? ==> ReadableUpTo(row, Revenue + 1, toInt, toFloat) && |row| > Revenue
    ensures r.Ok? ==> r.value.evidence == Encoded(row, EvidenceColumns, toInt, toFloat)
    ensures r.Ok? ==> r.value.revenue == Indicator(row[Revenue], "TRUE")
    ensures r.Err? ==>
      && ErrorColumn(r.error) <= Revenue
      && FirstUnreadable(row, ErrorColumn(r.error), toInt, toFloat)
      && r.error == ErrorAt(row, ErrorColumn(r.error))
  {
    var tempList: seq<Value> := [];
    tempList :- AppendPageCounts(row, tempList, toInt, toFloat);
    tempList :- AppendRates(row, tempList, toInt, toFloat);
    tempList :- AppendSession(row, tempList, toInt, toFloat);

    var visitorField :- FieldAt(row, VisitorType);
    var visitorType := if visitorField == "Returning_Visitor" then 1 else 0;
    tempList := tempList + [IntVal(visitorType)];
    assert ReadableUpTo(row, 16, toInt, toFloat) && tempList == Encoded(row, 16, toInt, toFloat);

    var weekendField :- FieldAt(row, Weekend);
    var weekend := if weekendField == "TRUE" then 1 else 0;
    tempList := tempList + [IntVal(weekend)];
    assert ReadableUpTo(row, 17, toInt, toFloat) && tempList == Encoded(row, 17, toInt, toFloat);

    var revenueField :- FieldAt(row, Revenue);
    var revenue := if revenueField == "TRUE" then 1 else 0;
    r := Ok(Sample(tempList, revenue));
  }

  /** A row error reports an unreadable column, so the row as a whole is unreadable: EncodeRow
      succeeds exactly on the rows whose 18 columns all exist and convert. */
  lemma RowErrorMeansUnreadable(row: seq<string>, e: RowError, toInt: string -> Option<int>, toFloat: string -> Option<real>)
    requires ErrorColumn(e) <= Revenue && FirstUnreadable(row, ErrorColumn(e), toInt, toFloat)
    ensures !ReadableUpTo(row, Revenue + 1, toInt, toFloat)
  {
    UnreadableBlocks(row, ErrorColumn(e), Revenue + 1, toInt, toFloat);
  }

  /** The month of an encoded row is the index `months` gives its field, so 0..11. */
  lemma EncodedMonth(row: seq<string>, toInt: string -> Option<int>, toFloat: string -> Option<real>)
    requires ReadableUpTo(row, EvidenceColumns, toInt, toFloat)
    ensures Month < |row| && row[Month] in Months
    ensures var e := Encoded(row, EvidenceColumns, toInt, toFloat);
      e[Month] == IntVal(Months[row[Month]]) && 0 <= e[Month].i < 12
  {
    var e := Encoded(row, EvidenceColumns, toInt, toFloat);
    EncodedColumns(row, EvidenceColumns, toInt, toFloat);
    assert KindOf(Month) == MonthIndex;
    assert Some(e[Month]) == Convert(MonthIndex, row[Month], toInt, toFloat);
    MonthRange(row[Month]);
  }

  /** The visitor and weekend flags of an encoded row are 0 or 1, and 1 exactly for "Returning_Visitor" and "TRUE". */
  lemma EncodedFlags(row: seq<string>, toInt: string -> Option<int>, toFloat: string -> Option<real>)
    requires ReadableUpTo(row, EvidenceColumns, toInt, toFloat)
    ensures Weekend < |row|
    ensures var e := Encoded(row, EvidenceColumns, toInt, toFloat);
      && (e[VisitorType] == IntVal(0) || e[VisitorType] == IntVal(1))
      && (e[VisitorType] == IntVal(1) <==> row[VisitorType] == "Returning_Visitor")
      && (e[Weekend] == IntVal(0) || e[Weekend] == IntVal(1))
      && (e[Weekend] == IntVal(1) <==> row[Weekend] == "TRUE")
  {
    EncodedIndicator(row, VisitorType, "Returning_Visitor", toInt, toFloat);
    EncodedIndicator(row, Weekend, "TRUE", toInt, toFloat);
  }

  /** The value of a flag column is the indicator of its field. */
  lemma EncodedIndicator(row: seq<string>, c: nat, text: string, toInt: string -> Option<int>, toFloat: string -> Option<real>)
    requires c < EvidenceColumns && ReadableUpTo(row, EvidenceColumns, toInt, toFloat)
    requires (KindOf(c) == Returning && text == "Returning_Visitor") || (KindOf(c) == Flag && text == "TRUE")
    ensures c < |row| && Encoded(row, EvidenceColumns, toInt, toFloat)[c] == IntVal(Indicator(row[c], text))
  {
    EncodedColumn(row, c, toInt, toFloat);
  }

  /** One evidence value of an encoded row: its column's field, converted as that column's kind prescribes. */
  lemma EncodedColumn(row: seq<string>, c: nat, toInt: string -> Option<int>, toFloat: string -> Option<real>)
    requires c < EvidenceColumns && ReadableUpTo(row, EvidenceColumns, toInt, toFloat)
    ensures c < |row|
    ensures Some(Encoded(row, EvidenceColumns, toInt, toFloat)[c]) == Convert(KindOf(c), row[c], toInt, toFloat)
  {
    EncodedColumns(row, EvidenceColumns, toInt, toFloat);
  }

  lemma MonthRange(m: string)
    requires m in Months
    ensures 0 <= Months[m] < 12
  {
    MonthsInjective();
  }

  /** The result of load_data: one evidence list and one label per data row. */
  datatype Dataset = Dataset(evidence: seq<seq<Value>>, labels: seq<int>)

  /** load_data over the rows of the CSV file, header first: skip the header, then encode each
      data row and append its evidence and label. */
  method LoadData(lines: seq<seq<string>>, toInt: string -> Option<int>, toFloat: string -> Option<real>)
    returns (r: Result<Dataset, LoadError>)
    ensures |lines| == 0 ==> r == Err(NoHeader)
    ensures |lines| > 0 ==> (r.Ok? <==> forall i :: 1 <= i < |lines| ==> ReadableUpTo(lines[i], Revenue + 1, toInt, toFloat))
    ensures r.Ok? ==> |lines| >= 1 && |r.value.evidence| == |lines| - 1 && |r.value.labels| == |lines| - 1
    ensures r.Ok? ==> forall i :: 1 <= i < |lines| ==>
      && ReadableUpTo(lines[i], Revenue + 1, toInt, toFloat) && |lines[i]| > Revenue
      && r.value.evidence[i - 1] == Encoded(lines[i], EvidenceColumns, toInt, toFloat)
      && r.value.labels[i - 1] == Indicator(lines[i][Revenue], "TRUE")
    ensures r.Err? && |lines| > 0 ==> r.error.BadRow? && 1 <= r.error.line < |lines|
    ensures r.Err? && |lines| > 0 ==>
      var bad, e := r.error.line, r.error.problem;
      && (forall i :: 1 <= i < bad ==> ReadableUpTo(lines[i], Revenue + 1, toInt, toFloat))
      && ErrorColumn(e) <= Revenue
      && FirstUnreadable(lines[bad], ErrorColumn(e), toInt, toFloat)
      && e == ErrorAt(lines[bad], ErrorColumn(e))
  {
    if |lines| == 0 {
      return Err(NoHeader);
    }
    var evidence: seq<seq<Value>> := [];
    var labels: seq<int> := [];
    var i := 1;
    while i < |lines|
      invariant 1 <= i <= |lines|
      invariant |evidence| == i - 1 && |labels| == i - 1
      invariant forall k :: 1 <= k < i ==>
        && ReadableUpTo(lines[k], Revenue + 1, toInt, toFloat) && |lines[k]| > Revenue
        && evidence[k - 1] == Encoded(lines[k], EvidenceColumns, toInt, toFloat)
        && labels[k - 1] == Indicator(lines[k][Revenue], "TRUE")
    {
      var row := EncodeRow(lines[i], toInt, toFloat);
      if row.Err? {
        RowErrorMeansUnreadable(lines[i], row.error, toInt, toFloat);
        return Err(BadRow(i, row.error));
      }
      evidence := evidence + [row.value.evidence];
      labels := labels + [row.value.revenue];
      i := i + 1;
    }
    r := Ok(Dataset(evidence, labels));
  }

  /** The four counters of evaluate: a label equal to 1 is positive, any other label negative. */
  datatype Confusion = Confusion(positiveTrue: nat, positiveFalse: nat, negativeTrue: nat, negativeFalse: nat)

  /** The counters after the first |labels| iterations of evaluate's loop. */
  function Tally(labels: seq<int>, predictions: seq<int>): (t: Confusion)
    requires |labels| <= |predictions|
  {
    if labels == [] then Confusion(0, 0, 0, 0)
    else
      var t := Tally(labels[..|labels| - 1], predictions);
      var n := |labels| - 1;
      if labels[n] == 1 then
        if labels[n] == predictions[n] then t.(positiveTrue := t.positiveTrue + 1)
        else t.(positiveFalse := t.positiveFalse + 1)
      else
        if labels[n] == predictions[n] then t.(negativeTrue := t.negativeTrue + 1)
        else t.(negativeFalse := t.negativeFalse + 1)
  }

  /** Why evaluate fails: IndexError on `predictions[n]`, or ZeroDivisionError for sensitivity or specificity. */
  datatype EvalError = MissingPrediction(index: nat) | NoPositiveLabels | NoNegativeLabels

  /** Sensitivity and specificity, or the error evaluate raises first. */
  function Rates(labels: seq<int>, predictions: seq<int>): (r: Result<(real, real), EvalError>) {
    if |predictions| < |labels| then Err(MissingPrediction(|predictions|))
    else
      var t := Tally(labels, predictions);
      if t.positiveTrue + t.positiveFalse == 0 then Err(NoPositiveLabels)
      else if t.negativeTrue + t.negativeFalse == 0 then Err(NoNegativeLabels)
      else Ok((t.positiveTrue as real / (t.positiveTrue + t.positiveFalse) as real,
               t.negativeTrue as real / (t.negativeTrue + t.negativeFalse) as real))
  }

  /** evaluate: count the four outcomes over `range(len(labels))`, then divide. */
  method Evaluate(labels: seq<int>, predictions: seq<int>) returns (r: Result<(real, real), EvalError>)
    ensures r == Rates(labels, predictions)
  {
    var positiveTrue, positiveFalse, negativeTrue, negativeFalse := 0, 0, 0, 0;
    var n := 0;
    while n < |labels|
      invariant 0 <= n <= |labels|
      invariant n <= |predictions|
      invariant Tally(labels[..n], predictions) == Confusion(positiveTrue, positiveFalse, negativeTrue, negativeFalse)
    {
      if n >= |predictions| {
        return Err(MissingPrediction(n));
      }
      if labels[n] == 1 {
        if labels[n] == predictions[n] {
          positiveTrue := positiveTrue + 1;
        } else {
          positiveFalse := positiveFalse + 1;
        }
      } else {
        if labels[n] == predictions[n] {
          negativeTrue := negativeTrue + 1;
        } else {
          negativeFalse := negativeFalse + 1;
        }
      }
      assert labels[..n + 1][..n] == labels[..n];
      n := n + 1;
    }
    assert labels[..n] == labels;
    if positiveTrue + positiveFalse == 0 {
      return Err(NoPositiveLabels);
    }
    var sensitivity := positiveTrue as real / (positiveTrue + positiveFalse) as real;
    if negativeTrue + negativeFalse == 0 {
      return Err(NoNegativeLabels);
    }
    var specificity := negativeTrue as real / (negativeTrue + negativeFalse) as real;
    r := Ok((sensitivity, specificity));
  }

  /** Every label lands in exactly one counter; the two positive counters count the labels equal to 1. */
  lemma {:induction false} TallyCounts(labels: seq<int>, predictions: seq<int>)
    requires |labels| <= |predictions|
    ensures var t := Tally(labels, predictions);
      && t.positiveTrue + t.positiveFalse + t.negativeTrue + t.negativeFalse == |labels|
      && t.positiveTrue + t.positiveFalse == Count(labels, 1)
  {
    if labels != [] {
      var init := labels[..|labels| - 1];
      TallyCounts(init, predictions);
      CountSnoc(init, labels[|labels| - 1], 1);
      assert labels == init + [labels[|labels| - 1]];
    }
  }

  /** No positive is missed exactly when every label 1 is predicted 1; no negative is missed
      exactly when every other label is predicted as itself. */
  lemma {:induction false} TallyMisses(labels: seq<int>, predictions: seq<int>)
    requires |labels| <= |predictions|
    ensures Tally(labels, predictions).positiveFalse == 0
      <==> forall n :: 0 <= n < |labels| && labels[n] == 1 ==> predictions[n] == 1
    ensures Tally(labels, predictions).negativeFalse == 0
      <==> forall n :: 0 <= n < |labels| && labels[n] != 1 ==> predictions[n] == labels[n]
  {
    if labels != [] {
      var init := labels[..|labels| - 1];
      TallyMisses(init, predictions);
      assert forall n :: 0 <= n < |init| ==> init[n] == labels[n];
    }
  }

  /** Sensitivity and specificity lie in [0, 1]; each is 1 exactly when no label of its class is mispredicted. */
  lemma RatesMeaning(labels: seq<int>, predictions: seq<int>)
    requires Rates(labels, predictions).Ok?
    ensures var (sensitivity, specificity) := Rates(labels, predictions).value;
      && 0.0 <= sensitivity <= 1.0 && 0.0 <= specificity <= 1.0
      && (sensitivity == 1.0 <==> forall n :: 0 <= n < |labels| && labels[n] == 1 ==> predictions[n] == 1)
      && (specificity == 1.0 <==> forall n :: 0 <= n < |labels| && labels[n] != 1 ==> predictions[n] == labels[n])
  {
    var t := Tally(labels, predictions);
    FractionBounds(t.positiveTrue as real, (t.positiveTrue + t.positiveFalse) as real);
    FractionBounds(t.negativeTrue as real, (t.negativeTrue + t.negativeFalse) as real);
    TallyMisses(labels, predictions);
  }

  /** evaluate fails on too few predictions, then on a class with no labels: the sensitivity
      division by zero when no label is 1, the specificity one when every label is 1. */
  lemma RatesErrors(labels: seq<int>, predictions: seq<int>)
    ensures Rates(labels, predictions).Err? && Rates(labels, predictions).error.MissingPrediction?
      <==> |predictions| < |labels|
    ensures Rates(labels, predictions) == Err(NoPositiveLabels)
      <==> |predictions| >= |labels| && 1 !in labels
    ensures Rates(labels, predictions) == Err(NoNegativeLabels)
      <==> |predictions| >= |labels| && 1 in labels && forall n :: 0 <= n < |labels| ==> labels[n] == 1
  {
    if |predictions| >= |labels| {
      TallyCounts(labels, predictions);
      CountAll(labels, 1);
    }
  }

  /** Predictions equal to the labels give sensitivity and specificity 1 when both classes occur. */
  lemma PerfectPredictions(labels: seq<int>)
    requires 1 in labels && exists n :: 0 <= n < |labels| && labels[n] != 1
    ensures Rates(labels, labels) == Ok((1.0, 1.0))
  {
    RatesErrors(labels, labels);
    RatesMeaning(labels, labels);
  }
}
