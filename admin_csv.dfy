/** The CSV the admin view builds itself when the spreadsheet download is not available:
    a header line, then one line per time-log row whose cells are quoted with every inner
    double quote doubled; and the `dd-mm-yyyy` date labels used there and in the download
    query. A reader for both texts shows that nothing is lost in the quoting or the labels. */
module AdminCsv {
  import opened Wrappers
  import opened Decimal
  import opened Seqs
  import opened AdminReport

  /** The first line of the file. */
  const Header := "Fecha,Empleado,Estación,Dinero,Tiempo(min),Inicio,Fin,Comentario"

  // ---------------------------------------------------------------- date labels

  /** `${dd}-${mm}-${yyyy}`: day and month (counted from 1) padded to two digits. */
  function DateLabel(d: CalendarDate): string
  {
    Dashed(Pad2(IntToString(d.day)), Dashed(Pad2(IntToString(d.month0 + 1)), IntToString(d.year)))
  }

  function Dashed(a: string, b: string): string
  {
    a + "-" + b
  }

  /** Reads `"<day>-<month>-<year>"` back into a calendar day, month counted from 0. */
  function ParseDateLabel(t: string): Option<CalendarDate>
  {
    var k := DigitPrefixLen(t);
    if k == 0 || k == |t| || t[k] != '-' then None else DateAfterDay(DigitsValue(t[..k]), t[k + 1..])
  }

  function DateAfterDay(day: nat, u: string): Option<CalendarDate>
  {
    var k := DigitPrefixLen(u);
    if k == 0 || k == |u| || u[k] != '-' then None else DateAfterMonth(day, DigitsValue(u[..k]), u[k + 1..])
  }

  function DateAfterMonth(day: nat, month: nat, v: string): Option<CalendarDate>
  {
    var k := DigitPrefixLen(v);
    if k == 0 || k != |v| then None else Some(CalendarDate(day, month - 1, DigitsValue(v)))
  }

  // ---------------------------------------------------------------- cells and lines

  /** `String(c).replace(/"/g, '""')`. */
  function Escape(s: string): string
  {
    if s == [] then [] else (if s[0] == '"' then "\"\"" else [s[0]]) + Escape(s[1..])
  }

  /** One cell as written to the file. */
  function Quote(c: string): string
  {
    "\"" + Escape(c) + "\""
  }

  /** `row.map(quote).join(',')`. */
  function CsvLine(cells: seq<string>): string
  {
    if cells == [] then ""
    else if |cells| == 1 then Quote(cells[0])
    else Quote(cells[0]) + ("," + CsvLine(cells[1..]))
  }

  /** The Fecha cell: empty when the start is missing or is not a date. */
  function DateCell(r: LogRow): string
  {
    if r.start != 0 && r.startDate.Some? then DateLabel(r.startDate.value) else ""
  }

  /** The Tiempo(min) cell: the whole minutes of a non-zero stored duration, else empty. */
  function MinutesCell(r: LogRow): string
  {
    if NonZero(r.duration) then IntToString(r.duration.value / 60) else ""
  }

  /** The eight cells of one row, in the header's order. */
  function RowCells(r: LogRow): seq<string>
  {
    [DateCell(r),
     r.username.GetOr(""),
     StationLabel(r),
     IntToString(RowAmount(r)),
     MinutesCell(r),
     if r.start != 0 then r.startClock else "",
     if r.end != 0 then r.endClock else "",
     r.comment.GetOr("")]
  }

  function RowLine(r: LogRow): string
  {
    CsvLine(RowCells(r))
  }

  /** The CSV fallback of `downloadReport`: the header, then each row's line pushed in turn. */
  method BuildCsv(data: seq<LogRow>) returns (csv: seq<string>)
    ensures |csv| == |data| + 1
    ensures csv[0] == Header
    ensures csv[1..] == Each(data, RowLine)
  {
    csv := PushEach([Header], data, RowLine);
  }

  // ---------------------------------------------------------------- reading lines back

  /** Reads the inside of a quoted cell up to its closing quote (a doubled quote stands for
      one quote) and returns the cell and what follows the closing quote. */
  function ReadField(t: string): (r: Option<(string, string)>)
    ensures r.Some? ==> |r.value.1| < |t|
  {
    if t == [] then None
    else if t[0] == '"' then
      if |t| >= 2 && t[1] == '"' then
        match ReadField(t[2..])
        case None => None
        case Some((c, rest)) => Some(("\"" + c, rest))
      else Some(("", t[1..]))
    else
      match ReadField(t[1..])
      case None => None
      case Some((c, rest)) => Some(([t[0]] + c, rest))
  }

  /** Splits a line of quoted cells separated by commas into the cells. */
  function ParseCells(line: string): Option<seq<string>>
    decreases |line|
  {
    if line == [] || line[0] != '"' then None
    else
      match ReadField(line[1..])
      case None => None
      case Some((c, rest)) =>
        if rest == [] then Some([c])
        else if rest[0] != ',' then None
        else
          match ParseCells(rest[1..])
          case None => None
          case Some(cs) => Some([c] + cs)
  }

  // ================================================================ lemmas

  /** An escaped cell followed by its closing quote is read back as the cell, whatever
      follows, as long as that does not start with a quote. */
  lemma {:induction false} ReadEscaped(c: string, rest: string)
    requires rest == [] || rest[0] != '"'
    ensures ReadField(Escape(c) + "\"" + rest) == Some((c, rest))
    decreases |c|
  {
    var t := Escape(c) + "\"" + rest;
    if c == [] {
      assert t == "\"" + rest;
      assert t[1..] == rest;
    } else {
      var head := if c[0] == '"' then "\"\"" else [c[0]];
      var tail := Escape(c[1..]) + "\"" + rest;
      assert t == head + tail;
      ReadEscaped(c[1..], rest);
      if c[0] == '"' {
        assert t[2..] == tail;
        assert "\"" + c[1..] == c;
      } else {
        assert t[1..] == tail;
        assert [c[0]] + c[1..] == c;
      }
    }
  }

  /** Every line of quoted cells is split back into exactly its cells, commas and quotes
      inside the cells included. */
  lemma {:induction false} CsvLineRoundTrip(cells: seq<string>)
    requires |cells| >= 1
    ensures ParseCells(CsvLine(cells)) == Some(cells)
    decreases |cells|
  {
    if |cells| == 1 {
      ReadCell(cells[0], "");
      assert Quote(cells[0]) + "" == Quote(cells[0]);
      assert [cells[0]] == cells;
    } else {
      ReadCell(cells[0], "," + CsvLine(cells[1..]));
      assert ("," + CsvLine(cells[1..]))[1..] == CsvLine(cells[1..]);
      CsvLineRoundTrip(cells[1..]);
      assert [cells[0]] + cells[1..] == cells;
    }
  }

  /** One quoted cell, then the end of the line or a comma and the rest of the line. */
  lemma ReadCell(c: string, rest: string)
    requires rest == [] || rest[0] == ','
    ensures rest == [] ==> ParseCells(Quote(c) + rest) == Some([c])
    ensures rest != [] ==>
      ParseCells(Quote(c) + rest) == (match ParseCells(rest[1..]) case None => None case Some(cs) => Some([c] + cs))
  {
    var line := Quote(c) + rest;
    assert line[0] == '"' && line[1..] == Escape(c) + "\"" + rest;
    ReadEscaped(c, rest);
  }

  /** Each data line of the file splits back into the row's eight cells. */
  lemma CsvRowReadsBack(r: LogRow)
    ensures ParseCells(RowLine(r)) == Some(RowCells(r))
  {
    CsvLineRoundTrip(RowCells(r));
  }

  /** The Dinero cell reads back as the row's amount, the Tiempo(min) cell as the floor of
      the stored seconds over 60 (or is empty when there is none), and the Fecha cell is
      empty exactly when the start is missing or unreadable. */
  lemma CsvCellsReadBack(r: LogRow)
    ensures |RowCells(r)| == 8
    ensures ParseInt(RowCells(r)[3]) == Some(RowAmount(r))
    ensures NonZero(r.duration) ==> ParseInt(RowCells(r)[4]) == Some(r.duration.value / 60)
    ensures !NonZero(r.duration) ==> RowCells(r)[4] == ""
    ensures RowCells(r)[0] == "" <==> r.start == 0 || r.startDate.None?
  {
    var cells := RowCells(r);
    assert cells[0] == DateCell(r) && cells[3] == IntToString(RowAmount(r)) && cells[4] == MinutesCell(r);
    ParseIntOfIntToString(RowAmount(r));
    MinutesCellReadsBack(r);
    DateCellEmpty(r);
  }

  lemma MinutesCellReadsBack(r: LogRow)
    ensures NonZero(r.duration) ==> ParseInt(MinutesCell(r)) == Some(r.duration.value / 60)
    ensures !NonZero(r.duration) ==> MinutesCell(r) == ""
  {
    if NonZero(r.duration) {
      ParseIntOfIntToString(r.duration.value / 60);
    }
  }

  lemma DateCellEmpty(r: LogRow)
    ensures DateCell(r) == "" <==> r.start == 0 || r.startDate.None?
  {
  }

  /** A day of at most two digits and a month of at most two digits give a label of the
      form `dd-mm-<year>`: two digits, a dash, two digits, a dash. */
  lemma DateLabelShape(d: CalendarDate)
    requires 1 <= d.day <= 31 && 0 <= d.month0 <= 11
    ensures var t := DateLabel(d);
      |t| >= 7 && t[2] == '-' && t[5] == '-'
      && IsDigit(t[0]) && IsDigit(t[1]) && IsDigit(t[3]) && IsDigit(t[4])
  {
    var ds, ms, ys := Pad2(IntToString(d.day)), Pad2(IntToString(d.month0 + 1)), IntToString(d.year);
    TwoDigits(d.day);
    TwoDigits(d.month0 + 1);
    LabelShape(ds, ms, ys);
  }

  lemma LabelShape(ds: string, ms: string, ys: string)
    requires |ds| == 2 && AllDigits(ds) && |ms| == 2 && AllDigits(ms) && |ys| >= 1
    ensures var t := Dashed(ds, Dashed(ms, ys));
      |t| >= 7 && t[2] == '-' && t[5] == '-'
      && IsDigit(t[0]) && IsDigit(t[1]) && IsDigit(t[3]) && IsDigit(t[4])
  {
  }

  /** A number below 100 pads to exactly two digits. */
  lemma TwoDigits(n: nat)
    requires n < 100
    ensures |Pad2(IntToString(n))| == 2 && AllDigits(Pad2(IntToString(n)))
  {
  }

  /** A padded numeral is a run of digits denoting the number. */
  lemma PaddedNumeral(n: nat)
    ensures |Pad2(NatToString(n))| >= 2
    ensures AllDigits(Pad2(NatToString(n))) && DigitsValue(Pad2(NatToString(n))) == n
  {
    Pad2Value(NatToString(n));
    NatToStringValue(n);
  }

  /** A run of digits, a dash, and what follows. */
  lemma ReadDay(ds: string, u: string)
    requires |ds| > 0 && AllDigits(ds)
    ensures ParseDateLabel(Dashed(ds, u)) == DateAfterDay(DigitsValue(ds), u)
  {
    var t := ds + "-" + u;
    DigitPrefixOfNumeral(ds, "-" + u);
    assert ds + ("-" + u) == t;
    assert t[..|ds|] == ds && t[|ds|] == '-' && t[|ds| + 1..] == u;
  }

  /** After the day: a run of digits, a dash, and what follows. */
  lemma ReadMonth(day: nat, ms: string, v: string)
    requires |ms| > 0 && AllDigits(ms)
    ensures DateAfterDay(day, Dashed(ms, v)) == DateAfterMonth(day, DigitsValue(ms), v)
  {
    var u := ms + "-" + v;
    DigitPrefixOfNumeral(ms, "-" + v);
    assert ms + ("-" + v) == u;
    assert u[..|ms|] == ms && u[|ms|] == '-' && u[|ms| + 1..] == v;
  }

  /** After the month: a run of digits that ends the text. */
  lemma ReadYear(day: nat, month: nat, ys: string)
    requires |ys| > 0 && AllDigits(ys)
    ensures DateAfterMonth(day, month, ys) == Some(CalendarDate(day, month - 1, DigitsValue(ys)))
  {
  }

  /** A date label is read back as the date it was made from. */
  lemma DateLabelRoundTrip(d: CalendarDate)
    requires d.day >= 0 && d.month0 >= -1 && d.year >= 0
    ensures ParseDateLabel(DateLabel(d)) == Some(d)
  {
    var ds, ms, ys := Pad2(NatToString(d.day)), Pad2(NatToString(d.month0 + 1)), NatToString(d.year);
    PaddedNumeral(d.day);
    PaddedNumeral(d.month0 + 1);
    NatToStringValue(d.year);
    ReadDay(ds, Dashed(ms, ys));
    ReadMonth(d.day, ms, ys);
    ReadYear(d.day, d.month0 + 1, ys);
  }
}
