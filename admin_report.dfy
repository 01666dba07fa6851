/** The report table of the admin view (`loadReport`): the station filter, each row's
    duration and time text, the footer totals and the footer's time label, with a reader
    for the time texts that recovers the minutes they stand for. */
module AdminReport {
  import opened Wrappers
  import opened Decimal
  import opened Seqs

  /** A calendar day as the browser's local clock gives it: `getDate()`, `getMonth()`
      (0 for January) and `getFullYear()`. */
  datatype CalendarDate = CalendarDate(day: int, month0: int, year: int)

  /** A time-log row as the logs endpoint returns it. `start` and `end` are epoch
      milliseconds, and 0 stands for a time that is missing: the stored log requires both,
      and a row's time is a date text, so a real instant 0 would count as present, which
      the model does not tell apart. Any other field that is absent (or not a number) is
      `None`. The last three fields are what the browser renders from `start` and `end` in
      its own time zone and locale. */
  datatype LogRow = LogRow(
    stationId: Option<string>,
    stationNumber: Option<int>,
    stationName: Option<string>,
    username: Option<string>,
    start: int,
    end: int,
    duration: Option<int>,
    amount: Option<int>,
    comment: Option<string>,
    startDate: Option<CalendarDate>,
    startClock: string,
    endClock: string)

  /** The footer of the table: the three totals and the texts shown for them. */
  datatype Footer = Footer(
    count: int,
    amount: int,
    seconds: int,
    countText: string,
    amountText: string,
    timeText: string)

  /** A string field used as a condition: absent and empty are both false. */
  predicate Truthy(s: Option<string>) {
    s.Some? && s.value != ""
  }

  /** A number field used as a condition: absent and zero are both false. */
  predicate NonZero(n: Option<int>) {
    n.Some? && n.value != 0
  }

  // ---------------------------------------------------------------- station filter

  /** The filter test: the row's id is the filter, or its number's decimal text is. */
  predicate Matches(r: LogRow, stationFilter: string) {
    (Truthy(r.stationId) && r.stationId.value == stationFilter)
    || (NonZero(r.stationNumber) && IntToString(r.stationNumber.value) == stationFilter)
  }

  /** The rows that pass the filter test, in their order. */
  function KeepMatching(rows: seq<LogRow>, stationFilter: string): (kept: seq<LogRow>)
    ensures |kept| <= |rows|
  {
    if rows == [] then []
    else (if Matches(rows[0], stationFilter) then [rows[0]] else [])
         + KeepMatching(rows[1..], stationFilter)
  }

  /** The rows the table shows: all of them without a filter (an empty selection), else
      those that pass the test. */
  function FilterRows(rows: seq<LogRow>, stationFilter: string): seq<LogRow>
  {
    if stationFilter == "" then rows else KeepMatching(rows, stationFilter)
  }

  // ---------------------------------------------------------------- per-row values

  /** `r.duration || Math.max(0, Math.floor((end - start) / 1000))`: the stored seconds
      when non-zero, otherwise the whole seconds between start and end, never below zero. */
  function RowDuration(r: LogRow): (d: int)
    ensures NonZero(r.duration) ==> d == r.duration.value
    ensures !NonZero(r.duration) ==> d >= 0
    ensures !NonZero(r.duration) && r.start <= r.end ==> d * 1000 <= r.end - r.start < d * 1000 + 1000
    ensures !NonZero(r.duration) && r.end < r.start ==> d == 0
  {
    if NonZero(r.duration) then r.duration.value
    else
      var whole := (r.end - r.start) / 1000;
      if whole > 0 then whole else 0
  }

  /** `Number(r.amount) || 0`. */
  function RowAmount(r: LogRow): int
  {
    r.amount.GetOr(0)
  }

  /** JavaScript's `%` for a positive divisor: the sign follows the dividend. */
  function JsRem(a: int, b: int): (m: int)
    requires b > 0
    ensures a >= 0 ==> m == a % b
    ensures a < 0 ==> -b < m <= 0 && -m == (-a) % b
  {
    if a >= 0 then a % b else -((-a) % b)
  }

  /** The Tiempo cell: `"H h M m"` when the duration has whole hours, else `"M m"`. */
  function RowTime(d: int): string
  {
    var hrs := d / 3600;
    var mins := JsRem(d, 3600) / 60;
    if hrs != 0 then Unit(hrs, " h " + Unit(mins, " m")) else Unit(mins, " m")
  }

  /** A number followed by the text after it: `${n}` + u. */
  function Unit(n: int, u: string): string
  {
    IntToString(n) + u
  }

  /** The Estación cell (also the CSV's): the name, with `" #<number>"` after it when the
      number is non-zero; without a name, `"#<number>"`; otherwise empty. */
  function StationLabel(r: LogRow): string
  {
    var tag := if NonZero(r.stationNumber) then "#" + IntToString(r.stationNumber.value) else "";
    if Truthy(r.stationName) then
      if tag != "" then r.stationName.value + " " + tag else r.stationName.value
    else tag
  }

  /** The Tiempo cell of one row. */
  function RowCell(r: LogRow): string
  {
    RowTime(RowDuration(r))
  }

  // ---------------------------------------------------------------- totals

  /** The amounts of the rows, added left to right. */
  function SumAmounts(rows: seq<LogRow>): int
  {
    if rows == [] then 0 else SumAmounts(rows[..|rows| - 1]) + RowAmount(rows[|rows| - 1])
  }

  /** The durations of the rows, added left to right. */
  function SumSeconds(rows: seq<LogRow>): int
  {
    if rows == [] then 0 else SumSeconds(rows[..|rows| - 1]) + RowDuration(rows[|rows| - 1])
  }

  /** The footer's time label: `"<m> m"` under an hour, else `"<h> h"` followed by
      `" <m> m"` only when the minutes are not zero. */
  function TotalLabel(seconds: int): string
  {
    var totalMins := seconds / 60;
    if totalMins < 60 then Unit(totalMins, " m")
    else
      var h, m := totalMins / 60, totalMins % 60;
      Unit(h, " h" + (if m != 0 then " " + Unit(m, " m") else ""))
  }

  /** `loadReport` from the fetched rows on: the filter, the per-row time texts and the
      footer. */
  method LoadReport(data: seq<LogRow>, stationFilter: string) returns (rowTimes: seq<string>, footer: Footer)
    ensures var shown := FilterRows(data, stationFilter);
      && |rowTimes| == |shown|
      && rowTimes == Each(shown, RowCell)
      && footer.count == |shown|
      && footer.amount == SumAmounts(shown)
      && footer.seconds == SumSeconds(shown)
      && footer.countText == IntToString(|shown|) + " vueltas"
      && footer.amountText == "C$ " + IntToString(SumAmounts(shown))
      && footer.timeText == TotalLabel(SumSeconds(shown))
  {
    var filtered := FilterRows(data, stationFilter);
    rowTimes := Each(filtered, RowCell);
    var totalsCount, totalsAmount, totalsSeconds := AddUpRows(filtered);
    footer := Footer(totalsCount, totalsAmount, totalsSeconds,
                     IntToString(totalsCount) + " vueltas",
                     "C$ " + IntToString(totalsAmount),
                     TotalLabel(totalsSeconds));
  }

  /** The running totals of the `forEach` over the shown rows. */
  method AddUpRows(rows: seq<LogRow>) returns (count: int, amount: int, seconds: int)
    ensures count == |rows| && amount == SumAmounts(rows) && seconds == SumSeconds(rows)
  {
    count, amount, seconds := 0, 0, 0;
    var i := 0;
    while i < |rows|
      invariant 0 <= i <= |rows|
      invariant count == i
      invariant amount == SumAmounts(rows[..i])
      invariant seconds == SumSeconds(rows[..i])
    {
      var r := rows[i];
      var duration := RowDuration(r);
      assert rows[..i + 1][..i] == rows[..i];
      count, amount, seconds := count + 1, amount + RowAmount(r), seconds + duration;
      i := i + 1;
    }
    assert rows[..i] == rows;
  }

  // ---------------------------------------------------------------- reading time texts back

  /** A time text as read back: `"<m> m"`, `"<h> h"` or `"<h> h <m> m"`. */
  datatype TimeText = Mins(m: nat) | Hrs(h: nat) | HrsMins(h: nat, m: nat)

  /** The whole minutes a time text names. */
  function TextMinutes(t: TimeText): nat
  {
    match t
    case Mins(m) => m
    case Hrs(h) => h * 60
    case HrsMins(h, m) => h * 60 + m
  }

  /** Reads a time text in its usual form only: a bare minute count under an hour, a whole
      number of hours from one on, or hours from one on followed by minutes under 60. */
  function ParseTimeText(t: string): Option<TimeText>
  {
    var k := DigitPrefixLen(t);
    if k == 0 then None else HoursOrMinutes(DigitsValue(t[..k]), t[k..])
  }

  /** What may follow the first number of a time text. */
  function HoursOrMinutes(n: nat, rest: string): Option<TimeText>
  {
    if rest == " m" then (if n < 60 then Some(Mins(n)) else None)
    else if rest == " h" then (if n >= 1 then Some(Hrs(n)) else None)
    else if |rest| > 3 && rest[..3] == " h " && n >= 1 then MinutesAfterHours(n, rest[3..])
    else None
  }

  function MinutesAfterHours(h: nat, tail: string): Option<TimeText>
  {
    var k := DigitPrefixLen(tail);
    if k > 0 && tail[k..] == " m" && DigitsValue(tail[..k]) < 60 then Some(HrsMins(h, DigitsValue(tail[..k])))
    else None
  }

  // ================================================================ lemmas

  /** The station cell is empty exactly when the row has neither a name nor a non-zero
      number; it starts with the name when there is one and ends with `#<number>` when the
      number is non-zero: the name alone, the tag alone, or the two with one space between. */
  lemma StationLabelParts(r: LogRow)
    ensures StationLabel(r) == "" <==> !Truthy(r.stationName) && !NonZero(r.stationNumber)
    ensures Truthy(r.stationName) ==> var name := r.stationName.value;
      |name| <= |StationLabel(r)| && StationLabel(r)[..|name|] == name
    ensures NonZero(r.stationNumber) ==> var tag := "#" + IntToString(r.stationNumber.value);
      |tag| <= |StationLabel(r)| && StationLabel(r)[|StationLabel(r)| - |tag|..] == tag
    ensures Truthy(r.stationName) && !NonZero(r.stationNumber) ==> StationLabel(r) == r.stationName.value
    ensures !Truthy(r.stationName) && NonZero(r.stationNumber) ==>
      StationLabel(r) == "#" + IntToString(r.stationNumber.value)
    ensures Truthy(r.stationName) && NonZero(r.stationNumber) ==>
      var name, tag := r.stationName.value, "#" + IntToString(r.stationNumber.value);
      |StationLabel(r)| == |name| + 1 + |tag| && StationLabel(r)[|name|] == ' '
  {
  }

  /** Filtering keeps the order: the rows kept from two runs of rows are those kept from
      the first followed by those kept from the second. */
  lemma {:induction false} FilterKeepsOrder(a: seq<LogRow>, b: seq<LogRow>, stationFilter: string)
    ensures FilterRows(a + b, stationFilter) == FilterRows(a, stationFilter) + FilterRows(b, stationFilter)
    decreases |a|
  {
    if stationFilter != "" {
      if a == [] {
        assert a + b == b;
      } else {
        assert (a + b)[0] == a[0];
        assert (a + b)[1..] == a[1..] + b;
        FilterKeepsOrder(a[1..], b, stationFilter);
      }
    }
  }

  /** A row is shown exactly when there is no filter or it passes the test; a row whose
      number is 0 is never kept for its number, since 0 is falsy. */
  lemma {:induction false} FilterMembership(rows: seq<LogRow>, stationFilter: string, r: LogRow)
    ensures r in FilterRows(rows, stationFilter) <==> r in rows && (stationFilter == "" || Matches(r, stationFilter))
    ensures r.stationNumber == Some(0) && !Truthy(r.stationId) ==> !Matches(r, stationFilter)
    decreases |rows|
  {
    if stationFilter != "" && rows != [] {
      FilterMembership(rows[1..], stationFilter, r);
      assert rows == [rows[0]] + rows[1..];
    }
  }

  /** Selecting a station by its number keeps every row carrying that non-zero number. */
  lemma FilterByNumber(rows: seq<LogRow>, n: int, r: LogRow)
    requires n != 0 && r in rows && r.stationNumber == Some(n)
    ensures r in FilterRows(rows, IntToString(n))
  {
    FilterMembership(rows, IntToString(n), r);
  }

  /** With no negative stored duration, every duration and the footer seconds are non-negative. */
  lemma {:induction false} SumSecondsNonNegative(rows: seq<LogRow>)
    requires forall i :: 0 <= i < |rows| ==> rows[i].duration.None? || rows[i].duration.value >= 0
    ensures SumSeconds(rows) >= 0
    decreases |rows|
  {
    if rows != [] {
      SumSecondsNonNegative(rows[..|rows| - 1]);
    }
  }

  /** The footer sums split over two runs of rows. */
  lemma {:induction false} SumsAppend(a: seq<LogRow>, b: seq<LogRow>)
    ensures SumAmounts(a + b) == SumAmounts(a) + SumAmounts(b)
    ensures SumSeconds(a + b) == SumSeconds(a) + SumSeconds(b)
    decreases |b|
  {
    if b == [] {
      assert a + b == a;
    } else {
      var n := |b| - 1;
      assert (a + b)[..|a + b| - 1] == a + b[..n];
      SumsAppend(a, b[..n]);
    }
  }

  /** A numeral followed by a text that does not start with a digit is read as that number. */
  lemma ReadUnit(n: nat, u: string)
    requires u == [] || !IsDigit(u[0])
    ensures ParseTimeText(Unit(n, u)) == HoursOrMinutes(n, u)
  {
    var ds := NatToString(n);
    NatToStringValue(n);
    DigitPrefixOfNumeral(ds, u);
    var t := ds + u;
    assert t[..|ds|] == ds && t[|ds|..] == u;
  }

  lemma ReadMinutesAfter(h: nat, m: nat)
    ensures MinutesAfterHours(h, Unit(m, " m")) == if m < 60 then Some(HrsMins(h, m)) else None
  {
    var ms := NatToString(m);
    NatToStringValue(m);
    DigitPrefixOfNumeral(ms, " m");
    var tail := ms + " m";
    assert tail[..|ms|] == ms && tail[|ms|..] == " m";
  }

  lemma HoursThenMinutes(h: nat, x: string)
    requires |x| > 0
    ensures HoursOrMinutes(h, " h " + x) == if h >= 1 then MinutesAfterHours(h, x) else None
  {
  }

  /** The Tiempo cell of a row reads back as the whole minutes of its duration, in the usual
      form: bare minutes under an hour, otherwise hours then the minutes under 60, never
      hours alone. */
  lemma RowTimeRoundTrip(d: int)
    requires d >= 0
    ensures ParseTimeText(RowTime(d)).Some?
    ensures var t := ParseTimeText(RowTime(d)).value;
      TextMinutes(t) == d / 60 && (t.Mins? <==> d < 3600) && !t.Hrs?
  {
    var hrs, mins := d / 3600, (d % 3600) / 60;
    assert JsRem(d, 3600) / 60 == mins;
    assert hrs * 60 + mins == d / 60;
    if hrs != 0 {
      var x := Unit(mins, " m");
      ReadUnit(hrs, " h " + x);
      HoursThenMinutes(hrs, x);
      ReadMinutesAfter(hrs, mins);
    } else {
      ReadUnit(mins, " m");
    }
  }

  /** The footer's time label reads back as the whole minutes of the total seconds, in the
      usual form: bare minutes under an hour, hours alone on a whole hour, otherwise hours
      then the minutes under 60. */
  lemma TotalLabelRoundTrip(seconds: int)
    requires seconds >= 0
    ensures ParseTimeText(TotalLabel(seconds)).Some?
    ensures var t := ParseTimeText(TotalLabel(seconds)).value;
      && TextMinutes(t) == seconds / 60
      && (t.Mins? <==> seconds / 60 < 60)
      && (t.Hrs? <==> seconds / 60 >= 60 && seconds / 60 % 60 == 0)
  {
    var totalMins := seconds / 60;
    if totalMins < 60 {
      ReadUnit(totalMins, " m");
    } else {
      var h, m := totalMins / 60, totalMins % 60;
      assert h * 60 + m == totalMins;
      if m != 0 {
        var x := Unit(m, " m");
        assert " h" + (" " + x) == " h " + x;
        ReadUnit(h, " h " + x);
        HoursThenMinutes(h, x);
        ReadMinutesAfter(h, m);
      } else {
        assert " h" + "" == " h";
        ReadUnit(h, " h");
      }
    }
  }
}
