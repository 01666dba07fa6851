/** The checks the admin view runs on the rate-tier forms before sending them: the form that
    adds a tier and the modal that edits one. Minutes are read with `parseInt`; the amount
    field is given already read as a number (`None` for `NaN`). */
module AdminRates {
  import opened Wrappers
  import opened Decimal
  import opened EmployeeTimer

  /** Why a form is refused: the "Minutos inválidos" and "Monto inválido" warnings, and the
      modal submitted with no tier open, which does nothing. */
  datatype RateError = InvalidMinutes | InvalidAmount | NoRateSelected

  /** `createTimeRate`: refused unless the minutes are a positive whole number; a missing
      amount is sent as 0 and a negative one is sent as it is. */
  function ValidateNewRate(minutesText: string, amount: Option<int>): (r: Result<TimeRate, RateError>)
    ensures r.Ok? <==> ParseInt(minutesText).Some? && ParseInt(minutesText).value > 0
    ensures r.Ok? ==> r.value.minutes == ParseInt(minutesText).value > 0 && r.value.amount == amount.GetOr(0)
    ensures r.Err? ==> r.error == InvalidMinutes
  {
    var minutes := ParseInt(minutesText).GetOr(0);
    if minutes == 0 || minutes <= 0 then Err(InvalidMinutes)
    else Ok(TimeRate(minutes, amount.GetOr(0)))
  }

  /** `saveTimeRateFromModal`: nothing happens without an open tier; otherwise refused when
      the minutes are not a positive number, then when the amount is missing or negative. */
  function ValidateRateEdit(editing: Option<TimeRate>, minutesText: string, amount: Option<int>)
    : (r: Result<TimeRate, RateError>)
    ensures r.Ok? <==> editing.Some? && ParseInt(minutesText).Some? && ParseInt(minutesText).value > 0
                       && amount.Some? && amount.value >= 0
    ensures r.Ok? ==> r.value == TimeRate(ParseInt(minutesText).value, amount.value)
    ensures r == Err(NoRateSelected) <==> editing.None?
    ensures r == Err(InvalidAmount) <==> editing.Some? && ParseInt(minutesText).Some? && ParseInt(minutesText).value > 0
                                         && (amount.None? || amount.value < 0)
  {
    if editing.None? then Err(NoRateSelected)
    else
      match ParseInt(minutesText)
      case None => Err(InvalidMinutes)
      case Some(mins) =>
        if mins <= 0 then Err(InvalidMinutes)
        else if amount.None? || amount.value < 0 then Err(InvalidAmount)
        else Ok(TimeRate(mins, amount.value))
  }

  // ================================================================ lemmas

  /** The modal opens with the tier's own minutes and amount written in; saving it unchanged
      gives the same tier back, unless its minutes are not positive or its amount is negative. */
  lemma ModalRoundTrip(rate: TimeRate)
    ensures ValidateRateEdit(Some(rate), IntToString(rate.minutes), Some(rate.amount)) ==
      if rate.minutes <= 0 then Err(InvalidMinutes)
      else if rate.amount < 0 then Err(InvalidAmount)
      else Ok(rate)
  {
    ParseIntOfIntToString(rate.minutes);
  }

  /** Whatever the edit form accepts, the add form accepts as the same tier; the add form
      alone lets a negative amount through. */
  lemma EditIsStricter(editing: Option<TimeRate>, minutesText: string, amount: Option<int>)
    ensures ValidateRateEdit(editing, minutesText, amount).Ok? ==>
      ValidateNewRate(minutesText, amount) == ValidateRateEdit(editing, minutesText, amount)
    ensures ValidateNewRate(minutesText, amount).Ok? && amount.Some? && amount.value < 0 ==>
      ValidateRateEdit(editing, minutesText, amount).Err?
  {
  }

  /** A tier the add form accepts gives every station whose select shows it a positive
      target of its minutes in seconds, and that tier's price as the amount. */
  lemma AcceptedRateGivesTarget(minutesText: string, amount: Option<int>, r: TimerRecord)
    requires ValidateNewRate(minutesText, amount).Ok?
    ensures var rate := ValidateNewRate(minutesText, amount).value;
      var s := WithDuration(r, DurationOptions([rate])[0]);
      s.total == rate.minutes * 60 && s.total > 0 && s.amount == rate.amount
  {
    var rate := ValidateNewRate(minutesText, amount).value;
    RateOptionReadsBack([rate], 0);
  }
}
