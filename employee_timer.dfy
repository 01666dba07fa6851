/** The per-station rental timer of the employee view, as values: the record each station
    card keeps in the page's `state` map, the arithmetic derived from it (elapsed, remaining,
    percent), each handler's effect on the record, the stored snapshot, the duration options
    and the panel total. The card objects that hold these records are in EmployeeCards. */
module EmployeeTimer {
  import opened Wrappers
  import opened Decimal
  import opened ClockText

  /** `state[id]`: `running`, `startedAt` (epoch milliseconds, or null), `accumulated` (whole
      seconds banked by earlier runs), `total` (target seconds) and `amount`. The interval
      handle stored beside them is scheduling, not state. */
  datatype TimerRecord = TimerRecord(
    running: bool,
    startedAt: Option<int>,
    accumulated: int,
    total: int,
    amount: int)

  /** The record a card gets the first time it is set up. */
  const Fresh := TimerRecord(false, None, 0, 0, 0)

  /** A rate tier served by the back end: minutes and price. */
  datatype TimeRate = TimeRate(minutes: int, amount: int)

  /** An `<option>` of the card's duration select: its `value` text and, for options built
      from rate tiers, the number in `data-amount`. */
  datatype DurationOption = DurationOption(value: string, amount: Option<int>)

  /** What the page stores for one station and reads back after a reload; `None` is a
      field that is missing or null. `saveStateToStorage` writes every field but a falsy
      start mark, so `false` and `0` do occur as stored values. */
  datatype Snapshot = Snapshot(
    running: Option<bool>,
    startedAt: Option<int>,
    accumulated: Option<int>,
    total: Option<int>,
    amount: Option<int>)

  // ---------------------------------------------------------------- derived values

  /** `if (s.startedAt)`: a start mark of null or of 0 is falsy. */
  predicate HasMark(startedAt: Option<int>) {
    startedAt.Some? && startedAt.value != 0
  }

  /** `Math.floor((now - from) / 1000)`: the whole seconds from one instant to another. */
  function WholeSeconds(from: int, now: int): (d: int)
    ensures d * 1000 <= now - from < d * 1000 + 1000
    ensures from <= now ==> d >= 0
  {
    (now - from) / 1000
  }

  /** `getElapsed()`: the banked seconds, plus the current run when running with a mark. */
  function Elapsed(r: TimerRecord, now: int): (e: int)
    ensures !(r.running && HasMark(r.startedAt)) ==> e == r.accumulated
    ensures r.running && HasMark(r.startedAt) ==>
      (e - r.accumulated) * 1000 <= now - r.startedAt.value < (e - r.accumulated) * 1000 + 1000
  {
    if r.running && HasMark(r.startedAt) then r.accumulated + WholeSeconds(r.startedAt.value, now)
    else r.accumulated
  }

  /** `Math.max(0, s.total - elapsed)`. */
  function Remaining(r: TimerRecord, now: int): (rem: int)
    ensures rem >= 0
    ensures rem == 0 <==> Elapsed(r, now) >= r.total
    ensures rem > 0 ==> Elapsed(r, now) + rem == r.total
  {
    var e := Elapsed(r, now);
    if r.total - e > 0 then r.total - e else 0
  }

  /** `Math.round(e / t * 100)` for t > 0, in whole numbers: rounding half up. */
  function RoundPercent(e: int, t: int): (p: int)
    requires t > 0
    ensures 2 * t * p <= 200 * e + t < 2 * t * p + 2 * t
  {
    (200 * e + t) / (2 * t)
  }

  /** The bar width: 0 without a target, else the rounded percentage capped at 100. */
  function Percent(r: TimerRecord, now: int): (p: int)
    ensures r.total <= 0 ==> p == 0
    ensures p <= 100
    ensures r.total > 0 && Elapsed(r, now) >= 0 ==> p >= 0
    ensures r.total > 0 && Elapsed(r, now) >= r.total ==> p == 100
    ensures r.total > 0 ==> (p == 100 <==> 200 * r.total <= 200 * Elapsed(r, now) + r.total)
    ensures r.total > 0 && p < 100 ==>
      2 * r.total * p <= 200 * Elapsed(r, now) + r.total < 2 * r.total * p + 2 * r.total
  {
    if r.total > 0 then
      var e := Elapsed(r, now);
      var q := RoundPercent(e, r.total);
      PercentBounds(e, r.total, q);
      if q < 100 then q else 100
    else 0
  }

  lemma PercentBounds(e: int, t: int, q: int)
    requires t > 0
    requires 2 * t * q <= 200 * e + t < 2 * t * q + 2 * t
    ensures e >= 0 ==> q >= 0
    ensures e >= t ==> q >= 100
    ensures q >= 100 <==> 200 * t <= 200 * e + t
  {
    if e >= 0 {
      assert t * (2 * q + 1) > 0;
      PositiveFactor(t, 2 * q + 1);
    }
    if e >= t {
      assert t * (2 * q - 199) > 0;
      PositiveFactor(t, 2 * q - 199);
    }
    if 200 * t <= 200 * e + t {
      assert t * (2 * q - 198) > 0;
      PositiveFactor(t, 2 * q - 198);
    }
    if q >= 100 {
      assert 2 * t * q - 200 * t == 2 * t * (q - 100);
      NonNegativeProduct(t, q - 100);
    }
  }

  lemma NonNegativeProduct(t: int, x: int)
    requires t > 0 && x >= 0
    ensures t * x >= 0
  {
  }

  /** A product with a positive factor is positive only when the other factor is. */
  lemma PositiveFactor(t: int, x: int)
    requires t > 0 && t * x > 0
    ensures x > 0
  {
  }

  /** `Math.round(total / 60)`: the amount `finishTimer` charges, the target in minutes
      rounded half up. */
  function RoundMinutes(total: int): (a: int)
    ensures 60 * a - 30 <= total < 60 * a + 30
  {
    (total + 30) / 60
  }

  /** What `updateUI()` writes into the card: the elapsed and remaining clocks, the bar
      width in percent and the amount. */
  datatype CardView = CardView(elapsedText: string, remainingText: string, barWidth: int, amountText: string)

  function View(r: TimerRecord, now: int): (v: CardView)
    ensures var e := Elapsed(r, now);
      && ParseClock(v.elapsedText) == Some(if e > 0 then e else 0)
      && ParseClock(v.remainingText) == Some(Remaining(r, now))
      && v.barWidth == Percent(r, now)
      && v.barWidth <= 100 && (r.total <= 0 || e >= 0 ==> v.barWidth >= 0)
      && ParseInt(v.amountText) == Some(r.amount)
  {
    var e := Elapsed(r, now);
    FmtRoundTrip(if e > 0 then e else 0);
    FmtRoundTrip(Remaining(r, now));
    ParseIntOfIntToString(r.amount);
    CardView(Fmt(if e > 0 then e else 0), Fmt(Remaining(r, now)), Percent(r, now), IntToString(r.amount))
  }

  // ---------------------------------------------------------------- duration options

  /** The select's options: one per rate tier when the tiers loaded, else the four fixed
      ones, which carry no `data-amount`. */
  function DurationOptions(rates: seq<TimeRate>): (os: seq<DurationOption>)
    ensures |os| == if |rates| > 0 then |rates| else |FixedMinutes|
    ensures forall i :: 0 <= i < |os| ==> (os[i].amount.Some? <==> |rates| > 0)
  {
    if |rates| > 0 then
      seq(|rates|, i requires 0 <= i < |rates| =>
        DurationOption(IntToString(rates[i].minutes), Some(rates[i].amount)))
    else
      seq(|FixedMinutes|, i requires 0 <= i < |FixedMinutes| =>
        DurationOption(IntToString(FixedMinutes[i]), None))
  }

  /** The minutes of the fixed options, used when no tier could be loaded. */
  const FixedMinutes: seq<nat> := [15, 30, 45, 60]

  /** The option a fresh select shows: the first tier, or the fixed option marked `selected`. */
  function DefaultOption(rates: seq<TimeRate>): DurationOption
  {
    if |rates| > 0 then DurationOptions(rates)[0] else DurationOptions([])[1]
  }

  /** `parseInt(durationSel.value, 10) || 0`. */
  function OptionMinutes(opt: DurationOption): int
  {
    ParseInt(opt.value).GetOr(0)
  }

  // ---------------------------------------------------------------- the handlers' effects

  /** The start button on a station that is not running: a target is set only when there
      is none, then the run begins now. */
  function Started(r: TimerRecord, now: int, minutes: int): (s: TimerRecord)
    ensures s.running && (HasMark(s.startedAt) <==> now != 0)
    ensures s.accumulated == r.accumulated && s.amount == r.amount
    ensures s.total == 0 <==> r.total == 0 && minutes == 0
    ensures s.total == if r.total != 0 then r.total else minutes * 60
    ensures s.startedAt == Some(now)
    ensures now != 0 ==> Elapsed(s, now) == r.accumulated
  {
    r.(total := if r.total == 0 then minutes * 60 else r.total,
       startedAt := Some(now),
       running := true)
  }

  /** The start button on a running station: the current run is banked and the mark cleared. */
  function Paused(r: TimerRecord, now: int): (p: TimerRecord)
    ensures !p.running && !HasMark(p.startedAt)
    ensures r.running ==> p.accumulated == Elapsed(r, now)
    ensures p.total == r.total && p.amount == r.amount
  {
    r.(accumulated := r.accumulated
         + (if HasMark(r.startedAt) then WholeSeconds(r.startedAt.value, now) else 0),
       startedAt := None,
       running := false)
  }

  /** `finishTimer()`: the amount becomes the rounded minutes of the target and the counter
      stops at the target. */
  function Completed(r: TimerRecord): (c: TimerRecord)
    ensures !c.running && !HasMark(c.startedAt)
    ensures c.accumulated == c.total == r.total
    ensures 60 * c.amount - 30 <= r.total < 60 * c.amount + 30
  {
    r.(amount := RoundMinutes(r.total), running := false, startedAt := None, accumulated := r.total)
  }

  /** The test `tick()` applies before calling `finishTimer()`. */
  predicate Due(r: TimerRecord, now: int) {
    r.total > 0 && Elapsed(r, now) >= r.total
  }

  /** `tick()`: completion when due, otherwise only the display is refreshed. */
  function Ticked(r: TimerRecord, now: int): (t: TimerRecord)
    ensures t == r || t == Completed(r)
    ensures t != r ==> Due(r, now)
    ensures Remaining(t, now) == Remaining(r, now)
  {
    if Due(r, now) then Completed(r) else r
  }

  /** The finalize button: the run state is cleared, the counters and the amount stay. */
  function Finalized(r: TimerRecord): (f: TimerRecord)
    ensures !f.running && !HasMark(f.startedAt)
    ensures f.(running := r.running, startedAt := r.startedAt) == r
  {
    r.(running := false, startedAt := None)
  }

  /** `applySelectedDuration()`: the target becomes the option's minutes, running or not;
      the amount follows the option only when it has a `data-amount`. */
  function WithDuration(r: TimerRecord, opt: DurationOption): (w: TimerRecord)
    ensures w.total == OptionMinutes(opt) * 60 && w.amount == opt.amount.GetOr(r.amount)
    ensures w.(total := r.total, amount := r.amount) == r
  {
    r.(total := OptionMinutes(opt) * 60,
       amount := if opt.amount.Some? then opt.amount.value else r.amount)
  }

  // ---------------------------------------------------------------- snapshot and restore

  /** The entry `saveStateToStorage` writes for one station. */
  function Save(r: TimerRecord): (p: Snapshot)
    ensures p.running.Some? && p.accumulated.Some? && p.total.Some? && p.amount.Some?
    ensures p.startedAt.Some? <==> HasMark(r.startedAt)
    ensures r.startedAt != Some(0) ==> Load(p) == r
  {
    Snapshot(Some(r.running), if HasMark(r.startedAt) then r.startedAt else None,
             Some(r.accumulated), Some(r.total), Some(r.amount))
  }

  /** The copy `initCard` makes of a stored entry, with the same defaults. */
  function Load(p: Snapshot): (r: TimerRecord)
    ensures r.startedAt != Some(0)
    ensures r.startedAt.Some? <==> HasMark(p.startedAt)
    ensures HasMark(p.startedAt) ==> r.startedAt == p.startedAt
    ensures r.running == p.running.GetOr(false) && r.accumulated == p.accumulated.GetOr(0)
      && r.total == p.total.GetOr(0) && r.amount == p.amount.GetOr(0)
  {
    TimerRecord(p.running.GetOr(false), if HasMark(p.startedAt) then p.startedAt else None,
                p.accumulated.GetOr(0), p.total.GetOr(0), p.amount.GetOr(0))
  }

  /** A start mark later than now, on a running station, is moved back to now. */
  function ClampStart(r: TimerRecord, now: int): (c: TimerRecord)
    ensures c.running && HasMark(c.startedAt) ==> c.startedAt.value <= now
    ensures c.(startedAt := r.startedAt) == r
    ensures r.running && HasMark(r.startedAt) && now < r.startedAt.value ==>
      c.startedAt == Some(now) && Elapsed(c, now) == r.accumulated
    ensures !(r.running && HasMark(r.startedAt) && now < r.startedAt.value) ==> c == r
  {
    if r.running && HasMark(r.startedAt) && now - r.startedAt.value < 0 then r.(startedAt := Some(now))
    else r
  }

  /** `initCard` on a station whose record is `r`: copy in the stored entry if any, clamp
      the start mark, apply the selected duration, and complete at once when already due. */
  function Restored(r: TimerRecord, stored: Option<Snapshot>, opt: DurationOption, now: int): (s: TimerRecord)
    ensures s.total == OptionMinutes(opt) * 60
    ensures s.running && HasMark(s.startedAt) ==> s.startedAt.value <= now
    ensures Ticked(s, now) == s
    ensures var loaded := if stored.Some? then Load(stored.value) else r;
      var e, target := Elapsed(ClampStart(loaded, now), now), OptionMinutes(opt) * 60;
      var due := target > 0 && e >= target;
      s.accumulated == (if due then target else loaded.accumulated)
      && Elapsed(s, now) == (if due then target else e)
  {
    var loaded := if stored.Some? then Load(stored.value) else r;
    var applied := WithDuration(ClampStart(loaded, now), opt);
    Ticked(applied, now)
  }

  // ---------------------------------------------------------------- panel total

  /** `updatePanelTotal()`: the sum of the stations' amounts, left to right. */
  function PanelTotal(rs: seq<TimerRecord>): (t: int)
    ensures (forall j :: 0 <= j < |rs| ==> rs[j].amount >= 0) ==> t >= 0
  {
    if rs == [] then 0 else PanelTotal(rs[..|rs| - 1]) + rs[|rs| - 1].amount
  }

  // ================================================================ lemmas

  /** Elapsed time never runs backwards while the record stays as it is. */
  lemma ElapsedMonotone(r: TimerRecord, t1: int, t2: int)
    requires t1 <= t2
    ensures Elapsed(r, t1) <= Elapsed(r, t2)
  {
  }

  /** Pressing the start button never changes the elapsed time shown at that instant:
      a pause banks exactly what the run showed, a start or resume begins from what was banked. */
  lemma ButtonKeepsElapsed(r: TimerRecord, now: int, minutes: int)
    ensures r.running ==> Elapsed(Paused(r, now), now) == Elapsed(r, now)
    ensures !r.running ==> Elapsed(Started(r, now, minutes), now) == Elapsed(r, now)
  {
  }

  /** A paused station is frozen: its elapsed time is the same at every later instant,
      and equals what was banked plus the whole seconds of the run just ended. */
  lemma PausedIsFrozen(r: TimerRecord, t0: int, t1: int, later: int, minutes: int)
    requires !r.running && t0 != 0
    ensures Elapsed(Paused(Started(r, t0, minutes), t1), later) == r.accumulated + WholeSeconds(t0, t1)
  {
  }

  /** Starting resumes the session: from the start on, the elapsed time is what was banked
      plus the whole seconds since the start; a target already set survives a pause and a
      second start whatever minutes are selected then; and the run is due at its first
      instant only when the banked seconds already reach the target. */
  lemma StartKeepsSession(r: TimerRecord, t0: int, t1: int, t2: int, later: int, minutes: int, minutes2: int)
    requires !r.running && t0 != 0
    ensures Elapsed(Started(r, t0, minutes), later) == r.accumulated + WholeSeconds(t0, later)
    ensures var s := Started(r, t0, minutes); s.total != 0 ==>
      Started(Paused(s, t1), t2, minutes2).total == s.total
      && Started(Paused(s, t1), t2, minutes2).amount == r.amount
    ensures var s := Started(r, t0, minutes);
      Due(s, t0) <==> s.total > 0 && r.accumulated >= s.total
  {
  }

  /** A run started at t0 with a banked count a and a target T > a completes at the first
      tick at or after t0 + (T - a) seconds, and not before. */
  lemma CompletionInstant(r: TimerRecord, t0: int, now: int, minutes: int)
    requires !r.running && t0 != 0
    requires Started(r, t0, minutes).total > 0
    ensures var s := Started(r, t0, minutes);
      Due(s, now) <==> now - t0 >= (s.total - r.accumulated) * 1000
  {
  }

  /** A completed station shows the full target, nothing remaining and a full bar, and a
      further tick changes nothing. */
  lemma CompletedIsFinal(r: TimerRecord, now: int)
    requires r.total > 0
    ensures Elapsed(Completed(r), now) == r.total
    ensures Remaining(Completed(r), now) == 0
    ensures Percent(Completed(r), now) == 100
    ensures Ticked(Completed(r), now) == Completed(r)
    ensures Completed(r).amount * 60 - 30 <= r.total < Completed(r).amount * 60 + 30
  {
  }

  /** A tick never changes the time remaining; when due it stops the counter exactly at the
      target and charges the rounded minutes, otherwise it leaves the station as it was; a
      second tick at the same instant changes nothing. */
  lemma TickEffect(r: TimerRecord, now: int)
    ensures Elapsed(Ticked(r, now), now) == if Due(r, now) then r.total else Elapsed(r, now)
    ensures Remaining(Ticked(r, now), now) == Remaining(r, now)
    ensures Ticked(Ticked(r, now), now) == Ticked(r, now)
    ensures Due(r, now) ==> !Ticked(r, now).running && Ticked(r, now).amount == RoundMinutes(r.total)
    ensures !Due(r, now) ==> Ticked(r, now) == r
  {
  }

  /** Finalizing only stops the run: banked seconds, target and amount are kept, so a
      finalized completed station still shows its full target. */
  lemma FinalizeKeepsCounters(r: TimerRecord, now: int)
    requires r.total > 0
    ensures var f := Finalized(Completed(r));
      !f.running && f.startedAt == None && f.accumulated == r.total && f.total == r.total
      && f.amount == RoundMinutes(r.total) && Elapsed(f, now) == r.total
  {
  }

  /** A duration change takes effect at once, even on a running station: the elapsed time
      stays, the station is due exactly when the option's minutes are positive and already
      reached, and the panel amount moves only when the option carries one. */
  lemma DurationChange(r: TimerRecord, opt: DurationOption, now: int)
    ensures Elapsed(WithDuration(r, opt), now) == Elapsed(r, now)
    ensures Due(WithDuration(r, opt), now) <==>
      OptionMinutes(opt) > 0 && Elapsed(r, now) >= OptionMinutes(opt) * 60
    ensures Remaining(WithDuration(r, opt), now)
      == if OptionMinutes(opt) * 60 > Elapsed(r, now) then OptionMinutes(opt) * 60 - Elapsed(r, now) else 0
    ensures WithDuration(r, opt).amount == opt.amount.GetOr(r.amount)
  {
  }

  /** An option built from a tier reads back as that tier's minutes and amount. */
  lemma RateOptionReadsBack(rates: seq<TimeRate>, i: int)
    requires 0 <= i < |rates|
    ensures |DurationOptions(rates)| == |rates|
    ensures OptionMinutes(DurationOptions(rates)[i]) == rates[i].minutes
    ensures DurationOptions(rates)[i].amount == Some(rates[i].amount)
  {
    ParseIntOfIntToString(rates[i].minutes);
  }

  /** Without tiers the select offers 15, 30, 45 and 60 minutes, and no option carries an
      amount, so changing the duration never touches the amount. */
  lemma FallbackOptions(r: TimerRecord, i: int)
    requires 0 <= i < |FixedMinutes|
    ensures |DurationOptions([])| == 4
    ensures OptionMinutes(DurationOptions([])[i]) == FixedMinutes[i]
    ensures DurationOptions([])[i].amount == None
    ensures WithDuration(r, DurationOptions([])[i]).amount == r.amount
  {
    var opt := DurationOptions([])[i];
    assert opt == DurationOption(IntToString(FixedMinutes[i]), None);
    ParseIntOfIntToString(FixedMinutes[i]);
  }

  /** Without tiers the preselected option is the 30-minute one. */
  lemma FallbackDefault()
    ensures OptionMinutes(DefaultOption([])) == 30
  {
    assert DefaultOption([]) == DurationOption(IntToString(30), None);
    ParseIntOfIntToString(30);
  }

  /** The stored entry keeps every field, except that a falsy start mark is stored as
      null: reading back a saved record gives it back exactly when its mark is not 0. */
  lemma SaveLoad(r: TimerRecord)
    ensures Load(Save(r)) == r <==> r.startedAt != Some(0)
    ensures Load(Save(Load(Save(r)))) == Load(Save(r))
  {
  }

  /** After a reload the start mark is never in the future, so elapsed is at least the
      banked count; the target is always the selected option's, completed or not. */
  lemma RestoreClamps(r: TimerRecord, stored: Option<Snapshot>, opt: DurationOption, now: int)
    ensures var s := Restored(r, stored, opt, now);
      (s.running && HasMark(s.startedAt) ==> s.startedAt.value <= now)
      && Elapsed(s, now) >= s.accumulated
      && s.total == OptionMinutes(opt) * 60
  {
  }

  /** A station saved and reloaded with the option that matches its target carries on as
      if no reload had happened: same elapsed time, and completion when already due. */
  lemma ReloadResumes(base: TimerRecord, r: TimerRecord, opt: DurationOption, now: int)
    requires r.startedAt != Some(0)
    requires r.running && HasMark(r.startedAt) ==> r.startedAt.value <= now
    requires r.total == OptionMinutes(opt) * 60
    requires opt.amount.None? || opt.amount == Some(r.amount)
    ensures Restored(base, Some(Save(r)), opt, now) == Ticked(r, now)
    ensures Elapsed(Restored(base, Some(Save(r)), opt, now), now)
         == if Due(r, now) then r.total else Elapsed(r, now)
  {
  }

  /** At page load every card's select is newly built, so the reload applies its default
      option: the target becomes the first tier's minutes, or 30 minutes without tiers,
      whatever target the station had; the amount becomes the first tier's unless the station
      is due under the new target, in which case it completes with that target's minutes. */
  lemma PageLoadRetargets(r: TimerRecord, stored: Option<Snapshot>, rates: seq<TimeRate>, now: int)
    ensures var loaded := if stored.Some? then Load(stored.value) else r;
      var target := (if |rates| > 0 then rates[0].minutes else 30) * 60;
      var due := target > 0 && Elapsed(ClampStart(loaded, now), now) >= target;
      var s := Restored(r, stored, DefaultOption(rates), now);
      && s.total == target
      && s.running == (loaded.running && !due)
      && s.amount == (if due then RoundMinutes(target) else if |rates| > 0 then rates[0].amount else loaded.amount)
      && s.accumulated == (if due then target else loaded.accumulated)
      && Elapsed(s, now) == (if due then target else Elapsed(ClampStart(loaded, now), now))
  {
    if |rates| > 0 {
      RateOptionReadsBack(rates, 0);
    } else {
      FallbackDefault();
    }
  }

  /** Concretely: a 30-minute run on tiers of 15 and 30 minutes, reloaded 20 minutes after
      its start, is retargeted to 15 minutes and completes at once; the amount becomes the
      rounded minutes, 15, not either tier price. */
  lemma PageLoadExample()
    ensures var rates := [TimeRate(15, 50), TimeRate(30, 100)];
      var r := TimerRecord(true, Some(1000), 0, 1800, 100);
      Restored(Fresh, Some(Save(r)), DefaultOption(rates), 1000 + 1200 * 1000)
        == TimerRecord(false, None, 900, 900, 15)
  {
    var rates := [TimeRate(15, 50), TimeRate(30, 100)];
    PageLoadRetargets(Fresh, Some(Save(TimerRecord(true, Some(1000), 0, 1800, 100))), rates, 1000 + 1200 * 1000);
  }

  /** Changing one station's record moves the panel total by the change in its amount. */
  lemma {:induction false} PanelTotalUpdate(rs: seq<TimerRecord>, i: int, r: TimerRecord)
    requires 0 <= i < |rs|
    ensures PanelTotal(rs[i := r]) == PanelTotal(rs) - rs[i].amount + r.amount
    decreases |rs|
  {
    var n := |rs| - 1;
    if i < n {
      assert rs[i := r][..n] == rs[..n][i := r];
      PanelTotalUpdate(rs[..n], i, r);
    } else {
      assert rs[i := r][..n] == rs[..n];
    }
  }

  /** With no negative amount the panel total is at least each station's amount. */
  lemma {:induction false} PanelTotalBounds(rs: seq<TimerRecord>, i: int)
    requires forall j :: 0 <= j < |rs| ==> rs[j].amount >= 0
    requires 0 <= i < |rs|
    ensures PanelTotal(rs) >= rs[i].amount >= 0
    decreases |rs|
  {
    var n := |rs| - 1;
    if i < n {
      PanelTotalBounds(rs[..n], i);
    }
  }

  /** With no negative amount the panel total is not negative and covers every amount. */
  lemma PanelTotalCovers(rs: seq<TimerRecord>)
    ensures (forall j :: 0 <= j < |rs| ==> rs[j].amount >= 0) ==>
      PanelTotal(rs) >= 0 && forall j :: 0 <= j < |rs| ==> PanelTotal(rs) >= rs[j].amount
  {
    if forall j :: 0 <= j < |rs| ==> rs[j].amount >= 0 {
      forall j | 0 <= j < |rs|
        ensures PanelTotal(rs) >= rs[j].amount
      {
        PanelTotalBounds(rs, j);
      }
    }
  }

  /** Resetting a station takes its amount out of the panel total; completing one puts its
      rounded minutes in, whether or not anyone has finalized it. */
  lemma PanelTotalAfterResetOrCompletion(rs: seq<TimerRecord>, i: int)
    requires 0 <= i < |rs|
    ensures PanelTotal(rs[i := Fresh]) == PanelTotal(rs) - rs[i].amount
    ensures PanelTotal(rs[i := Completed(rs[i])]) == PanelTotal(rs) - rs[i].amount + RoundMinutes(rs[i].total)
  {
    PanelTotalUpdate(rs, i, Fresh);
    PanelTotalUpdate(rs, i, Completed(rs[i]));
  }
}
