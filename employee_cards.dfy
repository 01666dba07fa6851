/** The station cards of the employee view as objects: each card's record is updated in
    place by its button handlers, its tick and its set-up, and the page keeps the records
    in the `state` map keyed by station id. */
module EmployeeCards {
  import opened Wrappers
  import opened EmployeeTimer

  /** One entry of `state`, changed in place by the card's handlers. */
  class Station {
    var running: bool
    var startedAt: Option<int>
    var accumulated: int
    var total: int
    var amount: int

    /** The record as a value, which EmployeeTimer reasons about. */
    function Record(): TimerRecord
      reads this
    {
      TimerRecord(running, startedAt, accumulated, total, amount)
    }

    /** `{ running: false, startedAt: null, accumulated: 0, total: 0, amount: 0 }`. */
    constructor ()
      ensures Record() == Fresh
    {
      running, startedAt, accumulated, total, amount := false, None, 0, 0, 0;
    }

    /** The start button: start or resume when not running, pause when running. Either way
        the elapsed time at that instant is unchanged. */
    method PressStart(now: int, selected: DurationOption)
      modifies this
      ensures Record() == if old(running) then Paused(old(Record()), now)
                          else Started(old(Record()), now, OptionMinutes(selected))
      ensures Elapsed(Record(), now) == old(Elapsed(Record(), now))
    {
      ButtonKeepsElapsed(Record(), now, OptionMinutes(selected));
      if !running {
        var mins := OptionMinutes(selected);
        if total == 0 {
          total := mins * 60;
        }
        startedAt := Some(now);
        running := true;
      } else {
        if HasMark(startedAt) {
          accumulated := accumulated + WholeSeconds(startedAt.value, now);
        }
        startedAt := None;
        running := false;
      }
    }

    /** `finishTimer()`. */
    method Finish()
      modifies this
      ensures Record() == Completed(old(Record()))
    {
      amount := RoundMinutes(total);
      running := false;
      startedAt := None;
      accumulated := total;
    }

    /** `tick()`: the station completes exactly when it has a target and has reached it. */
    method Tick(now: int) returns (completed: bool)
      modifies this
      ensures completed <==> old(total) > 0 && old(Elapsed(Record(), now)) >= old(total)
      ensures Record() == Ticked(old(Record()), now)
    {
      var elapsed := Elapsed(Record(), now);
      completed := total > 0 && elapsed >= total;
      if completed {
        Finish();
      }
    }

    /** The reset button. */
    method Reset()
      modifies this
      ensures Record() == Fresh
    {
      running, startedAt, accumulated, total, amount := false, None, 0, 0, 0;
    }

    /** The finalize button: only the run state is cleared. */
    method Finalize()
      modifies this
      ensures Record() == Finalized(old(Record()))
      ensures accumulated == old(accumulated) && total == old(total) && amount == old(amount)
    {
      running := false;
      startedAt := None;
    }

    /** `applySelectedDuration()`, also run when the select changes. */
    method ApplySelectedDuration(selected: DurationOption)
      modifies this
      ensures Record() == WithDuration(old(Record()), selected)
    {
      total := OptionMinutes(selected) * 60;
      if selected.amount.Some? {
        amount := selected.amount.value;
      }
    }

    /** The part of `initCard` that touches the record: copy in the stored entry, clamp a
        future start mark, apply the selected duration, and complete when already due. */
    method Restore(stored: Option<Snapshot>, selected: DurationOption, now: int) returns (completed: bool)
      modifies this
      ensures Record() == Restored(old(Record()), stored, selected, now)
      ensures completed == Due(WithDuration(ClampStart(
        if stored.Some? then Load(stored.value) else old(Record()), now), selected), now)
    {
      if stored.Some? {
        var p := stored.value;
        running := p.running.GetOr(false);
        startedAt := if HasMark(p.startedAt) then p.startedAt else None;
        accumulated := p.accumulated.GetOr(0);
        total := p.total.GetOr(0);
        amount := p.amount.GetOr(0);
      }
      if running && HasMark(startedAt) {
        if now - startedAt.value < 0 {
          startedAt := Some(now);
        }
      }
      ApplySelectedDuration(selected);
      completed := total > 0 && Elapsed(Record(), now) >= total;
      if completed {
        Finish();
      }
    }
  }

  /** The page's `state` map with its keys in insertion order, as `Object.keys` lists them. */
  class Board {
    var ids: seq<string>
    var state: map<string, Station>

    /** Every key listed once, and no two keys sharing a record. */
    ghost predicate Valid()
      reads this
    {
      && (forall i :: 0 <= i < |ids| ==> ids[i] in state)
      && (forall k :: k in state ==> k in ids)
      && (forall i, j :: 0 <= i < j < |ids| ==> ids[i] != ids[j])
      && (forall k1, k2 :: k1 in state && k2 in state && k1 != k2 ==> state[k1] != state[k2])
    }

    constructor ()
      ensures Valid() && ids == [] && state == map[]
    {
      ids, state := [], map[];
    }

    /** The records of the listed keys, in order. */
    function RecordsOf(ks: seq<string>): (rs: seq<TimerRecord>)
      reads this, state.Values
      requires forall k :: k in ks ==> k in state
      ensures |rs| == |ks|
      ensures forall i :: 0 <= i < |ks| ==> rs[i] == state[ks[i]].Record()
    {
      if ks == [] then [] else RecordsOf(ks[..|ks| - 1]) + [state[ks[|ks| - 1]].Record()]
    }

    /** `Object.values(state)`, as records. */
    function Records(): seq<TimerRecord>
      reads this, state.Values
      requires Valid()
    {
      RecordsOf(ids)
    }

    /** `updatePanelTotal()`: the sum of every station's amount; with no negative amount it
        is never negative and never below the amount of any station in the key order, which
        lists every station. */
    function Total(): (t: int)
      reads this, state.Values
      requires Valid()
      ensures (forall k :: k in state ==> state[k].amount >= 0) ==>
        t >= 0 && forall i :: 0 <= i < |ids| ==> t >= state[ids[i]].amount
    {
      var rs := Records();
      PanelTotalCovers(rs);
      PanelTotal(rs)
    }

    /** The record of `id`, or a fresh one for an id not seen yet. */
    ghost function RecordOf(id: string): TimerRecord
      reads this, state.Values
    {
      if id in state then state[id].Record() else Fresh
    }

    /** `if (!state[id]) state[id] = {...}`: the station of `id`, created fresh on first sight. */
    method Lookup(id: string) returns (s: Station)
      requires Valid()
      modifies this
      ensures Valid()
      ensures state == old(state)[id := s]
      ensures id in old(state) ==> s == old(state[id]) && ids == old(ids)
      ensures id !in old(state) ==> fresh(s) && ids == old(ids) + [id]
      ensures s.Record() == old(RecordOf(id))
    {
      if id in state {
        s := state[id];
      } else {
        s := new Station();
        state := state[id := s];
        ids := ids + [id];
      }
    }

    /** `initCard` for one card, called as the card is built: the record is created on
        first sight of the id, then restored with the option a fresh select shows for the
        loaded tiers. No other station changes. */
    method InitCard(id: string, stored: Option<Snapshot>, rates: seq<TimeRate>, now: int)
      returns (completed: bool)
      requires Valid()
      modifies this, state.Values
      ensures Valid()
      ensures state.Keys == old(state).Keys + {id}
      ensures id in old(state) ==> state[id] == old(state[id])
      ensures ids == if id in old(state) then old(ids) else old(ids) + [id]
      ensures state[id].Record() == Restored(old(RecordOf(id)), stored, DefaultOption(rates), now)
      ensures forall k :: k in old(state) && k != id ==>
        state[k] == old(state[k]) && state[k].Record() == old(state[k].Record())
    {
      var s := Lookup(id);
      completed := s.Restore(stored, DefaultOption(rates), now);
    }

    /** `saveStateToStorage()`: one snapshot per key of `state`. */
    method SaveState() returns (saved: map<string, Snapshot>)
      requires Valid()
      ensures saved.Keys == state.Keys
      ensures forall k :: k in state ==> saved[k] == Save(state[k].Record())
    {
      saved := map[];
      var i := 0;
      while i < |ids|
        invariant 0 <= i <= |ids|
        invariant forall j :: 0 <= j < i ==> ids[j] in saved
        invariant forall k :: k in saved ==> k in state && saved[k] == Save(state[k].Record())
      {
        var id := ids[i];
        saved := saved[id := Save(state[id].Record())];
        i := i + 1;
      }
    }
  }
}
