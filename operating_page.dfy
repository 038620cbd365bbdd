/** The operating-hours editor of src/app/operating/operating.page.ts: a
    table from day names to hours, the 24-hour switch, loading a
    restaurant's stored table, the save guard and the day labels. Firestore
    reads and writes are inputs. */
module OperatingPage {
  import opened Wrappers
  import Text

  /** `HoursData`; `is24Hours` may be missing from a stored table. */
  datatype Hours = Hours(open: string, close: string, isOpen: bool, is24Hours: Option<bool>)

  const Days: seq<string> := ["monday", "tuesday", "wednesday", "thursday", "friday", "saturday", "sunday"]

  /** The hours `initializeHours` and the load's completion give a day. */
  const DefaultHours := Hours("09:00", "17:00", true, Some(false))

  /** The hours `toggle24Hours(enabled)` gives every day. */
  function Toggled(enabled: bool): (h: Hours)
    ensures h.isOpen == enabled && h.is24Hours == Some(enabled)
    ensures enabled ==> h.open == "00:00" && h.close == "23:59"
    ensures !enabled ==> h.open == DefaultHours.open && h.close == DefaultHours.close
  {
    Hours(if enabled then "00:00" else "09:00", if enabled then "23:59" else "17:00", enabled, Some(enabled))
  }

  /** The table has an entry for each of the seven days. */
  predicate HasWeek(m: map<string, Hours>) {
    forall d :: d in Days ==> d in m
  }

  /** `days.every(day => hours[day]?.is24Hours === true)`. */
  predicate Every24(m: map<string, Hours>) {
    forall d :: d in Days ==> d in m && m[d].is24Hours == Some(true)
  }

  /** The table after every day is set to `h`. */
  function WithWeek(m: map<string, Hours>, h: Hours): map<string, Hours> {
    m + map d | d in Days :: h
  }

  /** The stored table with the missing days added as `DefaultHours`. */
  function Completed(m: map<string, Hours>): map<string, Hours> {
    (map d | d in Days :: DefaultHours) + m
  }

  /** Setting every day: each of the seven days gets `h`, every other key
      keeps its entry, and setting it again changes nothing. */
  lemma WithWeekSets(m: map<string, Hours>, h: Hours)
    ensures var r := WithWeek(m, h);
      HasWeek(r) && (forall d :: d in Days ==> r[d] == h)
      && (forall k :: k !in Days ==> (k in r <==> k in m) && (k in m ==> r[k] == m[k]))
      && WithWeek(r, h) == r
  {
    var r := WithWeek(m, h);
    assert WithWeek(r, h) == r;
  }

  /** The 24-hour flag of a toggled table, read back as a stored one, is the
      toggle's argument. */
  lemma ToggledReadBack(m: map<string, Hours>, enabled: bool)
    ensures Every24(WithWeek(m, Toggled(enabled))) == enabled
  {
    if !enabled {
      assert Days[0] in Days;
    }
  }

  /** Completing keeps every stored entry, gives each missing day the
      default, adds nothing else, and leaves a full table as it is. */
  lemma CompletedKeeps(m: map<string, Hours>)
    ensures var r := Completed(m);
      HasWeek(r)
      && (forall k :: k in m ==> k in r && r[k] == m[k])
      && (forall d :: d in Days && d !in m ==> r[d] == DefaultHours)
      && (forall k :: k in r ==> k in m || k in Days)
    ensures HasWeek(m) ==> Completed(m) == m
  {
    if HasWeek(m) {
      assert Completed(m) == m;
    }
  }

  /** The flag computed on the stored table agrees with the completed one:
      an added default day is never a 24-hour day. */
  lemma CompletedEvery24(m: map<string, Hours>)
    ensures Every24(Completed(m)) == Every24(m)
  {
    if Every24(Completed(m)) {
      forall d | d in Days ensures d in m {
        assert Completed(m)[d].is24Hours == Some(true);
      }
    }
  }

  /** `getDayDisplayName`: the first character upper-cased, the rest and the
      length unchanged. */
  function DayDisplayName(day: string): (r: string)
    ensures |r| == |day|
    ensures day != [] ==> r[0] == Text.UpperChar(day[0]) && r[1..] == day[1..]
  {
    if day == [] then [] else [Text.UpperChar(day[0])] + day[1..]
  }

  /** Labelling twice is labelling once. */
  lemma DayDisplayNameIdempotent(day: string)
    ensures DayDisplayName(DayDisplayName(day)) == DayDisplayName(day)
  {
    if day != [] {
      var r := DayDisplayName(day);
      assert DayDisplayName(r) == [Text.UpperChar(r[0])] + r[1..];
    }
  }

  /** The days the `forEach` has visited after `i` steps, each with `h`. */
  function FirstDays(i: nat, h: Hours): map<string, Hours>
    requires i <= |Days|
  {
    map d | d in Days[..i] :: h
  }

  lemma AllDays(h: Hours)
    ensures FirstDays(|Days|, h) == map d | d in Days :: h
  {
    assert Days[..|Days|] == Days;
  }

  /** One step of setting every day. */
  lemma SetStep(m: map<string, Hours>, h: Hours, i: nat)
    requires i < |Days|
    ensures (m + FirstDays(i, h))[Days[i] := h] == m + FirstDays(i + 1, h)
  {
    assert Days[..i + 1] == Days[..i] + [Days[i]];
  }

  /** One step of completing a stored table. */
  lemma CompleteStep(m: map<string, Hours>, i: nat)
    requires i < |Days|
    ensures var c := FirstDays(i, DefaultHours) + m;
      (if Days[i] in c then c else c[Days[i] := DefaultHours]) == FirstDays(i + 1, DefaultHours) + m
  {
    assert Days[..i + 1] == Days[..i] + [Days[i]];
    var c := FirstDays(i, DefaultHours) + m;
    if Days[i] in c {
      if Days[i] !in m {
        assert Days[i] in Days[..i];
      }
    }
  }

  /** The alert `saveOperatingHours` shows. */
  datatype Alert = Alert(header: string, message: string)

  class Page {
    var selectedRestaurantId: string
    var operatingHours: map<string, Hours>
    var is24HoursEnabled: bool

    ghost predicate Valid()
      reads this
    {
      HasWeek(operatingHours)
    }

    /** The constructor calls `initializeHours` on the empty table. */
    constructor()
      ensures Valid()
      ensures selectedRestaurantId == [] && !is24HoursEnabled
      ensures operatingHours == WithWeek(map[], DefaultHours)
    {
      selectedRestaurantId := [];
      operatingHours := map[];
      is24HoursEnabled := false;
      new;
      InitializeHours();
    }

    /** The `forEach` over the seven days, each set to `h`. */
    method SetEveryDay(h: Hours)
      modifies this
      ensures operatingHours == WithWeek(old(operatingHours), h)
      ensures selectedRestaurantId == old(selectedRestaurantId) && is24HoursEnabled == old(is24HoursEnabled)
    {
      var i := 0;
      while i < |Days|
        invariant i <= |Days|
        invariant operatingHours == old(operatingHours) + FirstDays(i, h)
        invariant selectedRestaurantId == old(selectedRestaurantId) && is24HoursEnabled == old(is24HoursEnabled)
      {
        SetStep(old(operatingHours), h, i);
        operatingHours := operatingHours[Days[i] := h];
        i := i + 1;
      }
      AllDays(h);
    }

    /** `initializeHours`: every day 09:00-17:00, open, not 24-hour. */
    method InitializeHours()
      modifies this
      ensures Valid()
      ensures operatingHours == WithWeek(old(operatingHours), DefaultHours)
      ensures selectedRestaurantId == old(selectedRestaurantId) && is24HoursEnabled == old(is24HoursEnabled)
    {
      SetEveryDay(DefaultHours);
      WithWeekSets(old(operatingHours), DefaultHours);
    }

    /** `toggle24Hours`: the flag is the argument, and every day gets
        `Toggled(enabled)`. */
    method Toggle24Hours(enabled: bool)
      modifies this
      ensures Valid()
      ensures is24HoursEnabled == enabled
      ensures operatingHours == WithWeek(old(operatingHours), Toggled(enabled))
      ensures selectedRestaurantId == old(selectedRestaurantId)
    {
      is24HoursEnabled := enabled;
      SetEveryDay(Toggled(enabled));
      WithWeekSets(old(operatingHours), Toggled(enabled));
    }

    /** `loadRestaurantHours`. `stored` is the outcome of `getDoc`: a
        failure (an alert) changes nothing; `None` when the document or its
        `operatingHours` is missing, which resets to the defaults; otherwise
        the stored table, completed with the missing days. */
    method LoadRestaurantHours(stored: Result<Option<map<string, Hours>>>)
      requires Valid()
      modifies this
      ensures Valid()
      ensures selectedRestaurantId == old(selectedRestaurantId)
      ensures selectedRestaurantId == [] || stored.Err? ==>
        operatingHours == old(operatingHours) && is24HoursEnabled == old(is24HoursEnabled)
      ensures selectedRestaurantId != [] && stored == Ok(None) ==>
        operatingHours == WithWeek(old(operatingHours), DefaultHours) && is24HoursEnabled == old(is24HoursEnabled)
      ensures selectedRestaurantId != [] && stored.Ok? && stored.value.Some? ==>
        operatingHours == Completed(stored.value.value) && is24HoursEnabled == Every24(stored.value.value)
    {
      if selectedRestaurantId == [] || stored.Err? {
        return;
      }
      if stored.value.None? {
        InitializeHours();
        WithWeekSets(old(operatingHours), DefaultHours);
        return;
      }
      var m := stored.value.value;
      operatingHours := m;
      is24HoursEnabled := Every24(operatingHours);
      var i := 0;
      while i < |Days|
        invariant i <= |Days|
        invariant operatingHours == FirstDays(i, DefaultHours) + m
        invariant selectedRestaurantId == old(selectedRestaurantId) && is24HoursEnabled == Every24(m)
      {
        CompleteStep(m, i);
        if Days[i] !in operatingHours {
          operatingHours := operatingHours[Days[i] := DefaultHours];
        }
        i := i + 1;
      }
      AllDays(DefaultHours);
      CompletedKeeps(m);
    }

    /** `onRestaurantChange`: the selection is the event's value; a
        non-empty one loads its hours, an empty one resets the defaults. */
    method OnRestaurantChange(value: string, stored: Result<Option<map<string, Hours>>>)
      requires Valid()
      modifies this
      ensures Valid()
      ensures selectedRestaurantId == value
      ensures value == [] ==>
        operatingHours == WithWeek(old(operatingHours), DefaultHours) && is24HoursEnabled == old(is24HoursEnabled)
      ensures value != [] && stored.Err? ==>
        operatingHours == old(operatingHours) && is24HoursEnabled == old(is24HoursEnabled)
      ensures value != [] && stored == Ok(None) ==>
        operatingHours == WithWeek(old(operatingHours), DefaultHours) && is24HoursEnabled == old(is24HoursEnabled)
      ensures value != [] && stored.Ok? && stored.value.Some? ==>
        operatingHours == Completed(stored.value.value) && is24HoursEnabled == Every24(stored.value.value)
    {
      selectedRestaurantId := value;
      if selectedRestaurantId != [] {
        LoadRestaurantHours(stored);
      } else {
        InitializeHours();
        WithWeekSets(old(operatingHours), DefaultHours);
      }
    }

    /** `saveOperatingHours`: without a selection nothing is written;
        otherwise the whole table is. Returns the table written, if any, and
        the alert shown; `writeSucceeds` is the outcome of `updateDoc`. */
    method SaveOperatingHours(writeSucceeds: bool) returns (written: Option<map<string, Hours>>, alert: Alert)
      ensures written.Some? <==> selectedRestaurantId != []
      ensures written.Some? ==> written.value == operatingHours
      ensures selectedRestaurantId == [] ==> alert == Alert("Error", "Please select a restaurant")
      ensures selectedRestaurantId != [] && writeSucceeds ==>
        alert == Alert("Success", "Operating hours saved successfully")
      ensures selectedRestaurantId != [] && !writeSucceeds ==>
        alert == Alert("Error", "Failed to save operating hours")
    {
      if selectedRestaurantId == [] {
        return None, Alert("Error", "Please select a restaurant");
      }
      written := Some(operatingHours);
      if writeSucceeds {
        alert := Alert("Success", "Operating hours saved successfully");
      } else {
        alert := Alert("Error", "Failed to save operating hours");
      }
    }
  }

  /** A saved table holds all seven days, so loading it back gives exactly
      what was saved, with the flag of the table. */
  lemma SavedTableReloads(saved: map<string, Hours>)
    requires HasWeek(saved)
    ensures Completed(saved) == saved
    ensures Every24(Completed(saved)) == Every24(saved)
  {
    CompletedKeeps(saved);
  }
}
