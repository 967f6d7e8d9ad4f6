/** The slot builder of the timetable (`buildSlots` in app.js): a fixed
    week of five days with five periods each, subjects handed out
    round-robin over the whole week and activities round-robin over days. */
module Slots {

  /** The weekdays, in the order the grid lists them. */
  const Days: seq<string> := ["Monday", "Tuesday", "Wednesday", "Thursday", "Friday"]

  /** Periods per day (`slotsPerDay`). */
  const SlotsPerDay: nat := 5

  /** Slots in one generated week. */
  const WeekSlots: nat := 25

  const DefaultSubject: string := "Study"
  const DefaultActivity: string := "Revision"

  datatype Slot = Slot(day: string, period: nat, subject: string, activity: string)

  /** The weekday names are pairwise different. */
  lemma DaysDistinct()
    ensures |Days| * SlotsPerDay == WeekSlots
    ensures forall i, j :: 0 <= i < j < |Days| ==> Days[i] != Days[j]
  {
  }

  /** `xs[i % xs.length] || fallback`: the round-robin choice of element i.
      An empty list indexes with NaN and reads `undefined`, and an empty
      string is falsy; both give the fallback. */
  function Pick(xs: seq<string>, i: nat, fallback: string): (r: string)
    ensures |xs| == 0 ==> r == fallback
    ensures |xs| > 0 && xs[i % |xs|] != "" ==> r == xs[i % |xs|]
    ensures |xs| > 0 && xs[i % |xs|] == "" ==> r == fallback
  {
    if |xs| == 0 then fallback
    else if xs[i % |xs|] == "" then fallback
    else xs[i % |xs|]
  }

  /** The slot at 0-based position k of the week: day k / 5, period
      k % 5 + 1, subject number k of the shared counter, activity of the day. */
  function SlotAt(subjects: seq<string>, activities: seq<string>, k: nat): Slot
    requires k < WeekSlots
  {
    Slot(Days[k / SlotsPerDay], k % SlotsPerDay + 1,
         Pick(subjects, k, DefaultSubject),
         Pick(activities, k / SlotsPerDay, DefaultActivity))
  }

  /** Position of (day index, period) in the day-major week. */
  lemma PositionOf(dayIndex: nat, period: nat)
    requires dayIndex < |Days| && 1 <= period <= SlotsPerDay
    ensures dayIndex * SlotsPerDay + period - 1 < WeekSlots
    ensures (dayIndex * SlotsPerDay + period - 1) / SlotsPerDay == dayIndex
    ensures (dayIndex * SlotsPerDay + period - 1) % SlotsPerDay == period - 1
  {
  }

  /** `buildSlots`: an outer loop over the days picks the day's activity, an
      inner loop over the periods pushes one slot per period and advances a
      subject counter that is never reset between days. */
  method BuildSlots(subjects: seq<string>, activities: seq<string>) returns (slots: seq<Slot>)
    ensures |slots| == WeekSlots
    ensures forall k :: 0 <= k < |slots| ==> slots[k] == SlotAt(subjects, activities, k)
  {
    slots := [];
    var subjIndex: nat := 0;
    var dayIndex := 0;
    while dayIndex < |Days|
      invariant 0 <= dayIndex <= |Days|
      invariant subjIndex == dayIndex * SlotsPerDay == |slots|
      invariant forall k :: 0 <= k < |slots| ==> slots[k] == SlotAt(subjects, activities, k)
    {
      var day := Days[dayIndex];
      var activity := Pick(activities, dayIndex, DefaultActivity);
      var period := 1;
      while period <= SlotsPerDay
        invariant 1 <= period <= SlotsPerDay + 1
        invariant subjIndex == dayIndex * SlotsPerDay + period - 1 == |slots|
        invariant forall k :: 0 <= k < |slots| ==> slots[k] == SlotAt(subjects, activities, k)
      {
        var subject := Pick(subjects, subjIndex, DefaultSubject);
        PositionOf(dayIndex, period);
        slots := slots + [Slot(day, period, subject, activity)];
        subjIndex := subjIndex + 1;
        period := period + 1;
      }
      dayIndex := dayIndex + 1;
    }
  }

  /** The week is day-major: position k lies on day k / 5 in period k % 5 + 1,
      so days run Monday..Friday and periods 1..5 within each day. */
  lemma WeekIsDayMajor(subjects: seq<string>, activities: seq<string>, d: nat, p: nat)
    requires d < |Days| && 1 <= p <= SlotsPerDay
    ensures SlotAt(subjects, activities, d * SlotsPerDay + p - 1).day == Days[d]
    ensures SlotAt(subjects, activities, d * SlotsPerDay + p - 1).period == p
  {
    PositionOf(d, p);
  }

  /** The subject counter is shared across days: the subject of position k
      is `subjects[k mod |subjects|]`, so the subjects repeat with period
      |subjects| through the whole week and never restart on a new day. */
  lemma SubjectsRoundRobin(subjects: seq<string>, activities: seq<string>, k: nat)
    requires |subjects| > 0 && k + |subjects| < WeekSlots
    ensures SlotAt(subjects, activities, k + |subjects|).subject
         == SlotAt(subjects, activities, k).subject
  {
    ModShift(k, |subjects|);
  }

  /** Arithmetic helpers for the round-robin remainder. */
  lemma MulAtLeast(x: nat, n: nat)
    requires x >= 1
    ensures x * n >= n
  {
    assert x * n == (x - 1) * n + n;
  }

  lemma ModUnique(a: nat, m: nat, n: nat, r: nat)
    requires n > 0 && r < n && a == m * n + r
    ensures a % n == r
  {
    var q, r' := a / n, a % n;
    assert a == q * n + r';
    if q > m {
      assert q * n - m * n == (q - m) * n;
      MulAtLeast(q - m, n);
    } else if q < m {
      assert m * n - q * n == (m - q) * n;
      MulAtLeast(m - q, n);
    }
  }

  lemma ModShift(k: nat, n: nat)
    requires n > 0
    ensures (k + n) % n == k % n
  {
    var q, r := k / n, k % n;
    assert k + n == (q + 1) * n + r;
    ModUnique(k + n, q + 1, n, r);
  }

  /** Every slot of a day carries that day's activity,
      `activities[d mod |activities|]` or the default. */
  lemma ActivityKeyedOnDay(subjects: seq<string>, activities: seq<string>, d: nat, p: nat, q: nat)
    requires d < |Days| && 1 <= p <= SlotsPerDay && 1 <= q <= SlotsPerDay
    ensures SlotAt(subjects, activities, d * SlotsPerDay + p - 1).activity
         == SlotAt(subjects, activities, d * SlotsPerDay + q - 1).activity
         == Pick(activities, d, DefaultActivity)
  {
    PositionOf(d, p);
    PositionOf(d, q);
  }

  /** No slot is left blank: every subject and activity is non-empty, and an
      empty list gives its default in every slot. */
  lemma SlotsNeverBlank(subjects: seq<string>, activities: seq<string>, k: nat)
    requires k < WeekSlots
    ensures SlotAt(subjects, activities, k).subject != ""
    ensures SlotAt(subjects, activities, k).activity != ""
    ensures subjects == [] ==> SlotAt(subjects, activities, k).subject == DefaultSubject
    ensures activities == [] ==> SlotAt(subjects, activities, k).activity == DefaultActivity
  {
  }

  /** With subjects Math and English the 25th slot (position 24) is Math,
      because the counter does not restart on Tuesday. */
  lemma LastSlotOfTwoSubjects(activities: seq<string>)
    ensures SlotAt(["Math", "English"], activities, 24).subject == "Math"
    ensures SlotAt(["Math", "English"], activities, 5).subject == "English"
  {
  }
}
