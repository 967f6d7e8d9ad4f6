/** The view-model half of `render`: the per-day cards of the timetable grid
    and the reminder list. Markup and its injection into the page are not
    modelled; the view keeps the values the markup would show. */
module View {
  import opened Slots
  import opened Grouping

  /** A timetable request (the `data` passed to `render`). */
  datatype Request = Request(studentClass: string, subjects: seq<string>, activities: seq<string>)

  /** "Period {period}: {subject}" in a day card. */
  datatype PeriodLine = PeriodLine(period: nat, subject: string)

  /** One day of the grid: its name, one activity line, one line per slot. */
  datatype DayCard = DayCard(day: string, activity: string, periods: seq<PeriodLine>)

  /** What `render` puts on the page: the class label, the grid, the reminders. */
  datatype Rendered = Rendered(studentClass: string, days: seq<DayCard>, reminders: seq<string>)

  const ReminderPrefix: string := "Review "
  const ReminderSuffix: string := " for 30 minutes after school."
  const NoSubjectsReminder: string := "Create a study plan for each subject."

  function Min(a: int, b: int): int { if a < b then a else b }

  /** At most this many subjects get a reminder (`subjects.slice(0, 5)`). */
  const MaxReminders: nat := 5

  function ReminderLine(subject: string): string
  {
    ReminderPrefix + subject + ReminderSuffix
  }

  /** Reads the subject back out of a reminder line. */
  function ReminderSubject(line: string): string
  {
    if |line| < |ReminderPrefix| + |ReminderSuffix| then ""
    else line[|ReminderPrefix|..|line| - |ReminderSuffix|]
  }

  lemma ReminderLineInverse(subject: string)
    ensures ReminderSubject(ReminderLine(subject)) == subject
  {
    var line := ReminderLine(subject);
    assert line[|ReminderPrefix|..|line| - |ReminderSuffix|] == subject;
  }

  /** The reminder list: one line per subject among the first five, in order;
      with no subjects the joined markup is empty, hence falsy, and the single
      fallback line is shown instead. */
  function Reminders(subjects: seq<string>): (lines: seq<string>)
    ensures lines == [NoSubjectsReminder] <==> subjects == []
    ensures subjects != [] ==> |lines| == Min(|subjects|, MaxReminders)
    ensures subjects != [] ==> forall i :: 0 <= i < |lines| ==> lines[i] == ReminderLine(subjects[i])
  {
    if subjects == [] then [NoSubjectsReminder]
    else
      var shown := subjects[..Min(|subjects|, MaxReminders)];
      var lines := seq(|shown|, i requires 0 <= i < |shown| => ReminderLine(shown[i]));
      assert lines[0][0] != NoSubjectsReminder[0];
      lines
  }

  /** The reminder list tells exactly which subjects head the list: equal
      lists come from the same first five subjects, and the fallback line
      never coincides with a subject's reminder. */
  lemma RemindersDetermineSubjects(a: seq<string>, b: seq<string>)
    requires Reminders(a) == Reminders(b)
    ensures a[..Min(|a|, MaxReminders)] == b[..Min(|b|, MaxReminders)]
  {
    if a != [] && b != [] {
      var n := Min(|a|, MaxReminders);
      forall i | 0 <= i < n ensures a[i] == b[i] {
        ReminderLineInverse(a[i]);
        ReminderLineInverse(b[i]);
      }
    }
  }

  /** Six subjects give five reminders; the sixth is dropped. */
  lemma SixSubjectsFiveReminders()
    ensures Reminders(["Math", "English", "Biology", "Chemistry", "Art", "Music"])
         == [ReminderLine("Math"), ReminderLine("English"), ReminderLine("Biology"),
             ReminderLine("Chemistry"), ReminderLine("Art")]
  {
  }

  /** The card of one `byDay` entry: the activity of its first slot, or
      "Revision" if there is none or it is empty, and one line per slot. */
  function CardOf(day: string, items: seq<Slot>): (card: DayCard)
    ensures card.day == day && |card.periods| == |items|
    ensures card.activity != ""
    ensures items != [] && items[0].activity != "" ==> card.activity == items[0].activity
    ensures items == [] || items[0].activity == "" ==> card.activity == DefaultActivity
    ensures forall i :: 0 <= i < |items| ==>
              card.periods[i] == PeriodLine(items[i].period, items[i].subject)
  {
    var activity := if items != [] && items[0].activity != "" then items[0].activity else DefaultActivity;
    DayCard(day, activity, seq(|items|, i requires 0 <= i < |items| => PeriodLine(items[i].period, items[i].subject)))
  }

  /** The timetable a request should show, read off the week directly: its
      class label; one card per weekday in order, with that day's activity and
      periods 1..5, period p of day d holding subject number 5d + p - 1 of the
      shared round-robin; and the reminder list of its subjects. */
  function WeekView(request: Request): Rendered
  {
    Rendered(
      request.studentClass,
      seq(|Days|, d requires 0 <= d < |Days| =>
        DayCard(Days[d], Pick(request.activities, d, DefaultActivity),
                seq(SlotsPerDay, p requires 0 <= p < SlotsPerDay =>
                  PeriodLine(p + 1, Pick(request.subjects, d * SlotsPerDay + p, DefaultSubject))))),
      Reminders(request.subjects))
  }

  /** `render`: build the week, group it by day, make one card per group
      and the reminder list. */
  method Render(request: Request) returns (view: Rendered)
    ensures view == WeekView(request)
  {
    var slots := BuildSlots(request.subjects, request.activities);
    forall k | 0 <= k < |slots| ensures slots[k].day == Days[k / SlotsPerDay] {
      assert slots[k] == SlotAt(request.subjects, request.activities, k);
    }
    var groups := GroupByDay(slots);
    WeekGroups(slots);
    var cards := seq(|groups|, i requires 0 <= i < |groups| => CardOf(groups[i].0, groups[i].1));
    view := Rendered(request.studentClass, cards, Reminders(request.subjects));
    forall d | 0 <= d < |Days| ensures cards[d] == WeekView(request).days[d] {
      CardOfBuiltDay(request, slots, d);
    }
  }

  /** The card made from day d's five built slots is the card the week view
      expects for that day. */
  lemma CardOfBuiltDay(request: Request, slots: seq<Slot>, d: nat)
    requires |slots| == WeekSlots && d < |Days|
    requires forall k :: 0 <= k < |slots| ==> slots[k] == SlotAt(request.subjects, request.activities, k)
    ensures CardOf(Days[d], slots[d * SlotsPerDay..d * SlotsPerDay + SlotsPerDay]) == WeekView(request).days[d]
  {
    var items := slots[d * SlotsPerDay..d * SlotsPerDay + SlotsPerDay];
    forall p | 0 <= p < |items|
      ensures items[p] == SlotAt(request.subjects, request.activities, d * SlotsPerDay + p)
    {
      PositionOf(d, p + 1);
    }
    CardOfDaySlots(request, items, d);
  }

  /** The card made from the five slots of day d, as the slot builder
      defines them, is the card the week view expects for that day. */
  lemma CardOfDaySlots(request: Request, items: seq<Slot>, d: nat)
    requires d < |Days| && |items| == SlotsPerDay
    requires forall p :: 0 <= p < |items| ==>
               items[p] == SlotAt(request.subjects, request.activities, d * SlotsPerDay + p)
    ensures CardOf(Days[d], items) == WeekView(request).days[d]
  {
    var card := CardOf(Days[d], items);
    var expected := WeekView(request).days[d];
    PositionOf(d, 1);
    assert items[0] == SlotAt(request.subjects, request.activities, d * SlotsPerDay);
    forall p | 0 <= p < SlotsPerDay
      ensures card.periods[p] == expected.periods[p]
    {
      var k := d * SlotsPerDay + p;
      PositionOf(d, p + 1);
      assert card.periods[p] == PeriodLine(items[p].period, items[p].subject);
      assert expected.periods[p] == PeriodLine(p + 1, Pick(request.subjects, k, DefaultSubject));
    }
  }

  /** The grid has the five weekdays in order, each card showing that day's
      activity once and periods 1..5 in order; a day's first period takes the
      subject after the previous day's last, since the counter runs on. */
  lemma {:induction false} WeekViewLayout(request: Request, d: nat, p: nat)
    requires d < |Days| && p < SlotsPerDay
    ensures |WeekView(request).days| == |Days| && WeekView(request).days[d].day == Days[d]
    ensures WeekView(request).days[d].activity == Pick(request.activities, d, DefaultActivity)
    ensures |WeekView(request).days[d].periods| == SlotsPerDay
    ensures WeekView(request).days[d].periods[p].period == p + 1
    ensures WeekView(request).days[d].periods[p].subject == Pick(request.subjects, d * SlotsPerDay + p, DefaultSubject)
    ensures WeekView(request).days[d].periods[p].subject == SlotAt(request.subjects, request.activities, d * SlotsPerDay + p).subject
  {
    PositionOf(d, p + 1);
  }
}
