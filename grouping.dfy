/** The `byDay` reduce of `render`: slots are collected into an object keyed
    by day name, and `Object.entries` reads the groups back in the order the
    keys were first inserted (weekday names are not integer-like keys, so
    insertion order is the enumeration order). */
module Grouping {
  import opened Slots

  /** The distinct day names of `slots`, in order of first appearance. */
  function FirstSeen(slots: seq<Slot>): (days: seq<string>)
    ensures forall i, j :: 0 <= i < j < |days| ==> days[i] != days[j]
  {
    if slots == [] then []
    else
      var seen := FirstSeen(slots[..|slots| - 1]);
      var last := slots[|slots| - 1];
      if last.day in seen then seen else seen + [last.day]
  }

  /** The slots of `slots` whose day is `day`, in their original order. */
  function OnDay(slots: seq<Slot>, day: string): (items: seq<Slot>)
    ensures |items| <= |slots|
    ensures forall i :: 0 <= i < |items| ==> items[i].day == day
  {
    if slots == [] then []
    else
      var last := slots[|slots| - 1];
      OnDay(slots[..|slots| - 1], day) + if last.day == day then [last] else []
  }

  /** A day is among the groups exactly when some slot falls on it. */
  lemma {:induction false} FirstSeenCovers(slots: seq<Slot>, day: string)
    ensures day in FirstSeen(slots) <==> exists k :: 0 <= k < |slots| && slots[k].day == day
  {
    if slots != [] {
      var m := |slots| - 1;
      FirstSeenCovers(slots[..m], day);
      if exists k :: 0 <= k < |slots| && slots[k].day == day {
        var k :| 0 <= k < |slots| && slots[k].day == day;
        if k < m { assert slots[..m][k].day == day; }
      }
    }
  }

  /** A day's group has as many slots as the week has positions on that day. */
  lemma OnDayCount(slots: seq<Slot>, day: string)
    ensures |OnDay(slots, day)| == |Positions(slots, day, |slots|)|
  {
    OnDayCountPrefix(slots, |slots|, day);
    assert slots[..|slots|] == slots;
  }

  /** A day's group holds each slot of that day exactly as often as the
      week does, and no slot of another day: nothing is lost, duplicated
      or invented. */
  lemma {:induction false} OnDayKeepsAll(slots: seq<Slot>, day: string)
    ensures forall x: Slot :: multiset(OnDay(slots, day))[x] ==
              if x.day == day then multiset(slots)[x] else 0
  {
    if slots != [] {
      var m := |slots| - 1;
      OnDayKeepsAll(slots[..m], day);
      assert slots == slots[..m] + [slots[m]];
    }
  }

  /** The positions below n of `slots` that fall on `day`. */
  function Positions(slots: seq<Slot>, day: string, n: nat): set<nat>
    requires n <= |slots|
  {
    set k: nat | k < n && slots[k].day == day
  }

  lemma {:induction false} OnDayCountPrefix(slots: seq<Slot>, n: nat, day: string)
    requires n <= |slots|
    ensures |OnDay(slots[..n], day)| == |Positions(slots, day, n)|
  {
    if n > 0 {
      OnDayCountPrefix(slots, n - 1, day);
      OnDayExtend(slots, n - 1, day);
      PositionsExtend(slots, day, n - 1);
    }
  }

  lemma PositionsExtend(slots: seq<Slot>, day: string, m: nat)
    requires m < |slots|
    ensures |Positions(slots, day, m + 1)| == |Positions(slots, day, m)| + if slots[m].day == day then 1 else 0
  {
    PositionsStep(slots, day, m);
    assert m !in Positions(slots, day, m);
  }

  lemma PositionsStep(slots: seq<Slot>, day: string, m: nat)
    requires m < |slots|
    ensures Positions(slots, day, m + 1) == Positions(slots, day, m) + if slots[m].day == day then {m} else {}
  {
  }

  /** The reduce into `acc` followed by `Object.entries(acc)`: one entry per
      distinct day, in first-seen order, holding that day's slots in order.
      First-seen order is the order of a plain object's keys only for day
      names that are not array indices ("0", "17", ...), which JavaScript
      lists first in ascending order, and that are not inherited object
      properties such as "constructor", for which `acc[day]` is already
      set and the push fails. The slot builder only produces the weekday
      names, which are neither (`WeekGroups`). */
  method GroupByDay(slots: seq<Slot>) returns (groups: seq<(string, seq<Slot>)>)
    ensures |groups| == |FirstSeen(slots)|
    ensures forall i :: 0 <= i < |groups| ==>
              groups[i] == (FirstSeen(slots)[i], OnDay(slots, FirstSeen(slots)[i]))
  {
    var order: seq<string> := [];
    var acc: map<string, seq<Slot>> := map[];
    var i := 0;
    while i < |slots|
      invariant i <= |slots| && Grouped(slots, i, order, acc)
    {
      ghost var order0, acc0 := order, acc;
      var slot := slots[i];
      var items := if slot.day in acc then acc[slot.day] else [];
      if slot.day !in acc {
        order := order + [slot.day];
      }
      acc := acc[slot.day := items + [slot]];
      GroupStep(slots, i, order0, acc0, order, acc);
      i := i + 1;
    }
    assert slots[..i] == slots;
    groups := seq(|order|, j requires 0 <= j < |order| => (order[j], acc[order[j]]));
  }

  /** The accumulator after the first i slots: the keys in insertion order
      are the days first seen, and each key holds its day's slots so far. */
  ghost predicate Grouped(slots: seq<Slot>, i: nat, order: seq<string>, acc: map<string, seq<Slot>>)
    requires i <= |slots|
  {
    && order == FirstSeen(slots[..i])
    && (forall d :: d in acc <==> d in order)
    && (forall d :: d in acc ==> acc[d] == OnDay(slots[..i], d))
    && (forall d :: d !in acc ==> OnDay(slots[..i], d) == [])
  }

  /** One step of the reduce keeps the accumulator in step with the prefix. */
  lemma GroupStep(slots: seq<Slot>, i: nat, order: seq<string>, acc: map<string, seq<Slot>>,
                  order': seq<string>, acc': map<string, seq<Slot>>)
    requires i < |slots| && Grouped(slots, i, order, acc)
    requires order' == if slots[i].day in acc then order else order + [slots[i].day]
    requires acc' == acc[slots[i].day := (if slots[i].day in acc then acc[slots[i].day] else []) + [slots[i]]]
    ensures Grouped(slots, i + 1, order', acc')
  {
    GroupKeysStep(slots, i, order, acc, order', acc');
    GroupValuesStep(slots, i, order, acc, acc');
  }

  /** The step for the keys: a day not yet seen is added both to the map
      and, at the end, to the insertion order. */
  lemma GroupKeysStep(slots: seq<Slot>, i: nat, order: seq<string>, acc: map<string, seq<Slot>>,
                      order': seq<string>, acc': map<string, seq<Slot>>)
    requires i < |slots| && Grouped(slots, i, order, acc)
    requires order' == if slots[i].day in acc then order else order + [slots[i].day]
    requires acc' == acc[slots[i].day := (if slots[i].day in acc then acc[slots[i].day] else []) + [slots[i]]]
    ensures order' == FirstSeen(slots[..i + 1])
    ensures forall d :: d in acc' <==> d in order'
  {
    FirstSeenExtend(slots, i);
    assert slots[i].day in acc <==> slots[i].day in order;
  }

  /** The step for the values: the slot's own day gains the slot, every
      other day keeps its group. */
  lemma GroupValuesStep(slots: seq<Slot>, i: nat, order: seq<string>, acc: map<string, seq<Slot>>,
                        acc': map<string, seq<Slot>>)
    requires i < |slots| && Grouped(slots, i, order, acc)
    requires acc' == acc[slots[i].day := (if slots[i].day in acc then acc[slots[i].day] else []) + [slots[i]]]
    ensures forall d :: d in acc' ==> acc'[d] == OnDay(slots[..i + 1], d)
    ensures forall d :: d !in acc' ==> OnDay(slots[..i + 1], d) == []
  {
    forall d
      ensures d in acc' ==> acc'[d] == OnDay(slots[..i + 1], d)
      ensures d !in acc' ==> OnDay(slots[..i + 1], d) == []
    {
      OnDayExtend(slots, i, d);
    }
  }

  /** The slot builder's week: position k lies on day k / 5. */
  ghost predicate DayMajorWeek(slots: seq<Slot>)
  {
    |slots| == WeekSlots && forall k :: 0 <= k < |slots| ==> slots[k].day == Days[k / SlotsPerDay]
  }

  /** Slot m of the week sits at (m / 5, m % 5); ceil((m + 1) / 5) is
      m / 5 + 1, and ceil(m / 5) drops to m / 5 exactly at a day's first slot. */
  lemma CeilStep(m: nat)
    ensures (m + SlotsPerDay) / SlotsPerDay == m / SlotsPerDay + 1
    ensures m % SlotsPerDay == 0 ==> (m + SlotsPerDay - 1) / SlotsPerDay == m / SlotsPerDay
    ensures m % SlotsPerDay != 0 ==> (m + SlotsPerDay - 1) / SlotsPerDay == m / SlotsPerDay + 1
  {
  }

  /** Extending a prefix by one slot adds its day to the days seen unless
      it is already there. */
  lemma FirstSeenExtend(slots: seq<Slot>, m: nat)
    requires m < |slots|
    ensures FirstSeen(slots[..m + 1]) ==
            var seen := FirstSeen(slots[..m]);
            if slots[m].day in seen then seen else seen + [slots[m].day]
  {
    assert slots[..m + 1][..m] == slots[..m];
  }

  /** After the first n slots of the week the days seen are the first
      ceil(n / 5) weekdays, in order. */
  lemma {:induction false} FirstSeenOfPrefix(slots: seq<Slot>, n: nat)
    requires DayMajorWeek(slots) && n <= WeekSlots
    ensures FirstSeen(slots[..n]) == Days[..(n + SlotsPerDay - 1) / SlotsPerDay]
  {
    if n > 0 {
      var m := n - 1;
      FirstSeenOfPrefix(slots, m);
      FirstSeenExtend(slots, m);
      var q := m / SlotsPerDay;
      assert slots[m].day == Days[q];
      CeilStep(m);
      if m % SlotsPerDay == 0 {
        DaysDistinct();
        NotBefore(Days, q);
        TakeOneMore(Days, q);
      } else {
        TakeOneMore(Days, q);
      }
    }
  }

  /** Taking one more element of a list appends that element. */
  lemma TakeOneMore(xs: seq<string>, q: nat)
    requires q < |xs|
    ensures xs[..q + 1] == xs[..q] + [xs[q]] && xs[q] in xs[..q + 1]
  {
    assert xs[..q + 1][q] == xs[q];
  }

  /** In a list without repeats no element occurs before its own position. */
  lemma NotBefore(xs: seq<string>, q: nat)
    requires q < |xs| && forall i, j :: 0 <= i < j < |xs| ==> xs[i] != xs[j]
    ensures xs[q] !in xs[..q]
  {
  }

  /** Position m belongs to day d exactly when it lies in [5d, 5d + 5). */
  lemma DayOfPosition(m: nat, d: nat)
    ensures m / SlotsPerDay == d <==> d * SlotsPerDay <= m < d * SlotsPerDay + SlotsPerDay
  {
  }

  /** Extending a prefix by one slot extends its day group by that slot
      when it falls on the day, and leaves the group alone otherwise. */
  lemma OnDayExtend(slots: seq<Slot>, m: nat, day: string)
    requires m < |slots|
    ensures OnDay(slots[..m + 1], day) ==
            OnDay(slots[..m], day) + if slots[m].day == day then [slots[m]] else []
  {
    assert slots[..m + 1][..m] == slots[..m];
  }

  /** When the slots falling on `day` among the first n are exactly the
      positions [lo, hi), the day's group after n slots is the part of that
      run below n, in order. */
  lemma {:induction false} OnDayOfRun(slots: seq<Slot>, n: nat, day: string, lo: nat, hi: nat)
    requires lo <= hi && n <= |slots|
    requires forall k :: 0 <= k < n ==> (slots[k].day == day <==> lo <= k < hi)
    ensures n <= lo ==> OnDay(slots[..n], day) == []
    ensures lo <= n <= hi ==> OnDay(slots[..n], day) == slots[lo..n]
    ensures hi <= n ==> OnDay(slots[..n], day) == slots[lo..hi]
  {
    if n > 0 {
      var m := n - 1;
      OnDayOfRun(slots, m, day, lo, hi);
      OnDayExtend(slots, m, day);
      if lo <= m < hi {
        assert slots[lo..m] + [slots[m]] == slots[lo..n];
      }
    }
  }

  /** In the built week day d's slots are exactly the positions [5d, 5d + 5). */
  lemma WeekDayRun(slots: seq<Slot>, d: nat)
    requires DayMajorWeek(slots) && d < |Days|
    ensures forall k :: 0 <= k < |slots| ==>
              (slots[k].day == Days[d] <==> d * SlotsPerDay <= k < d * SlotsPerDay + SlotsPerDay)
  {
    DaysDistinct();
    forall k | 0 <= k < |slots|
      ensures slots[k].day == Days[d] <==> d * SlotsPerDay <= k < d * SlotsPerDay + SlotsPerDay
    {
      DayOfPosition(k, d);
    }
  }

  /** Grouping the built week gives exactly the five weekdays in order, each
      with its own five slots in period order. */
  lemma WeekGroups(slots: seq<Slot>)
    requires DayMajorWeek(slots)
    ensures FirstSeen(slots) == Days
    ensures forall d :: 0 <= d < |Days| ==>
              OnDay(slots, Days[d]) == slots[d * SlotsPerDay..d * SlotsPerDay + SlotsPerDay]
  {
    FirstSeenOfPrefix(slots, WeekSlots);
    assert slots[..WeekSlots] == slots;
    forall d | 0 <= d < |Days|
      ensures OnDay(slots, Days[d]) == slots[d * SlotsPerDay..d * SlotsPerDay + SlotsPerDay]
    {
      WeekDayRun(slots, d);
      OnDayOfRun(slots, WeekSlots, Days[d], d * SlotsPerDay, d * SlotsPerDay + SlotsPerDay);
    }
  }
}
