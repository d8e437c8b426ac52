/**
 * The client's view: the bookable start times of a day (the availability
 * engine), the construction of a new booking and the client's own history.
 */
module ClientDashboard {
  import opened Types
  import opened Seqs
  import opened Ordering
  import opened Clock

  /** Slots start every 30 minutes from the day's opening time. */
  const SlotStep: nat := 30

  function OnWeekday(day: int): BusinessHours -> bool {
    (h: BusinessHours) => h.day == day
  }

  /** The hours row consulted for a weekday: the first row with that day. */
  function HoursFor(hours: seq<BusinessHours>, day: int): (r: Option<BusinessHours>)
    ensures r.None? <==> forall i :: 0 <= i < |hours| ==> hours[i].day != day
    ensures forall i :: (0 <= i < |hours| && hours[i].day == day
                          && forall j :: 0 <= j < i ==> hours[j].day != day)
                        ==> r == Some(hours[i])
  {
    Find(hours, OnWeekday(day))
  }

  /** An appointment holds a (date, time) unless it is cancelled. */
  predicate Blocks(a: Appointment, date: string, time: string) {
    a.date == date && a.time == time && a.status != Cancelled
  }

  predicate Taken(appts: seq<Appointment>, date: string, time: string)
    ensures (forall i :: 0 <= i < |appts| ==> appts[i].status == Cancelled) ==> !Taken(appts, date, time)
  {
    exists i :: 0 <= i < |appts| && Blocks(appts[i], date, time)
  }

  /** A (date, time) is taken exactly when some non-cancelled appointment in the list holds it. */
  lemma TakenByLiveRecord(appts: seq<Appointment>, date: string, time: string)
    ensures Taken(appts, date, time) <==>
      exists a :: a in appts && a.date == date && a.time == time && a.status != Cancelled
  {
    if exists a :: a in appts && a.date == date && a.time == time && a.status != Cancelled {
      var a :| a in appts && a.date == date && a.time == time && a.status != Cancelled;
      var i :| 0 <= i < |appts| && appts[i] == a;
      assert Blocks(appts[i], date, time);
    }
  }

  /** One more appointment takes its own (date, time) unless cancelled, and nothing else. */
  lemma TakenAppend(appts: seq<Appointment>, a: Appointment, date: string, time: string)
    ensures Taken(appts + [a], date, time) <==> Taken(appts, date, time) || Blocks(a, date, time)
  {
    var booked := appts + [a];
    if Taken(appts, date, time) {
      var i :| 0 <= i < |appts| && Blocks(appts[i], date, time);
      assert booked[i] == appts[i];
    }
    if Blocks(a, date, time) {
      assert booked[|appts|] == a;
    }
    if Taken(booked, date, time) {
      var i :| 0 <= i < |booked| && Blocks(booked[i], date, time);
      if i < |appts| {
        assert booked[i] == appts[i];
      }
    }
  }

  /** t lies on the 30-minute grid anchored at start, before end. */
  predicate OnGrid(start: nat, end: nat, t: nat) {
    start <= t < end && (t - start) % SlotStep == 0
  }

  /** Whether the minute t, rendered as "HH:MM", is held on date. */
  function SlotTaken(appts: seq<Appointment>, date: string): nat -> bool {
    (t: nat) => t < MinutesPerDay && Taken(appts, date, FormatTime(t))
  }

  /** The grid points from cur (inclusive) up to end (exclusive) that are not taken. */
  function FreeFrom(cur: nat, end: nat, taken: nat -> bool): (r: seq<nat>)
    ensures forall i :: 0 <= i < |r| ==> cur <= r[i] < end
    decreases end - cur
  {
    if cur >= end then []
    else (if taken(cur) then [] else [cur]) + FreeFrom(cur + SlotStep, end, taken)
  }

  /** The bookable start times of date, whose weekday is given, in minutes. */
  function Slots(date: string, weekday: int, hours: seq<BusinessHours>, appts: seq<Appointment>): (r: seq<nat>)
    ensures forall i :: 0 <= i < |r| ==> r[i] < MinutesPerDay
  {
    match HoursFor(hours, weekday)
    case None => []
    case Some(h) =>
      if !h.isOpen then []
      else
        match (ParseTime(h.start), ParseTime(h.end))
        case (Some(s), Some(e)) => FreeFrom(s, e, SlotTaken(appts, date))
        case _ => []
  }

  /** The "HH:MM" renderings of a list of minutes. */
  function Times(ms: seq<nat>): (r: seq<string>)
    requires forall i :: 0 <= i < |ms| ==> ms[i] < MinutesPerDay
    ensures |r| == |ms| && forall i :: 0 <= i < |ms| ==> r[i] == FormatTime(ms[i])
  {
    seq(|ms|, i requires 0 <= i < |ms| => FormatTime(ms[i]))
  }

  lemma TimesAppend(a: seq<nat>, b: seq<nat>)
    requires forall i :: 0 <= i < |a| ==> a[i] < MinutesPerDay
    requires forall i :: 0 <= i < |b| ==> b[i] < MinutesPerDay
    ensures Times(a + b) == Times(a) + Times(b)
  {
    assert forall i :: 0 <= i < |a + b| ==> (a + b)[i] < MinutesPerDay;
    assert |Times(a + b)| == |Times(a) + Times(b)|;
    forall i | 0 <= i < |a + b|
      ensures Times(a + b)[i] == (Times(a) + Times(b))[i]
    {
      if i < |a| {
        assert (a + b)[i] == a[i];
      } else {
        assert (a + b)[i] == b[i - |a|];
      }
    }
  }

  /**
   * The slot loop: walk from the row's start in 30-minute steps while before
   * its end, keeping the times no live appointment on that date holds.
   */
  method AvailableSlots(date: string, weekday: int, hours: seq<BusinessHours>, appts: seq<Appointment>)
    returns (slots: seq<string>)
    ensures slots == Times(Slots(date, weekday, hours, appts))
  {
    var config := HoursFor(hours, weekday);
    if config.None? || !config.value.isOpen {
      return [];
    }
    var start, end := ParseTime(config.value.start), ParseTime(config.value.end);
    if start.None? || end.None? {
      // an unreadable time makes the loop condition false from the outset
      return [];
    }
    slots := WalkGrid(date, appts, start.value, end.value);
  }

  /** The loop of the slot computation, from a start to an end minute of one day. */
  method WalkGrid(date: string, appts: seq<Appointment>, s: nat, e: nat) returns (slots: seq<string>)
    requires e <= MinutesPerDay
    ensures slots == Times(FreeFrom(s, e, SlotTaken(appts, date)))
  {
    ghost var taken := SlotTaken(appts, date);
    slots := [];
    ghost var minutes: seq<nat> := [];
    var current := s;
    while current < e
      invariant forall i :: 0 <= i < |minutes| ==> minutes[i] < MinutesPerDay
      invariant slots == Times(minutes)
      invariant minutes + FreeFrom(current, e, taken) == FreeFrom(s, e, taken)
      decreases e - current
    {
      var timeStr := FormatTime(current);
      var isTaken := Taken(appts, date, timeStr);
      WalkStep(s, e, taken, minutes, current, slots);
      assert isTaken == taken(current);
      if !isTaken {
        slots := slots + [timeStr];
        minutes := minutes + [current];
      }
      current := current + SlotStep;
    }
  }

  /** One turn of the slot loop keeps its invariant, whether or not the current minute is taken. */
  lemma WalkStep(s: nat, e: nat, taken: nat -> bool, minutes: seq<nat>, current: nat, slots: seq<string>)
    requires current < e <= MinutesPerDay
    requires forall i :: 0 <= i < |minutes| ==> minutes[i] < MinutesPerDay
    requires slots == Times(minutes)
    requires minutes + FreeFrom(current, e, taken) == FreeFrom(s, e, taken)
    ensures !taken(current) ==>
      && (minutes + [current]) + FreeFrom(current + SlotStep, e, taken) == FreeFrom(s, e, taken)
      && slots + [FormatTime(current)] == Times(minutes + [current])
    ensures taken(current) ==> minutes + FreeFrom(current + SlotStep, e, taken) == FreeFrom(s, e, taken)
  {
    var rest := FreeFrom(current + SlotStep, e, taken);
    if !taken(current) {
      assert FreeFrom(current, e, taken) == [current] + rest;
      assert (minutes + [current]) + rest == minutes + ([current] + rest);
      TimesAppend(minutes, [current]);
    } else {
      assert FreeFrom(current, e, taken) == rest;
    }
  }

  /** Stepping the grid: past its first point, the grid at start continues as the grid at start + 30. */
  lemma GridStep(cur: nat, end: nat, t: nat)
    requires cur < end
    ensures OnGrid(cur, end, t) <==> t == cur || OnGrid(cur + SlotStep, end, t)
  {
    if t > cur && (t - cur) % SlotStep == 0 {
      assert (t - (cur + SlotStep)) % SlotStep == 0;
    }
    if t >= cur + SlotStep && (t - (cur + SlotStep)) % SlotStep == 0 {
      assert (t - cur) % SlotStep == 0;
    }
  }

  /** A minute is a slot exactly when it is an untaken grid point before end. */
  lemma {:induction false} FreeFromMembership(cur: nat, end: nat, taken: nat -> bool, t: nat)
    ensures t in FreeFrom(cur, end, taken) <==> OnGrid(cur, end, t) && !taken(t)
    decreases end - cur
  {
    if cur < end {
      var head: seq<nat> := if taken(cur) then [] else [cur];
      var rest := FreeFrom(cur + SlotStep, end, taken);
      assert FreeFrom(cur, end, taken) == head + rest;
      FreeFromMembership(cur + SlotStep, end, taken, t);
      GridStep(cur, end, t);
    }
  }

  predicate Increasing(s: seq<nat>) {
    forall i, j :: 0 <= i < j < |s| ==> s[i] < s[j]
  }

  lemma {:induction false} FreeFromIncreasing(cur: nat, end: nat, taken: nat -> bool)
    ensures Increasing(FreeFrom(cur, end, taken))
    decreases end - cur
  {
    if cur < end {
      var rest := FreeFrom(cur + SlotStep, end, taken);
      FreeFromIncreasing(cur + SlotStep, end, taken);
      if !taken(cur) {
        var r := [cur] + rest;
        assert FreeFrom(cur, end, taken) == r;
        forall i, j | 0 <= i < j < |r|
          ensures r[i] < r[j]
        {
          assert r[j] == rest[j - 1];
          if i > 0 {
            assert r[i] == rest[i - 1];
          }
        }
      } else {
        assert FreeFrom(cur, end, taken) == rest;
      }
    }
  }

  /** No row for the weekday, or a closed first row: no slots. */
  lemma NoSlotsWhenClosed(date: string, weekday: int, hours: seq<BusinessHours>, appts: seq<Appointment>)
    requires (forall i :: 0 <= i < |hours| ==> hours[i].day != weekday)
          || (exists i :: 0 <= i < |hours| && hours[i].day == weekday && !hours[i].isOpen
                && forall j :: 0 <= j < i ==> hours[j].day != weekday)
    ensures Slots(date, weekday, hours, appts) == []
  {
    var k := FindIndex(hours, OnWeekday(weekday));
    if k != -1 {
      var i :| 0 <= i < |hours| && hours[i].day == weekday && !hours[i].isOpen
        && forall j :: 0 <= j < i ==> hours[j].day != weekday;
      assert OnWeekday(weekday)(hours[i]);
      assert k == i;
    }
  }

  /**
   * On an open day whose row reads as start s and end e, the slots are exactly
   * the untaken points of the grid s, s+30, ... below e, strictly increasing,
   * beginning with s when s is free, and absent when s >= e.
   */
  lemma SlotsOfOpenDay(date: string, weekday: int, hours: seq<BusinessHours>, appts: seq<Appointment>,
                       i: nat, s: nat, e: nat)
    requires i < |hours| && hours[i].day == weekday && forall j :: 0 <= j < i ==> hours[j].day != weekday
    requires hours[i].isOpen && ParseTime(hours[i].start) == Some(s) && ParseTime(hours[i].end) == Some(e)
    ensures var r := Slots(date, weekday, hours, appts);
      && (forall t: nat :: t in r <==> OnGrid(s, e, t) && !Taken(appts, date, FormatTime(t)))
      && Increasing(r)
      && (s < e && !Taken(appts, date, FormatTime(s)) ==> |r| > 0 && r[0] == s)
      && (s >= e ==> r == [])
  {
    var k := FindIndex(hours, OnWeekday(weekday));
    assert OnWeekday(weekday)(hours[i]);
    assert k == i;
    var r := Slots(date, weekday, hours, appts);
    assert r == FreeFrom(s, e, SlotTaken(appts, date));
    forall t: nat
      ensures t in r <==> OnGrid(s, e, t) && !Taken(appts, date, FormatTime(t))
    {
      FreeFromMembership(s, e, SlotTaken(appts, date), t);
    }
    FreeFromIncreasing(s, e, SlotTaken(appts, date));
  }

  lemma SlotsIncreasing(date: string, weekday: int, hours: seq<BusinessHours>, appts: seq<Appointment>)
    ensures Increasing(Slots(date, weekday, hours, appts))
  {
    match HoursFor(hours, weekday)
    case None =>
    case Some(h) =>
      if h.isOpen && ParseTime(h.start).Some? && ParseTime(h.end).Some? {
        var s, e := ParseTime(h.start).value, ParseTime(h.end).value;
        assert Slots(date, weekday, hours, appts) == FreeFrom(s, e, SlotTaken(appts, date));
        FreeFromIncreasing(s, e, SlotTaken(appts, date));
      }
  }

  /**
   * The offered strings are well-formed "HH:MM" times in strictly increasing
   * string order, each reading back as its slot.
   */
  lemma SlotStringsAscending(date: string, weekday: int, hours: seq<BusinessHours>, appts: seq<Appointment>)
    ensures var m := Slots(date, weekday, hours, appts);
      var r := Times(m);
      && (forall k :: 0 <= k < |r| ==> ParseTime(r[k]) == Some(m[k]))
      && (forall a, b :: 0 <= a < b < |r| ==> StrLt(r[a], r[b]))
  {
    var m := Slots(date, weekday, hours, appts);
    var r := Times(m);
    SlotsIncreasing(date, weekday, hours, appts);
    forall k | 0 <= k < |r|
      ensures ParseTime(r[k]) == Some(m[k])
    {
      ParseFormat(m[k]);
    }
    forall a, b | 0 <= a < b < |r|
      ensures StrLt(r[a], r[b])
    {
      FormatMonotone(m[a], m[b]);
    }
  }

  /**
   * The booking of the client's chosen slot; nothing is booked while no
   * service or no time is chosen. The service id is not checked against the
   * catalog.
   */
  function Book(user: User, serviceId: string, date: string, time: string, freshId: string): (r: Option<Appointment>)
    ensures r.None? <==> serviceId == [] || time == []
    ensures r.Some? ==> r.value == Appointment(freshId, user.id, user.name, user.phone, serviceId, date, time, Pending)
  {
    if serviceId == [] || time == [] then None
    else Some(Appointment(freshId, user.id, user.name, user.phone, serviceId, date, time, Pending))
  }

  /**
   * Once a booking is added, its time is no longer offered on its date, and
   * every other slot of that date is still offered.
   */
  lemma BookedSlotIsTaken(user: User, serviceId: string, date: string, time: string, freshId: string,
                          weekday: int, hours: seq<BusinessHours>, appts: seq<Appointment>, t: nat)
    requires Book(user, serviceId, date, time, freshId).Some?
    requires t < MinutesPerDay
    ensures var booked := appts + [Book(user, serviceId, date, time, freshId).value];
      t in Slots(date, weekday, hours, booked) <==> t in Slots(date, weekday, hours, appts) && FormatTime(t) != time
  {
    var a := Book(user, serviceId, date, time, freshId).value;
    var booked := appts + [a];
    var tm := FormatTime(t);
    assert Taken(booked, date, tm) <==> Taken(appts, date, tm) || tm == time by {
      if Taken(appts, date, tm) {
        var i :| 0 <= i < |appts| && Blocks(appts[i], date, tm);
        assert booked[i] == appts[i];
      }
      if tm == time {
        assert Blocks(booked[|appts|], date, tm);
      }
      if Taken(booked, date, tm) {
        var i :| 0 <= i < |booked| && Blocks(booked[i], date, tm);
        if i < |appts| {
          assert booked[i] == appts[i];
        }
      }
    }
    match HoursFor(hours, weekday)
    case None =>
    case Some(h) =>
      if h.isOpen && ParseTime(h.start).Some? && ParseTime(h.end).Some? {
        var s, e := ParseTime(h.start).value, ParseTime(h.end).value;
        FreeFromMembership(s, e, SlotTaken(appts, date), t);
        FreeFromMembership(s, e, SlotTaken(booked, date), t);
      }
  }

  function OwnedBy(clientId: string): Appointment -> bool {
    (a: Appointment) => a.clientId == clientId
  }

  /** The client's own appointments, earliest (date, time) first. */
  function MyAppointments(appts: seq<Appointment>, clientId: string): (r: seq<Appointment>)
    ensures forall a :: multiset(r)[a] == if a.clientId == clientId then multiset(appts)[a] else 0
    ensures Sorted(ByDateTime, r)
  {
    SortBy(ByDateTime, Filter(appts, OwnedBy(clientId)))
  }

  /** A booking shows up in the history of the client who made it. */
  lemma BookingShowsInHistory(user: User, serviceId: string, date: string, time: string, freshId: string,
                              appts: seq<Appointment>)
    requires Book(user, serviceId, date, time, freshId).Some?
    ensures var a := Book(user, serviceId, date, time, freshId).value;
      a in MyAppointments(appts + [a], user.id)
  {
    var a := Book(user, serviceId, date, time, freshId).value;
    assert a in multiset(appts + [a]);
    assert multiset(MyAppointments(appts + [a], user.id))[a] > 0;
  }

  /** A client id under which nothing was booked (a fresh session) sees an empty history. */
  lemma FreshClientHasNoHistory(appts: seq<Appointment>, clientId: string)
    requires forall i :: 0 <= i < |appts| ==> appts[i].clientId != clientId
    ensures MyAppointments(appts, clientId) == []
  {
  }

  /** An open Monday from 09:00 to 11:00 with no bookings offers four slots. */
  lemma OpenMondayScenario()
    ensures Times(Slots("2024-01-01", 1, [BusinessHours(1, true, "09:00", "11:00")], []))
         == ["09:00", "09:30", "10:00", "10:30"]
  {
    var hours := [BusinessHours(1, true, "09:00", "11:00")];
    assert OnWeekday(1)(hours[0]);
    assert ParseTime("09:00") == Some(540);
    assert ParseTime("11:00") == Some(660);
    var taken := SlotTaken([], "2024-01-01");
    assert !taken(540) && !taken(570) && !taken(600) && !taken(630);
    var s := FreeFrom(540, 660, taken);
    assert FreeFrom(660, 660, taken) == [];
    assert FreeFrom(630, 660, taken) == [630];
    assert FreeFrom(600, 660, taken) == [600, 630];
    assert FreeFrom(570, 660, taken) == [570, 600, 630];
    assert s == [540, 570, 600, 630];
    assert FormatTime(540) == "09:00" && FormatTime(570) == "09:30";
    assert FormatTime(600) == "10:00" && FormatTime(630) == "10:30";
  }
}
