/**
 * The barber's view: the agenda of one day, the day's statistics, catalog
 * editing, the weekly-hours editor and the actions offered on an appointment.
 * Every handler computes a new list from the current one and hands it to the
 * application state.
 */
module BarberDashboard {
  import opened Types
  import opened Seqs
  import opened Ordering
  import opened Clock
  import ClientDashboard

  function OnDate(date: string): Appointment -> bool {
    (a: Appointment) => a.date == date
  }

  function IsCompleted(a: Appointment): bool {
    a.status == Completed
  }

  /** The appointments of filterDate, in ascending time order. */
  function Agenda(appts: seq<Appointment>, filterDate: string): (r: seq<Appointment>)
    ensures forall a :: multiset(r)[a] == if a.date == filterDate then multiset(appts)[a] else 0
    ensures Sorted(ByTime, r)
  {
    SortBy(ByTime, Filter(appts, OnDate(filterDate)))
  }

  /** On well-formed times, the agenda is in chronological order. */
  lemma AgendaIsChronological(appts: seq<Appointment>, filterDate: string, i: nat, j: nat)
    requires i < j < |Agenda(appts, filterDate)|
    requires ParseTime(Agenda(appts, filterDate)[i].time).Some?
    requires ParseTime(Agenda(appts, filterDate)[j].time).Some?
    ensures ParseTime(Agenda(appts, filterDate)[i].time).value <= ParseTime(Agenda(appts, filterDate)[j].time).value
  {
    var r := Agenda(appts, filterDate);
    assert Before(ByTime, r[i], r[j]);
    TimeOrderIsChronological(r[i].time, r[j].time);
  }

  datatype DailyStats = DailyStats(totalToday: nat, completedToday: nat, revenueToday: int)

  function HasId(id: string): Service -> bool {
    (s: Service) => s.id == id
  }

  /** The price of the first service with that id; a missing service counts 0. */
  function PriceOf(services: seq<Service>, serviceId: string): (p: int)
    ensures (forall i :: 0 <= i < |services| ==> services[i].id != serviceId) ==> p == 0
    ensures p != 0 ==> exists i :: 0 <= i < |services| && services[i].id == serviceId && services[i].price == p
    ensures forall i :: (0 <= i < |services| && services[i].id == serviceId
                          && forall j :: 0 <= j < i ==> services[j].id != serviceId)
                        ==> p == services[i].price
  {
    match Find(services, HasId(serviceId))
    case None => 0
    case Some(s) => s.price
  }

  /** The summed price of a list of appointments; never negative while no price is. */
  function Revenue(appts: seq<Appointment>, services: seq<Service>): (r: int)
    ensures appts == [] ==> r == 0
    ensures (forall i :: 0 <= i < |services| ==> services[i].price >= 0) ==> r >= 0
  {
    if appts == [] then 0 else PriceOf(services, appts[0].serviceId) + Revenue(appts[1..], services)
  }

  /** Counts and revenue of the appointments dated today; revenue only from completed ones. */
  function Stats(appts: seq<Appointment>, services: seq<Service>, today: string): (r: DailyStats)
    ensures r.completedToday <= r.totalToday
  {
    var todayApps := Filter(appts, OnDate(today));
    var done := Filter(todayApps, IsCompleted);
    DailyStats(|todayApps|, |done|, Revenue(done, services))
  }

  lemma {:induction false} RevenueAppend(appts: seq<Appointment>, a: Appointment, services: seq<Service>)
    ensures Revenue(appts + [a], services) == Revenue(appts, services) + PriceOf(services, a.serviceId)
  {
    if appts == [] {
      assert [] + [a] == [a];
    } else {
      assert (appts + [a])[1..] == appts[1..] + [a];
      RevenueAppend(appts[1..], a, services);
    }
  }

  /** With no appointments the statistics are all zero. */
  lemma StatsOfNothing(services: seq<Service>, today: string)
    ensures Stats([], services, today) == DailyStats(0, 0, 0)
  {
  }

  /**
   * One more appointment moves the counters exactly by its own contribution:
   * one to the total if dated today, one to completed and its service's price
   * to revenue if also completed; a service missing from the catalog adds 0.
   */
  lemma StatsAppend(appts: seq<Appointment>, a: Appointment, services: seq<Service>, today: string)
    ensures var before := Stats(appts, services, today);
      var after := Stats(appts + [a], services, today);
      var counts := a.date == today && a.status == Completed;
      && after.totalToday == before.totalToday + (if a.date == today then 1 else 0)
      && after.completedToday == before.completedToday + (if counts then 1 else 0)
      && after.revenueToday == before.revenueToday + (if counts then PriceOf(services, a.serviceId) else 0)
  {
    var onToday := OnDate(today);
    var t, t' := Filter(appts, onToday), Filter(appts + [a], onToday);
    var d, d' := Filter(t, IsCompleted), Filter(t', IsCompleted);
    FilterAppend(appts, [a], onToday);
    FilterSingleton(a, onToday);
    if a.date == today {
      assert t' == t + [a];
      FilterAppend(t, [a], IsCompleted);
      FilterSingleton(a, IsCompleted);
      if IsCompleted(a) {
        assert d' == d + [a];
        RevenueAppend(d, a, services);
      } else {
        assert d' == d + [];
        assert d' == d;
      }
    } else {
      assert t' == t + [];
      assert t' == t;
    }
  }

  /** The edited fields of a service as entered in the form. */
  datatype ServiceForm = ServiceForm(name: string, price: int, durationMinutes: int)

  function FromForm(id: string, form: ServiceForm): Service {
    Service(id, form.name, form.price, form.durationMinutes)
  }

  /** Every record with the edited id takes the form's fields and keeps its id; all others stay put. */
  function EditService(services: seq<Service>, editing: Service, form: ServiceForm): (r: seq<Service>)
    ensures |r| == |services|
    ensures forall i :: 0 <= i < |r| ==> r[i].id == services[i].id
    ensures forall i :: 0 <= i < |r| ==> r[i] == if services[i].id == editing.id then FromForm(editing.id, form) else services[i]
  {
    Update(services, HasId(editing.id), (s: Service) => FromForm(editing.id, form))
  }

  /** A catalog entry created from the form, appended at the end. */
  function CreateService(services: seq<Service>, freshId: string, form: ServiceForm): (r: seq<Service>)
    ensures |r| == |services| + 1
    ensures r[..|services|] == services && r[|services|] == FromForm(freshId, form)
  {
    services + [FromForm(freshId, form)]
  }

  /** Saving the service form edits the service being edited, or creates a new one. */
  function SaveService(services: seq<Service>, editing: Option<Service>, form: ServiceForm, freshId: string): (r: seq<Service>)
    ensures editing.Some? ==> |r| == |services| && forall i :: 0 <= i < |r| ==>
      r[i] == if services[i].id == editing.value.id then FromForm(editing.value.id, form) else services[i]
    ensures editing.None? ==> r == services + [Service(freshId, form.name, form.price, form.durationMinutes)]
  {
    match editing
    case Some(s) => EditService(services, s, form)
    case None => CreateService(services, freshId, form)
  }

  lemma EditServiceIdempotent(services: seq<Service>, editing: Service, form: ServiceForm)
    ensures EditService(EditService(services, editing, form), editing, form) == EditService(services, editing, form)
  {
  }

  /** After an edit, looking the id up gives the form's fields. */
  lemma EditServiceIsFound(services: seq<Service>, editing: Service, form: ServiceForm)
    requires exists i :: 0 <= i < |services| && services[i].id == editing.id
    ensures Find(EditService(services, editing, form), HasId(editing.id)) == Some(FromForm(editing.id, form))
  {
    var r := EditService(services, editing, form);
    var k := FindIndex(r, HasId(editing.id));
    var i :| 0 <= i < |services| && services[i].id == editing.id;
    assert HasId(editing.id)(r[i]);
  }

  /** Saving never makes two services share an id, provided a new id is fresh. */
  lemma SaveServiceKeepsIdsDistinct(services: seq<Service>, editing: Option<Service>, form: ServiceForm, freshId: string)
    requires DistinctServiceIds(services)
    requires editing.None? ==> forall i :: 0 <= i < |services| ==> services[i].id != freshId
    ensures DistinctServiceIds(SaveService(services, editing, form, freshId))
  {
    var r := SaveService(services, editing, form, freshId);
    if editing.None? {
      forall i, j | 0 <= i < j < |r|
        ensures r[i].id != r[j].id
      {
        if j == |services| {
          assert r[i] == services[i];
        } else {
          assert r[i] == services[i] && r[j] == services[j];
        }
      }
    }
  }

  /**
   * Confirming a deletion removes every service with the selected id and
   * keeps the others; with nothing (or an empty id) selected it does nothing.
   */
  function ConfirmDeleteService(services: seq<Service>, selected: Option<string>): (r: seq<Service>)
    ensures selected.None? || selected.value == [] ==> r == services
    ensures selected.Some? && selected.value != [] ==>
      forall s :: s in r <==> s in services && s.id != selected.value
    ensures selected.Some? && selected.value != [] ==>
      forall s :: multiset(r)[s] == if s.id != selected.value then multiset(services)[s] else 0
  {
    if selected.None? || selected.value == [] then services
    else Filter(services, NotId(selected.value))
  }

  function NotId(id: string): Service -> bool {
    (s: Service) => s.id != id
  }

  /** Deleting keeps the surviving services in their original order. */
  lemma DeleteServiceKeepsOrder(a: seq<Service>, b: seq<Service>, id: string)
    ensures ConfirmDeleteService(a + b, Some(id)) == ConfirmDeleteService(a, Some(id)) + ConfirmDeleteService(b, Some(id))
  {
    if id != [] {
      FilterAppend(a, b, NotId(id));
    }
  }

  /** Deleting an id no service carries leaves the catalog as it is. */
  lemma DeleteAbsentServiceIsNoOp(services: seq<Service>, id: string)
    requires forall i :: 0 <= i < |services| ==> services[i].id != id
    ensures ConfirmDeleteService(services, Some(id)) == services
  {
    if id != [] {
      FilterKeepsAll(services, NotId(id));
    }
  }

  /** Once its service is deleted, an appointment for it contributes nothing to revenue. */
  lemma DeletedServiceEarnsNothing(services: seq<Service>, id: string)
    requires id != []
    ensures PriceOf(ConfirmDeleteService(services, Some(id)), id) == 0
  {
    var r := ConfirmDeleteService(services, Some(id));
    forall i | 0 <= i < |r|
      ensures r[i].id != id
    {
      assert r[i] in r;
    }
  }

  lemma DeleteServiceKeepsIdsDistinct(services: seq<Service>, selected: Option<string>)
    requires DistinctServiceIds(services)
    ensures DistinctServiceIds(ConfirmDeleteService(services, selected))
  {
    if selected.Some? && selected.value != [] {
      DistinctSubset(services, NotId(selected.value));
    }
  }

  lemma {:induction false} DistinctSubset(services: seq<Service>, p: Service -> bool)
    requires DistinctServiceIds(services)
    ensures DistinctServiceIds(Filter(services, p))
  {
    if services != [] {
      var rest := Filter(services[1..], p);
      DistinctSubset(services[1..], p);
      if p(services[0]) {
        forall y | y in rest
          ensures y.id != services[0].id
        {
          var k :| 0 <= k < |services[1..]| && services[1..][k] == y;
          assert services[k + 1] == y;
        }
        DistinctCons(services[0], rest);
        assert Filter(services, p) == [services[0]] + rest;
      } else {
        assert Filter(services, p) == [] + rest;
      }
    }
  }

  lemma DistinctCons(x: Service, rest: seq<Service>)
    requires DistinctServiceIds(rest)
    requires forall y :: y in rest ==> y.id != x.id
    ensures DistinctServiceIds([x] + rest)
  {
    var r := [x] + rest;
    forall i, j | 0 <= i < j < |r|
      ensures r[i].id != r[j].id
    {
      assert r[j] == rest[j - 1];
      if i > 0 {
        assert r[i] == rest[i - 1];
      }
    }
  }

  /** Flips isOpen on the rows of one weekday, keeping their times; other rows stay put. */
  function ToggleDay(hours: seq<BusinessHours>, day: int): (r: seq<BusinessHours>)
    ensures |r| == |hours|
    ensures forall i :: 0 <= i < |r| ==>
      r[i] == if hours[i].day == day then hours[i].(isOpen := !hours[i].isOpen) else hours[i]
  {
    Update(hours, ClientDashboard.OnWeekday(day), (h: BusinessHours) => h.(isOpen := !h.isOpen))
  }

  lemma ToggleDayTwice(hours: seq<BusinessHours>, day: int)
    ensures ToggleDay(ToggleDay(hours, day), day) == hours
  {
    var r := ToggleDay(ToggleDay(hours, day), day);
    assert forall i :: 0 <= i < |r| ==> r[i] == hours[i];
  }

  lemma ToggleDayKeepsWeek(hours: seq<BusinessHours>, day: int)
    requires WeekTable(hours)
    ensures WeekTable(ToggleDay(hours, day))
  {
  }

  /** The field the hours editor changes. */
  datatype HoursField = StartField | EndField

  function WithTime(h: BusinessHours, field: HoursField, value: string): BusinessHours {
    match field
    case StartField => h.(start := value)
    case EndField => h.(end := value)
  }

  /** Replaces one time of the rows of one weekday; there is no check that start stays before end. */
  function ChangeTime(hours: seq<BusinessHours>, day: int, field: HoursField, value: string): (r: seq<BusinessHours>)
    ensures |r| == |hours|
    ensures forall i :: 0 <= i < |r| ==>
      r[i] == if hours[i].day == day then WithTime(hours[i], field, value) else hours[i]
  {
    Update(hours, ClientDashboard.OnWeekday(day), (h: BusinessHours) => WithTime(h, field, value))
  }

  lemma ChangeTimeKeepsWeek(hours: seq<BusinessHours>, day: int, field: HoursField, value: string)
    requires WeekTable(hours)
    ensures WeekTable(ChangeTime(hours, day, field, value))
  {
  }

  /**
   * Nothing stops an end from being set before the start; such a day then
   * offers no slots at all.
   */
  lemma InvertedHoursOfferNothing(date: string, weekday: int, hours: seq<BusinessHours>, appts: seq<Appointment>, value: string)
    requires WeekTable(hours) && 0 <= weekday < 7
    requires ParseTime(hours[weekday].start).Some? && ParseTime(value).Some?
    requires ParseTime(value).value <= ParseTime(hours[weekday].start).value
    ensures ClientDashboard.Slots(date, weekday, ChangeTime(hours, weekday, EndField, value), appts) == []
  {
    var r := ChangeTime(hours, weekday, EndField, value);
    if r[weekday].isOpen {
      ClientDashboard.SlotsOfOpenDay(date, weekday, r, appts, weekday,
        ParseTime(r[weekday].start).value, ParseTime(r[weekday].end).value);
    } else {
      ClientDashboard.NoSlotsWhenClosed(date, weekday, r, appts);
    }
  }

  /** What the agenda offers to do with an appointment. */
  datatype Action = Conclude | Cancel

  /** Only a pending appointment offers actions, and then both. */
  function OfferedActions(a: Appointment): (r: set<Action>)
    ensures r != {} <==> a.status == Pending
    ensures r != {} ==> r == {Conclude, Cancel}
  {
    if a.status == Pending then {Conclude, Cancel} else {}
  }
}
