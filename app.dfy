/**
 * The application shell: the five state cells (the signed-in user, the
 * barber accounts, the catalog, the appointments and the weekly hours), the
 * handlers that replace them, and the screens' submissions wired to those
 * handlers. The new value of each cell is computed by the pure functions at
 * the top of this module.
 */
module AppState {
  import opened Types
  import opened Seqs
  import opened Seed
  import CD = ClientDashboard
  import BD = BarberDashboard
  import AV = AuthView

  function HasAppointmentId(id: string): Appointment -> bool {
    (a: Appointment) => a.id == id
  }

  function NotAppointmentId(id: string): Appointment -> bool {
    (a: Appointment) => a.id != id
  }

  /** The appointments with the given id take the new status; nothing else changes. */
  function WithStatus(appts: seq<Appointment>, id: string, status: Status): (r: seq<Appointment>)
    ensures |r| == |appts|
    ensures forall i :: 0 <= i < |r| ==> r[i].status == if appts[i].id == id then status else appts[i].status
    ensures forall i :: 0 <= i < |r| ==> r[i].(status := appts[i].status) == appts[i]
  {
    Update(appts, HasAppointmentId(id), (a: Appointment) => a.(status := status))
  }

  /** The appointments without the given id, each kept as many times as before. */
  function WithoutAppointment(appts: seq<Appointment>, id: string): (r: seq<Appointment>)
    ensures forall a :: a in r <==> a in appts && a.id != id
    ensures forall a :: multiset(r)[a] == if a.id != id then multiset(appts)[a] else 0
  {
    Filter(appts, NotAppointmentId(id))
  }

  /** Deletion keeps the surviving appointments in their original order. */
  lemma WithoutAppointmentKeepsOrder(a: seq<Appointment>, b: seq<Appointment>, id: string)
    ensures WithoutAppointment(a + b, id) == WithoutAppointment(a, id) + WithoutAppointment(b, id)
  {
    FilterAppend(a, b, NotAppointmentId(id));
  }

  /** Deleting a freshly added appointment gives back the list before the addition. */
  lemma DeleteUndoesAdd(appts: seq<Appointment>, a: Appointment)
    requires forall i :: 0 <= i < |appts| ==> appts[i].id != a.id
    ensures WithoutAppointment(appts + [a], a.id) == appts
  {
    WithoutAppointmentKeepsOrder(appts, [a], a.id);
    FilterKeepsAll(appts, NotAppointmentId(a.id));
    FilterSingleton(a, NotAppointmentId(a.id));
  }

  /** Changing the status back restores the list when the id is unique and its record had that status. */
  lemma WithStatusRestores(appts: seq<Appointment>, k: nat, status: Status)
    requires k < |appts|
    requires forall i :: 0 <= i < |appts| && i != k ==> appts[i].id != appts[k].id
    ensures WithStatus(WithStatus(appts, appts[k].id, status), appts[k].id, appts[k].status) == appts
  {
    var r := WithStatus(WithStatus(appts, appts[k].id, status), appts[k].id, appts[k].status);
    assert forall i :: 0 <= i < |r| ==> r[i] == appts[i];
  }

  /**
   * Marking an appointment completed never frees a slot, and takes none
   * unless a cancelled record carries the same id.
   */
  lemma ConcludeKeepsSlots(appts: seq<Appointment>, id: string, date: string, time: string)
    ensures CD.Taken(appts, date, time) ==> CD.Taken(WithStatus(appts, id, Completed), date, time)
    ensures (forall i :: 0 <= i < |appts| && appts[i].id == id ==> appts[i].status != Cancelled) ==>
      (CD.Taken(WithStatus(appts, id, Completed), date, time) <==> CD.Taken(appts, date, time))
  {
    var r := WithStatus(appts, id, Completed);
    if CD.Taken(appts, date, time) {
      var k :| 0 <= k < |appts| && CD.Blocks(appts[k], date, time);
      assert CD.Blocks(r[k], date, time);
    }
    if CD.Taken(r, date, time) && forall i :: 0 <= i < |appts| && appts[i].id == id ==> appts[i].status != Cancelled {
      var k :| 0 <= k < |r| && CD.Blocks(r[k], date, time);
      assert CD.Blocks(appts[k], date, time);
    }
  }

  /** Deleting appointments never makes a free slot taken. */
  lemma DeletionNeverTakesSlot(appts: seq<Appointment>, id: string, date: string, time: string)
    ensures CD.Taken(WithoutAppointment(appts, id), date, time) ==> CD.Taken(appts, date, time)
  {
    var r := WithoutAppointment(appts, id);
    if CD.Taken(r, date, time) {
      var k :| 0 <= k < |r| && CD.Blocks(r[k], date, time);
      assert r[k] in appts;
    }
  }

  /** When every appointment holding a slot has the deleted id, deleting it frees the slot. */
  lemma CancelReleasesSlot(appts: seq<Appointment>, id: string, date: string, time: string)
    requires forall i :: 0 <= i < |appts| && CD.Blocks(appts[i], date, time) ==> appts[i].id == id
    ensures !CD.Taken(WithoutAppointment(appts, id), date, time)
  {
    var r := WithoutAppointment(appts, id);
    forall k | 0 <= k < |r|
      ensures !CD.Blocks(r[k], date, time)
    {
      assert r[k] in appts;
    }
  }

  /** What an agenda action does to the appointment list. */
  function PerformAction(appts: seq<Appointment>, id: string, action: BD.Action): (r: seq<Appointment>)
    ensures action == BD.Conclude ==> r == WithStatus(appts, id, Completed)
    ensures action == BD.Cancel ==> r == WithoutAppointment(appts, id)
  {
    match action
    case Conclude => WithStatus(appts, id, Completed)
    case Cancel => WithoutAppointment(appts, id)
  }

  /** Neither agenda action writes the cancelled status: every cancelled record was already there. */
  lemma ActionsNeverWriteCancelled(appts: seq<Appointment>, id: string, action: BD.Action, a: Appointment)
    requires a in PerformAction(appts, id, action) && a.status == Cancelled
    ensures a in appts
  {
    var r := PerformAction(appts, id, action);
    if action == BD.Conclude {
      var i :| 0 <= i < |r| && r[i] == a;
      assert appts[i].id != id;
    }
  }

  /**
   * A client signs in under the fresh id, so when no appointment carries that
   * id the client's history starts empty, whatever was booked under the same
   * name and phone before.
   */
  lemma ClientLoginStartsWithEmptyHistory(form: AV.Form, registry: seq<User>, freshId: string, appts: seq<Appointment>)
    requires form.role == Client && AV.Submit(form, registry, freshId).LoggedIn?
    requires forall i :: 0 <= i < |appts| ==> appts[i].clientId != freshId
    ensures AV.Submit(form, registry, freshId).user.id == freshId
    ensures CD.MyAppointments(appts, AV.Submit(form, registry, freshId).user.id) == []
  {
    CD.FreshClientHasNoHistory(appts, freshId);
  }

  class App {
    var currentUser: Option<User>
    var registeredBarbers: seq<User>
    var services: seq<Service>
    var appointments: seq<Appointment>
    var businessHours: seq<BusinessHours>

    /** No two barber accounts share a phone, service ids are unique and the week has its seven rows. */
    ghost predicate Valid()
      reads this
    {
      DistinctPhones(registeredBarbers) && DistinctServiceIds(services) && WeekTable(businessHours)
    }

    /** The state with nothing stored: nobody signed in, no accounts, the default catalog and week. */
    constructor ()
      ensures currentUser == None && registeredBarbers == [] && appointments == []
      ensures services == InitialServices() && businessHours == InitialBusinessHours()
      ensures Valid()
    {
      currentUser := None;
      registeredBarbers := [];
      services := InitialServices();
      appointments := [];
      businessHours := InitialBusinessHours();
    }

    method Logout()
      modifies this
      ensures currentUser == None
      ensures registeredBarbers == old(registeredBarbers) && services == old(services)
      ensures appointments == old(appointments) && businessHours == old(businessHours)
      ensures old(Valid()) ==> Valid()
    {
      currentUser := None;
    }

    method Login(user: User)
      modifies this
      ensures currentUser == Some(user)
      ensures registeredBarbers == old(registeredBarbers) && services == old(services)
      ensures appointments == old(appointments) && businessHours == old(businessHours)
      ensures old(Valid()) ==> Valid()
    {
      currentUser := Some(user);
    }

    method RegisterBarber(barber: User)
      modifies this
      ensures registeredBarbers == old(registeredBarbers) + [barber]
      ensures currentUser == old(currentUser) && services == old(services)
      ensures appointments == old(appointments) && businessHours == old(businessHours)
    {
      registeredBarbers := registeredBarbers + [barber];
    }

    method AddAppointment(a: Appointment)
      modifies this
      ensures appointments == old(appointments) + [a]
      ensures currentUser == old(currentUser) && registeredBarbers == old(registeredBarbers)
      ensures services == old(services) && businessHours == old(businessHours)
      ensures old(Valid()) ==> Valid()
    {
      appointments := appointments + [a];
    }

    method UpdateAppointmentStatus(id: string, status: Status)
      modifies this
      ensures appointments == WithStatus(old(appointments), id, status)
      ensures currentUser == old(currentUser) && registeredBarbers == old(registeredBarbers)
      ensures services == old(services) && businessHours == old(businessHours)
      ensures old(Valid()) ==> Valid()
    {
      appointments := WithStatus(appointments, id, status);
    }

    method DeleteAppointment(id: string)
      modifies this
      ensures appointments == WithoutAppointment(old(appointments), id)
      ensures currentUser == old(currentUser) && registeredBarbers == old(registeredBarbers)
      ensures services == old(services) && businessHours == old(businessHours)
      ensures old(Valid()) ==> Valid()
    {
      appointments := WithoutAppointment(appointments, id);
    }

    method UpdateServices(s: seq<Service>)
      modifies this
      ensures services == s
      ensures currentUser == old(currentUser) && registeredBarbers == old(registeredBarbers)
      ensures appointments == old(appointments) && businessHours == old(businessHours)
    {
      services := s;
    }

    method UpdateHours(h: seq<BusinessHours>)
      modifies this
      ensures businessHours == h
      ensures currentUser == old(currentUser) && registeredBarbers == old(registeredBarbers)
      ensures services == old(services) && appointments == old(appointments)
    {
      businessHours := h;
    }

    /**
     * Submitting the sign-in form, shown while nobody is signed in: a
     * registration adds the account and then signs it in, a login signs in,
     * a rejection changes nothing.
     */
    method SubmitAuth(form: AV.Form, freshId: string) returns (outcome: AV.Outcome)
      requires currentUser.None?
      modifies this
      ensures outcome == AV.Submit(form, old(registeredBarbers), freshId)
      ensures registeredBarbers == AV.RegistryAfter(old(registeredBarbers), outcome)
      ensures currentUser == AV.SessionAfter(old(currentUser), outcome)
      ensures services == old(services) && appointments == old(appointments) && businessHours == old(businessHours)
      ensures old(Valid()) ==> Valid()
    {
      ghost var before := registeredBarbers;
      outcome := AV.Submit(form, registeredBarbers, freshId);
      match outcome {
        case Rejected(_) =>
        case LoggedIn(u) =>
          Login(u);
        case RegisteredAndLoggedIn(u) =>
          RegisterBarber(u);
          Login(u);
      }
      if DistinctPhones(before) {
        AV.SubmitKeepsPhonesDistinct(form, before, freshId);
      }
    }

    /** The signed-in client books a slot; nothing is added without a service or a time. */
    method BookAppointment(serviceId: string, date: string, time: string, freshId: string)
      returns (booked: Option<Appointment>)
      requires currentUser.Some? && currentUser.value.role == Client
      modifies this
      ensures booked == CD.Book(old(currentUser).value, serviceId, date, time, freshId)
      ensures appointments == if booked.Some? then old(appointments) + [booked.value] else old(appointments)
      ensures currentUser == old(currentUser) && registeredBarbers == old(registeredBarbers)
      ensures services == old(services) && businessHours == old(businessHours)
      ensures old(Valid()) ==> Valid()
    {
      booked := CD.Book(currentUser.value, serviceId, date, time, freshId);
      if booked.Some? {
        AddAppointment(booked.value);
      }
    }

    /**
     * A barber acts on a pending appointment of the agenda: concluding writes
     * the completed status, cancelling deletes the record.
     */
    method BarberAction(id: string, action: BD.Action)
      requires currentUser.Some? && currentUser.value.role == Barber
      requires exists i :: (0 <= i < |appointments| && appointments[i].id == id
                            && action in BD.OfferedActions(appointments[i]))
      modifies this
      ensures appointments == PerformAction(old(appointments), id, action)
      ensures currentUser == old(currentUser) && registeredBarbers == old(registeredBarbers)
      ensures services == old(services) && businessHours == old(businessHours)
      ensures old(Valid()) ==> Valid()
    {
      match action {
        case Conclude =>
          UpdateAppointmentStatus(id, Completed);
        case Cancel =>
          DeleteAppointment(id);
      }
    }

    /** Saving the service form; a created service's id must be new for ids to stay unique. */
    method SaveService(editing: Option<Service>, form: BD.ServiceForm, freshId: string)
      requires currentUser.Some? && currentUser.value.role == Barber
      modifies this
      ensures services == BD.SaveService(old(services), editing, form, freshId)
      ensures currentUser == old(currentUser) && registeredBarbers == old(registeredBarbers)
      ensures appointments == old(appointments) && businessHours == old(businessHours)
      ensures old(Valid()) && (editing.None? ==> forall i :: 0 <= i < |old(services)| ==> old(services)[i].id != freshId)
        ==> Valid()
    {
      ghost var before := services;
      UpdateServices(BD.SaveService(services, editing, form, freshId));
      if DistinctServiceIds(before) && (editing.None? ==> forall i :: 0 <= i < |before| ==> before[i].id != freshId) {
        BD.SaveServiceKeepsIdsDistinct(before, editing, form, freshId);
      }
    }

    /** Confirming the deletion of the selected service; appointments are not touched. */
    method DeleteService(selected: Option<string>)
      requires currentUser.Some? && currentUser.value.role == Barber
      modifies this
      ensures services == BD.ConfirmDeleteService(old(services), selected)
      ensures currentUser == old(currentUser) && registeredBarbers == old(registeredBarbers)
      ensures appointments == old(appointments) && businessHours == old(businessHours)
      ensures old(Valid()) ==> Valid()
    {
      ghost var before := services;
      if selected.Some? && selected.value != [] {
        UpdateServices(BD.ConfirmDeleteService(services, selected));
      }
      if DistinctServiceIds(before) {
        BD.DeleteServiceKeepsIdsDistinct(before, selected);
      }
    }

    method ToggleDay(day: int)
      requires currentUser.Some? && currentUser.value.role == Barber
      modifies this
      ensures businessHours == BD.ToggleDay(old(businessHours), day)
      ensures currentUser == old(currentUser) && registeredBarbers == old(registeredBarbers)
      ensures services == old(services) && appointments == old(appointments)
      ensures old(Valid()) ==> Valid()
    {
      ghost var before := businessHours;
      UpdateHours(BD.ToggleDay(businessHours, day));
      if WeekTable(before) {
        BD.ToggleDayKeepsWeek(before, day);
      }
    }

    method ChangeTime(day: int, field: BD.HoursField, value: string)
      requires currentUser.Some? && currentUser.value.role == Barber
      modifies this
      ensures businessHours == BD.ChangeTime(old(businessHours), day, field, value)
      ensures currentUser == old(currentUser) && registeredBarbers == old(registeredBarbers)
      ensures services == old(services) && appointments == old(appointments)
      ensures old(Valid()) ==> Valid()
    {
      ghost var before := businessHours;
      UpdateHours(BD.ChangeTime(businessHours, day, field, value));
      if WeekTable(before) {
        BD.ChangeTimeKeepsWeek(before, day, field, value);
      }
    }
  }
}
