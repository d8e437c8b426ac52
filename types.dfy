/**
 * The records of the barbershop application: the service catalog, booked
 * appointments, the weekly opening hours and user accounts, together with the
 * well-formedness conditions the rest of the model keeps.
 */
module Types {

  datatype Option<T> = None | Some(value: T)

  /** The life-cycle state of an appointment. */
  datatype Status = Pending | Completed | Cancelled

  datatype Role = Client | Barber

  /** An actor of the application; only barber accounts carry a password. */
  datatype User = User(id: string, name: string, phone: string, role: Role, password: Option<string>)

  /** A catalog entry. The price is in whole cents, so that sums are exact. */
  datatype Service = Service(id: string, name: string, price: int, durationMinutes: int)

  /**
   * A booking. The client's name and phone are copied at creation time; the
   * date is a "YYYY-MM-DD" string and the time an "HH:MM" string.
   */
  datatype Appointment = Appointment(
    id: string,
    clientId: string,
    clientName: string,
    clientPhone: string,
    serviceId: string,
    date: string,
    time: string,
    status: Status)

  /** The opening hours of one weekday (0 = Sunday); start and end are "HH:MM" strings. */
  datatype BusinessHours = BusinessHours(day: int, isOpen: bool, start: string, end: string)

  /** Seven rows, row i describing weekday i, so every weekday appears exactly once. */
  predicate WeekTable(hours: seq<BusinessHours>) {
    |hours| == 7 && forall i :: 0 <= i < 7 ==> hours[i].day == i
  }

  /** No two barber accounts share a phone number. */
  predicate DistinctPhones(barbers: seq<User>) {
    forall i, j :: 0 <= i < j < |barbers| ==> barbers[i].phone != barbers[j].phone
  }

  /** No two catalog entries share an id. */
  predicate DistinctServiceIds(services: seq<Service>) {
    forall i, j :: 0 <= i < j < |services| ==> services[i].id != services[j].id
  }
}
