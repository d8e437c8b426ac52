/**
 * The built-in catalog and opening hours the application starts from when
 * nothing has been stored yet.
 */
module Seed {
  import opened Types
  import opened Clock

  /** A row whose start and end are times of day with start strictly before end. */
  predicate WellFormedRow(h: BusinessHours) {
    ParseTime(h.start).Some? && ParseTime(h.end).Some? && ParseTime(h.start).value < ParseTime(h.end).value
  }

  /** The five default services (prices in cents). */
  function InitialServices(): (s: seq<Service>)
    ensures |s| == 5
    ensures DistinctServiceIds(s)
    ensures forall i :: 0 <= i < |s| ==> s[i].price > 0 && s[i].durationMinutes > 0
  {
    [ Service("1", "Corte Social", 4000, 30),
      Service("2", "Degradê / Fade", 5000, 45),
      Service("3", "Barba Completa", 3000, 20),
      Service("4", "Combo: Corte + Barba", 7000, 60),
      Service("5", "Platinado / Nevou", 12000, 120) ]
  }

  /** The default week: closed on Sunday, open Monday to Saturday. */
  function InitialBusinessHours(): (h: seq<BusinessHours>)
    ensures WeekTable(h)
    ensures forall i :: 0 <= i < |h| ==> (h[i].isOpen <==> h[i].day != 0)
    ensures forall i :: 0 <= i < |h| ==> WellFormedRow(h[i])
  {
    [ BusinessHours(0, false, "09:00", "18:00"),
      BusinessHours(1, true, "09:00", "19:00"),
      BusinessHours(2, true, "09:00", "19:00"),
      BusinessHours(3, true, "09:00", "19:00"),
      BusinessHours(4, true, "09:00", "19:00"),
      BusinessHours(5, true, "09:00", "20:00"),
      BusinessHours(6, true, "08:00", "18:00") ]
  }
}
