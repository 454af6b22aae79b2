/** Kitchen logistics: from the date of a restaurant service, the date the
    order is placed (the Monday of the week before), the date the stock is
    closed (the Friday before that) and the date the menu is designed (24 days
    before), and the three linked calendar events built from them. */
module KitchenLogic {
  import opened Wrappers
  import opened Dates
  import opened Types

  /** The Monday of the ISO week a day belongs to (a Sunday ends its week). */
  function WeekStart(d: Day): (m: Day)
    ensures JsWeekday(m) == 1 && m <= d < m + 7
  {
    d - (IsoWeekday(d) - 1)
  }

  /** `getPreviousMonday`: the Monday of the week before the date's week. */
  function PreviousMonday(d: Day): (m: Day)
    ensures JsWeekday(m) == 1
    ensures d - 13 <= m <= d - 7
    ensures m == WeekStart(d) - 7
  {
    var day := JsWeekday(d);
    d - day + (if day == 0 then -6 else 1) - 7
  }

  /** The previous Monday is the only Monday from 7 to 13 days before the
      date. */
  lemma PreviousMondayUnique(d: Day, m: Day)
    requires JsWeekday(m) == 1 && d - 13 <= m <= d - 7
    ensures m == PreviousMonday(d)
  {
  }

  /** `getFridayTwoWeeksBefore`: the Friday right before the order Monday. */
  function FridayTwoWeeksBefore(d: Day): (f: Day)
    ensures JsWeekday(f) == 5
    ensures f == PreviousMonday(d) - 3
    ensures d - 16 <= f <= d - 10
  {
    var monday := PreviousMonday(d);
    monday - 3
  }

  /** `get24DaysBefore` */
  function DaysBefore24(d: Day): (r: Day)
    ensures d - r == 24
  {
    d - 24
  }

  /** The event that asks for the order to be placed. */
  function OrderEvent(baseId: Id, service: Day): CalendarEvent {
    CalendarEvent(
      baseId + "-order", Some(PreviousMonday(service)), Some("Realizar Pedido"),
      Some("Pedido para el servicio del " + IsoDate(service)),
      Some(Order), None, Some(baseId), Some(false))
  }

  function StockEvent(baseId: Id, service: Day): CalendarEvent {
    CalendarEvent(
      baseId + "-stock", Some(FridayTwoWeeksBefore(service)), Some("Cerrar Stock e Inventario"),
      Some("Revisión final de stock para servicio del " + IsoDate(service)),
      Some(Order), None, Some(baseId), Some(false))
  }

  function MenuEvent(baseId: Id, service: Day): CalendarEvent {
    CalendarEvent(
      baseId + "-menu", Some(DaysBefore24(service)), Some("Diseñar Menú"),
      Some("Definición gastronómica para el " + IsoDate(service)),
      Some(Menu), None, Some(baseId), Some(false))
  }

  /** `generateLogisticEvents`: nothing for an event without a date, otherwise
      the order, stock and menu events, in that order, each linked to the
      service, not completed and dated by the rules above. */
  method GenerateLogisticEvents(service: CalendarEvent) returns (events: seq<CalendarEvent>)
    ensures service.date.None? ==> events == []
    ensures service.date.Some? ==> var d := service.date.value;
      |events| == 3
      && events[0].id == service.id + "-order" && events[1].id == service.id + "-stock"
      && events[2].id == service.id + "-menu"
      && events[0].kind == Some(Order) && events[1].kind == Some(Order) && events[2].kind == Some(Menu)
      && events[0].date == Some(PreviousMonday(d)) && events[1].date == Some(FridayTwoWeeksBefore(d))
      && events[2].date == Some(DaysBefore24(d))
      && events[0].linkedEventId == events[1].linkedEventId == events[2].linkedEventId == Some(service.id)
      && events[0].completed == events[1].completed == events[2].completed == Some(false)
    ensures events == LogisticEvents(service)
  {
    if service.date.None? {
      return [];
    }
    var serviceDate := service.date.value;
    events := [];
    var baseId := service.id;
    events := events + [OrderEvent(baseId, serviceDate)];
    events := events + [StockEvent(baseId, serviceDate)];
    events := events + [MenuEvent(baseId, serviceDate)];
    assert events == [OrderEvent(baseId, serviceDate), StockEvent(baseId, serviceDate), MenuEvent(baseId, serviceDate)];
  }

  /** The events `GenerateLogisticEvents` returns, for use inside other
      functions. */
  function LogisticEvents(service: CalendarEvent): (r: seq<CalendarEvent>)
    ensures |r| == if service.date.Some? then 3 else 0
  {
    match service.date
    case None => []
    case Some(d) => [OrderEvent(service.id, d), StockEvent(service.id, d), MenuEvent(service.id, d)]
  }

  /** Every logistics event is dated before its service: the order and stock
      events in the two weeks before it, the menu event 24 days before. */
  lemma LogisticEventsPrecedeService(service: CalendarEvent)
    requires service.date.Some?
    ensures forall e :: e in LogisticEvents(service) ==>
      e.date.Some? && service.date.value - 24 <= e.date.value <= service.date.value - 7
  {
  }

  /** The service of 2025-11-25 (a Tuesday) orders on Monday 2025-11-17,
      closes stock on Friday 2025-11-14 and designs the menu on 2025-11-01. */
  lemma GoldenService()
    ensures DaysFromCivil(2025, 11, 25) == 20417
    ensures PreviousMonday(20417) == DaysFromCivil(2025, 11, 17)
    ensures FridayTwoWeeksBefore(20417) == DaysFromCivil(2025, 11, 14)
    ensures DaysBefore24(20417) == DaysFromCivil(2025, 11, 1)
  {
    GoldenServiceDay();
    assert (153 * 8 + 2) / 5 == 245 && 2025 / 400 == 5;
    assert DaysFromCivil(2025, 11, 17) == 20409;
    assert DaysFromCivil(2025, 11, 14) == 20406;
    assert DaysFromCivil(2025, 11, 1) == 20393;
  }

  /** A Saturday service (2026-02-28) orders twelve days earlier, on Monday
      2026-02-16. */
  lemma GoldenSaturdayService()
    ensures PreviousMonday(DaysFromCivil(2026, 2, 28)) == DaysFromCivil(2026, 2, 16)
  {
    assert (153 * 11 + 2) / 5 == 337 && 2025 / 400 == 5;
    assert DaysFromCivil(2026, 2, 28) == 20512;
    assert JsWeekday(20512) == 6;
    assert DaysFromCivil(2026, 2, 16) == 20500;
  }
}
