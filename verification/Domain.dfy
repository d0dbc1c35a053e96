/** The entities of the reservation system: products, reservations and the events
    that record what happened to them. Times are integers (nanoseconds). */
module Domain {

  datatype Option<+T> = None | Some(value: T)

  datatype DomainError =
    | OutOfStock
    | ReservationNotFound
    | ReservationAlreadyFinalized
    | ReservationExpired
    | ProductNotFound

  /** `Unset` is the empty state of a zero-valued record, which is what a failed
      repository lookup hands back. */
  datatype ReservationState = Active | Confirmed | Cancelled | Expired | Unset

  datatype Reservation = Reservation(
    reservationId: string,
    productId: string,
    userId: string,
    state: ReservationState,
    createdAt: int,
    expiresAt: int,
    confirmedAt: Option<int>,
    cancelledAt: Option<int>,
    expiredAt: Option<int>)
  {
    predicate IsActive() {
      state == Active
    }

    /** The hold has outlived its window: `now` is not before `expiresAt`. */
    predicate Lapsed(now: int) {
      expiresAt <= now
    }
  }

  const ZERO_RESERVATION := Reservation("", "", "", Unset, 0, 0, None, None, None)

  datatype ProductInventory = ProductInventory(
    productId: string,
    totalStock: int,
    confirmedCount: int,
    activeReservationCount: int)
  {
    function AvailableStock(): int {
      totalStock - confirmedCount - activeReservationCount
    }
  }

  datatype EventType =
    | EventReserved
    | EventReserveRejected
    | EventConfirmed
    | EventCancelled
    | EventExpired

  datatype InventoryEvent = InventoryEvent(
    eventId: string,
    kind: EventType,
    productId: string,
    reservationId: Option<string>,
    userId: Option<string>,
    reason: Option<string>,
    occurredAt: int)

  /** The three ways an Active reservation can end. */
  datatype Ending = ToConfirmed | ToCancelled | ToExpired

  /** The closures handed to `UpdateReservation`. */
  function Ended(r: Reservation, e: Ending, now: int): Reservation {
    match e
    case ToConfirmed => r.(state := Confirmed, confirmedAt := Some(now))
    case ToCancelled => r.(state := Cancelled, cancelledAt := Some(now))
    case ToExpired => r.(state := Expired, expiredAt := Some(now))
  }

  /** The closures handed to `UpdateProduct` when a hold ends. */
  function Released(p: ProductInventory, e: Ending): ProductInventory {
    match e
    case ToConfirmed =>
      p.(activeReservationCount := p.activeReservationCount - 1, confirmedCount := p.confirmedCount + 1)
    case _ => p.(activeReservationCount := p.activeReservationCount - 1)
  }

  /** The closure handed to `UpdateProduct` when a hold is created. */
  function Held(p: ProductInventory): ProductInventory {
    p.(activeReservationCount := p.activeReservationCount + 1)
  }

  function EndingKind(e: Ending): EventType {
    match e
    case ToConfirmed => EventConfirmed
    case ToCancelled => EventCancelled
    case ToExpired => EventExpired
  }

  function EndingEvent(e: Ending, r: Reservation, now: int, eventId: string): InventoryEvent {
    InventoryEvent(eventId, EndingKind(e), r.productId, Some(r.reservationId), Some(r.userId), None, now)
  }

  function ReservedEvent(r: Reservation, eventId: string): InventoryEvent {
    InventoryEvent(eventId, EventReserved, r.productId, Some(r.reservationId), Some(r.userId), None, r.createdAt)
  }

  function RejectedEvent(productId: string, userId: string, now: int, eventId: string): InventoryEvent {
    InventoryEvent(eventId, EventReserveRejected, productId, None, Some(userId), Some("out of stock"), now)
  }

  function NewHold(id: string, productId: string, userId: string, now: int, holdFor: int): Reservation {
    Reservation(id, productId, userId, Active, now, now + holdFor, None, None, None)
  }
}
