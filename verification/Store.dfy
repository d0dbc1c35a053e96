/** The contents of the repository as a value: the two maps and the event log, the
    effect of each repository call on them, and the part that concerns one product. */
module Stores {
  import opened Domain
  import opened Ids

  datatype Store = Store(
    products: map<string, ProductInventory>,
    reservations: map<string, Reservation>,
    events: seq<InventoryEvent>)
  {
    /** The record `GetReservation` returns, the zero record when there is none. */
    function Lookup(id: string): Reservation {
      if id in reservations then reservations[id] else ZERO_RESERVATION
    }

    function PutReservation(id: string, r: Reservation): Store {
      this.(reservations := reservations[id := r])
    }

    function PutProduct(id: string, p: ProductInventory): Store {
      this.(products := products[id := p])
    }

    function AppendEvent(e: InventoryEvent): Store {
      this.(events := events + [e])
    }

    /** `UpdateReservation` with the closure for `e`; nothing happens for an unknown id. */
    function EndReservation(id: string, e: Ending, now: int): Store {
      if id in reservations then PutReservation(id, Ended(reservations[id], e, now)) else this
    }

    /** `UpdateProduct` with the closure that gives a hold back. */
    function ReleaseHold(product: string, e: Ending): Store {
      if product in products then PutProduct(product, Released(products[product], e)) else this
    }

    /** `UpdateProduct` with the closure that takes a hold. */
    function TakeHold(product: string): Store {
      if product in products then PutProduct(product, Held(products[product])) else this
    }

    /** Ending one reservation: record, counters and log. */
    function End(id: string, e: Ending, now: int, eventId: string): Store {
      var r := Lookup(id);
      EndReservation(id, e, now).ReleaseHold(r.productId, e).AppendEvent(EndingEvent(e, r, now, eventId))
    }

    /** Creating one hold: record, counters and log. */
    function AddHold(r: Reservation, eventId: string): Store {
      PutReservation(r.reservationId, r).TakeHold(r.productId).AppendEvent(ReservedEvent(r, eventId))
    }

    /** The ids in state `st`. */
    function InState(st: ReservationState): set<string> {
      set id | id in reservations && reservations[id].state == st
    }

    /** Active reservations of `product`. */
    function ActiveIds(product: string): set<string> {
      set id | id in reservations && reservations[id].productId == product && reservations[id].IsActive()
    }

    /** Active reservations of `product` whose window has passed at `now`. */
    function StaleIds(product: string, now: int): set<string> {
      set id | id in reservations && reservations[id].productId == product
               && reservations[id].IsActive() && reservations[id].Lapsed(now)
    }
  }

  predicate EventIdsDistinct(events: seq<InventoryEvent>) {
    forall i, j | 0 <= i < j < |events| :: events[i].eventId != events[j].eventId
  }

  /** Every stored id was drawn before the counter passed `n`, and event ids are used once. */
  ghost predicate IdsFrom(s: Store, n: nat) {
    && (forall id | id in s.reservations :: Drawn(RES, id, n))
    && (forall i | 0 <= i < |s.events| :: Drawn(EVT, s.events[i].eventId, n))
    && EventIdsDistinct(s.events)
  }

  /** The events of one product, in log order. */
  function LogOf(events: seq<InventoryEvent>, p: string): seq<InventoryEvent> {
    if events == [] then []
    else
      var n := |events| - 1;
      LogOf(events[..n], p) + (if events[n].productId == p then [events[n]] else [])
  }

  /** The part of a store that concerns product `p`. */
  function Restrict(s: Store, p: string): Store {
    Store(
      map k | k in s.products && k == p :: s.products[k],
      map id | id in s.reservations && s.reservations[id].productId == p :: s.reservations[id],
      LogOf(s.events, p))
  }

  predicate Distinct<T(==)>(xs: seq<T>) {
    forall i, j | 0 <= i < j < |xs| :: xs[i] != xs[j]
  }

  /** `xs` lists the elements of `ids`, each once, in some order. */
  predicate Enumerates(xs: seq<string>, ids: set<string>) {
    && Distinct(xs)
    && (forall x | x in xs :: x in ids)
    && (forall x | x in ids :: x in xs)
  }

  lemma LogOfAppend(events: seq<InventoryEvent>, e: InventoryEvent, p: string)
    ensures LogOf(events + [e], p) == LogOf(events, p) + (if e.productId == p then [e] else [])
  {
    assert (events + [e])[..|events|] == events;
  }

  // ----- How each repository call shows up in the slices -----

  lemma PutReservationSlices(s: Store, id: string, r: Reservation, q: string)
    requires id in s.reservations ==> s.reservations[id].productId == r.productId
    ensures Restrict(s.PutReservation(id, r), q)
         == (if q == r.productId then Restrict(s, q).PutReservation(id, r) else Restrict(s, q))
  {
    var a := Restrict(s.PutReservation(id, r), q);
    var b := if q == r.productId then Restrict(s, q).PutReservation(id, r) else Restrict(s, q);
    assert a.reservations == b.reservations;
  }

  lemma PutProductSlices(s: Store, p: string, x: ProductInventory, q: string)
    ensures Restrict(s.PutProduct(p, x), q)
         == (if q == p then Restrict(s, q).PutProduct(p, x) else Restrict(s, q))
  {
    var a := Restrict(s.PutProduct(p, x), q);
    var b := if q == p then Restrict(s, q).PutProduct(p, x) else Restrict(s, q);
    assert a.products == b.products;
  }

  lemma AppendEventSlices(s: Store, e: InventoryEvent, q: string)
    ensures Restrict(s.AppendEvent(e), q)
         == (if q == e.productId then Restrict(s, q).AppendEvent(e) else Restrict(s, q))
  {
    LogOfAppend(s.events, e, q);
  }

  /** Stores with the same slices hold the same products and reservations. */
  lemma SlicesDetermine(s: Store, t: Store)
    requires forall p :: Restrict(s, p) == Restrict(t, p)
    ensures s.products == t.products && s.reservations == t.reservations
    ensures forall p :: LogOf(s.events, p) == LogOf(t.events, p)
  {
    forall k
      ensures k in s.products <==> k in t.products
      ensures k in s.products ==> s.products[k] == t.products[k]
    {
      assert Restrict(s, k).products == Restrict(t, k).products;
      assert k in Restrict(s, k).products <==> k in s.products;
      assert k in Restrict(t, k).products <==> k in t.products;
    }
    forall id
      ensures id in s.reservations <==> id in t.reservations
      ensures id in s.reservations ==> s.reservations[id] == t.reservations[id]
    {
      if id in s.reservations {
        assert id in Restrict(s, s.reservations[id].productId).reservations;
      }
      if id in t.reservations {
        assert id in Restrict(t, t.reservations[id].productId).reservations;
      }
    }
    forall p ensures LogOf(s.events, p) == LogOf(t.events, p) {
      assert Restrict(s, p).events == LogOf(s.events, p);
    }
  }
}
