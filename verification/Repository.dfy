/** The in-memory repository and the lock manager as the objects they are. Every call is
    tied to its effect on the repository's contents. */
module Repository {
  import opened Domain
  import opened Stores

  /** Hands back the records of a map snapshot together with the keys they came from. */
  ghost predicate Copies(out: seq<Reservation>, order: seq<string>, s: Store) {
    && |out| == |order|
    && forall i | 0 <= i < |out| :: order[i] in s.reservations && out[i] == s.reservations[order[i]]
  }

  /** `out` is a walk over the records `ids` of `s` in the order `order`. */
  ghost predicate Walk(out: seq<Reservation>, order: seq<string>, s: Store, ids: set<string>) {
    Copies(out, order, s) && Enumerates(order, ids)
  }

  class InMemoryRepository {
    var products: map<string, ProductInventory>
    var reservations: map<string, Reservation>
    var events: seq<InventoryEvent>

    ghost function Contents(): Store
      reads this
    {
      Store(products, reservations, events)
    }

    constructor ()
      ensures products == map[] && reservations == map[] && events == []
    {
      products, reservations, events := map[], map[], [];
    }

    method AppendEvent(e: InventoryEvent)
      modifies this
      ensures Contents() == old(Contents()).AppendEvent(e)
    {
      events := events + [e];
    }

    method AllEvents() returns (out: seq<InventoryEvent>)
      ensures out == Contents().events
    {
      out := events;
    }

    method AddProduct(p: ProductInventory)
      modifies this
      ensures Contents() == old(Contents()).PutProduct(p.productId, p)
    {
      products := products[p.productId := p];
    }

    method GetProduct(id: string) returns (p: ProductInventory, ok: bool)
      ensures ok <==> id in Contents().products
      ensures p == if ok then Contents().products[id] else ProductInventory("", 0, 0, 0)
    {
      if id in products {
        p, ok := products[id], true;
      } else {
        p, ok := ProductInventory("", 0, 0, 0), false;
      }
    }

    /** `fn` changes the product in place, also when it returns an error. */
    method UpdateProduct(id: string, fn: ProductInventory -> (ProductInventory, Option<DomainError>))
        returns (err: Option<DomainError>)
      modifies this
      ensures id in old(Contents()).products ==>
        var (p, e) := fn(old(Contents()).products[id]);
        err == e && Contents() == old(Contents()).PutProduct(id, p)
      ensures id !in old(Contents()).products ==> err == Some(ProductNotFound) && Contents() == old(Contents())
    {
      if id !in products {
        return Some(ProductNotFound);
      }
      var (p, e) := fn(products[id]);
      products := products[id := p];
      err := e;
    }

    method SaveReservation(r: Reservation)
      modifies this
      ensures Contents() == old(Contents()).PutReservation(r.reservationId, r)
    {
      reservations := reservations[r.reservationId := r];
    }

    method GetReservation(id: string) returns (r: Reservation, ok: bool)
      ensures ok <==> id in Contents().reservations
      ensures r == Contents().Lookup(id)
      ensures r == if ok then reservations[id] else Reservation("", "", "", Unset, 0, 0, None, None, None)
    {
      if id in reservations {
        r, ok := reservations[id], true;
      } else {
        r, ok := ZERO_RESERVATION, false;
      }
    }

    /** `fn` changes the reservation in place, also when it returns an error. */
    method UpdateReservation(id: string, fn: Reservation -> (Reservation, Option<DomainError>))
        returns (err: Option<DomainError>)
      modifies this
      ensures id in old(Contents()).reservations ==>
        var (r, e) := fn(old(Contents()).reservations[id]);
        err == e && Contents() == old(Contents()).PutReservation(id, r)
      ensures id !in old(Contents()).reservations ==> err == Some(ReservationNotFound) && Contents() == old(Contents())
    {
      if id !in reservations {
        return Some(ReservationNotFound);
      }
      var (r, e) := fn(reservations[id]);
      reservations := reservations[id := r];
      err := e;
    }

    /** The map is walked in no particular order. */
    method ActiveReservationsByProduct(product: string) returns (out: seq<Reservation>)
      ensures exists order :: Walk(out, order, Contents(), Contents().ActiveIds(product))
    {
      ghost var order := [];
      out := [];
      var rest := reservations.Keys;
      while rest != {}
        invariant rest <= reservations.Keys
        invariant Copies(out, order, Contents()) && Distinct(order)
        invariant forall id :: id in order <==>
          id in reservations && id !in rest && reservations[id].productId == product && reservations[id].IsActive()
        decreases |rest|
      {
        var id :| id in rest;
        if reservations[id].productId == product && reservations[id].IsActive() {
          out := out + [reservations[id]];
          order := order + [id];
        }
        rest := rest - {id};
      }
      assert Walk(out, order, Contents(), Contents().ActiveIds(product));
    }

    method AllActiveReservations() returns (out: seq<Reservation>)
      ensures exists order :: Walk(out, order, Contents(), Contents().InState(Active))
    {
      ghost var order := [];
      out := [];
      var rest := reservations.Keys;
      while rest != {}
        invariant rest <= reservations.Keys
        invariant Copies(out, order, Contents()) && Distinct(order)
        invariant forall id :: id in order <==> id in reservations && id !in rest && reservations[id].IsActive()
        decreases |rest|
      {
        var id :| id in rest;
        if reservations[id].IsActive() {
          out := out + [reservations[id]];
          order := order + [id];
        }
        rest := rest - {id};
      }
      assert Walk(out, order, Contents(), Contents().InState(Active));
    }
  }

  /** Named mutexes, made on demand. The n-th mutex made is number n; `held` are the locked
      ones. */
  class LockManager {
    var locks: map<string, nat>
    var held: set<nat>

    /** Every key has a mutex of its own. */
    ghost predicate Valid()
      reads this
    {
      && (forall k | k in locks :: locks[k] < |locks|)
      && (forall j, k | j in locks && k in locks && locks[j] == locks[k] :: j == k)
    }

    constructor ()
      ensures Valid() && locks == map[] && held == {}
    {
      locks, held := map[], {};
    }

    method LockFor(key: string) returns (m: nat)
      requires Valid()
      modifies this`locks
      ensures Valid() && key in locks && locks[key] == m
      ensures forall k | k in old(locks) :: k in locks && locks[k] == old(locks)[k]
      ensures forall k | k in locks && k != key :: k in old(locks)
      ensures key !in old(locks) ==> forall k | k in old(locks) :: old(locks)[k] != m
    {
      if key in locks {
        m := locks[key];
      } else {
        m := |locks|;
        locks := locks[key := m];
      }
    }

    method Lock(m: nat)
      requires m !in held
      modifies this`held
      ensures held == old(held) + {m}
    {
      held := held + {m};
    }

    method Unlock(m: nat)
      requires m in held
      modifies this`held
      ensures held == old(held) - {m}
    {
      held := held - {m};
    }
  }

  /** A clock that is set by hand. */
  class FakeClock {
    var current: int

    constructor (t: int)
      ensures current == t
    {
      current := t;
    }

    method Now() returns (t: int)
      ensures t == current
    {
      t := current;
    }

    method Advance(d: int)
      modifies this
      ensures current == old(current) + d
    {
      current := current + d;
    }
  }
}
