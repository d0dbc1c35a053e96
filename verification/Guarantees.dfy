/** What the invariant means to somebody watching the service: statements about every
    configuration of every schedule. Those of the first part hold however products are
    swept; those of the second take a sound schedule. What an unsound one does to them is the
    subject of `Endings`. */
module Guarantees {
  import opened Domain
  import opened Ids
  import opened Stores
  import opened Accounts
  import opened Section
  import opened SectionInvariant
  import opened Locality
  import opened Interleaving
  import opened Safety
  import opened Settling

  /** `c` is where the schedule `ls` leads. */
  ghost predicate Reached(par: Params, c0: Config, ls: seq<Label>, c: Config) {
    Initial(c0) && Exec(par, c0, ls) == Some(c)
  }

  /** And no step of it ends a reservation that has ended already. */
  ghost predicate ReachedSoundly(par: Params, c0: Config, ls: seq<Label>, c: Config) {
    Reached(par, c0, ls, c) && SoundRun(par, c0, ls)
  }

  /** With sweeps that look again every schedule is sound. */
  lemma GuardedReachesSoundly(par: Params, c0: Config, ls: seq<Label>, c: Config)
    requires par.guarded && Reached(par, c0, ls, c)
    ensures ReachedSoundly(par, c0, ls, c)
  {
    InitialInv(par, false, c0);
    GuardedRunsAreSound(par, c0, ls);
  }

  lemma ReachedInv(par: Params, exact: bool, c0: Config, ls: seq<Label>, c: Config)
    requires Reached(par, c0, ls, c) && (exact ==> SoundRun(par, c0, ls))
    ensures Inv(par, exact, c)
  {
    InitialInv(par, exact, c0);
    ExecKeepsInv(par, exact, c0, ls);
  }

  lemma RestAt(par: Params, exact: bool, c0: Config, ls: seq<Label>, c: Config, p: string)
    requires Reached(par, c0, ls, c) && (exact ==> SoundRun(par, c0, ls)) && Free(c, p)
    ensures Rest(par.holdFor, exact, p, Restrict(c.store, p))
  {
    ReachedInv(par, exact, c0, ls, c);
  }

  // ----- Of every schedule -----

  /** The states of p's reservations, as the records have them. */
  function StatesOfProduct(s: Store, p: string): map<string, ReservationState> {
    map id | id in s.reservations && s.reservations[id].productId == p :: s.reservations[id].state
  }

  lemma SliceStates(s: Store, p: string)
    ensures StatesOf(Restrict(s, p)) == StatesOfProduct(s, p)
  {
  }

  /** Whenever nobody is inside p's section, replaying p's log from nothing gives the state
      of every reservation of p and both counters, even after a race. */
  lemma LogReplays(par: Params, c0: Config, ls: seq<Label>, c: Config, p: string)
    requires Reached(par, c0, ls, c) && p in c.store.products && Free(c, p)
    ensures var log := LogOf(c.store.events, p); var x := c.store.products[p];
      && Replay(log) == Ledger(StatesOfProduct(c.store, p), x.activeReservationCount, x.confirmedCount)
      && x.activeReservationCount
         == Count(log, EventReserved) - Count(log, EventConfirmed)
          - Count(log, EventCancelled) - Count(log, EventExpired)
      && x.confirmedCount == Count(log, EventConfirmed)
  {
    RestAt(par, false, c0, ls, c, p);
    SliceStates(c.store, p);
    assert Restrict(c.store, p).products[p] == c.store.products[p];
    ReplayCounts(LogOf(c.store.events, p));
  }

  /** And the last event that names a reservation names its state. */
  lemma LastEventIsState(par: Params, c0: Config, ls: seq<Label>, c: Config, id: string)
    requires Reached(par, c0, ls, c) && id in c.store.reservations && Free(c, c.store.reservations[id].productId)
    ensures var w := Word(LogOf(c.store.events, c.store.reservations[id].productId), id);
      w != [] && StateAfter(w[|w| - 1]) == c.store.reservations[id].state
  {
    var p := c.store.reservations[id].productId;
    var v := Restrict(c.store, p);
    RestAt(par, false, c0, ls, c, p);
    assert v.reservations[id] == c.store.reservations[id];
    assert forall e | e in v.events :: Names(v, e);
    ReplayLast(v.events, id);
    assert id in StatesOf(v);
  }

  /** At every instant every logged event is of a reservation that is there, with its user and
      product; a refusal names no reservation and gives its reason. */
  lemma EventsNameRecords(par: Params, c0: Config, ls: seq<Label>, c: Config, e: InventoryEvent)
    requires Reached(par, c0, ls, c) && e in c.store.events
    ensures Names(c.store, e)
  {
    ReachedInv(par, false, c0, ls, c);
    SettledIsRest(par, false, c, e.productId);
    SettledMember(c, e);
    assert Names(SettledAt(c, e.productId), e);
  }

  /** Every stored reservation sits under its own id, belongs to a product that exists, and
      bears the stamp of its state, a sale's before it lapsed and an expiry's not before. */
  lemma RowsAreKept(par: Params, c0: Config, ls: seq<Label>, c: Config, id: string)
    requires Reached(par, c0, ls, c) && id in c.store.reservations
    ensures RowKept(par.holdFor, c.store.reservations[id])
    ensures par.holdFor > 0 ==> c.store.reservations[id].createdAt < c.store.reservations[id].expiresAt
    ensures c.store.reservations[id].reservationId == id
    ensures c.store.reservations[id].productId in c.store.products
  {
    ReachedInv(par, false, c0, ls, c);
    SettledRow(par, false, c, id);
  }

  /** Ids are used once: event ids are pairwise different, no event id is a reservation id,
      and an id a thread has drawn and not yet stored is new to the store and to every other
      thread. Every stored id was drawn before the counter passed its present value. */
  lemma IdsAreUnique(par: Params, c0: Config, ls: seq<Label>, c: Config)
    requires Reached(par, c0, ls, c)
    ensures EventIdsDistinct(c.store.events)
    ensures forall i, id | 0 <= i < |c.store.events| && id in c.store.reservations :: c.store.events[i].eventId != id
    ensures forall id | id in c.store.reservations :: Drawn(RES, id, c.counter)
    ensures forall i | 0 <= i < |c.store.events| :: Drawn(EVT, c.store.events[i].eventId, c.counter)
    ensures forall t | 0 <= t < |c.threads| && PendingRes(c.threads[t]) ::
      PendingId(c.threads[t]) !in c.store.reservations
    ensures forall t, i | 0 <= t < |c.threads| && PendingEvt(c.threads[t]) && 0 <= i < |c.store.events| ::
      c.store.events[i].eventId != PendingId(c.threads[t])
    ensures forall t, u | 0 <= t < u < |c.threads| && HasPending(c.threads[t]) && HasPending(c.threads[u]) ::
      PendingId(c.threads[t]) != PendingId(c.threads[u])
  {
    ReachedInv(par, false, c0, ls, c);
    forall i, id | 0 <= i < |c.store.events| && id in c.store.reservations ensures c.store.events[i].eventId != id {
      PrefixesDiffer(id, c.store.events[i].eventId, c.counter);
    }
    forall t | 0 <= t < |c.threads| ensures PendingOk(c.threads[t], c.store, c.counter) {
    }
  }

  /** The errors the service throws away never happen: at every update, and at every
      re-fetch under the lock, the record asked for is there and belongs to the lock. */
  lemma DiscardedErrorsNeverHappen(par: Params, c0: Config, ls: seq<Label>, c: Config, t: nat)
    requires Reached(par, c0, ls, c) && t < |c.threads| && c.threads[t].Inside?
    ensures Finds(c.threads[t].p, c.threads[t].cs, c.store)
  {
    ReachedInv(par, false, c0, ls, c);
    assert SliceOk(par, false, c, t);
    LocalFinds(par, c.threads[t].p, c.threads[t].cs, c.store);
  }

  /** What the next call of p's section asks for is in the store. */
  predicate Finds(p: string, cs: Cs, s: Store) {
    && (cs.EndRecord? ==> Has(s, p, cs.id))
    && (cs.EndCount? ==> cs.cur.productId == p && p in s.products)
    && (cs.ReserveCount? ==> p in s.products)
    && (cs.ConfirmLoad? || cs.CancelLoad? ==> Has(s, p, cs.id))
    && (cs.ExpireLoop? && cs.queue != [] ==> Has(s, p, cs.queue[0]))
  }

  predicate Has(s: Store, p: string, id: string) {
    id in s.reservations && s.reservations[id].productId == p
  }

  lemma LocalFinds(par: Params, p: string, cs: Cs, s: Store)
    requires WellKeyed(par.holdFor, p, Restrict(s, p)) && Local(par, p, cs, Restrict(s, p))
    ensures Finds(p, cs, s)
  {
    if cs.ExpireLoop? && cs.queue != [] {
      assert cs.queue[0] in cs.queue;
      LookupIsLocal(s, p, cs.queue[0]);
    }
  }

  /** No reservation disappears or changes what identifies it; all that can happen to one that
      has ended is that it is expired, once or several times, and bears another time of expiry;
      total stock is fixed, and the log only grows. */
  lemma RecordsStay(par: Params, c0: Config, before: seq<Label>, c: Config, after: seq<Label>, d: Config)
    requires Reached(par, c0, before, c) && Exec(par, c, after) == Some(d)
    ensures forall id | id in c.store.reservations ::
      && id in d.store.reservations
      && var r, r' := c.store.reservations[id], d.store.reservations[id];
         && r'.reservationId == r.reservationId && r'.productId == r.productId && r'.userId == r.userId
         && r'.createdAt == r.createdAt && r'.expiresAt == r.expiresAt
         && (!r.IsActive() ==> r' == r || r' == r.(state := Expired, expiredAt := r'.expiredAt))
    ensures c.store.products.Keys == d.store.products.Keys
    ensures forall p | p in c.store.products :: d.store.products[p].totalStock == c.store.products[p].totalStock
    ensures c.store.events <= d.store.events
  {
    ReachedInv(par, false, c0, before, c);
    ExecEvolves(par, c, after);
  }

  /** One thread at a time per product, one mutex per key. */
  lemma LocksSerialise(par: Params, c0: Config, ls: seq<Label>, c: Config)
    requires Reached(par, c0, ls, c)
    ensures forall t, u | 0 <= t < u < |c.threads| && c.threads[t].Inside? && c.threads[u].Inside? ::
      c.threads[t].p != c.threads[u].p
    ensures forall j, k | j in c.locks && k in c.locks && j != k :: c.locks[j] != c.locks[k]
  {
    ExecKeepsLocks(par, c0, ls);
  }

  /** A key once bound keeps its mutex. */
  lemma {:induction false} BindingsAreStable(par: Params, c: Config, ls: seq<Label>, k: string)
    requires Exec(par, c, ls).Some? && k in c.locks
    ensures k in Exec(par, c, ls).value.locks && Exec(par, c, ls).value.locks[k] == c.locks[k]
    decreases |ls|
  {
    if ls != [] {
      var n := |ls| - 1;
      BindingsAreStable(par, c, ls[..n], k);
      var d := Exec(par, c, ls[..n]).value;
      match d.threads[ls[n].t]
      case Called(op) => match op { case SweepOp(_) => case _ => }
      case _ =>
    }
  }

  /** No oversell at any instant, including between the calls of a critical section: sales and
      available stock are not negative, and no stock reading ever returned is. */
  lemma NoOverselling(par: Params, c0: Config, ls: seq<Label>, c: Config)
    requires Reached(par, c0, ls, c)
    ensures forall p | p in c.store.products ::
      c.store.products[p].confirmedCount >= 0 && c.store.products[p].AvailableStock() >= 0
    ensures forall t | 0 <= t < |c.threads| && c.threads[t].Done? && c.threads[t].out.Stock? ::
      c.threads[t].out.available >= 0
  {
    ReachedInv(par, false, c0, ls, c);
    forall p | p in c.store.products ensures Solvent(p, c.store) {
      StockIsNonNegative(par, false, c, p);
    }
    forall t | 0 <= t < |c.threads| && c.threads[t].Done? && c.threads[t].out.Stock?
      ensures c.threads[t].out.available >= 0
    {
      assert WaitOk(c.threads[t], c.store);
    }
  }

  lemma SettledWord(par: Params, exact: bool, c: Config, p: string, id: string)
    requires Inv(par, exact, c) && id in c.store.reservations && c.store.reservations[id].productId == p
    ensures Spells(Word(SettledAt(c, p).events, id), c.store.reservations[id].state)
    ensures exact ==> Word(SettledAt(c, p).events, id) == WordFor(c.store.reservations[id].state)
  {
    SettledIsRest(par, exact, c, p);
    SettledRow(par, exact, c, id);
    assert SettledAt(c, p).Lookup(id) == c.store.reservations[id];
  }

  /** The events naming a reservation spell, when nobody is inside, Reserved, at most one ending
      and any number of expiries, the last letter being the reservation's state. At any other
      instant the event of the transition under way may still be missing. */
  lemma LogLanguageAsWritten(par: Params, c0: Config, ls: seq<Label>, c: Config, p: string, id: string)
    requires Reached(par, c0, ls, c) && id in c.store.reservations && c.store.reservations[id].productId == p
    ensures var w, st := Word(LogOf(c.store.events, p), id), c.store.reservations[id].state;
      Spells(w, st) || (!Free(c, p) && exists k :: Spells(w + [k], st))
  {
    ReachedInv(par, false, c0, ls, c);
    SettledWord(par, false, c, p, id);
    SettledLog(c, p, id);
    assert Free(c, p) ==> SettledAt(c, p) == Restrict(c.store, p);
  }

  lemma StampAt(par: Params, exact: bool, c: Config, e: InventoryEvent)
    requires Inv(par, exact, c) && e in c.store.events && (exact || e.kind != EventExpired)
    requires Names(c.store, e)
    ensures Stamps(c.store, e)
  {
    SettledIsRest(par, exact, c, e.productId);
    SettledMember(c, e);
    assert Stamps(SettledAt(c, e.productId), e);
    if e.reservationId.Some? {
      assert e.reservationId.value in Restrict(c.store, e.productId).reservations;
    }
  }

  /** At every instant the time of every logged event is the stamp its reservation bears for
      that transition; of an expiry, which another one may overwrite, after every sound
      schedule. */
  lemma EventsTellTheTime(par: Params, c0: Config, ls: seq<Label>, c: Config, e: InventoryEvent)
    requires Reached(par, c0, ls, c) && e in c.store.events
    ensures e.kind != EventExpired || SoundRun(par, c0, ls) ==> Stamps(c.store, e)
  {
    EventsNameRecords(par, c0, ls, c, e);
    ReachedInv(par, false, c0, ls, c);
    if SoundRun(par, c0, ls) {
      ReachedInv(par, true, c0, ls, c);
      StampAt(par, true, c, e);
    } else if e.kind != EventExpired {
      StampAt(par, false, c, e);
    }
  }

  // ----- Of every sound schedule -----

  /** Nor is the number of holds negative at any instant. */
  lemma HoldsAreNonNegative(par: Params, c0: Config, ls: seq<Label>, c: Config)
    requires ReachedSoundly(par, c0, ls, c)
    ensures forall p | p in c.store.products :: c.store.products[p].activeReservationCount >= 0
  {
    ReachedInv(par, true, c0, ls, c);
    forall p | p in c.store.products ensures c.store.products[p].activeReservationCount >= 0 {
      BoundedAt(par, c, p);
    }
  }

  lemma BoundedAt(par: Params, c: Config, p: string)
    requires Inv(par, true, c) && p in c.store.products
    ensures c.store.products[p].activeReservationCount >= 0
  {
    var v := Restrict(c.store, p);
    assert v.products[p] == c.store.products[p];
    if !Free(c, p) {
      var t :| 0 <= t < |c.threads| && InsideOf(c, t, p);
      assert SliceOk(par, true, c, t);
    }
  }

  /** At every instant the events naming a reservation spell a prefix of Reserved followed
      by the one ending its state names, and the whole of it when nobody is inside. */
  lemma LogLanguage(par: Params, c0: Config, ls: seq<Label>, c: Config, p: string, id: string)
    requires ReachedSoundly(par, c0, ls, c) && id in c.store.reservations && c.store.reservations[id].productId == p
    ensures Word(LogOf(c.store.events, p), id) <= WordFor(c.store.reservations[id].state)
    ensures Free(c, p) ==> Word(LogOf(c.store.events, p), id) == WordFor(c.store.reservations[id].state)
  {
    ReachedInv(par, true, c0, ls, c);
    SettledWord(par, true, c, p, id);
    SettledLog(c, p, id);
    assert Free(c, p) ==> SettledAt(c, p) == Restrict(c.store, p);
  }

  /** Every stored reservation satisfies the schema's row checks. */
  lemma RowsAreValid(par: Params, c0: Config, ls: seq<Label>, c: Config, id: string)
    requires ReachedSoundly(par, c0, ls, c) && id in c.store.reservations
    ensures var r := c.store.reservations[id];
      && r.state != Unset && r.productId in c.store.products
      && (par.holdFor > 0 ==> r.createdAt < r.expiresAt)
      && (r.state == Confirmed <==> r.confirmedAt.Some?)
      && (r.state == Cancelled <==> r.cancelledAt.Some?)
      && (r.state == Expired <==> r.expiredAt.Some?)
  {
    ReachedInv(par, true, c0, ls, c);
    SettledRow(par, true, c, id);
  }
}
