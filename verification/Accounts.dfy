/** What it means for the counters, the reservation records and the event log of one
    product to tell the same story, and that every whole transition keeps it so. */
module Accounts {
  import opened Domain
  import opened Stores

  // ----- Replaying the log -----

  /** What the log alone says about a product: the state of each reservation and both
      counters. */
  datatype Ledger = Ledger(states: map<string, ReservationState>, active: int, confirmed: int)

  function StateAfter(k: EventType): ReservationState {
    match k
    case EventReserved => Active
    case EventConfirmed => Confirmed
    case EventCancelled => Cancelled
    case EventExpired => Expired
    case EventReserveRejected => Unset
  }

  function Apply(l: Ledger, e: InventoryEvent): Ledger {
    var states :=
      if e.kind != EventReserveRejected && e.reservationId.Some?
      then l.states[e.reservationId.value := StateAfter(e.kind)] else l.states;
    match e.kind
    case EventReserved => Ledger(states, l.active + 1, l.confirmed)
    case EventConfirmed => Ledger(states, l.active - 1, l.confirmed + 1)
    case EventCancelled => Ledger(states, l.active - 1, l.confirmed)
    case EventExpired => Ledger(states, l.active - 1, l.confirmed)
    case EventReserveRejected => l
  }

  /** Folding the log from a product nobody has reserved yet. */
  function Replay(events: seq<InventoryEvent>): Ledger {
    if events == [] then Ledger(map[], 0, 0)
    else Apply(Replay(events[..|events| - 1]), events[|events| - 1])
  }

  function Count(events: seq<InventoryEvent>, k: EventType): nat {
    if events == [] then 0
    else Count(events[..|events| - 1], k) + (if events[|events| - 1].kind == k then 1 else 0)
  }

  /** The kinds of the events that name reservation `id`, in order. */
  function Word(events: seq<InventoryEvent>, id: string): seq<EventType> {
    if events == [] then []
    else
      var e := events[|events| - 1];
      Word(events[..|events| - 1], id) + (if e.reservationId == Some(id) then [e.kind] else [])
  }

  /** The only word a reservation in state `st` can have. */
  function WordFor(st: ReservationState): seq<EventType> {
    match st
    case Active => [EventReserved]
    case Confirmed => [EventReserved, EventConfirmed]
    case Cancelled => [EventReserved, EventCancelled]
    case Expired => [EventReserved, EventExpired]
    case Unset => []
  }

  function StatesOf(v: Store): map<string, ReservationState> {
    map id | id in v.reservations :: v.reservations[id].state
  }

  // ----- The invariant of one product slice -----

  /** What every stored row satisfies, however its product is swept: an end stamp for the
      state it is in, a sale before the hold lapsed and an expiry not before, no stamp on an
      Active row, and no stamp but its own on a row that was not expired. */
  predicate RowKept(holdFor: int, r: Reservation) {
    && r.state != Unset
    && r.expiresAt == r.createdAt + holdFor
    && (r.state == Expired <==> r.expiredAt.Some?)
    && (r.state == Confirmed ==> r.confirmedAt.Some?)
    && (r.state == Cancelled ==> r.cancelledAt.Some?)
    && (r.confirmedAt.Some? ==> r.state == Confirmed || r.state == Expired)
    && (r.cancelledAt.Some? ==> r.state == Cancelled || r.state == Expired)
    && (r.confirmedAt.Some? ==> r.confirmedAt.value < r.expiresAt)
    && (r.expiredAt.Some? ==> r.expiresAt <= r.expiredAt.value)
  }

  /** An expired row bears no other end stamp. */
  predicate OneEnd(r: Reservation) {
    r.state == Expired ==> r.confirmedAt.None? && r.cancelledAt.None?
  }

  /** The row checks of the schema: the end stamps match the state. */
  predicate RowOk(holdFor: int, r: Reservation) {
    RowKept(holdFor, r) && OneEnd(r)
  }

  /** Records sit under their own keys, belong to `p`, and their product exists. */
  predicate WellKeyed(holdFor: int, p: string, v: Store) {
    && (forall k | k in v.products :: k == p && v.products[k].productId == k)
    && (forall id | id in v.reservations ::
          && v.reservations[id].reservationId == id
          && v.reservations[id].productId == p
          && p in v.products
          && RowKept(holdFor, v.reservations[id]))
  }

  /** The log and the records agree: replaying the one gives the states and counters of the
      other. */
  predicate Booked(p: string, v: Store) {
    p in v.products ==>
      Replay(v.events) == Ledger(StatesOf(v), v.products[p].activeReservationCount, v.products[p].confirmedCount)
  }

  /** What an event says of the reservation it names, its time apart, is what the records
      say; a refusal names none and gives its reason. */
  predicate Names(v: Store, e: InventoryEvent) {
    if e.kind == EventReserveRejected then
      e.reservationId == None && e.userId.Some? && e.reason == Some("out of stock")
    else
      && e.reservationId.Some? && e.reservationId.value in v.reservations && e.reason == None
      && var r := v.reservations[e.reservationId.value];
         e.userId == Some(r.userId) && e.productId == r.productId
  }

  predicate Named(v: Store) {
    forall e | e in v.events :: Names(v, e)
  }

  /** The words a reservation in state `st` can have, however it was swept: Reserved, at most
      one ending, and then any number of expiries. */
  predicate Spells(w: seq<EventType>, st: ReservationState) {
    if st != Expired then w == WordFor(st)
    else
      && |w| >= 2 && w[0] == EventReserved && w[1] in {EventConfirmed, EventCancelled, EventExpired}
      && (forall i | 2 <= i < |w| :: w[i] == EventExpired)
      && w[|w| - 1] == EventExpired
  }

  ghost predicate Spelled(v: Store) {
    forall id {:trigger Word(v.events, id)} :: Spells(Word(v.events, id), v.Lookup(id).state)
  }

  /** The time stamp of `r` that an event of kind `k` records. */
  function StampOf(r: Reservation, k: EventType): Option<int> {
    match k
    case EventReserved => Some(r.createdAt)
    case EventConfirmed => r.confirmedAt
    case EventCancelled => r.cancelledAt
    case EventExpired => r.expiredAt
    case EventReserveRejected => None
  }

  /** The time of an event is the stamp its reservation bears for that transition. */
  predicate Stamps(v: Store, e: InventoryEvent) {
    e.reservationId.Some? && e.reservationId.value in v.reservations ==>
      StampOf(v.reservations[e.reservationId.value], e.kind) == Some(e.occurredAt)
  }

  /** Which holds of every event but an expiry, whose stamp another one may overwrite. */
  predicate StampedOnce(v: Store) {
    forall e | e in v.events && e.kind != EventExpired :: Stamps(v, e)
  }

  /** No negative sales and no negative stock. */
  predicate Solvent(p: string, v: Store) {
    p in v.products ==> 0 <= v.products[p].confirmedCount && 0 <= v.products[p].AvailableStock()
  }

  /** What holds of the slice of `p` whenever nobody is inside p's critical section, however
      p is swept. */
  ghost predicate Kept(holdFor: int, p: string, v: Store) {
    && WellKeyed(holdFor, p, v) && Booked(p, v) && Solvent(p, v)
    && Named(v) && Spelled(v) && StampedOnce(v)
  }

  /** Nor a negative number of holds. */
  predicate Bounded(p: string, v: Store) {
    Solvent(p, v) && (p in v.products ==> 0 <= v.products[p].activeReservationCount)
  }

  /** The counters are the cardinalities they cache. */
  predicate Coupled(p: string, v: Store) {
    p in v.products ==>
      && v.products[p].activeReservationCount == |v.InState(Active)|
      && v.products[p].confirmedCount == |v.InState(Confirmed)|
  }

  predicate EndedOnce(v: Store) {
    forall id | id in v.reservations :: OneEnd(v.reservations[id])
  }

  /** Each reservation's events spell its state. */
  ghost predicate Worded(v: Store) {
    forall id :: Word(v.events, id) == WordFor(v.Lookup(id).state)
  }

  predicate Stamped(v: Store) {
    forall e | e in v.events :: Stamps(v, e)
  }

  /** What holds besides as long as no reservation is ended twice. */
  ghost predicate Exact(p: string, v: Store) {
    Bounded(p, v) && Coupled(p, v) && EndedOnce(v) && Worded(v) && Stamped(v)
  }

  ghost predicate Quiet(holdFor: int, p: string, v: Store) {
    Kept(holdFor, p, v) && Exact(p, v)
  }

  // ----- Every whole transition keeps it -----

  lemma ReplayAppend(events: seq<InventoryEvent>, e: InventoryEvent)
    ensures Replay(events + [e]) == Apply(Replay(events), e)
  {
    assert (events + [e])[..|events|] == events;
  }

  lemma WordAppend(events: seq<InventoryEvent>, e: InventoryEvent)
    ensures forall id :: Word(events + [e], id)
                      == Word(events, id) + (if e.reservationId == Some(id) then [e.kind] else [])
  {
    assert (events + [e])[..|events|] == events;
  }

  /** May `r` end this way at `now`, as far as the clock goes? Only expiry may come to a
      reservation that has ended already. */
  predicate InTime(r: Reservation, e: Ending, now: int) {
    && (e.ToConfirmed? ==> !r.Lapsed(now))
    && (e.ToExpired? ==> r.Lapsed(now))
    && (r.IsActive() || e.ToExpired?)
  }

  /** May reservation `r` end this way at `now`? */
  predicate MayEnd(r: Reservation, e: Ending, now: int) {
    r.IsActive() && InTime(r, e, now)
  }

  lemma NamesAppend(v: Store, w: Store, e: InventoryEvent)
    requires Named(v) && w.events == v.events + [e] && Names(w, e)
    requires forall id | id in v.reservations ::
      id in w.reservations && w.reservations[id].userId == v.reservations[id].userId
      && w.reservations[id].productId == v.reservations[id].productId
    ensures Named(w)
  {
    forall x | x in w.events ensures Names(w, x) {
      assert x in v.events || x == e;
      if x in v.events { assert Names(v, x); }
    }
  }

  lemma ApplyEnding(l: Ledger, e: Ending, r: Reservation, now: int, evt: string)
    ensures Apply(l, EndingEvent(e, r, now, evt))
         == Ledger(l.states[r.reservationId := StateAfter(EndingKind(e))], l.active - 1,
                   l.confirmed + (if e.ToConfirmed? then 1 else 0))
  {
  }

  lemma StatesAfterEnd(v: Store, id: string, e: Ending, now: int, evt: string)
    requires id in v.reservations
    ensures StatesOf(v.End(id, e, now, evt)) == StatesOf(v)[id := StateAfter(EndingKind(e))]
  {
  }

  lemma EndBooks(p: string, v: Store, id: string, e: Ending, now: int, evt: string)
    requires Booked(p, v) && id in v.reservations
    requires v.reservations[id].reservationId == id && v.reservations[id].productId == p
    ensures Booked(p, v.End(id, e, now, evt))
  {
    var w, r := v.End(id, e, now, evt), v.reservations[id];
    if p in v.products {
      ReplayAppend(v.events, EndingEvent(e, r, now, evt));
      ApplyEnding(Replay(v.events), e, r, now, evt);
      StatesAfterEnd(v, id, e, now, evt);
      assert w.products[p] == Released(v.products[p], e);
    }
  }

  /** Ending a reservation, even one that has ended already, keeps the books. */
  lemma EndKeepsKept(holdFor: int, p: string, v: Store, id: string, e: Ending, now: int, evt: string)
    requires Kept(holdFor, p, v) && id in v.reservations && InTime(v.reservations[id], e, now)
    ensures Kept(holdFor, p, v.End(id, e, now, evt))
  {
    var w := v.End(id, e, now, evt);
    EndKeepsKeys(holdFor, p, v, id, e, now, evt);
    assert Booked(p, w) by { EndBooks(p, v, id, e, now, evt); }
    assert Named(w) by { NamesAppend(v, w, EndingEvent(e, v.reservations[id], now, evt)); }
    assert Spelled(w) by { EndSpells(holdFor, p, v, id, e, now, evt); }
    assert StampedOnce(w) by { EndStampsOnce(holdFor, p, v, id, e, now, evt); }
  }

  lemma SpellsOn(w: seq<EventType>, st: ReservationState, e: Ending)
    requires Spells(w, st) && st != Unset && (st == Active || e.ToExpired?)
    ensures Spells(w + [EndingKind(e)], StateAfter(EndingKind(e)))
  {
  }

  lemma EndSpells(holdFor: int, p: string, v: Store, id: string, e: Ending, now: int, evt: string)
    requires WellKeyed(holdFor, p, v) && Spelled(v) && id in v.reservations && InTime(v.reservations[id], e, now)
    ensures Spelled(v.End(id, e, now, evt))
  {
    var x, w := EndingEvent(e, v.reservations[id], now, evt), v.End(id, e, now, evt);
    WordAppend(v.events, x);
    forall k ensures Spells(Word(w.events, k), w.Lookup(k).state) {
      assert Word(w.events, k) == Word(v.events, k) + (if x.reservationId == Some(k) then [x.kind] else []);
      if k == id {
        SpellsOn(Word(v.events, k), v.reservations[id].state, e);
      } else {
        assert w.Lookup(k) == v.Lookup(k);
      }
    }
  }

  lemma EndStampsOnce(holdFor: int, p: string, v: Store, id: string, e: Ending, now: int, evt: string)
    requires WellKeyed(holdFor, p, v) && Named(v) && StampedOnce(v)
    requires id in v.reservations && InTime(v.reservations[id], e, now)
    ensures StampedOnce(v.End(id, e, now, evt))
  {
    var w, new_ := v.End(id, e, now, evt), EndingEvent(e, v.reservations[id], now, evt);
    forall x | x in w.events && x.kind != EventExpired ensures Stamps(w, x) {
      assert x in v.events || x == new_;
      if x in v.events { assert Names(v, x) && Stamps(v, x); }
    }
  }

  lemma EndKeepsKeys(holdFor: int, p: string, v: Store, id: string, e: Ending, now: int, evt: string)
    requires WellKeyed(holdFor, p, v) && Solvent(p, v)
    requires id in v.reservations && InTime(v.reservations[id], e, now)
    ensures WellKeyed(holdFor, p, v.End(id, e, now, evt)) && Solvent(p, v.End(id, e, now, evt))
  {
  }

  lemma EndMovesOne(v: Store, id: string, e: Ending, now: int, st: ReservationState)
    requires id in v.reservations
    ensures v.EndReservation(id, e, now).InState(st)
         == if StateAfter(EndingKind(e)) == st then v.InState(st) + {id} else v.InState(st) - {id}
  {
  }

  lemma EndKeepsCounts(p: string, v: Store, id: string, e: Ending, now: int, evt: string)
    requires Bounded(p, v) && Coupled(p, v)
    requires id in v.reservations && v.reservations[id].IsActive() && v.reservations[id].productId == p
    ensures Bounded(p, v.End(id, e, now, evt)) && Coupled(p, v.End(id, e, now, evt))
  {
    var u, w := v.EndReservation(id, e, now), v.End(id, e, now, evt);
    assert id in v.InState(Active) && id !in v.InState(Confirmed);
    EndMovesOne(v, id, e, now, Active);
    EndMovesOne(v, id, e, now, Confirmed);
    SameStates(u, w);
  }

  lemma SameStates(v: Store, w: Store)
    requires v.reservations == w.reservations
    ensures v.InState(Active) == w.InState(Active) && v.InState(Confirmed) == w.InState(Confirmed)
  {
  }

  lemma EndWords(v: Store, id: string, e: Ending, now: int, evt: string)
    requires Worded(v) && id in v.reservations
    requires v.reservations[id].IsActive() && v.reservations[id].reservationId == id
    ensures Worded(v.End(id, e, now, evt))
  {
    var x, w := EndingEvent(e, v.reservations[id], now, evt), v.End(id, e, now, evt);
    WordAppend(v.events, x);
    forall k ensures Word(w.events, k) == WordFor(w.Lookup(k).state) {
      assert Word(w.events, k) == Word(v.events, k) + (if x.reservationId == Some(k) then [x.kind] else []);
      if k == id {
        assert w.Lookup(k) == Ended(v.reservations[id], e, now) && Word(v.events, k) == [EventReserved];
      } else {
        assert w.Lookup(k) == v.Lookup(k);
      }
    }
  }

  lemma EndStamps(holdFor: int, p: string, v: Store, id: string, e: Ending, now: int, evt: string)
    requires WellKeyed(holdFor, p, v) && Named(v) && Stamped(v)
    requires id in v.reservations && v.reservations[id].IsActive()
    ensures Stamped(v.End(id, e, now, evt))
  {
    var w, new_ := v.End(id, e, now, evt), EndingEvent(e, v.reservations[id], now, evt);
    forall x | x in w.events ensures Stamps(w, x) {
      assert x in v.events || x == new_;
      if x in v.events { assert Names(v, x) && Stamps(v, x); }
    }
  }

  lemma EndKeepsExact(holdFor: int, p: string, v: Store, id: string, e: Ending, now: int, evt: string)
    requires Quiet(holdFor, p, v) && id in v.reservations && v.reservations[id].IsActive()
    ensures Exact(p, v.End(id, e, now, evt))
  {
    EndKeepsCounts(p, v, id, e, now, evt);
    EndWords(v, id, e, now, evt);
    EndStamps(holdFor, p, v, id, e, now, evt);
  }

  lemma EndKeepsQuiet(holdFor: int, p: string, v: Store, id: string, e: Ending, now: int, evt: string)
    requires Quiet(holdFor, p, v)
    requires id in v.reservations && MayEnd(v.reservations[id], e, now)
    ensures Quiet(holdFor, p, v.End(id, e, now, evt))
  {
    EndKeepsKept(holdFor, p, v, id, e, now, evt);
    EndKeepsExact(holdFor, p, v, id, e, now, evt);
  }

  /** A reservation of `p` nobody has used the id of, and a unit to hold. */
  predicate NewTo(holdFor: int, p: string, v: Store, r: Reservation) {
    && p in v.products && v.products[p].AvailableStock() > 0 && r.reservationId !in v.reservations
    && r.productId == p && r.IsActive() && RowOk(holdFor, r)
  }

  lemma AddBooks(p: string, v: Store, r: Reservation, evt: string)
    requires Booked(p, v) && p in v.products && r.reservationId !in v.reservations && r.productId == p && r.IsActive()
    ensures Booked(p, v.AddHold(r, evt))
  {
    ReplayAppend(v.events, ReservedEvent(r, evt));
    assert StatesOf(v.AddHold(r, evt)) == StatesOf(v)[r.reservationId := Active];
  }

  lemma AddHoldKeepsKept(holdFor: int, p: string, v: Store, r: Reservation, evt: string)
    requires Kept(holdFor, p, v) && NewTo(holdFor, p, v, r)
    ensures Kept(holdFor, p, v.AddHold(r, evt))
  {
    var w := v.AddHold(r, evt);
    assert Booked(p, w) by { AddBooks(p, v, r, evt); }
    assert Named(w) by { NamesAppend(v, w, ReservedEvent(r, evt)); }
    assert Spelled(w) by { AddSpells(v, r, evt); }
    assert StampedOnce(w) by { AddStampsOnce(v, r, evt); }
  }

  lemma AddSpells(v: Store, r: Reservation, evt: string)
    requires Spelled(v) && r.reservationId !in v.reservations && r.IsActive()
    ensures Spelled(v.AddHold(r, evt))
  {
    var e, w := ReservedEvent(r, evt), v.AddHold(r, evt);
    WordAppend(v.events, e);
    forall id ensures Spells(Word(w.events, id), w.Lookup(id).state) {
      assert Word(w.events, id) == Word(v.events, id) + (if e.reservationId == Some(id) then [e.kind] else []);
      assert id != r.reservationId ==> w.Lookup(id) == v.Lookup(id);
    }
  }

  lemma AddStampsOnce(v: Store, r: Reservation, evt: string)
    requires Named(v) && StampedOnce(v) && r.reservationId !in v.reservations
    ensures StampedOnce(v.AddHold(r, evt))
  {
    var w := v.AddHold(r, evt);
    forall x | x in w.events && x.kind != EventExpired ensures Stamps(w, x) {
      assert x in v.events || x == ReservedEvent(r, evt);
      if x in v.events { assert Names(v, x) && Stamps(v, x); }
    }
  }

  lemma AddKeepsCounts(p: string, v: Store, r: Reservation, evt: string)
    requires Bounded(p, v) && Coupled(p, v) && p in v.products && v.products[p].AvailableStock() > 0
    requires r.reservationId !in v.reservations && r.productId == p && r.IsActive()
    ensures Bounded(p, v.AddHold(r, evt)) && Coupled(p, v.AddHold(r, evt))
  {
    var id, w := r.reservationId, v.AddHold(r, evt);
    assert id !in v.InState(Active);
    assert w.InState(Active) == v.InState(Active) + {id};
    assert w.InState(Confirmed) == v.InState(Confirmed);
  }

  lemma AddWords(v: Store, r: Reservation, evt: string)
    requires Worded(v) && r.reservationId !in v.reservations && r.IsActive()
    ensures Worded(v.AddHold(r, evt))
  {
    var e, w := ReservedEvent(r, evt), v.AddHold(r, evt);
    WordAppend(v.events, e);
    forall id ensures Word(w.events, id) == WordFor(w.Lookup(id).state) {
      assert Word(w.events, id) == Word(v.events, id) + (if e.reservationId == Some(id) then [e.kind] else []);
    }
  }

  lemma AddStamps(v: Store, r: Reservation, evt: string)
    requires Named(v) && Stamped(v) && r.reservationId !in v.reservations
    ensures Stamped(v.AddHold(r, evt))
  {
    var w := v.AddHold(r, evt);
    forall x | x in w.events ensures Stamps(w, x) {
      assert x in v.events || x == ReservedEvent(r, evt);
      if x in v.events { assert Names(v, x) && Stamps(v, x); }
    }
  }

  lemma AddHoldKeepsExact(holdFor: int, p: string, v: Store, r: Reservation, evt: string)
    requires Quiet(holdFor, p, v) && NewTo(holdFor, p, v, r)
    ensures Exact(p, v.AddHold(r, evt))
  {
    AddKeepsCounts(p, v, r, evt);
    AddWords(v, r, evt);
    AddStamps(v, r, evt);
  }

  lemma AddHoldKeepsQuiet(holdFor: int, p: string, v: Store, r: Reservation, evt: string)
    requires Quiet(holdFor, p, v)
    requires p in v.products && v.products[p].AvailableStock() > 0
    requires r.reservationId !in v.reservations && r.productId == p && r.IsActive() && RowOk(holdFor, r)
    ensures Quiet(holdFor, p, v.AddHold(r, evt))
  {
    AddHoldKeepsKept(holdFor, p, v, r, evt);
    AddHoldKeepsExact(holdFor, p, v, r, evt);
  }

  lemma RejectKeepsKept(holdFor: int, p: string, v: Store, user: string, now: int, evt: string)
    requires Kept(holdFor, p, v)
    ensures Kept(holdFor, p, v.AppendEvent(RejectedEvent(p, user, now, evt)))
  {
    var e := RejectedEvent(p, user, now, evt);
    var w := v.AppendEvent(e);
    assert Booked(p, w) by {
      ReplayAppend(v.events, e);
      assert StatesOf(w) == StatesOf(v);
    }
    assert Named(w) by { NamesAppend(v, w, e); }
    assert Spelled(w) by { RejectSpells(v, e); }
    assert StampedOnce(w) by { AppendKeepsStampsOnce(v, e); }
  }

  lemma RejectSpells(v: Store, e: InventoryEvent)
    requires Spelled(v) && e.reservationId == None
    ensures Spelled(v.AppendEvent(e))
  {
    WordAppend(v.events, e);
    forall id ensures Spells(Word(v.AppendEvent(e).events, id), v.AppendEvent(e).Lookup(id).state) {
      assert Word(v.AppendEvent(e).events, id) == Word(v.events, id);
    }
  }

  lemma AppendKeepsStampsOnce(v: Store, e: InventoryEvent)
    requires Stamps(v, e) && StampedOnce(v)
    ensures StampedOnce(v.AppendEvent(e))
  {
    var w := v.AppendEvent(e);
    forall x | x in w.events && x.kind != EventExpired ensures Stamps(w, x) {
      assert x in v.events || x == e;
      if x in v.events { assert Stamps(v, x); }
    }
  }

  lemma AppendKeepsStamps(v: Store, e: InventoryEvent)
    requires Stamps(v, e)
    ensures Stamped(v.AppendEvent(e)) <==> Stamped(v)
  {
    var w := v.AppendEvent(e);
    assert forall x :: x in w.events <==> x in v.events || x == e;
    assert forall x :: Stamps(w, x) <==> Stamps(v, x);
  }

  lemma RejectKeepsQuiet(holdFor: int, p: string, v: Store, user: string, now: int, evt: string)
    requires Quiet(holdFor, p, v)
    ensures Quiet(holdFor, p, v.AppendEvent(RejectedEvent(p, user, now, evt)))
  {
    var e := RejectedEvent(p, user, now, evt);
    RejectKeepsKept(holdFor, p, v, user, now, evt);
    WordAppend(v.events, e);
    AppendKeepsStamps(v, e);
    SameStates(v, v.AppendEvent(e));
  }

  lemma RenameInBooks(holdFor: int, p: string, v: Store, e: InventoryEvent, evt: string)
    requires Kept(holdFor, p, v.AppendEvent(e))
    ensures Kept(holdFor, p, v.AppendEvent(e.(eventId := evt)))
  {
    var f := e.(eventId := evt);
    var a, b := v.AppendEvent(e), v.AppendEvent(f);
    assert Booked(p, b) by {
      ReplayAppend(v.events, e);
      ReplayAppend(v.events, f);
      assert StatesOf(a) == StatesOf(b);
    }
    assert Spelled(b) by { RenameInSpelling(v, e, evt); }
    forall x | x in b.events
      ensures Names(b, x) && (x.kind != EventExpired ==> Stamps(b, x))
    {
      assert e in a.events && Names(a, e) && (e.kind != EventExpired ==> Stamps(a, e));
      if x != f { assert x in a.events && Names(a, x) && (x.kind != EventExpired ==> Stamps(a, x)); }
    }
  }

  lemma RenameInSpelling(v: Store, e: InventoryEvent, evt: string)
    requires Spelled(v.AppendEvent(e))
    ensures Spelled(v.AppendEvent(e.(eventId := evt)))
  {
    var f := e.(eventId := evt);
    var a, b := v.AppendEvent(e), v.AppendEvent(f);
    forall id ensures Spells(Word(b.events, id), b.Lookup(id).state) {
      SameWord(v.events, e, evt, id);
      assert Spells(Word(a.events, id), a.Lookup(id).state) && a.Lookup(id) == b.Lookup(id);
    }
  }

  lemma SameWord(events: seq<InventoryEvent>, e: InventoryEvent, evt: string, id: string)
    ensures Word(events + [e.(eventId := evt)], id) == Word(events + [e], id)
  {
    WordAppend(events, e);
    WordAppend(events, e.(eventId := evt));
  }

  lemma RenameInWords(v: Store, e: InventoryEvent, evt: string)
    requires Worded(v.AppendEvent(e))
    ensures Worded(v.AppendEvent(e.(eventId := evt)))
  {
    var f := e.(eventId := evt);
    WordAppend(v.events, e);
    WordAppend(v.events, f);
    var a, b := v.AppendEvent(e), v.AppendEvent(f);
    forall id ensures Word(b.events, id) == WordFor(b.Lookup(id).state) {
      assert Word(a.events, id) == WordFor(a.Lookup(id).state);
    }
  }

  lemma RenameInStamps(v: Store, e: InventoryEvent, evt: string)
    requires Stamped(v.AppendEvent(e))
    ensures Stamped(v.AppendEvent(e.(eventId := evt)))
  {
    var f := e.(eventId := evt);
    var a, b := v.AppendEvent(e), v.AppendEvent(f);
    forall x | x in b.events ensures Stamps(b, x) {
      assert e in a.events && Stamps(a, e);
      if x != f { assert x in a.events && Stamps(a, x); }
    }
  }

  lemma RenameInExact(p: string, v: Store, e: InventoryEvent, evt: string)
    requires Exact(p, v.AppendEvent(e))
    ensures Exact(p, v.AppendEvent(e.(eventId := evt)))
  {
    RenameInWords(v, e, evt);
    RenameInStamps(v, e, evt);
    SameStates(v.AppendEvent(e), v.AppendEvent(e.(eventId := evt)));
  }

  /** A product nobody has touched: zero counters, no holds, nothing logged. */
  lemma FreshIsQuiet(holdFor: int, p: string, v: Store)
    requires v.reservations == map[] && v.events == []
    requires forall k | k in v.products ::
      && k == p && v.products[k].productId == k && v.products[k].totalStock >= 0
      && v.products[k].confirmedCount == 0 && v.products[k].activeReservationCount == 0
    ensures Quiet(holdFor, p, v)
  {
    assert v.InState(Active) == {} && v.InState(Confirmed) == {};
    assert StatesOf(v) == map[];
  }

  // ----- Reading the log -----

  lemma ApplyState(l: Ledger, e: InventoryEvent, id: string)
    requires e.kind == EventReserveRejected <==> e.reservationId == None
    ensures e.reservationId == Some(id) ==> id in Apply(l, e).states && Apply(l, e).states[id] == StateAfter(e.kind)
    ensures e.reservationId != Some(id) ==>
      (id in Apply(l, e).states <==> id in l.states) && (id in l.states ==> Apply(l, e).states[id] == l.states[id])
  {
  }

  /** The state a replay arrives at for a reservation is the one its last event names. */
  lemma {:induction false} ReplayLast(events: seq<InventoryEvent>, id: string)
    requires forall e | e in events :: e.kind == EventReserveRejected <==> e.reservationId == None
    ensures id in Replay(events).states <==> Word(events, id) != []
    ensures var w := Word(events, id);
      w != [] ==> Replay(events).states[id] == StateAfter(w[|w| - 1])
    decreases |events|
  {
    if events != [] {
      var n := |events| - 1;
      assert forall e | e in events[..n] :: e in events;
      ReplayLast(events[..n], id);
      assert events[n] in events;
      ApplyState(Replay(events[..n]), events[n], id);
      assert Replay(events) == Apply(Replay(events[..n]), events[n]);
      assert Word(events, id)
          == Word(events[..n], id) + (if events[n].reservationId == Some(id) then [events[n].kind] else []);
    }
  }

  /** The counters a replay arrives at are event counts; rejections do not enter. */
  lemma {:induction false} ReplayCounts(events: seq<InventoryEvent>)
    ensures Replay(events).active
         == Count(events, EventReserved) - Count(events, EventConfirmed)
          - Count(events, EventCancelled) - Count(events, EventExpired)
    ensures Replay(events).confirmed == Count(events, EventConfirmed)
  {
    if events != [] {
      ReplayCounts(events[..|events| - 1]);
    }
  }
}
