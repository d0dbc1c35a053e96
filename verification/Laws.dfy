/** Laws of whole operations: what each one does to records and counters, put without
    reference to the order of its calls. */
module Laws {
  import opened Domain
  import opened Stores
  import opened Accounts
  import opened Section
  import opened Locality
  import opened Meaning

  /** Reservations of `p` in state `st`. */
  function InStateOf(s: Store, p: string, st: ReservationState): set<string> {
    set id | id in s.reservations && s.reservations[id].productId == p && s.reservations[id].state == st
  }

  /** Active holds of `p` whose window is still open at `now`. */
  function LiveIds(s: Store, p: string, now: int): set<string> {
    set id | id in s.reservations && s.reservations[id].productId == p
             && s.reservations[id].IsActive() && !s.reservations[id].Lapsed(now)
  }

  /** Every Active hold whose window has passed, whatever its product. */
  function AllStale(s: Store, now: int): set<string> {
    set id | id in s.reservations && s.reservations[id].IsActive() && s.reservations[id].Lapsed(now)
  }

  /** Every slice of `s` is at rest: nobody is inside any critical section. */
  ghost predicate Tidy(holdFor: int, s: Store) {
    forall p :: Kept(holdFor, p, Restrict(s, p))
  }

  /** And no reservation has been ended twice. */
  ghost predicate Good(holdFor: int, s: Store) {
    forall p :: Quiet(holdFor, p, Restrict(s, p))
  }

  /** `t` is in order as far as `s` is. */
  ghost predicate KeepsOrder(holdFor: int, s: Store, t: Store) {
    (Tidy(holdFor, s) ==> Tidy(holdFor, t)) && (Good(holdFor, s) ==> Good(holdFor, t))
  }

  lemma GoodIsTidy(holdFor: int, s: Store)
    requires Good(holdFor, s)
    ensures Tidy(holdFor, s)
  {
    forall p ensures Kept(holdFor, p, Restrict(s, p)) {
      assert Quiet(holdFor, p, Restrict(s, p));
    }
  }

  lemma TidyKeys(holdFor: int, s: Store)
    requires Tidy(holdFor, s)
    ensures forall id | id in s.reservations ::
      s.reservations[id].reservationId == id && s.reservations[id].productId in s.products
  {
    forall id | id in s.reservations
      ensures s.reservations[id].reservationId == id && s.reservations[id].productId in s.products
    {
      var v := Restrict(s, s.reservations[id].productId);
      assert Kept(holdFor, s.reservations[id].productId, v) && v.reservations[id] == s.reservations[id];
    }
  }

  lemma TidyStock(holdFor: int, s: Store, p: string)
    requires Tidy(holdFor, s) && p in s.products
    ensures s.products[p].confirmedCount >= 0 && s.products[p].AvailableStock() >= 0
  {
    assert Kept(holdFor, p, Restrict(s, p)) && Restrict(s, p).products[p] == s.products[p];
  }

  lemma SliceCounts(s: Store, p: string, st: ReservationState)
    ensures Restrict(s, p).InState(st) == InStateOf(s, p, st)
  {
  }

  /** The whole-store reading of a quiet slice. */
  lemma GoodAt(holdFor: int, s: Store, p: string)
    requires Good(holdFor, s)
    ensures p in s.products ==>
      && s.products[p].activeReservationCount == |InStateOf(s, p, Active)|
      && s.products[p].confirmedCount == |InStateOf(s, p, Confirmed)|
      && s.products[p].AvailableStock() >= 0
    ensures forall id | id in s.reservations && s.reservations[id].productId == p ::
      s.reservations[id].reservationId == id && p in s.products && RowOk(holdFor, s.reservations[id])
  {
    assert Quiet(holdFor, p, Restrict(s, p));
    SliceCounts(s, p, Active);
    SliceCounts(s, p, Confirmed);
    assert p in s.products ==> Restrict(s, p).products[p] == s.products[p];
    forall id | id in s.reservations && s.reservations[id].productId == p
      ensures s.reservations[id].reservationId == id && p in s.products && RowOk(holdFor, s.reservations[id])
    {
      assert Restrict(s, p).reservations[id] == s.reservations[id];
    }
  }

  lemma GoodKeys(holdFor: int, s: Store)
    requires Good(holdFor, s)
    ensures forall id | id in s.reservations ::
      && s.reservations[id].reservationId == id
      && s.reservations[id].productId in s.products
      && RowOk(holdFor, s.reservations[id])
  {
    forall id | id in s.reservations
      ensures s.reservations[id].reservationId == id && s.reservations[id].productId in s.products
        && RowOk(holdFor, s.reservations[id])
    {
      GoodAt(holdFor, s, s.reservations[id].productId);
    }
  }

  // ----- Whole transitions keep the store in order -----

  lemma EndSlices(s: Store, id: string, e: Ending, now: int, evt: string)
    requires id in s.reservations
    ensures var p := s.reservations[id].productId;
      OnlySlice(s, s.End(id, e, now, evt), p, Restrict(s, p).End(id, e, now, evt))
  {
    var r := s.reservations[id];
    var p := r.productId;
    LookupIsLocal(s, p, id);
    EndRecordLocal(s, p, id, e, now);
    var s1 := s.EndReservation(id, e, now);
    ReleaseLocal(s1, p, e);
    AppendLocal(s1.ReleaseHold(p, e), p, EndingEvent(e, r, now, evt));
  }

  /** A change of p's slice alone keeps the store in order as far as it keeps the slice. */
  lemma SliceKeepsOrder(holdFor: int, s: Store, t: Store, p: string, w: Store)
    requires OnlySlice(s, t, p, w)
    requires Kept(holdFor, p, Restrict(s, p)) ==> Kept(holdFor, p, w)
    requires Quiet(holdFor, p, Restrict(s, p)) ==> Quiet(holdFor, p, w)
    ensures KeepsOrder(holdFor, s, t)
  {
    if Tidy(holdFor, s) {
      forall q ensures Kept(holdFor, q, Restrict(t, q)) {
        assert Kept(holdFor, q, Restrict(s, q));
      }
    }
    if Good(holdFor, s) {
      forall q ensures Quiet(holdFor, q, Restrict(t, q)) {
        assert Quiet(holdFor, q, Restrict(s, q));
      }
    }
  }

  lemma EndKeepsOrder(holdFor: int, s: Store, id: string, e: Ending, now: int, evt: string)
    requires id in s.reservations && MayEnd(s.reservations[id], e, now)
    ensures KeepsOrder(holdFor, s, s.End(id, e, now, evt))
  {
    var p := s.reservations[id].productId;
    var v := Restrict(s, p);
    EndSlices(s, id, e, now, evt);
    if Kept(holdFor, p, v) { EndKeepsKept(holdFor, p, v, id, e, now, evt); }
    if Quiet(holdFor, p, v) { EndKeepsQuiet(holdFor, p, v, id, e, now, evt); }
    SliceKeepsOrder(holdFor, s, s.End(id, e, now, evt), p, v.End(id, e, now, evt));
  }

  lemma AddHoldSlices(s: Store, r: Reservation, evt: string)
    requires r.reservationId !in s.reservations
    ensures OnlySlice(s, s.AddHold(r, evt), r.productId, Restrict(s, r.productId).AddHold(r, evt))
  {
    var p := r.productId;
    PutLocal(s, p, r);
    var s1 := s.PutReservation(r.reservationId, r);
    TakeLocal(s1, p);
    AppendLocal(s1.TakeHold(p), p, ReservedEvent(r, evt));
  }

  lemma AddHoldInSlice(holdFor: int, p: string, v: Store, r: Reservation, evt: string)
    requires NewTo(holdFor, p, v, r)
    ensures Kept(holdFor, p, v) ==> Kept(holdFor, p, v.AddHold(r, evt))
    ensures Quiet(holdFor, p, v) ==> Quiet(holdFor, p, v.AddHold(r, evt))
  {
    if Kept(holdFor, p, v) { AddHoldKeepsKept(holdFor, p, v, r, evt); }
    if Quiet(holdFor, p, v) { AddHoldKeepsQuiet(holdFor, p, v, r, evt); }
  }

  lemma AddHoldKeepsOrder(holdFor: int, s: Store, r: Reservation, evt: string)
    requires r.productId in s.products && s.products[r.productId].AvailableStock() > 0
    requires r.reservationId !in s.reservations && r.IsActive() && RowOk(holdFor, r)
    ensures KeepsOrder(holdFor, s, s.AddHold(r, evt))
  {
    var p := r.productId;
    var v := Restrict(s, p);
    assert NewTo(holdFor, p, v, r) by { assert v.products[p] == s.products[p]; }
    AddHoldSlices(s, r, evt);
    AddHoldInSlice(holdFor, p, v, r, evt);
    SliceKeepsOrder(holdFor, s, s.AddHold(r, evt), p, v.AddHold(r, evt));
  }

  lemma RejectKeepsOrder(holdFor: int, s: Store, p: string, user: string, now: int, evt: string)
    ensures KeepsOrder(holdFor, s, s.AppendEvent(RejectedEvent(p, user, now, evt)))
  {
    var v, e := Restrict(s, p), RejectedEvent(p, user, now, evt);
    AppendLocal(s, p, e);
    if Kept(holdFor, p, v) { RejectKeepsKept(holdFor, p, v, user, now, evt); }
    if Quiet(holdFor, p, v) { RejectKeepsQuiet(holdFor, p, v, user, now, evt); }
    SliceKeepsOrder(holdFor, s, s.AppendEvent(e), p, v.AppendEvent(e));
  }

  // ----- Expiring a list -----

  /** Ids to expire: listed once, present, Active and lapsed. */
  predicate Expirable(s: Store, ids: seq<string>, now: int) {
    Distinct(ids) && forall id | id in ids :: id in AllStale(s, now)
  }

  function ExpiredAll(s: Store, ids: seq<string>, now: int): map<string, Reservation> {
    map id | id in s.reservations :: if id in ids then Ended(s.reservations[id], ToExpired, now) else s.reservations[id]
  }

  /** How many of `ids` are reservations of product `p`. */
  function CountOf(s: Store, ids: seq<string>, p: string): nat {
    if ids == [] then 0
    else (if s.Lookup(ids[0]).productId == p then 1 else 0) + CountOf(s, ids[1..], p)
  }

  lemma ExpirableTail(s: Store, ids: seq<string>, now: int, evt: string)
    requires ids != [] && Expirable(s, ids, now)
    ensures ids[0] !in ids[1..] && Expirable(s.End(ids[0], ToExpired, now, evt), ids[1..], now)
  {
    assert forall x | x in ids[1..] :: x in ids;
  }

  lemma {:induction false} EndAllKeepsOrder(holdFor: int, s: Store, ids: seq<string>, now: int, evts: seq<string>)
    requires Expirable(s, ids, now) && |evts| == |ids|
    ensures KeepsOrder(holdFor, s, EndAll(s, ids, now, evts))
    decreases |ids|
  {
    if ids != [] {
      assert ids[0] in ids;
      ExpirableTail(s, ids, now, evts[0]);
      EndKeepsOrder(holdFor, s, ids[0], ToExpired, now, evts[0]);
      EndAllKeepsOrder(holdFor, s.End(ids[0], ToExpired, now, evts[0]), ids[1..], now, evts[1..]);
    }
  }

  lemma {:induction false} EndAllRecords(s: Store, ids: seq<string>, now: int, evts: seq<string>)
    requires Distinct(ids) && (forall id | id in ids :: id in s.reservations) && |evts| == |ids|
    ensures EndAll(s, ids, now, evts).reservations == ExpiredAll(s, ids, now)
    decreases |ids|
  {
    if ids == [] {
      assert ExpiredAll(s, ids, now) == s.reservations;
    } else {
      var t := s.End(ids[0], ToExpired, now, evts[0]);
      assert ids[0] in ids && forall x | x in ids[1..] :: x in ids;
      EndAllRecords(t, ids[1..], now, evts[1..]);
      assert ids[0] !in ids[1..];
      assert forall id :: id in ids <==> id == ids[0] || id in ids[1..];
      assert ExpiredAll(t, ids[1..], now) == ExpiredAll(s, ids, now);
    }
  }

  lemma CountOfStep(s: Store, id: string, now: int, evt: string, ids: seq<string>, p: string)
    requires id in s.reservations
    ensures CountOf(s.End(id, ToExpired, now, evt), ids, p) == CountOf(s, ids, p)
    decreases |ids|
  {
    if ids != [] { CountOfStep(s, id, now, evt, ids[1..], p); }
  }

  lemma {:induction false} EndAllCounters(s: Store, ids: seq<string>, now: int, evts: seq<string>, p: string)
    requires (forall id | id in ids :: id in s.reservations) && |evts| == |ids|
    ensures var t := EndAll(s, ids, now, evts);
      && (p in t.products <==> p in s.products)
      && (p in s.products ==>
            t.products[p] == s.products[p].(
              activeReservationCount := s.products[p].activeReservationCount - CountOf(s, ids, p)))
    decreases |ids|
  {
    if ids != [] {
      var t := s.End(ids[0], ToExpired, now, evts[0]);
      assert ids[0] in ids && forall x | x in ids[1..] :: x in ids;
      EndAllCounters(t, ids[1..], now, evts[1..], p);
      CountOfStep(s, ids[0], now, evts[0], ids[1..], p);
    }
  }

  /** Listing a set of p's ids counts them. */
  lemma {:induction false} CountOfEnumeration(s: Store, ids: seq<string>, chosen: set<string>, p: string)
    requires Distinct(ids)
    requires forall id :: id in chosen <==> id in ids && s.Lookup(id).productId == p
    ensures CountOf(s, ids, p) == |chosen|
    decreases |ids|
  {
    if ids == [] {
      assert chosen == {};
    } else {
      assert ids[0] !in ids[1..];
      assert forall id :: id in ids <==> id == ids[0] || id in ids[1..];
      CountOfEnumeration(s, ids[1..], chosen - {ids[0]}, p);
    }
  }

  function ExpiryOf(r: Reservation, now: int, evt: string): InventoryEvent {
    InventoryEvent(evt, EventExpired, r.productId, Some(r.reservationId), Some(r.userId), None, now)
  }

  /** The events of expiring `ids`, with the given event ids. */
  function Expiries(s: Store, ids: seq<string>, now: int, evts: seq<string>): seq<InventoryEvent>
    requires |evts| == |ids|
  {
    seq(|ids|, i requires 0 <= i < |ids| => ExpiryOf(s.Lookup(ids[i]), now, evts[i]))
  }

  lemma {:induction false} EndAllLogs(s: Store, ids: seq<string>, now: int, evts: seq<string>)
    requires |evts| == |ids|
    ensures EndAll(s, ids, now, evts).events == s.events + Expiries(s, ids, now, evts)
    decreases |ids|
  {
    if ids != [] {
      var t := s.End(ids[0], ToExpired, now, evts[0]);
      EndAllLogs(t, ids[1..], now, evts[1..]);
      var more := Expiries(s, ids, now, evts);
      assert t.events == s.events + [more[0]];
      SameNames(s, ids[0], now, evts[0], ids[1..], evts[1..]);
      assert more == [more[0]] + Expiries(s, ids[1..], now, evts[1..]);
    }
  }

  /** Expiring one changes nothing the events of the others say. */
  lemma SameNames(s: Store, id: string, now: int, evt: string, ids: seq<string>, evts: seq<string>)
    requires |evts| == |ids|
    ensures Expiries(s.End(id, ToExpired, now, evt), ids, now, evts) == Expiries(s, ids, now, evts)
  {
  }

  // ----- ReserveItem -----

  /** The holds that count against stock at `now`. */
  function Taken(s: Store, p: string, now: int): int {
    |InStateOf(s, p, Confirmed)| + |LiveIds(s, p, now)|
  }

  /** What is not sold is available, held live, or held by stale holds. */
  lemma StockSplits(holdFor: int, s: Store, p: string, now: int)
    requires Good(holdFor, s) && p in s.products
    ensures s.products[p].AvailableStock() + |s.StaleIds(p, now)| == s.products[p].totalStock - Taken(s, p, now)
    ensures s.products[p].AvailableStock() >= 0
  {
    GoodAt(holdFor, s, p);
    var live, stale := LiveIds(s, p, now), s.StaleIds(p, now);
    assert InStateOf(s, p, Active) == live + stale && live !! stale;
  }

  /** Expiring the stale holds of `p` makes so many units available. */
  lemma StockAfterExpiry(s: Store, p: string, now: int, order: seq<string>, evts: seq<string>)
    requires p in s.products && Enumerates(order, s.StaleIds(p, now)) && |evts| == |order|
    ensures var t := EndAll(s, order, now, evts);
      p in t.products && t.products[p].AvailableStock() == s.products[p].AvailableStock() + |s.StaleIds(p, now)|
  {
    EndAllCounters(s, order, now, evts, p);
    CountOfEnumeration(s, order, s.StaleIds(p, now), p);
  }

  /** The reserve decision by the counter, of any store, even one a race has left behind: what
      decides is the available stock and what the stale holds of `p` will give back. */
  lemma ReserveByCounter(holdFor: int, p: string, user: string, now: int, s: Store, s': Store, out: Outcome)
    requires ReserveMeans(holdFor, p, user, now, s, s', out)
    ensures p !in s.products ==> out == Failed(ProductNotFound)
    ensures p in s.products ==> (out.Got? <==> s.products[p].AvailableStock() + |s.StaleIds(p, now)| > 0)
    ensures p in s.products && !out.Got? ==> out == Failed(OutOfStock)
  {
    var order, evts, rid, evt :| Enumerates(order, s.StaleIds(p, now)) && |evts| == |order|
      && (out.Got? ==> rid !in s.reservations)
      && ReserveTail(holdFor, p, user, now, EndAll(s, order, now, evts), rid, evt) == (s', out);
    EndAllKeys(s, order, now, evts);
    if p in s.products {
      StockAfterExpiry(s, p, now, order, evts);
    }
  }

  lemma UnknownProduct(holdFor: int, p: string, user: string, now: int, s: Store, s': Store, out: Outcome)
    requires Tidy(holdFor, s) && ReserveMeans(holdFor, p, user, now, s, s', out) && p !in s.products
    ensures s' == s
  {
    var order, evts, rid, evt :| Enumerates(order, s.StaleIds(p, now)) && |evts| == |order|
      && ReserveTail(holdFor, p, user, now, EndAll(s, order, now, evts), rid, evt) == (s', out);
    EndAllKeys(s, order, now, evts);
    TidyKeys(holdFor, s);
    assert s.StaleIds(p, now) == {};
    EnumerationSize(order, {});
    assert EndAll(s, order, now, evts) == s;
    assert ReserveTail(holdFor, p, user, now, s, rid, evt) == (s, Failed(ProductNotFound));
  }

  /** The reserve decision without reference to counters or sweeping: for a known product
      it succeeds exactly when total stock exceeds sales plus live holds, however many
      stale holds nobody has swept yet. */
  lemma ReserveDecision(holdFor: int, p: string, user: string, now: int, s: Store, s': Store, out: Outcome)
    requires Good(holdFor, s) && ReserveMeans(holdFor, p, user, now, s, s', out)
    ensures p !in s.products ==> out == Failed(ProductNotFound) && s' == s
    ensures p in s.products ==> (out.Got? <==> s.products[p].totalStock > Taken(s, p, now))
    ensures p in s.products && !out.Got? ==> out == Failed(OutOfStock)
  {
    ReserveByCounter(holdFor, p, user, now, s, s', out);
    if p in s.products {
      StockSplits(holdFor, s, p, now);
    } else {
      GoodIsTidy(holdFor, s);
      UnknownProduct(holdFor, p, user, now, s, s', out);
    }
  }

  /** A refusal for lack of stock finds no stale hold to expire: it changes no record and no
      counter, and leaves one event in the log. All it takes is that the available stock is not
      negative, which no race can make it. */
  lemma RefusalOnlyLogs(holdFor: int, p: string, user: string, now: int, s: Store, s': Store)
    requires ReserveMeans(holdFor, p, user, now, s, s', Failed(OutOfStock))
    requires p in s.products ==> s.products[p].AvailableStock() >= 0
    ensures s.StaleIds(p, now) == {}
    ensures s'.products == s.products && s'.reservations == s.reservations
    ensures exists evt :: s'.events == s.events + [InventoryEvent(
        evt, EventReserveRejected, p, None, Some(user), Some("out of stock"), now)]
  {
    ReserveByCounter(holdFor, p, user, now, s, s', Failed(OutOfStock));
    var order, evts, rid, evt :| Enumerates(order, s.StaleIds(p, now)) && |evts| == |order|
      && ReserveTail(holdFor, p, user, now, EndAll(s, order, now, evts), rid, evt) == (s', Failed(OutOfStock));
    EnumerationSize(order, s.StaleIds(p, now));
    assert EndAll(s, order, now, evts) == s;
    assert s'.events == s.events + [InventoryEvent(
        evt, EventReserveRejected, p, None, Some(user), Some("out of stock"), now)];
  }

  lemma StaleFrame(s: Store, p: string, now: int, order: seq<string>, evts: seq<string>, k: string)
    requires Enumerates(order, s.StaleIds(p, now)) && |evts| == |order| && k in s.products
    ensures var t := EndAll(s, order, now, evts);
      && k in t.products && t.products[k].totalStock == s.products[k].totalStock
      && (k != p ==> t.products[k] == s.products[k])
  {
    EndAllCounters(s, order, now, evts, k);
    if k != p { CountOfEnumeration(s, order, {}, k); }
  }

  lemma TailKeepsOrder(holdFor: int, p: string, user: string, now: int, t: Store, rid: string, evt: string)
    requires ReserveTail(holdFor, p, user, now, t, rid, evt).1.Got? ==> rid !in t.reservations
    ensures KeepsOrder(holdFor, t, ReserveTail(holdFor, p, user, now, t, rid, evt).0)
  {
    var out := ReserveTail(holdFor, p, user, now, t, rid, evt).1;
    if out.Got? {
      AddHoldKeepsOrder(holdFor, t, out.reservation, evt);
    } else if out == Failed(OutOfStock) {
      RejectKeepsOrder(holdFor, t, p, user, now, evt);
    }
  }

  /** The event with which ReserveItem ends, if any. */
  function LastEntry(p: string, user: string, now: int, out: Outcome, evt: string): seq<InventoryEvent> {
    if out.Got? then
      [InventoryEvent(evt, EventReserved, p, Some(out.reservation.reservationId), Some(user), None, now)]
    else if out == Failed(OutOfStock) then
      [InventoryEvent(evt, EventReserveRejected, p, None, Some(user), Some("out of stock"), now)]
    else []
  }

  /** The record and the event with which ReserveItem ends, field by field. */
  lemma TailWrites(holdFor: int, p: string, user: string, now: int, t: Store, rid: string, evt: string)
    ensures var (s', out) := ReserveTail(holdFor, p, user, now, t, rid, evt);
      if out.Got? then
        && out.reservation == Reservation(rid, p, user, Active, now, now + holdFor, None, None, None)
        && s'.reservations == t.reservations[rid := out.reservation]
      else s'.reservations == t.reservations
    ensures var (s', out) := ReserveTail(holdFor, p, user, now, t, rid, evt);
      s'.events == t.events + LastEntry(p, user, now, out, evt)
  {
  }

  lemma TailFrame(holdFor: int, p: string, user: string, now: int, t: Store, rid: string, evt: string, k: string)
    ensures var s' := ReserveTail(holdFor, p, user, now, t, rid, evt).0;
      && (k in s'.products <==> k in t.products)
      && (k in t.products ==> s'.products[k].totalStock == t.products[k].totalStock)
      && (k in t.products && k != p ==> s'.products[k] == t.products[k])
  {
  }

  lemma ReserveOrder(holdFor: int, p: string, user: string, now: int, s: Store, s': Store, out: Outcome)
    requires ReserveMeans(holdFor, p, user, now, s, s', out)
    ensures KeepsOrder(holdFor, s, s')
  {
    var order, evts, rid, evt :| Enumerates(order, s.StaleIds(p, now)) && |evts| == |order|
      && (out.Got? ==> rid !in s.reservations)
      && ReserveTail(holdFor, p, user, now, EndAll(s, order, now, evts), rid, evt) == (s', out);
    EndAllKeepsOrder(holdFor, s, order, now, evts);
    EndAllKeys(s, order, now, evts);
    TailKeepsOrder(holdFor, p, user, now, EndAll(s, order, now, evts), rid, evt);
  }

  /** ReserveItem keeps the store in order and touches no other product. */
  lemma ReserveKeepsOrder(holdFor: int, p: string, user: string, now: int, s: Store, s': Store, out: Outcome)
    requires ReserveMeans(holdFor, p, user, now, s, s', out)
    ensures KeepsOrder(holdFor, s, s')
    ensures s'.products.Keys == s.products.Keys
    ensures forall k | k in s.products :: s'.products[k].totalStock == s.products[k].totalStock
    ensures forall k | k in s.products && k != p :: s'.products[k] == s.products[k]
  {
    ReserveOrder(holdFor, p, user, now, s, s', out);
    var order, evts, rid, evt :| Enumerates(order, s.StaleIds(p, now)) && |evts| == |order|
      && ReserveTail(holdFor, p, user, now, EndAll(s, order, now, evts), rid, evt) == (s', out);
    var t := EndAll(s, order, now, evts);
    EndAllKeys(s, order, now, evts);
    assert ReserveTail(holdFor, p, user, now, t, rid, evt).0 == s';
    forall k
      ensures k in s'.products <==> k in s.products
      ensures k in s.products ==>
        s'.products[k].totalStock == s.products[k].totalStock && (k != p ==> s'.products[k] == s.products[k])
    {
      TailFrame(holdFor, p, user, now, t, rid, evt, k);
      if k in s.products { StaleFrame(s, p, now, order, evts, k); }
    }
  }

  /** The records after the stale holds of `p` have been expired. */
  function Unstaled(s: Store, p: string, now: int): map<string, Reservation> {
    map id | id in s.reservations ::
      var r := s.reservations[id];
      if r.productId == p && r.state == Active && r.expiresAt <= now
      then r.(state := Expired, expiredAt := Some(now)) else r
  }

  lemma ExpiredAreUnstaled(s: Store, p: string, now: int, order: seq<string>)
    requires Enumerates(order, s.StaleIds(p, now))
    ensures ExpiredAll(s, order, now) == Unstaled(s, p, now)
  {
    assert forall id :: id in order <==> id in s.StaleIds(p, now);
  }

  /** The records ReserveItem leaves: p's stale holds are Expired and a success adds exactly
      the one new hold; nothing else changes, and no stale hold of p is left. */
  lemma ReserveRecords(holdFor: int, p: string, user: string, now: int, s: Store, s': Store, out: Outcome)
    requires ReserveMeans(holdFor, p, user, now, s, s', out)
    ensures if out.Got? then
              var r := out.reservation;
              && r == Reservation(r.reservationId, p, user, Active, now, now + holdFor, None, None, None)
              && r.reservationId !in s.reservations
              && s'.reservations == Unstaled(s, p, now)[r.reservationId := r]
            else s'.reservations == Unstaled(s, p, now)
    ensures holdFor > 0 ==> s'.StaleIds(p, now) == {}
  {
    var order, evts, rid, evt :| Enumerates(order, s.StaleIds(p, now)) && |evts| == |order|
      && (out.Got? ==> rid !in s.reservations)
      && ReserveTail(holdFor, p, user, now, EndAll(s, order, now, evts), rid, evt) == (s', out);
    TailWrites(holdFor, p, user, now, EndAll(s, order, now, evts), rid, evt);
    EndAllRecords(s, order, now, evts);
    ExpiredAreUnstaled(s, p, now, order);
    NothingStaleLeft(s, p, now, s', out);
  }

  lemma NothingStaleLeft(s: Store, p: string, now: int, s': Store, out: Outcome)
    requires if out.Got? then s'.reservations == Unstaled(s, p, now)[out.reservation.reservationId := out.reservation]
             else s'.reservations == Unstaled(s, p, now)
    ensures (out.Got? && out.reservation.expiresAt <= now) || s'.StaleIds(p, now) == {}
  {
    var u := Unstaled(s, p, now);
    assert forall id | id in u && u[id].productId == p && u[id].IsActive() :: !u[id].Lapsed(now);
  }

  /** What ReserveItem writes to the log: an expiry for each stale hold of `p`, and then the new
      hold or the refusal; nothing for an unknown product. */
  lemma ReserveLogs(holdFor: int, p: string, user: string, now: int, s: Store, s': Store, out: Outcome)
    requires ReserveMeans(holdFor, p, user, now, s, s', out)
    ensures exists order: seq<string>, evts: seq<string>, evt: string ::
      && Enumerates(order, s.StaleIds(p, now)) && |evts| == |order|
      && s'.events == s.events + Expiries(s, order, now, evts) + LastEntry(p, user, now, out, evt)
  {
    var order, evts, rid, evt :| Enumerates(order, s.StaleIds(p, now)) && |evts| == |order|
      && (out.Got? ==> rid !in s.reservations)
      && ReserveTail(holdFor, p, user, now, EndAll(s, order, now, evts), rid, evt) == (s', out);
    TailWrites(holdFor, p, user, now, EndAll(s, order, now, evts), rid, evt);
    EndAllLogs(s, order, now, evts);
  }

  /** And the counter of `p`: a unit back for each stale hold, one taken by a success. */
  lemma ReserveCounts(holdFor: int, p: string, user: string, now: int, s: Store, s': Store, out: Outcome)
    requires ReserveMeans(holdFor, p, user, now, s, s', out) && p in s.products
    ensures p in s'.products && s'.products[p] == s.products[p].(activeReservationCount :=
      s.products[p].activeReservationCount - |s.StaleIds(p, now)| + (if out.Got? then 1 else 0))
  {
    var order, evts, rid, evt :| Enumerates(order, s.StaleIds(p, now)) && |evts| == |order|
      && (out.Got? ==> rid !in s.reservations)
      && ReserveTail(holdFor, p, user, now, EndAll(s, order, now, evts), rid, evt) == (s', out);
    EndAllCounters(s, order, now, evts, p);
    CountOfEnumeration(s, order, s.StaleIds(p, now), p);
  }

  // ----- ConfirmReservation and CancelReservation -----

  /** A hold made at `t` with hold time `holdFor` is sold at any time before `t + holdFor` and
      refused as expired from then on. */
  lemma HoldIsTimely(holdFor: int, p: string, user: string, t: int, s: Store, s': Store, out: Outcome, now: int,
      evt: string)
    requires ReserveMeans(holdFor, p, user, t, s, s', out) && out.Got?
    ensures var verdict := ConfirmEffect(out.reservation.reservationId, now, s', evt).1;
      if now < t + holdFor then
        verdict == Got(Reservation(out.reservation.reservationId, p, user, Confirmed, t, t + holdFor,
                                   Some(now), None, None))
      else verdict == Failed(ReservationExpired)
  {
    ReserveRecords(holdFor, p, user, t, s, s', out);
  }

  /** A confirmation succeeds exactly for an Active hold still in time. A sale leaves the
      available stock as it was, a lapsed hold is expired and gives its unit back, anything
      else changes nothing; no other record or product is touched. */
  lemma ConfirmLaws(holdFor: int, id: string, now: int, s: Store, evt: string)
    requires Tidy(holdFor, s) && id in s.reservations
    ensures var (s', out) := ConfirmEffect(id, now, s, evt);
      var r := s.reservations[id]; var p := r.productId;
      && KeepsOrder(holdFor, s, s') && p in s.products
      && var x := s.products[p];
      && (if r.state != Active then
            s' == s
            && out == Failed(if r.state == Expired then ReservationExpired else ReservationAlreadyFinalized)
          else if r.expiresAt <= now then
            && out == Failed(ReservationExpired)
            && s'.reservations == s.reservations[id := r.(state := Expired, expiredAt := Some(now))]
            && s'.products == s.products[p := x.(activeReservationCount := x.activeReservationCount - 1)]
            && s'.events == s.events + [InventoryEvent(
                 evt, EventExpired, p, Some(id), Some(r.userId), None, now)]
          else
            && out == Got(r.(state := Confirmed, confirmedAt := Some(now)))
            && s'.reservations == s.reservations[id := r.(state := Confirmed, confirmedAt := Some(now))]
            && s'.products == s.products[p := x.(activeReservationCount := x.activeReservationCount - 1,
                                                 confirmedCount := x.confirmedCount + 1)]
            && s'.events == s.events + [InventoryEvent(
                 evt, EventConfirmed, p, Some(id), Some(r.userId), None, now)])
      && (forall k | k in s.products :: k in s'.products && s'.products[k].totalStock == s.products[k].totalStock
           && s'.products[k].AvailableStock()
              == s.products[k].AvailableStock()
                 + (if k == p && r.state == Active && r.expiresAt <= now then 1 else 0))
  {
    TidyKeys(holdFor, s);
    var r := s.reservations[id];
    if r.IsActive() {
      EndKeepsOrder(holdFor, s, id, if r.Lapsed(now) then ToExpired else ToConfirmed, now, evt);
    }
  }

  /** A cancellation succeeds exactly for an Active hold, lapsed or not, and gives its unit
      back; anything else changes nothing. */
  lemma CancelLaws(holdFor: int, id: string, now: int, s: Store, evt: string)
    requires Tidy(holdFor, s) && id in s.reservations
    ensures var (s', out) := CancelEffect(id, now, s, evt);
      var r := s.reservations[id]; var p := r.productId;
      && KeepsOrder(holdFor, s, s') && p in s.products
      && var x := s.products[p];
      && (if r.state != Active then
            s' == s && out == Failed(ReservationAlreadyFinalized)
          else
            && out == Got(r.(state := Cancelled, cancelledAt := Some(now)))
            && s'.reservations == s.reservations[id := r.(state := Cancelled, cancelledAt := Some(now))]
            && s'.products == s.products[p := x.(activeReservationCount := x.activeReservationCount - 1)]
            && s'.events == s.events + [InventoryEvent(
                 evt, EventCancelled, p, Some(id), Some(r.userId), None, now)])
      && (forall k | k in s.products :: k in s'.products && s'.products[k].totalStock == s.products[k].totalStock
           && s'.products[k].AvailableStock()
              == s.products[k].AvailableStock() + (if k == p && r.state == Active then 1 else 0))
  {
    TidyKeys(holdFor, s);
    if s.reservations[id].IsActive() {
      EndKeepsOrder(holdFor, s, id, ToCancelled, now, evt);
    }
  }

  // ----- ExpireReservations -----

  /** A whole sweep with nobody else around: every stale hold is listed and expired once. */
  ghost predicate SweepAllMeans(now: int, s: Store, s': Store, total: int) {
    exists order: seq<string>, evts: seq<string> ::
      && Enumerates(order, AllStale(s, now)) && |evts| == |order|
      && s' == EndAll(s, order, now, evts) && total == |order|
  }

  function SweptRecords(s: Store, now: int): map<string, Reservation> {
    map id | id in s.reservations ::
      var r := s.reservations[id];
      if r.state == Active && r.expiresAt <= now then r.(state := Expired, expiredAt := Some(now)) else r
  }

  lemma EnumerationSize(xs: seq<string>, ids: set<string>)
    requires Enumerates(xs, ids)
    ensures |xs| == |ids|
    decreases |xs|
  {
    if xs == [] {
      assert ids == {};
    } else {
      assert xs[0] in xs && xs[0] !in xs[1..];
      assert forall x | x in xs[1..] :: x in xs;
      assert forall x | x in ids - {xs[0]} :: x in xs[1..];
      EnumerationSize(xs[1..], ids - {xs[0]});
    }
  }

  lemma SubsetSize(a: set<string>, b: set<string>)
    requires a <= b
    ensures |a| <= |b|
  {
    assert b == a + (b - a);
  }

  /** A sweep's outcome does not depend on the order it visits products and holds: records,
      counters and total are functions of the store and the time. */
  lemma SweepEffect(now: int, s: Store, s': Store, total: int)
    requires SweepAllMeans(now, s, s', total)
    ensures s'.reservations == SweptRecords(s, now)
    ensures total == |AllStale(s, now)|
    ensures s'.products.Keys == s.products.Keys
    ensures forall k | k in s.products ::
      s'.products[k] == s.products[k].(
        activeReservationCount := s.products[k].activeReservationCount - |s.StaleIds(k, now)|)
    ensures AllStale(s', now) == {}
  {
    var order, evts :| Enumerates(order, AllStale(s, now)) && |evts| == |order|
      && s' == EndAll(s, order, now, evts) && total == |order|;
    EndAllRecords(s, order, now, evts);
    EndAllKeys(s, order, now, evts);
    EnumerationSize(order, AllStale(s, now));
    forall k | k in s.products
      ensures s'.products[k] == s.products[k].(
        activeReservationCount := s.products[k].activeReservationCount - |s.StaleIds(k, now)|)
    {
      EndAllCounters(s, order, now, evts, k);
      CountOfEnumeration(s, order, s.StaleIds(k, now), k);
    }
  }

  /** It logs one expiry for each stale hold. */
  lemma SweepLogs(now: int, s: Store, s': Store, total: int)
    requires SweepAllMeans(now, s, s', total)
    ensures exists order: seq<string>, evts: seq<string> ::
      && Enumerates(order, AllStale(s, now)) && |evts| == |order|
      && s'.events == s.events + Expiries(s, order, now, evts)
  {
    var order, evts :| Enumerates(order, AllStale(s, now)) && |evts| == |order|
      && s' == EndAll(s, order, now, evts) && total == |order|;
    EndAllLogs(s, order, now, evts);
  }

  lemma SweepKeepsOrder(holdFor: int, now: int, s: Store, s': Store, total: int)
    requires SweepAllMeans(now, s, s', total)
    ensures KeepsOrder(holdFor, s, s')
  {
    var order, evts :| Enumerates(order, AllStale(s, now)) && |evts| == |order|
      && s' == EndAll(s, order, now, evts) && total == |order|;
    EndAllKeepsOrder(holdFor, s, order, now, evts);
  }

  /** Sweeping twice at the same time expires nothing the second time. */
  lemma SweepTwice(now: int, s: Store, s': Store, total: int, s'': Store, total': int)
    requires SweepAllMeans(now, s, s', total) && SweepAllMeans(now, s', s'', total')
    ensures total' == 0 && s'' == s'
  {
    SweepEffect(now, s, s', total);
    var order, evts :| Enumerates(order, AllStale(s', now)) && |evts| == |order|
      && s'' == EndAll(s', order, now, evts) && total' == |order|;
    EnumerationSize(order, {});
  }

  /** Equal but for the time of expiry. */
  predicate SameButExpiredAt(r: Reservation, q: Reservation) {
    r.(expiredAt := None) == q.(expiredAt := None)
  }

  /** What is stale at `t2` was swept at `t1` or still is stale. */
  lemma StaleSplits(t1: int, t2: int, s: Store, a: Store)
    requires t1 <= t2 && a.reservations == SweptRecords(s, t1)
    ensures AllStale(s, t2) == AllStale(s, t1) + AllStale(a, t2) && AllStale(s, t1) !! AllStale(a, t2)
    ensures forall k :: s.StaleIds(k, t2) == s.StaleIds(k, t1) + a.StaleIds(k, t2)
                        && s.StaleIds(k, t1) !! a.StaleIds(k, t2)
  {
  }

  lemma SweepsComposeRecords(t1: int, t2: int, s: Store, a: Store, b: Store, d: Store)
    requires t1 <= t2 && a.reservations == SweptRecords(s, t1)
    requires b.reservations == SweptRecords(a, t2) && d.reservations == SweptRecords(s, t2)
    ensures b.reservations.Keys == d.reservations.Keys
    ensures forall id | id in d.reservations :: SameButExpiredAt(b.reservations[id], d.reservations[id])
  {
  }

  lemma SweepCounter(now: int, s: Store, s': Store, total: int, k: string)
    requires SweepAllMeans(now, s, s', total)
    ensures s'.reservations == SweptRecords(s, now) && total == |AllStale(s, now)|
    ensures k in s'.products <==> k in s.products
    ensures k in s.products ==>
      s'.products[k] == s.products[k].(
        activeReservationCount := s.products[k].activeReservationCount - |s.StaleIds(k, now)|)
  {
    SweepEffect(now, s, s', total);
  }

  lemma SweepsComposeAt(t1: int, t2: int, s: Store, a: Store, n1: int, b: Store, n2: int, d: Store, n: int, k: string)
    requires t1 <= t2
    requires SweepAllMeans(t1, s, a, n1) && SweepAllMeans(t2, a, b, n2) && SweepAllMeans(t2, s, d, n)
    ensures n1 + n2 == n
    ensures k in b.products <==> k in d.products
    ensures k in b.products ==> b.products[k] == d.products[k]
    ensures a.reservations == SweptRecords(s, t1) && b.reservations == SweptRecords(a, t2)
    ensures d.reservations == SweptRecords(s, t2)
  {
    SweepCounter(t1, s, a, n1, k);
    SweepCounter(t2, a, b, n2, k);
    SweepCounter(t2, s, d, n, k);
    StaleSplits(t1, t2, s, a);
    assert |s.StaleIds(k, t2)| == |s.StaleIds(k, t1)| + |a.StaleIds(k, t2)|;
  }

  /** A sweep at `t1` followed by one at a later `t2` does what the one at `t2` does alone,
      in records up to the time of expiry, in counters, and in the summed count. */
  lemma SweepsCompose(t1: int, t2: int, s: Store, a: Store, n1: int, b: Store, n2: int, d: Store, n: int)
    requires t1 <= t2
    requires SweepAllMeans(t1, s, a, n1) && SweepAllMeans(t2, a, b, n2) && SweepAllMeans(t2, s, d, n)
    ensures n1 + n2 == n
    ensures b.products == d.products
    ensures b.reservations.Keys == d.reservations.Keys
    ensures forall id | id in d.reservations :: SameButExpiredAt(b.reservations[id], d.reservations[id])
  {
    forall k
      ensures k in b.products <==> k in d.products
      ensures k in b.products ==> b.products[k] == d.products[k]
    {
      SweepsComposeAt(t1, t2, s, a, n1, b, n2, d, n, k);
    }
    SweepsComposeAt(t1, t2, s, a, n1, b, n2, d, n, "");
    SweepsComposeRecords(t1, t2, s, a, b, d);
  }
}
