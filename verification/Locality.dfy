/** A critical section of product `p` reads and writes only p's slice: running it on the
    whole store is running it on the slice, and every other slice stays as it was. */
module Locality {
  import opened Domain
  import opened Stores
  import opened Accounts
  import opened Section
  import opened SectionInvariant

  /** What a section needs to know of the whole store: its own slice is in order, and the
      id it is about to save is used by no product. */
  ghost predicate Grounded(par: Params, p: string, cs: Cs, s: Store) {
    && WellKeyed(par.holdFor, p, Restrict(s, p))
    && Local(par, p, cs, Restrict(s, p))
    && (cs.ReserveSave? ==> cs.res.reservationId !in s.reservations)
  }

  lemma LookupIsLocal(s: Store, p: string, id: string)
    requires id in Restrict(s, p).reservations
    ensures id in s.reservations && s.Lookup(id) == Restrict(s, p).Lookup(id)
    ensures s.reservations[id].productId == p
  {
  }

  /** `t` is `s` after a step whose effect on p's slice is `v`. */
  ghost predicate OnlySlice(s: Store, t: Store, p: string, v: Store) {
    && Restrict(t, p) == v
    && forall q | q != p :: Restrict(t, q) == Restrict(s, q)
  }

  lemma EndRecordLocal(s: Store, p: string, id: string, e: Ending, now: int)
    requires id in Restrict(s, p).reservations
    ensures OnlySlice(s, s.EndReservation(id, e, now), p, Restrict(s, p).EndReservation(id, e, now))
  {
    LookupIsLocal(s, p, id);
    forall q { PutReservationSlices(s, id, Ended(s.reservations[id], e, now), q); }
  }

  lemma PutLocal(s: Store, p: string, r: Reservation)
    requires r.reservationId !in s.reservations && r.productId == p
    ensures OnlySlice(s, s.PutReservation(r.reservationId, r), p,
                      Restrict(s, p).PutReservation(r.reservationId, r))
  {
    forall q { PutReservationSlices(s, r.reservationId, r, q); }
  }

  lemma ReleaseLocal(s: Store, p: string, e: Ending)
    ensures OnlySlice(s, s.ReleaseHold(p, e), p, Restrict(s, p).ReleaseHold(p, e))
  {
    if p in s.products {
      forall q { PutProductSlices(s, p, Released(s.products[p], e), q); }
    }
  }

  lemma TakeLocal(s: Store, p: string)
    ensures OnlySlice(s, s.TakeHold(p), p, Restrict(s, p).TakeHold(p))
  {
    if p in s.products {
      forall q { PutProductSlices(s, p, Held(s.products[p]), q); }
    }
  }

  lemma AppendLocal(s: Store, p: string, e: InventoryEvent)
    requires e.productId == p
    ensures OnlySlice(s, s.AppendEvent(e), p, Restrict(s, p).AppendEvent(e))
  {
    forall q { AppendEventSlices(s, e, q); }
  }

  lemma StaleIsLocal(s: Store, p: string, now: int)
    ensures s.StaleIds(p, now) == Restrict(s, p).StaleIds(p, now)
  {
  }

  lemma FitsIsLocal(p: string, cs: Cs, s: Store, i: Input)
    requires Fits(p, cs, s, i)
    ensures Fits(p, cs, Restrict(s, p), i)
  {
    if cs.ReserveSnapshot? {
      StaleIsLocal(s, p, cs.now);
    }
  }

  lemma LookupStep(par: Params, p: string, cs: Cs, s: Store, i: Input)
    requires cs.ExpireLoop? || cs.EndRecord? || cs.ConfirmLoad? || cs.CancelLoad?
    requires Local(par, p, cs, Restrict(s, p))
    ensures var (cs', s') := Step(par, p, cs, s, i);
      && Step(par, p, cs, Restrict(s, p), i) == (cs', Restrict(s', p))
      && forall q | q != p :: Restrict(s', q) == Restrict(s, q)
  {
    match cs
    case ExpireLoop(queue, _, _) => if queue != [] { LookupIsLocal(s, p, queue[0]); }
    case EndRecord(e, id, _, now, _) =>
      EndRecordLocal(s, p, id, e, now);
      LookupIsLocal(s, p, id);
    case ConfirmLoad(id) => LookupIsLocal(s, p, id);
    case CancelLoad(id) => LookupIsLocal(s, p, id);
  }

  lemma AppendStep(par: Params, p: string, cs: Cs, s: Store, i: Input)
    requires cs.EndAppend? || cs.RejectAppend? || cs.ReservedAppend?
    requires Local(par, p, cs, Restrict(s, p))
    ensures var (cs', s') := Step(par, p, cs, s, i);
      && Step(par, p, cs, Restrict(s, p), i) == (cs', Restrict(s', p))
      && forall q | q != p :: Restrict(s', q) == Restrict(s, q)
  {
    match cs
    case EndAppend(e, _, cur, now, evt, _) => AppendLocal(s, p, EndingEvent(e, cur, now, evt));
    case RejectAppend(user, now, evt) => AppendLocal(s, p, RejectedEvent(p, user, now, evt));
    case ReservedAppend(res, evt) => AppendLocal(s, p, ReservedEvent(res, evt));
  }

  lemma CountStep(par: Params, p: string, cs: Cs, s: Store, i: Input)
    requires cs.EndCount? || cs.ReserveCount? || cs.ReserveSave?
    requires Local(par, p, cs, Restrict(s, p))
    requires cs.ReserveSave? ==> cs.res.reservationId !in s.reservations
    ensures var (cs', s') := Step(par, p, cs, s, i);
      && Step(par, p, cs, Restrict(s, p), i) == (cs', Restrict(s', p))
      && forall q | q != p :: Restrict(s', q) == Restrict(s, q)
  {
    match cs
    case EndCount(e, _, _, _, _) => ReleaseLocal(s, p, e);
    case ReserveCount(_) => TakeLocal(s, p);
    case ReserveSave(res) => PutLocal(s, p, res);
  }

  /** One step on the whole store is the same step on the slice of `p`, and no other slice
      changes. */
  lemma StepLocal(par: Params, p: string, cs: Cs, s: Store, i: Input)
    requires Grounded(par, p, cs, s)
    ensures var (cs', s') := Step(par, p, cs, s, i);
      && Step(par, p, cs, Restrict(s, p), i) == (cs', Restrict(s', p))
      && forall q | q != p :: Restrict(s', q) == Restrict(s, q)
  {
    if cs.ExpireLoop? || cs.EndRecord? || cs.ConfirmLoad? || cs.CancelLoad? {
      LookupStep(par, p, cs, s, i);
    } else if cs.EndAppend? || cs.RejectAppend? || cs.ReservedAppend? {
      AppendStep(par, p, cs, s, i);
    } else if cs.EndCount? || cs.ReserveCount? || cs.ReserveSave? {
      CountStep(par, p, cs, s, i);
    }
  }

  lemma EvolvesRefl(s: Store)
    ensures Evolves(s, s)
  {
  }

  lemma EvolvesTrans(s: Store, t: Store, u: Store)
    requires Evolves(s, t) && Evolves(t, u)
    ensures Evolves(s, u)
  {
  }

  lemma EndRecordEvolves(s: Store, id: string, e: Ending, now: int)
    requires id in s.reservations && (s.reservations[id].IsActive() || e.ToExpired?)
    ensures Evolves(s, s.EndReservation(id, e, now))
  {
  }

  lemma ProductEvolves(s: Store, p: string, x: ProductInventory)
    requires p in s.products && x.totalStock == s.products[p].totalStock
    ensures Evolves(s, s.PutProduct(p, x))
  {
  }

  lemma SaveEvolves(s: Store, id: string, r: Reservation)
    requires id !in s.reservations
    ensures Evolves(s, s.PutReservation(id, r))
  {
  }

  lemma AppendEvolves(s: Store, e: InventoryEvent)
    ensures Evolves(s, s.AppendEvent(e))
  {
  }

  /** Every step ends one reservation, or adds. */
  lemma StepEvolvesGlobally(par: Params, p: string, cs: Cs, s: Store, i: Input)
    requires Grounded(par, p, cs, s)
    ensures Evolves(s, Step(par, p, cs, s, i).1)
  {
    EvolvesRefl(s);
    if cs.EndCount? || cs.ReserveCount? || cs.EndAppend? || cs.RejectAppend? || cs.ReservedAppend? {
      CountersAndLogEvolve(par, p, cs, s, i);
    } else if cs.EndRecord? {
      LookupIsLocal(s, p, cs.id);
      EndRecordEvolves(s, cs.id, cs.e, cs.now);
    } else if cs.ReserveSave? {
      SaveEvolves(s, cs.res.reservationId, cs.res);
    } else {
      assert Step(par, p, cs, s, i).1 == s;
    }
  }

  lemma CountersAndLogEvolve(par: Params, p: string, cs: Cs, s: Store, i: Input)
    requires cs.EndCount? || cs.ReserveCount? || cs.EndAppend? || cs.RejectAppend? || cs.ReservedAppend?
    ensures Evolves(s, Step(par, p, cs, s, i).1)
  {
    match cs
    case EndCount(e, _, cur, _, _) =>
      EvolvesRefl(s);
      if cur.productId in s.products { ProductEvolves(s, cur.productId, Released(s.products[cur.productId], e)); }
    case EndAppend(e, _, cur, now, evt, _) => AppendEvolves(s, EndingEvent(e, cur, now, evt));
    case RejectAppend(user, now, evt) => AppendEvolves(s, RejectedEvent(p, user, now, evt));
    case ReserveCount(_) =>
      EvolvesRefl(s);
      if p in s.products { ProductEvolves(s, p, Held(s.products[p])); }
    case ReservedAppend(res, evt) => AppendEvolves(s, ReservedEvent(res, evt));
  }

  /** A step ends Active reservations only, if the record it loaded is Active. */
  lemma StepFinal(par: Params, p: string, cs: Cs, s: Store, i: Input)
    requires Grounded(par, p, cs, s) && Promise(cs)
    ensures Final(s, Step(par, p, cs, s, i).1)
  {
    if cs.EndRecord? {
      LookupIsLocal(s, p, cs.id);
    } else if !cs.ReserveSave? {
      OnlyEndsAndSaves(par, p, cs, s, i);
    }
  }

  lemma OnlyEndsAndSaves(par: Params, p: string, cs: Cs, s: Store, i: Input)
    requires !cs.EndRecord? && !cs.ReserveSave?
    ensures Step(par, p, cs, s, i).1.reservations == s.reservations
  {
  }
}
