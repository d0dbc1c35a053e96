/** The code that runs while a product lock is held, one repository call, clock read or
    id draw at a time. A program counter `Cs` carries the local variables still needed;
    `Step` performs the next call on the store it is given. */
module Section {
  import opened Domain
  import opened Stores

  /** What an operation hands back to its caller. */
  datatype Outcome =
    | Got(reservation: Reservation)
    | Failed(error: DomainError)
    | Swept(count: int)
    | Stock(available: int)

  /** What a caller asks to have done under the lock. */
  datatype Job =
    | ReserveJob(user: string)
    | ConfirmJob(id: string)
    | CancelJob(id: string)
    | SweepJob(ids: seq<string>, now: int)

  /** Where an expiry loop came from. */
  datatype Exit = LazyExit(user: string) | ConfirmExit | SweepExit(total: int)
  {
    function Bump(): Exit {
      if SweepExit? then SweepExit(total + 1) else this
    }
  }

  /** What follows once a reservation has been ended. */
  datatype Then = Resume(queue: seq<string>, exit: Exit) | Return(out: Outcome)

  datatype Cs =
    | ReserveClock(user: string)
    | ReserveSnapshot(user: string, now: int)
    | ExpireLoop(queue: seq<string>, now: int, exit: Exit)
    | EndRecord(e: Ending, id: string, cur: Reservation, now: int, then_: Then)
    | EndCount(e: Ending, id: string, cur: Reservation, now: int, then_: Then)
    | EndDraw(e: Ending, id: string, cur: Reservation, now: int, then_: Then)
    | EndAppend(e: Ending, id: string, cur: Reservation, now: int, evt: string, then_: Then)
    | ReserveCheck(user: string, now: int)
    | RejectDraw(user: string, now: int)
    | RejectAppend(user: string, now: int, evt: string)
    | ReserveDraw(user: string, now: int)
    | ReserveSave(res: Reservation)
    | ReserveCount(res: Reservation)
    | ReservedDraw(res: Reservation)
    | ReservedAppend(res: Reservation, evt: string)
    | ConfirmLoad(id: string)
    | ConfirmClock(id: string, cur: Reservation)
    | CancelLoad(id: string)
    | CancelClock(id: string, cur: Reservation)
    | Finished(out: Outcome)
  {
    predicate ReadsClock() {
      ReserveClock? || ConfirmClock? || CancelClock?
    }

    predicate DrawsEventId() {
      EndDraw? || RejectDraw? || ReservedDraw?
    }

    predicate DrawsId() {
      ReserveDraw? || DrawsEventId()
    }
  }

  function Begin(job: Job): Cs {
    match job
    case ReserveJob(user) => ReserveClock(user)
    case ConfirmJob(id) => ConfirmLoad(id)
    case CancelJob(id) => CancelLoad(id)
    case SweepJob(ids, now) => ExpireLoop(ids, now, SweepExit(0))
  }

  /** What a step takes from outside the store: the clock, a drawn id, and the order in
      which a snapshot of a map comes out. */
  datatype Input = Input(now: int, id: string, order: seq<string>)

  /** `guarded` adds to the sweep's loop a check that the reservation is still Active;
      the code itself has no such check. */
  datatype Params = Params(guarded: bool, holdFor: int)

  function Step(par: Params, p: string, cs: Cs, s: Store, i: Input): (Cs, Store) {
    match cs
    case ReserveClock(user) => (ReserveSnapshot(user, i.now), s)
    case ReserveSnapshot(user, now) => (ExpireLoop(i.order, now, LazyExit(user)), s)
    case ExpireLoop(queue, now, exit) =>
      if queue == [] then (LoopEnd(now, exit), s)
      else
        var cur := s.Lookup(queue[0]);
        if par.guarded && exit.SweepExit? && !cur.IsActive() then
          (ExpireLoop(queue[1..], now, exit), s)
        else
          (EndRecord(ToExpired, queue[0], cur, now, Resume(queue[1..], exit)), s)
    case EndRecord(e, id, cur, now, then_) =>
      var s' := s.EndReservation(id, e, now);
      (EndCount(e, id, cur, now, if e.ToExpired? then then_ else Return(Got(s'.Lookup(id)))), s')
    case EndCount(e, id, cur, now, then_) =>
      (EndDraw(e, id, cur, now, then_), s.ReleaseHold(cur.productId, e))
    case EndDraw(e, id, cur, now, then_) => (EndAppend(e, id, cur, now, i.id, then_), s)
    case EndAppend(e, id, cur, now, evt, then_) =>
      (Continue(then_, now), s.AppendEvent(EndingEvent(e, cur, now, evt)))
    case ReserveCheck(user, now) =>
      (if p !in s.products then Finished(Failed(ProductNotFound))
       else if s.products[p].AvailableStock() <= 0 then RejectDraw(user, now)
       else ReserveDraw(user, now), s)
    case RejectDraw(user, now) => (RejectAppend(user, now, i.id), s)
    case RejectAppend(user, now, evt) =>
      (Finished(Failed(OutOfStock)), s.AppendEvent(RejectedEvent(p, user, now, evt)))
    case ReserveDraw(user, now) => (ReserveSave(NewHold(i.id, p, user, now, par.holdFor)), s)
    case ReserveSave(res) => (ReserveCount(res), s.PutReservation(res.reservationId, res))
    case ReserveCount(res) => (ReservedDraw(res), s.TakeHold(p))
    case ReservedDraw(res) => (ReservedAppend(res, i.id), s)
    case ReservedAppend(res, evt) => (Finished(Got(res)), s.AppendEvent(ReservedEvent(res, evt)))
    case ConfirmLoad(id) => (ConfirmClock(id, s.Lookup(id)), s)
    case ConfirmClock(id, cur) => (DecideConfirm(id, cur, i.now), s)
    case CancelLoad(id) =>
      var cur := s.Lookup(id);
      (if !cur.IsActive() then Finished(Failed(ReservationAlreadyFinalized)) else CancelClock(id, cur), s)
    case CancelClock(id, cur) =>
      (EndRecord(ToCancelled, id, cur, i.now, Return(Got(ZERO_RESERVATION))), s)
    case Finished(_) => (cs, s)
  }

  function LoopEnd(now: int, exit: Exit): Cs {
    match exit
    case LazyExit(user) => ReserveCheck(user, now)
    case ConfirmExit => Finished(Failed(ReservationExpired))
    case SweepExit(total) => Finished(Swept(total))
  }

  function Continue(then_: Then, now: int): Cs {
    match then_
    case Resume(queue, exit) => ExpireLoop(queue, now, exit.Bump())
    case Return(out) => Finished(out)
  }

  function DecideConfirm(id: string, cur: Reservation, now: int): Cs {
    if cur.IsActive() && cur.Lapsed(now) then ExpireLoop([cur.reservationId], now, ConfirmExit)
    else if !cur.IsActive() then
      Finished(Failed(if cur.state == Expired then ReservationExpired else ReservationAlreadyFinalized))
    else EndRecord(ToConfirmed, id, cur, now, Return(Got(ZERO_RESERVATION)))
  }

  /** The inputs a step can be given: a snapshot lists exactly the stale holds, and a
      drawn reservation id is new. */
  predicate Fits(p: string, cs: Cs, s: Store, i: Input) {
    && (cs.ReserveSnapshot? ==> Enumerates(i.order, s.StaleIds(p, cs.now)))
    && (cs.ReserveDraw? ==> i.id !in s.reservations)
  }

  // ----- Running several steps without interruption -----

  function Run(par: Params, p: string, cs: Cs, s: Store, ins: seq<Input>): (Cs, Store)
    decreases |ins|
  {
    if ins == [] then (cs, s)
    else
      var (cs', s') := Step(par, p, cs, s, ins[0]);
      Run(par, p, cs', s', ins[1..])
  }

  predicate AllFit(par: Params, p: string, cs: Cs, s: Store, ins: seq<Input>)
    decreases |ins|
  {
    ins == [] ||
    (Fits(p, cs, s, ins[0]) &&
     var (cs', s') := Step(par, p, cs, s, ins[0]);
     AllFit(par, p, cs', s', ins[1..]))
  }

  lemma {:induction false} RunAppend(par: Params, p: string, cs: Cs, s: Store, ins: seq<Input>, i: Input)
    requires AllFit(par, p, cs, s, ins)
    requires var (cs', s') := Run(par, p, cs, s, ins); Fits(p, cs', s', i)
    ensures AllFit(par, p, cs, s, ins + [i])
    ensures var (cs', s') := Run(par, p, cs, s, ins);
      Run(par, p, cs, s, ins + [i]) == Step(par, p, cs', s', i)
    decreases |ins|
  {
    if ins == [] {
      assert ([i])[1..] == [];
      assert ins + [i] == [i];
    } else {
      var (cs', s') := Step(par, p, cs, s, ins[0]);
      assert (ins + [i])[1..] == ins[1..] + [i];
      RunAppend(par, p, cs', s', ins[1..], i);
    }
  }
}
