/** The invariant of a product slice at every point inside the product's critical
    section: what holds at rest, of the slice with the pending calls of the current
    transition already carried out, plus what the local variables guarantee. `Under` holds
    of every sweep; `exact` adds what holds as long as no reservation is ended twice. */
module SectionInvariant {
  import opened Domain
  import opened Stores
  import opened Accounts
  import opened Section

  /** The slice once the transition under way has made its remaining calls. */
  function Settled(p: string, cs: Cs, v: Store): Store {
    match cs
    case EndCount(e, _, cur, now, _) => v.ReleaseHold(p, e).AppendEvent(EndingEvent(e, cur, now, ""))
    case EndDraw(e, _, cur, now, _) => v.AppendEvent(EndingEvent(e, cur, now, ""))
    case EndAppend(e, _, cur, now, evt, _) => v.AppendEvent(EndingEvent(e, cur, now, evt))
    case ReserveCount(res) => v.TakeHold(p).AppendEvent(ReservedEvent(res, ""))
    case ReservedDraw(res) => v.AppendEvent(ReservedEvent(res, ""))
    case ReservedAppend(res, evt) => v.AppendEvent(ReservedEvent(res, evt))
    case _ => v
  }

  /** How far the active counter is ahead of the number of Active reservations. */
  function ActiveOffset(cs: Cs): int {
    if cs.EndCount? then 1 else if cs.ReserveCount? then -1 else 0
  }

  /** How far the confirmed counter is ahead of the number of Confirmed reservations. */
  function ConfirmedOffset(cs: Cs): int {
    if cs.EndCount? && cs.e.ToConfirmed? then -1 else 0
  }

  /** The ids an expiry loop may still be given: present, lapsed, listed once, and Active if
      they were collected under the lock. */
  predicate QueueOk(v: Store, queue: seq<string>, now: int, exit: Exit) {
    && Distinct(queue)
    && forall id | id in queue ::
         && id in v.reservations
         && v.reservations[id].Lapsed(now)
         && (!exit.SweepExit? ==> v.reservations[id].IsActive())
  }

  predicate ThenOk(v: Store, e: Ending, id: string, now: int, then_: Then) {
    if e.ToExpired? then then_.Resume? && id !in then_.queue && QueueOk(v, then_.queue, now, then_.exit)
    else then_.Return?
  }

  predicate FromSweep(then_: Then) {
    then_.Resume? && then_.exit.SweepExit?
  }

  /** The record about to be ended is in time, and Active unless it comes from a sweep that
      has not looked again. */
  predicate Loaded(par: Params, cur: Reservation, e: Ending, now: int, then_: Then) {
    InTime(cur, e, now) && (par.guarded || !FromSweep(then_) ==> cur.IsActive())
  }

  predicate InStock(p: string, v: Store) {
    p in v.products && v.products[p].AvailableStock() > 0
  }

  /** The record has been written and the rest of the transition is still to come. */
  predicate EndingUnderWay(p: string, v: Store, e: Ending, id: string, cur: Reservation, now: int, then_: Then) {
    && id in v.reservations && p in v.products
    && cur.productId == p && cur.reservationId == id
    && InTime(cur, e, now) && v.reservations[id] == Ended(cur, e, now)
    && ThenOk(v, e, id, now, then_)
    && (!e.ToExpired? ==> then_ == Return(Got(v.reservations[id])))
  }

  predicate FreshHold(holdFor: int, p: string, r: Reservation) {
    r.productId == p && r.IsActive() && RowOk(holdFor, r)
  }

  /** What the local variables of the critical section guarantee. */
  predicate Local(par: Params, p: string, cs: Cs, v: Store) {
    match cs
    case ExpireLoop(queue, now, exit) => QueueOk(v, queue, now, exit)
    case EndRecord(e, id, cur, now, then_) =>
      && id in v.reservations && cur == v.reservations[id]
      && Loaded(par, cur, e, now, then_) && ThenOk(v, e, id, now, then_)
    case EndCount(e, id, cur, now, then_) => EndingUnderWay(p, v, e, id, cur, now, then_)
    case EndDraw(e, id, cur, now, then_) => EndingUnderWay(p, v, e, id, cur, now, then_)
    case EndAppend(e, id, cur, now, _, then_) => EndingUnderWay(p, v, e, id, cur, now, then_)
    case RejectDraw(_, _) => p in v.products && v.products[p].AvailableStock() <= 0
    case RejectAppend(_, _, _) => p in v.products && v.products[p].AvailableStock() <= 0
    case ReserveDraw(_, _) => InStock(p, v)
    case ReserveSave(res) =>
      InStock(p, v) && FreshHold(par.holdFor, p, res) && res.reservationId !in v.reservations
    case ReserveCount(res) =>
      && InStock(p, v) && FreshHold(par.holdFor, p, res)
      && res.reservationId in v.reservations && v.reservations[res.reservationId] == res
    case ReservedDraw(res) => FreshHold(par.holdFor, p, res)
    case ReservedAppend(res, _) => FreshHold(par.holdFor, p, res)
    case ConfirmLoad(id) => id in v.reservations
    case ConfirmClock(id, cur) => id in v.reservations && cur == v.reservations[id]
    case CancelLoad(id) => id in v.reservations
    case CancelClock(id, cur) => id in v.reservations && cur == v.reservations[id] && cur.IsActive()
    case Finished(out) => !out.Stock?
    case _ => true
  }

  ghost predicate Under(par: Params, p: string, cs: Cs, v: Store) {
    && Kept(par.holdFor, p, Settled(p, cs, v))
    && WellKeyed(par.holdFor, p, v) && Solvent(p, v)
    && Local(par, p, cs, v)
  }

  ghost predicate ExactUnder(p: string, cs: Cs, v: Store) {
    Exact(p, Settled(p, cs, v)) && Bounded(p, v)
  }

  ghost predicate Mid(par: Params, exact: bool, p: string, cs: Cs, v: Store) {
    Under(par, p, cs, v) && (exact ==> ExactUnder(p, cs, v))
  }

  ghost predicate Rest(holdFor: int, exact: bool, p: string, v: Store) {
    Kept(holdFor, p, v) && (exact ==> Exact(p, v))
  }

  /** What the comment on `expireReservationLocked` asks of its callers, and the two other
      places that end a reservation see to themselves: the record loaded under the lock is
      Active. */
  predicate Promise(cs: Cs) {
    cs.EndRecord? ==> cs.cur.IsActive()
  }

  /** Everybody but a sweep that does not look again keeps it. */
  lemma PromiseKept(par: Params, p: string, cs: Cs, v: Store)
    requires Local(par, p, cs, v)
    requires par.guarded || !(cs.EndRecord? && FromSweep(cs.then_))
    ensures Promise(cs)
  {
  }

  /** The job can be started on slice `v`. */
  predicate JobOk(v: Store, job: Job) {
    match job
    case ReserveJob(_) => true
    case ConfirmJob(id) => id in v.reservations
    case CancelJob(id) => id in v.reservations
    case SweepJob(ids, now) => QueueOk(v, ids, now, SweepExit(0))
  }

  lemma BeginIsMid(par: Params, exact: bool, p: string, job: Job, v: Store)
    requires Rest(par.holdFor, exact, p, v) && JobOk(v, job)
    ensures Mid(par, exact, p, Begin(job), v)
  {
  }

  lemma FinishIsRest(par: Params, exact: bool, p: string, out: Outcome, v: Store)
    requires Mid(par, exact, p, Finished(out), v)
    ensures Rest(par.holdFor, exact, p, v)
  {
  }

  // ----- Steps that leave the slice as it is -----

  lemma TailOk(v: Store, queue: seq<string>, now: int, exit: Exit)
    requires queue != [] && QueueOk(v, queue, now, exit)
    ensures queue[0] !in queue[1..] && QueueOk(v, queue[1..], now, exit)
  {
    assert forall x | x in queue[1..] :: x in queue;
  }

  lemma LoopLocal(par: Params, p: string, cs: Cs, v: Store, i: Input)
    requires cs.ExpireLoop? && Local(par, p, cs, v)
    ensures var (cs', v') := Step(par, p, cs, v, i); v' == v && Settled(p, cs', v) == v && Local(par, p, cs', v)
  {
    if cs.queue != [] {
      TailOk(v, cs.queue, cs.now, cs.exit);
    }
  }

  lemma ReserveLocal(par: Params, p: string, cs: Cs, v: Store, i: Input)
    requires cs.ReserveClock? || cs.ReserveSnapshot? || cs.ReserveCheck? || cs.RejectDraw? || cs.ReserveDraw?
    requires Local(par, p, cs, v) && Fits(p, cs, v, i)
    ensures var (cs', v') := Step(par, p, cs, v, i); v' == v && Settled(p, cs', v) == v && Local(par, p, cs', v)
  {
  }

  lemma ConfirmLocal(par: Params, p: string, cs: Cs, v: Store, i: Input)
    requires cs.ConfirmLoad? || cs.ConfirmClock?
    requires Local(par, p, cs, v) && WellKeyed(par.holdFor, p, v)
    ensures var (cs', v') := Step(par, p, cs, v, i); v' == v && Settled(p, cs', v) == v && Local(par, p, cs', v)
  {
  }

  lemma CancelLocal(par: Params, p: string, cs: Cs, v: Store, i: Input)
    requires cs.CancelLoad? || cs.CancelClock? || cs.Finished?
    requires Local(par, p, cs, v) && WellKeyed(par.holdFor, p, v)
    ensures var (cs', v') := Step(par, p, cs, v, i); v' == v && Settled(p, cs', v) == v && Local(par, p, cs', v)
  {
  }

  predicate Looks(cs: Cs) {
    || cs.ExpireLoop? || cs.ReserveClock? || cs.ReserveSnapshot? || cs.ReserveCheck? || cs.RejectDraw?
    || cs.ReserveDraw? || cs.ConfirmLoad? || cs.ConfirmClock? || cs.CancelLoad? || cs.CancelClock? || cs.Finished?
  }

  lemma LookLocal(par: Params, p: string, cs: Cs, v: Store, i: Input)
    requires Looks(cs) && Local(par, p, cs, v) && WellKeyed(par.holdFor, p, v) && Fits(p, cs, v, i)
    ensures var (cs', v') := Step(par, p, cs, v, i); v' == v && Settled(p, cs', v) == v && Local(par, p, cs', v)
  {
    if cs.ExpireLoop? {
      LoopLocal(par, p, cs, v, i);
    } else if cs.ConfirmLoad? || cs.ConfirmClock? {
      ConfirmLocal(par, p, cs, v, i);
    } else if cs.CancelLoad? || cs.CancelClock? || cs.Finished? {
      CancelLocal(par, p, cs, v, i);
    } else {
      ReserveLocal(par, p, cs, v, i);
    }
  }

  lemma LookStep(par: Params, exact: bool, p: string, cs: Cs, v: Store, i: Input)
    requires Looks(cs) && Mid(par, exact, p, cs, v) && Fits(p, cs, v, i)
    ensures var (cs', v') := Step(par, p, cs, v, i); Mid(par, exact, p, cs', v')
  {
    assert Settled(p, cs, v) == v;
    LookLocal(par, p, cs, v, i);
  }

  // ----- Steps that start a transition -----

  lemma QueueSurvivesEnd(v: Store, queue: seq<string>, now: int, exit: Exit, id: string, e: Ending, t: int)
    requires id in v.reservations && id !in queue && QueueOk(v, queue, now, exit)
    ensures QueueOk(v.EndReservation(id, e, t), queue, now, exit)
  {
  }

  lemma EndRecordSettles(par: Params, p: string, cs: Cs, v: Store, i: Input)
    requires cs.EndRecord? && WellKeyed(par.holdFor, p, v) && Local(par, p, cs, v)
    ensures var (cs', v') := Step(par, p, cs, v, i);
      Settled(p, cs', v') == v.End(cs.id, cs.e, cs.now, "") && v' == v.EndReservation(cs.id, cs.e, cs.now)
  {
  }

  lemma EndRecordKeepsLocal(par: Params, p: string, cs: Cs, v: Store, i: Input)
    requires cs.EndRecord? && WellKeyed(par.holdFor, p, v) && Local(par, p, cs, v)
    ensures var (cs', v') := Step(par, p, cs, v, i); Local(par, p, cs', v') && WellKeyed(par.holdFor, p, v')
  {
    if cs.e.ToExpired? {
      QueueSurvivesEnd(v, cs.then_.queue, cs.now, cs.then_.exit, cs.id, cs.e, cs.now);
    }
  }

  lemma EndRecordStep(par: Params, exact: bool, p: string, cs: Cs, v: Store, i: Input)
    requires cs.EndRecord? && Mid(par, exact, p, cs, v) && (exact ==> Promise(cs))
    ensures var (cs', v') := Step(par, p, cs, v, i); Mid(par, exact, p, cs', v')
  {
    assert Settled(p, cs, v) == v;
    EndRecordSettles(par, p, cs, v, i);
    EndRecordKeepsLocal(par, p, cs, v, i);
    EndKeepsKept(par.holdFor, p, v, cs.id, cs.e, cs.now, "");
    if exact { EndKeepsExact(par.holdFor, p, v, cs.id, cs.e, cs.now, ""); }
  }

  lemma SavedIsKeyed(holdFor: int, p: string, v: Store, r: Reservation)
    requires WellKeyed(holdFor, p, v) && FreshHold(holdFor, p, r) && p in v.products
    ensures WellKeyed(holdFor, p, v.PutReservation(r.reservationId, r))
  {
  }

  lemma ReserveSaveStep(par: Params, exact: bool, p: string, cs: Cs, v: Store, i: Input)
    requires cs.ReserveSave? && Mid(par, exact, p, cs, v)
    ensures var (cs', v') := Step(par, p, cs, v, i); Mid(par, exact, p, cs', v')
  {
    var v' := v.PutReservation(cs.res.reservationId, cs.res);
    assert Settled(p, cs, v) == v;
    assert Settled(p, ReserveCount(cs.res), v') == v.AddHold(cs.res, "");
    AddHoldKeepsKept(par.holdFor, p, v, cs.res, "");
    SavedIsKeyed(par.holdFor, p, v, cs.res);
    if exact { AddHoldKeepsExact(par.holdFor, p, v, cs.res, ""); }
  }

  lemma RejectStep(par: Params, exact: bool, p: string, cs: Cs, v: Store, i: Input)
    requires cs.RejectAppend? && Mid(par, exact, p, cs, v)
    ensures var (cs', v') := Step(par, p, cs, v, i); Mid(par, exact, p, cs', v')
  {
    assert Settled(p, cs, v) == v;
    RejectKeepsKept(par.holdFor, p, v, cs.user, cs.now, cs.evt);
    if exact { RejectKeepsQuiet(par.holdFor, p, v, cs.user, cs.now, cs.evt); }
  }

  // ----- Steps that carry a transition on -----

  lemma CountLocal(par: Params, p: string, cs: Cs, v: Store, i: Input)
    requires cs.EndCount? || cs.ReserveCount?
    requires Local(par, p, cs, v) && WellKeyed(par.holdFor, p, v)
    ensures var (cs', v') := Step(par, p, cs, v, i);
      && Settled(p, cs', v') == Settled(p, cs, v) && v'.products == Settled(p, cs, v).products
      && WellKeyed(par.holdFor, p, v') && Local(par, p, cs', v')
  {
  }

  lemma CountStep(par: Params, exact: bool, p: string, cs: Cs, v: Store, i: Input)
    requires cs.EndCount? || cs.ReserveCount?
    requires Mid(par, exact, p, cs, v)
    ensures var (cs', v') := Step(par, p, cs, v, i); Mid(par, exact, p, cs', v')
  {
    CountLocal(par, p, cs, v, i);
  }

  lemma DrawStep(par: Params, exact: bool, p: string, cs: Cs, v: Store, i: Input)
    requires cs.EndDraw? || cs.ReservedDraw?
    requires Mid(par, exact, p, cs, v)
    ensures var (cs', v') := Step(par, p, cs, v, i); Mid(par, exact, p, cs', v')
  {
    var e := if cs.EndDraw? then EndingEvent(cs.e, cs.cur, cs.now, "") else ReservedEvent(cs.res, "");
    var cs' := Step(par, p, cs, v, i).0;
    assert Settled(p, cs, v) == v.AppendEvent(e) && Settled(p, cs', v) == v.AppendEvent(e.(eventId := i.id));
    RenameInBooks(par.holdFor, p, v, e, i.id);
    if exact { RenameInExact(p, v, e, i.id); }
  }

  lemma AppendKeepsLocal(par: Params, p: string, cs: Cs, v: Store, i: Input)
    requires cs.EndAppend? || cs.ReservedAppend?
    requires Local(par, p, cs, v) && WellKeyed(par.holdFor, p, v)
    ensures var (cs', v') := Step(par, p, cs, v, i);
      && v' == Settled(p, cs, v) && Settled(p, cs', v') == v'
      && WellKeyed(par.holdFor, p, v') && Local(par, p, cs', v')
  {
  }

  lemma AppendStep(par: Params, exact: bool, p: string, cs: Cs, v: Store, i: Input)
    requires cs.EndAppend? || cs.ReservedAppend?
    requires Mid(par, exact, p, cs, v)
    ensures var (cs', v') := Step(par, p, cs, v, i); Mid(par, exact, p, cs', v')
  {
    AppendKeepsLocal(par, p, cs, v, i);
  }

  /** Every call a critical section makes keeps the invariant of its slice, and the exact one
      if a record about to be ended is still Active. */
  lemma MidStep(par: Params, exact: bool, p: string, cs: Cs, v: Store, i: Input)
    requires Mid(par, exact, p, cs, v) && Fits(p, cs, v, i) && (exact ==> Promise(cs))
    ensures var (cs', v') := Step(par, p, cs, v, i); Mid(par, exact, p, cs', v')
  {
    if Looks(cs) {
      LookStep(par, exact, p, cs, v, i);
    } else if cs.EndRecord? {
      EndRecordStep(par, exact, p, cs, v, i);
    } else if cs.ReserveSave? {
      ReserveSaveStep(par, exact, p, cs, v, i);
    } else if cs.RejectAppend? {
      RejectStep(par, exact, p, cs, v, i);
    } else if cs.EndCount? || cs.ReserveCount? {
      CountStep(par, exact, p, cs, v, i);
    } else if cs.EndDraw? || cs.ReservedDraw? {
      DrawStep(par, exact, p, cs, v, i);
    } else {
      AppendStep(par, exact, p, cs, v, i);
    }
  }

  // ----- Steps and whole transitions -----

  /** The same but for the id of the last event. */
  ghost predicate Renamed(v: Store, w: Store) {
    v == w || exists u: Store, e: InventoryEvent, evt: string ::
      v == u.AppendEvent(e) && w == u.AppendEvent(e.(eventId := evt))
  }

  /** The whole transition that begins with the call at `cs`, or the change of an event id that
      any other call amounts to. */
  ghost predicate Transition(p: string, cs: Cs, v: Store, v': Store) {
    match cs
    case EndRecord(e, id, _, now, _) => v' == v.End(id, e, now, "")
    case ReserveSave(res) => v' == v.AddHold(res, "")
    case RejectAppend(user, now, evt) => v' == v.AppendEvent(RejectedEvent(p, user, now, evt))
    case _ => Renamed(v, v')
  }

  lemma DrawRenames(par: Params, p: string, cs: Cs, v: Store, i: Input)
    requires cs.EndDraw? || cs.ReservedDraw?
    ensures var (cs', v') := Step(par, p, cs, v, i); Renamed(Settled(p, cs, v), Settled(p, cs', v'))
  {
    var e := if cs.EndDraw? then EndingEvent(cs.e, cs.cur, cs.now, "") else ReservedEvent(cs.res, "");
    assert Settled(p, cs, v) == v.AppendEvent(e);
    assert Settled(p, Step(par, p, cs, v, i).0, v) == v.AppendEvent(e.(eventId := i.id));
  }

  /** Seen through `Settled`, a section makes whole transitions: the first call of each is the
      whole of it, and the others change nothing but the id of the event it logs. */
  lemma SettledMoves(par: Params, p: string, cs: Cs, v: Store, i: Input)
    requires Under(par, p, cs, v) && Fits(p, cs, v, i)
    ensures var (cs', v') := Step(par, p, cs, v, i); Transition(p, cs, Settled(p, cs, v), Settled(p, cs', v'))
    ensures cs.EndRecord? || cs.ReserveSave? || cs.RejectAppend? ==> Settled(p, cs, v) == v
  {
    if Looks(cs) {
      LookLocal(par, p, cs, v, i);
    } else if cs.EndRecord? {
      EndRecordSettles(par, p, cs, v, i);
    } else if cs.EndCount? || cs.ReserveCount? {
      CountLocal(par, p, cs, v, i);
    } else if cs.EndDraw? || cs.ReservedDraw? {
      DrawRenames(par, p, cs, v, i);
    } else if cs.EndAppend? || cs.ReservedAppend? {
      AppendKeepsLocal(par, p, cs, v, i);
    }
  }

  // ----- What the invariant says of the raw slice -----

  lemma SettledCounters(p: string, cs: Cs, v: Store)
    requires p in v.products
    ensures var w := Settled(p, cs, v);
      && w.reservations == v.reservations && p in w.products
      && w.products[p].activeReservationCount == v.products[p].activeReservationCount - ActiveOffset(cs)
      && w.products[p].confirmedCount == v.products[p].confirmedCount - ConfirmedOffset(cs)
  {
  }

  /** Mid-section, the counters differ from the cardinalities by exactly the offset the
      program counter fixes, and no reader ever sees a negative number. */
  lemma MidOffsets(par: Params, p: string, cs: Cs, v: Store)
    requires Mid(par, true, p, cs, v) && p in v.products
    ensures v.products[p].activeReservationCount == |v.InState(Active)| + ActiveOffset(cs)
    ensures v.products[p].confirmedCount == |v.InState(Confirmed)| + ConfirmedOffset(cs)
    ensures 0 <= v.products[p].AvailableStock()
  {
    SettledCounters(p, cs, v);
    SameStates(v, Settled(p, cs, v));
  }

  /** What identifies a record stays; if it has ended, all but a second expiry does. */
  predicate Continues(r: Reservation, r': Reservation) {
    && r'.reservationId == r.reservationId && r'.productId == r.productId && r'.userId == r.userId
    && r'.createdAt == r.createdAt && r'.expiresAt == r.expiresAt
    && (r.IsActive() || r' == r
        || (r'.state == Expired && r'.confirmedAt == r.confirmedAt && r'.cancelledAt == r.cancelledAt))
  }

  /** Records are never deleted and keep what identifies them; all that can happen to a
      record that has ended is that it is expired once more, all else in it as it was. */
  predicate Evolves(s: Store, t: Store) {
    && s.products.Keys == t.products.Keys
    && (forall k | k in s.products :: t.products[k].totalStock == s.products[k].totalStock)
    && (forall id | id in s.reservations ::
          && id in t.reservations
          && Continues(s.reservations[id], t.reservations[id]))
    && s.events <= t.events
  }

  /** Ended reservations are never touched again. */
  predicate Final(s: Store, t: Store) {
    forall id | id in s.reservations && !s.reservations[id].IsActive() ::
      id in t.reservations && t.reservations[id] == s.reservations[id]
  }
}
