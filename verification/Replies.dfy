/** What callers get back, in every schedule: an answer to the very call they made, with its
    product, user and reservation, times between call and return, and on record. */
module Replies {
  import opened Domain
  import opened Ids
  import opened Stores
  import opened Accounts
  import opened Section
  import opened SectionInvariant
  import opened Locality
  import opened Interleaving
  import opened Safety
  import opened Refinement
  import opened Guarantees

  /** A call: what was asked, and the repository and the clock as they were then. */
  datatype Call = Call(op: Op, at: Store, from: int)

  /** `r` is in `s`, perhaps further on. */
  predicate OnRecord(s: Store, r: Reservation) {
    r.reservationId in s.reservations && Continues(r, s.reservations[r.reservationId])
  }

  predicate EndedThere(s: Store, id: string) {
    id in s.reservations && s.reservations[id].state != Active
  }

  predicate ExpiredThere(s: Store, id: string) {
    id in s.reservations && s.reservations[id].state == Expired
  }

  /** A new hold for this user, made at some time between `from` and `to`. */
  predicate HoldOf(holdFor: int, p: string, user: string, r: Reservation, from: int, to: int) {
    && r.productId == p && r.userId == user && r.state == Active
    && from <= r.createdAt <= to && r.expiresAt == r.createdAt + holdFor
    && r.confirmedAt == None && r.cancelledAt == None && r.expiredAt == None
  }

  /** The sale of `id`, made in time between `from` and `to`. */
  predicate SaleOf(id: string, r: Reservation, from: int, to: int) {
    && r.reservationId == id && r.state == Confirmed
    && r.confirmedAt.Some? && from <= r.confirmedAt.value <= to && r.confirmedAt.value < r.expiresAt
    && r.cancelledAt == None && r.expiredAt == None
  }

  /** The cancellation of `id`, made between `from` and `to`. */
  predicate CancellationOf(id: string, r: Reservation, from: int, to: int) {
    && r.reservationId == id && r.state == Cancelled
    && r.cancelledAt.Some? && from <= r.cancelledAt.value <= to
    && r.confirmedAt == None && r.expiredAt == None
  }

  /** `out` answers `call`; `s` and `to` are the repository and the clock when it is given, or
      later. */
  predicate Answers(holdFor: int, call: Call, out: Outcome, s: Store, to: int) {
    match call.op
    case ReserveOp(p, user) =>
      if out.Got? then
        p in s.products && HoldOf(holdFor, p, user, out.reservation, call.from, to) && OnRecord(s, out.reservation)
      else out == Failed(if p in s.products then OutOfStock else ProductNotFound)
    case ConfirmOp(id) =>
      if out.Got? then SaleOf(id, out.reservation, call.from, to) && OnRecord(s, out.reservation)
      else
        || (out == Failed(ReservationNotFound) && id !in call.at.reservations)
        || (out == Failed(ReservationExpired) && ExpiredThere(s, id))
        || (out == Failed(ReservationAlreadyFinalized) && EndedThere(s, id))
    case CancelOp(id) =>
      if out.Got? then CancellationOf(id, out.reservation, call.from, to) && OnRecord(s, out.reservation)
      else
        || (out == Failed(ReservationNotFound) && id !in call.at.reservations)
        || (out == Failed(ReservationAlreadyFinalized) && EndedThere(s, id))
    case SweepOp(_) => out.Swept?
    case StockOp(p) => if p in s.products then out.Stock? else out == Failed(ProductNotFound)
  }

  // ----- On the way there -----

  /** The section is the one the call asks for. */
  predicate JobFits(op: Op, p: string, job: Job, ret: Ret) {
    if ret.Reply? then !job.SweepJob? && op == OpOf(p, job) else op.SweepOp?
  }

  predicate Timely(call: Call, now: int, clock: int) {
    call.from <= now <= clock
  }

  /** ReserveItem's section on behalf of `user`. */
  predicate ReserveFits(holdFor: int, call: Call, p: string, user: string, cs: Cs, s: Store, clock: int) {
    match cs
    case ReserveClock(u) => u == user
    case ReserveSnapshot(u, now) => u == user && Timely(call, now, clock)
    case ExpireLoop(_, now, exit) => exit == LazyExit(user) && Timely(call, now, clock)
    case EndRecord(e, _, _, now, then_) => e.ToExpired? && ForUser(then_, user) && Timely(call, now, clock)
    case EndCount(e, _, _, now, then_) => e.ToExpired? && ForUser(then_, user) && Timely(call, now, clock)
    case EndDraw(e, _, _, now, then_) => e.ToExpired? && ForUser(then_, user) && Timely(call, now, clock)
    case EndAppend(e, _, _, now, _, then_) => e.ToExpired? && ForUser(then_, user) && Timely(call, now, clock)
    case ReserveCheck(u, now) => u == user && Timely(call, now, clock)
    case RejectDraw(_, _) => p in s.products
    case RejectAppend(_, _, _) => p in s.products
    case ReserveDraw(u, now) => u == user && Timely(call, now, clock) && p in s.products
    case ReserveSave(res) => p in s.products && HoldOf(holdFor, p, user, res, call.from, clock)
    case ReserveCount(res) => p in s.products && HoldOf(holdFor, p, user, res, call.from, clock) && OnRecord(s, res)
    case ReservedDraw(res) => p in s.products && HoldOf(holdFor, p, user, res, call.from, clock) && OnRecord(s, res)
    case ReservedAppend(res, _) =>
      p in s.products && HoldOf(holdFor, p, user, res, call.from, clock) && OnRecord(s, res)
    case _ => false
  }

  predicate ForUser(then_: Then, user: string) {
    then_.Resume? && then_.exit == LazyExit(user)
  }

  /** A transition of `id` that ends ConfirmReservation's section, in success or in expiry. */
  predicate ConfirmEnds(call: Call, id: string, e: Ending, k: string, now: int, then_: Then, clock: int) {
    && k == id && Timely(call, now, clock) && !e.ToCancelled?
    && (e.ToExpired? ==> then_ == Resume([], ConfirmExit))
  }

  predicate ConfirmFits(call: Call, id: string, cs: Cs, s: Store, clock: int) {
    match cs
    case ConfirmLoad(k) => k == id
    case ConfirmClock(k, _) => k == id
    case ExpireLoop(queue, now, exit) =>
      exit == ConfirmExit && Timely(call, now, clock) && (queue == [id] || (queue == [] && ExpiredThere(s, id)))
    case EndRecord(e, k, _, now, then_) => ConfirmEnds(call, id, e, k, now, then_, clock)
    case EndCount(e, k, _, now, then_) => ConfirmEnds(call, id, e, k, now, then_, clock)
    case EndDraw(e, k, _, now, then_) => ConfirmEnds(call, id, e, k, now, then_, clock)
    case EndAppend(e, k, _, now, _, then_) => ConfirmEnds(call, id, e, k, now, then_, clock)
    case _ => false
  }

  predicate CancelFits(call: Call, id: string, cs: Cs, clock: int) {
    match cs
    case CancelLoad(k) => k == id
    case CancelClock(k, _) => k == id
    case EndRecord(e, k, _, now, _) => k == id && e.ToCancelled? && Timely(call, now, clock)
    case EndCount(e, k, _, now, _) => k == id && e.ToCancelled? && Timely(call, now, clock)
    case EndDraw(e, k, _, now, _) => k == id && e.ToCancelled? && Timely(call, now, clock)
    case EndAppend(e, k, _, now, _, _) => k == id && e.ToCancelled? && Timely(call, now, clock)
    case _ => false
  }

  predicate CsFits(holdFor: int, call: Call, p: string, cs: Cs, s: Store, clock: int) {
    if cs.Finished? then Answers(holdFor, call, cs.out, s, clock)
    else
      match call.op
      case ReserveOp(_, user) => ReserveFits(holdFor, call, p, user, cs, s, clock)
      case ConfirmOp(id) => ConfirmFits(call, id, cs, s, clock)
      case CancelOp(id) => CancelFits(call, id, cs, clock)
      case _ => false
  }

  predicate PcFits(holdFor: int, call: Call, pc: Pc, s: Store, clock: int) {
    match pc
    case Called(op) => op == call.op
    case NeedLock(p, job, ret) => JobFits(call.op, p, job, ret)
    case NeedMutex(p, _, job, ret) => JobFits(call.op, p, job, ret)
    case Inside(p, _, job, cs, ret) =>
      JobFits(call.op, p, job, ret) && (ret.Reply? ==> CsFits(holdFor, call, p, cs, s, clock))
    case Sweeping(_, _, _) => call.op.SweepOp?
    case Done(out) => Answers(holdFor, call, out, s, clock)
  }

  // ----- Time passes -----

  lemma OnRecordLater(s: Store, t: Store, r: Reservation)
    requires OnRecord(s, r) && Evolves(s, t)
    ensures OnRecord(t, r)
  {
  }

  lemma AnswersLater(holdFor: int, call: Call, out: Outcome, s: Store, t: Store, m: int, n: int)
    requires Answers(holdFor, call, out, s, m) && Evolves(s, t) && m <= n
    ensures Answers(holdFor, call, out, t, n)
  {
    if out.Got? && OnRecord(s, out.reservation) { OnRecordLater(s, t, out.reservation); }
  }

  lemma ReserveLater(holdFor: int, call: Call, p: string, user: string, cs: Cs, s: Store, t: Store, m: int, n: int)
    requires ReserveFits(holdFor, call, p, user, cs, s, m) && Evolves(s, t) && m <= n
    ensures ReserveFits(holdFor, call, p, user, cs, t, n)
  {
    if cs.ReserveCount? || cs.ReservedDraw? || cs.ReservedAppend? { OnRecordLater(s, t, cs.res); }
  }

  lemma ConfirmLater(call: Call, id: string, cs: Cs, s: Store, t: Store, m: int, n: int)
    requires ConfirmFits(call, id, cs, s, m) && Evolves(s, t) && m <= n
    ensures ConfirmFits(call, id, cs, t, n)
  {
  }

  lemma CsLater(holdFor: int, call: Call, p: string, cs: Cs, s: Store, t: Store, m: int, n: int)
    requires CsFits(holdFor, call, p, cs, s, m) && Evolves(s, t) && m <= n
    ensures CsFits(holdFor, call, p, cs, t, n)
  {
    if cs.Finished? {
      AnswersLater(holdFor, call, cs.out, s, t, m, n);
    } else if call.op.ReserveOp? {
      ReserveLater(holdFor, call, p, call.op.user, cs, s, t, m, n);
    } else if call.op.ConfirmOp? {
      ConfirmLater(call, call.op.id, cs, s, t, m, n);
    }
  }

  lemma PcLater(holdFor: int, call: Call, pc: Pc, s: Store, t: Store, m: int, n: int)
    requires PcFits(holdFor, call, pc, s, m) && Evolves(s, t) && m <= n
    ensures PcFits(holdFor, call, pc, t, n)
  {
    match pc
    case Inside(p, _, _, cs, ret) => if ret.Reply? { CsLater(holdFor, call, p, cs, s, t, m, n); }
    case Done(out) => AnswersLater(holdFor, call, out, s, t, m, n);
    case _ =>
  }

  // ----- Steps inside the section -----

  /** The clock readings of a step: it shows `clock` before and `n` after. */
  predicate Reading(call: Call, cs: Cs, i: Input, clock: int, n: int) {
    call.from <= clock <= n && (cs.ReadsClock() ==> clock <= i.now <= n)
  }

  lemma ReserveMoves(par: Params, call: Call, p: string, user: string, cs: Cs, s: Store, i: Input, m: int, n: int)
    requires call.op == ReserveOp(p, user) && ReserveFits(par.holdFor, call, p, user, cs, s, m)
    requires Grounded(par, p, cs, s) && Reading(call, cs, i, m, n) && Evolves(s, Step(par, p, cs, s, i).1)
    ensures var (cs', s') := Step(par, p, cs, s, i); CsFits(par.holdFor, call, p, cs', s', n)
  {
    var s' := Step(par, p, cs, s, i).1;
    ReserveLater(par.holdFor, call, p, user, cs, s, s', m, n);
  }

  /** Once the record of `id` has been written, the section's result is that record. */
  lemma EndedResult(par: Params, p: string, cs: Cs, s: Store)
    requires cs.EndAppend? && Grounded(par, p, cs, s)
    ensures OnRecord(s, s.Lookup(cs.id)) && s.Lookup(cs.id).reservationId == cs.id
    ensures cs.e.ToExpired? ==> ExpiredThere(s, cs.id)
    ensures !cs.e.ToExpired? ==> cs.then_ == Return(Got(s.Lookup(cs.id)))
    ensures forall from, to | from <= cs.now <= to ::
      && (cs.e.ToConfirmed? ==> SaleOf(cs.id, s.Lookup(cs.id), from, to))
      && (cs.e.ToCancelled? ==> CancellationOf(cs.id, s.Lookup(cs.id), from, to))
  {
    LookupIsLocal(s, p, cs.id);
    assert RowKept(par.holdFor, Restrict(s, p).reservations[cs.id]);
  }

  lemma ConfirmAppends(par: Params, call: Call, p: string, cs: Cs, s: Store, i: Input, m: int, n: int)
    requires call.op.ConfirmOp? && cs.EndAppend? && ConfirmFits(call, call.op.id, cs, s, m)
    requires Grounded(par, p, cs, s) && Reading(call, cs, i, m, n) && Evolves(s, Step(par, p, cs, s, i).1)
    ensures var (cs', s') := Step(par, p, cs, s, i); CsFits(par.holdFor, call, p, cs', s', n)
  {
    EndedResult(par, p, cs, s);
    if !cs.e.ToExpired? { OnRecordLater(s, Step(par, p, cs, s, i).1, s.Lookup(cs.id)); }
  }

  lemma ConfirmMoves(par: Params, call: Call, p: string, cs: Cs, s: Store, i: Input, m: int, n: int)
    requires call.op.ConfirmOp? && ConfirmFits(call, call.op.id, cs, s, m)
    requires Grounded(par, p, cs, s) && Reading(call, cs, i, m, n) && Evolves(s, Step(par, p, cs, s, i).1)
    ensures var (cs', s') := Step(par, p, cs, s, i); CsFits(par.holdFor, call, p, cs', s', n)
  {
    if cs.EndAppend? {
      ConfirmAppends(par, call, p, cs, s, i, m, n);
    } else if cs.ConfirmClock? {
      LookupIsLocal(s, p, cs.id);
    }
  }

  lemma CancelMoves(par: Params, call: Call, p: string, cs: Cs, s: Store, i: Input, m: int, n: int)
    requires call.op.CancelOp? && CancelFits(call, call.op.id, cs, m)
    requires Grounded(par, p, cs, s) && Reading(call, cs, i, m, n) && Evolves(s, Step(par, p, cs, s, i).1)
    ensures var (cs', s') := Step(par, p, cs, s, i); CsFits(par.holdFor, call, p, cs', s', n)
  {
    if cs.EndAppend? {
      EndedResult(par, p, cs, s);
      OnRecordLater(s, Step(par, p, cs, s, i).1, s.Lookup(cs.id));
    } else if cs.CancelLoad? {
      LookupIsLocal(s, p, cs.id);
    }
  }

  lemma CsMoves(par: Params, call: Call, p: string, job: Job, cs: Cs, s: Store, i: Input, m: int, n: int)
    requires JobFits(call.op, p, job, Reply) && !cs.Finished? && CsFits(par.holdFor, call, p, cs, s, m)
    requires Grounded(par, p, cs, s) && Reading(call, cs, i, m, n) && Evolves(s, Step(par, p, cs, s, i).1)
    ensures var (cs', s') := Step(par, p, cs, s, i); CsFits(par.holdFor, call, p, cs', s', n)
  {
    match call.op
    case ReserveOp(_, user) => ReserveMoves(par, call, p, user, cs, s, i, m, n);
    case ConfirmOp(_) => ConfirmMoves(par, call, p, cs, s, i, m, n);
    case CancelOp(_) => CancelMoves(par, call, p, cs, s, i, m, n);
    case _ =>
  }

  // ----- Whole schedules -----

  /** The repository and the clock have gone on since the call. */
  predicate Since(call: Call, c: Config) {
    Evolves(call.at, c.store) && call.from <= c.clock
  }

  lemma OutsideFits(par: Params, call: Call, c: Config, l: Label)
    requires Next(par, c, l).Some? && (!c.threads[l.t].Inside? || c.threads[l.t].cs.Finished?)
    requires Since(call, c) && PcFits(par.holdFor, call, c.threads[l.t], c.store, c.clock)
    ensures var c' := Next(par, c, l).value;
      l.t < |c'.threads| && PcFits(par.holdFor, call, c'.threads[l.t], c'.store, c'.clock)
  {
    match c.threads[l.t]
    case Called(op) => CalledFits(par, call, c, l);
    case NeedMutex(p, _, job, ret) => assert ret.Reply? ==> CsFits(par.holdFor, call, p, Begin(job), c.store, c.clock);
    case _ =>
  }

  lemma CalledFits(par: Params, call: Call, c: Config, l: Label)
    requires Next(par, c, l).Some? && c.threads[l.t] == Called(call.op) && Since(call, c)
    ensures var c' := Next(par, c, l).value;
      l.t < |c'.threads| && PcFits(par.holdFor, call, c'.threads[l.t], c'.store, c'.clock)
  {
    match call.op
    case ConfirmOp(id) =>
    case CancelOp(id) =>
    case _ =>
  }

  lemma SectionFits(par: Params, call: Call, c: Config, l: Label)
    requires Inv(par, false, c) && Next(par, c, l).Some? && c.threads[l.t].Inside? && !c.threads[l.t].cs.Finished?
    requires Since(call, c) && PcFits(par.holdFor, call, c.threads[l.t], c.store, c.clock)
    ensures var c' := Next(par, c, l).value;
      l.t < |c'.threads| && PcFits(par.holdFor, call, c'.threads[l.t], c'.store, c'.clock)
  {
    var pc, i := c.threads[l.t], InputOf(c, c.threads[l.t].cs, l);
    InsideMoves(par, c, l);
    InsideGrounded(par, false, c, l);
    NextEvolves(par, c, l);
    if pc.ret.Reply? {
      CsMoves(par, call, pc.p, pc.job, pc.cs, c.store, i, c.clock, Next(par, c, l).value.clock);
    }
  }

  lemma OneMoves(par: Params, c: Config, l: Label)
    requires Next(par, c, l).Some?
    ensures var c' := Next(par, c, l).value; |c'.threads| == |c.threads| && c.clock <= c'.clock
  {
    match c.threads[l.t]
    case Called(op) => match op { case SweepOp(_) => case _ => }
    case _ =>
  }

  lemma NextFits(par: Params, call: Call, c: Config, l: Label, t: nat)
    requires Inv(par, false, c) && Next(par, c, l).Some? && t < |c.threads|
    requires Since(call, c) && PcFits(par.holdFor, call, c.threads[t], c.store, c.clock)
    ensures var c' := Next(par, c, l).value;
      Since(call, c') && t < |c'.threads| && PcFits(par.holdFor, call, c'.threads[t], c'.store, c'.clock)
  {
    var c' := Next(par, c, l).value;
    OneMoves(par, c, l);
    NextEvolves(par, c, l);
    EvolvesTrans(call.at, c.store, c'.store);
    if t != l.t {
      OthersStay(par, c, l, t);
      PcLater(par.holdFor, call, c.threads[t], c.store, c'.store, c.clock, c'.clock);
    } else if c.threads[t].Inside? && !c.threads[t].cs.Finished? {
      SectionFits(par, call, c, l);
    } else {
      OutsideFits(par, call, c, l);
    }
  }

  lemma {:induction false} ExecFits(par: Params, call: Call, c: Config, ls: seq<Label>, t: nat)
    requires Inv(par, false, c) && Exec(par, c, ls).Some? && t < |c.threads|
    requires Since(call, c) && PcFits(par.holdFor, call, c.threads[t], c.store, c.clock)
    ensures var d := Exec(par, c, ls).value;
      Since(call, d) && t < |d.threads| && PcFits(par.holdFor, call, d.threads[t], d.store, d.clock)
    decreases |ls|
  {
    if ls != [] {
      var n := |ls| - 1;
      ExecFits(par, call, c, ls[..n], t);
      ExecKeepsInv(par, false, c, ls[..n]);
      NextFits(par, call, Exec(par, c, ls[..n]).value, ls[n], t);
    }
  }

  /** In every schedule, races included, what a call returns answers that call: a hold returned
      by ReserveItem is for the product and the user asked for, made between call and return and
      good for the hold time; a sale or a cancellation is of the reservation asked for, made
      between call and return, a sale in time; all of them are on record. An error is the one
      the repository justifies. */
  lemma EveryReplyAnswers(par: Params, c0: Config, before: seq<Label>, c: Config, after: seq<Label>, d: Config, t: nat)
    requires Initial(c0) && Exec(par, c0, before) == Some(c)
    requires t < |c.threads| && c.threads[t].Called?
    requires Exec(par, c, after) == Some(d) && t < |d.threads| && d.threads[t].Done?
    ensures Answers(par.holdFor, Call(c.threads[t].op, c.store, c.clock), d.threads[t].out, d.store, d.clock)
  {
    assert Inv(par, false, c) by {
      InitialInv(par, false, c0);
      ExecKeepsInv(par, false, c0, before);
    }
    EvolvesRefl(c.store);
    ExecFits(par, Call(c.threads[t].op, c.store, c.clock), c, after, t);
  }

  // ----- Ids -----

  /** Every stored id is "res-" or "evt-" and the decimal numeral of a number the counter has
      passed. */
  lemma IdsAreNumbered(par: Params, c0: Config, ls: seq<Label>, c: Config)
    requires Reached(par, c0, ls, c)
    ensures forall id | id in c.store.reservations :: exists k: nat | 1 <= k <= c.counter :: Reads(id, "res-", k)
    ensures forall e | e in c.store.events :: exists k: nat | 1 <= k <= c.counter :: Reads(e.eventId, "evt-", k)
  {
    IdsAreUnique(par, c0, ls, c);
    forall id | id in c.store.reservations ensures exists k: nat | 1 <= k <= c.counter :: Reads(id, "res-", k) {
      DrawnReads(id, c.counter);
    }
    forall e | e in c.store.events ensures exists k: nat | 1 <= k <= c.counter :: Reads(e.eventId, "evt-", k) {
      var i: nat :| i < |c.store.events| && c.store.events[i] == e;
      DrawnReads(e.eventId, c.counter);
    }
  }
}
