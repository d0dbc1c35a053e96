/** What a critical section does as a whole: each operation as one change of the store,
    and the proof that every complete run of the section's calls is that change. */
module Meaning {
  import opened Domain
  import opened Stores
  import opened Section

  /** Ending `ids` one after the other with the given event ids. */
  function EndAll(s: Store, ids: seq<string>, now: int, evts: seq<string>): Store
    requires |evts| == |ids|
    decreases |ids|
  {
    if ids == [] then s else EndAll(s.End(ids[0], ToExpired, now, evts[0]), ids[1..], now, evts[1..])
  }

  /** The ids of `queue` that are Active in `s`. */
  function ActiveOnly(s: Store, queue: seq<string>): seq<string>
    decreases |queue|
  {
    if queue == [] then []
    else (if s.Lookup(queue[0]).IsActive() then [queue[0]] else []) + ActiveOnly(s, queue[1..])
  }

  /** The ids an expiry loop really ends. */
  function Worked(par: Params, exit: Exit, s: Store, queue: seq<string>): seq<string> {
    if par.guarded && exit.SweepExit? then ActiveOnly(s, queue) else queue
  }

  function BumpBy(exit: Exit, n: int): Exit {
    if exit.SweepExit? then SweepExit(exit.total + n) else exit
  }

  /** ReserveItem, once the stale holds in `order` are expired. */
  function ReserveTail(holdFor: int, p: string, user: string, now: int, s: Store, rid: string, evt: string): (Store,
      Outcome) {
    if p !in s.products then (s, Failed(ProductNotFound))
    else if s.products[p].AvailableStock() <= 0 then
      (s.AppendEvent(RejectedEvent(p, user, now, evt)), Failed(OutOfStock))
    else
      var r := NewHold(rid, p, user, now, holdFor);
      (s.AddHold(r, evt), Got(r))
  }

  ghost predicate ReserveMeans(holdFor: int, p: string, user: string, now: int, s: Store, s': Store, out: Outcome) {
    exists order: seq<string>, evts: seq<string>, rid: string, evt: string ::
      && Enumerates(order, s.StaleIds(p, now)) && |evts| == |order|
      && (out.Got? ==> rid !in s.reservations)
      && ReserveTail(holdFor, p, user, now, EndAll(s, order, now, evts), rid, evt) == (s', out)
  }

  /** ConfirmReservation of a reservation that exists. */
  function ConfirmEffect(id: string, now: int, s: Store, evt: string): (Store, Outcome) {
    var r := s.Lookup(id);
    if r.IsActive() && r.Lapsed(now) then
      (s.End(r.reservationId, ToExpired, now, evt), Failed(ReservationExpired))
    else if !r.IsActive() then
      (s, Failed(if r.state == Expired then ReservationExpired else ReservationAlreadyFinalized))
    else
      (s.End(id, ToConfirmed, now, evt), Got(s.EndReservation(id, ToConfirmed, now).Lookup(id)))
  }

  /** CancelReservation of a reservation that exists. */
  function CancelEffect(id: string, now: int, s: Store, evt: string): (Store, Outcome) {
    var r := s.Lookup(id);
    if !r.IsActive() then (s, Failed(ReservationAlreadyFinalized))
    else (s.End(id, ToCancelled, now, evt), Got(s.EndReservation(id, ToCancelled, now).Lookup(id)))
  }

  ghost predicate SweepMeans(par: Params, ids: seq<string>, now: int, s: Store, s': Store, out: Outcome) {
    var worked := Worked(par, SweepExit(0), s, ids);
    exists evts: seq<string> ::
      |evts| == |worked| && s' == EndAll(s, worked, now, evts) && out == Swept(|worked|)
  }

  // ----- Complete runs have that meaning -----

  ghost predicate Completes(par: Params, p: string, cs: Cs, s: Store, ins: seq<Input>) {
    AllFit(par, p, cs, s, ins) && Run(par, p, cs, s, ins).0.Finished?
  }

  /** Take the first step off a complete run. */
  lemma Peel(par: Params, p: string, cs: Cs, s: Store, ins: seq<Input>)
    requires Completes(par, p, cs, s, ins) && !cs.Finished?
    ensures ins != [] && Fits(p, cs, s, ins[0])
    ensures var (cs', s') := Step(par, p, cs, s, ins[0]);
      Completes(par, p, cs', s', ins[1..]) && Run(par, p, cs, s, ins) == Run(par, p, cs', s', ins[1..])
  {
  }

  lemma {:induction false} FinishedStays(par: Params, p: string, out: Outcome, s: Store, ins: seq<Input>)
    ensures Run(par, p, Finished(out), s, ins) == (Finished(out), s)
    decreases |ins|
  {
    if ins != [] { FinishedStays(par, p, out, s, ins[1..]); }
  }

  /** The four calls that end one reservation. */
  lemma EndRun(par: Params, p: string, e: Ending, id: string, now: int, then_: Then, s: Store, ins: seq<Input>)
      returns (evt: string, rest: seq<Input>)
    requires Completes(par, p, EndRecord(e, id, s.Lookup(id), now, then_), s, ins)
    ensures var then' := if e.ToExpired? then then_ else Return(Got(s.EndReservation(id, e, now).Lookup(id)));
      var cs' := Continue(then', now);
      && Completes(par, p, cs', s.End(id, e, now, evt), rest)
      && Run(par, p, EndRecord(e, id, s.Lookup(id), now, then_), s, ins)
         == Run(par, p, cs', s.End(id, e, now, evt), rest)
  {
    var cur := s.Lookup(id);
    var then' := if e.ToExpired? then then_ else Return(Got(s.EndReservation(id, e, now).Lookup(id)));
    var s1 := s.EndReservation(id, e, now);
    var s2 := s1.ReleaseHold(cur.productId, e);
    evt := if |ins| > 2 then ins[2].id else "";
    Peel(par, p, EndRecord(e, id, cur, now, then_), s, ins);
    Peel(par, p, EndCount(e, id, cur, now, then'), s1, ins[1..]);
    Peel(par, p, EndDraw(e, id, cur, now, then'), s2, ins[1..][1..]);
    Peel(par, p, EndAppend(e, id, cur, now, ins[1..][1..][0].id, then'), s2, ins[1..][1..][1..]);
    rest := ins[1..][1..][1..][1..];
  }

  lemma ActiveOnlyAfterEnd(s: Store, queue: seq<string>, id: string, now: int, evt: string)
    requires id !in queue
    ensures ActiveOnly(s.End(id, ToExpired, now, evt), queue) == ActiveOnly(s, queue)
    decreases |queue|
  {
    if queue != [] {
      ActiveOnlyAfterEnd(s, queue[1..], id, now, evt);
    }
  }

  predicate Skips(par: Params, exit: Exit, s: Store, id: string) {
    par.guarded && exit.SweepExit? && !s.Lookup(id).IsActive()
  }

  /** One turn of the loop that ends a reservation. */
  lemma LoopTurn(par: Params, p: string, queue: seq<string>, now: int, exit: Exit, s: Store, ins: seq<Input>)
      returns (evt: string, rest: seq<Input>)
    requires Completes(par, p, ExpireLoop(queue, now, exit), s, ins)
    requires queue != [] && !Skips(par, exit, s, queue[0])
    ensures var s' := s.End(queue[0], ToExpired, now, evt); var cs' := ExpireLoop(queue[1..], now, exit.Bump());
      && Completes(par, p, cs', s', rest)
      && Run(par, p, ExpireLoop(queue, now, exit), s, ins) == Run(par, p, cs', s', rest)
  {
    Peel(par, p, ExpireLoop(queue, now, exit), s, ins);
    evt, rest := EndRun(par, p, ToExpired, queue[0], now, Resume(queue[1..], exit), s, ins[1..]);
  }

  lemma EndAllCons(s: Store, ids: seq<string>, now: int, evt: string, evts: seq<string>)
    requires ids != [] && |evts| + 1 == |ids|
    ensures EndAll(s, ids, now, [evt] + evts) == EndAll(s.End(ids[0], ToExpired, now, evt), ids[1..], now, evts)
  {
    assert ([evt] + evts)[1..] == evts;
  }

  /** The ids left after a turn are the tail of the ids there were. */
  lemma WorkedTail(par: Params, exit: Exit, s: Store, queue: seq<string>, now: int, evt: string)
    requires queue != [] && Distinct(queue) && !Skips(par, exit, s, queue[0])
    ensures var worked := Worked(par, exit, s, queue);
      && worked != [] && worked[0] == queue[0]
      && worked[1..] == Worked(par, exit.Bump(), s.End(queue[0], ToExpired, now, evt), queue[1..])
  {
    ActiveOnlyAfterEnd(s, queue[1..], queue[0], now, evt);
    WorkedHead(par, exit, s, queue);
  }

  lemma {:induction false} LoopRun(par: Params, p: string, queue: seq<string>, now: int, exit: Exit, s: Store,
      ins: seq<Input>)
      returns (evts: seq<string>, rest: seq<Input>)
    requires Completes(par, p, ExpireLoop(queue, now, exit), s, ins) && Distinct(queue)
    ensures var worked := Worked(par, exit, s, queue);
      && |evts| == |worked|
      && var s' := EndAll(s, worked, now, evts);
         var cs' := LoopEnd(now, BumpBy(exit, |worked|));
      && Completes(par, p, cs', s', rest)
      && Run(par, p, ExpireLoop(queue, now, exit), s, ins) == Run(par, p, cs', s', rest)
    decreases |queue|
  {
    if queue == [] {
      Peel(par, p, ExpireLoop(queue, now, exit), s, ins);
      evts, rest := [], ins[1..];
    } else if Skips(par, exit, s, queue[0]) {
      Peel(par, p, ExpireLoop(queue, now, exit), s, ins);
      assert Worked(par, exit, s, queue) == Worked(par, exit, s, queue[1..]);
      evts, rest := LoopRun(par, p, queue[1..], now, exit, s, ins[1..]);
    } else {
      var evt, after := LoopTurn(par, p, queue, now, exit, s, ins);
      var more;
      more, rest := LoopRun(par, p, queue[1..], now, exit.Bump(), s.End(queue[0], ToExpired, now, evt), after);
      WorkedTail(par, exit, s, queue, now, evt);
      EndAllCons(s, Worked(par, exit, s, queue), now, evt, more);
      assert BumpBy(exit.Bump(), |more|) == BumpBy(exit, |more| + 1);
      evts := [evt] + more;
    }
  }

  lemma WorkedHead(par: Params, exit: Exit, s: Store, queue: seq<string>)
    requires queue != [] && (par.guarded && exit.SweepExit? ==> s.Lookup(queue[0]).IsActive())
    ensures var worked := Worked(par, exit, s, queue);
      && worked != [] && worked[0] == queue[0]
      && worked[1..] == Worked(par, exit.Bump(), s, queue[1..])
  {
  }

  /** A complete run of ReserveItem's section. */
  lemma ReserveRun(par: Params, p: string, user: string, s: Store, ins: seq<Input>)
    requires Completes(par, p, Begin(ReserveJob(user)), s, ins)
    requires forall id | id in s.reservations :: s.reservations[id].reservationId == id
    ensures var (cs', s') := Run(par, p, Begin(ReserveJob(user)), s, ins);
      exists i | i in ins :: ReserveMeans(par.holdFor, p, user, i.now, s, s', cs'.out)
  {
    Peel(par, p, Begin(ReserveJob(user)), s, ins);
    var now := ins[0].now;
    Peel(par, p, ReserveSnapshot(user, now), s, ins[1..]);
    var order := ins[1..][0].order;
    var evts, rest := LoopRun(par, p, order, now, LazyExit(user), s, ins[1..][1..]);
    var s1 := EndAll(s, order, now, evts);
    var rid, evt := TailRun(par, p, user, now, s1, rest);
    EndAllKeys(s, order, now, evts);
    var (cs', s') := Run(par, p, Begin(ReserveJob(user)), s, ins);
    assert ReserveTail(par.holdFor, p, user, now, s1, rid, evt) == (s', cs'.out);
    assert ins[0] in ins && ReserveMeans(par.holdFor, p, user, ins[0].now, s, s', cs'.out);
  }

  lemma {:induction false} EndAllKeys(s: Store, ids: seq<string>, now: int, evts: seq<string>)
    requires |evts| == |ids|
    ensures EndAll(s, ids, now, evts).reservations.Keys == s.reservations.Keys
    ensures EndAll(s, ids, now, evts).products.Keys == s.products.Keys
    decreases |ids|
  {
    if ids != [] {
      EndAllKeys(s.End(ids[0], ToExpired, now, evts[0]), ids[1..], now, evts[1..]);
    }
  }

  lemma TailRun(par: Params, p: string, user: string, now: int, s: Store, ins: seq<Input>)
      returns (rid: string, evt: string)
    requires Completes(par, p, ReserveCheck(user, now), s, ins)
    ensures var (cs', s') := Run(par, p, ReserveCheck(user, now), s, ins);
      && ReserveTail(par.holdFor, p, user, now, s, rid, evt) == (s', cs'.out)
      && (cs'.out.Got? ==> rid !in s.reservations)
  {
    rid, evt := "", "";
    Peel(par, p, ReserveCheck(user, now), s, ins);
    var i1 := ins[1..];
    if p !in s.products {
      FinishedStays(par, p, Failed(ProductNotFound), s, i1);
    } else if s.products[p].AvailableStock() <= 0 {
      Peel(par, p, RejectDraw(user, now), s, i1);
      evt := i1[0].id;
      Peel(par, p, RejectAppend(user, now, evt), s, i1[1..]);
      FinishedStays(par, p, Failed(OutOfStock), s.AppendEvent(RejectedEvent(p, user, now, evt)), i1[1..][1..]);
    } else {
      Peel(par, p, ReserveDraw(user, now), s, i1);
      rid := i1[0].id;
      evt := SaveRun(par, p, NewHold(rid, p, user, now, par.holdFor), s, i1[1..]);
    }
  }

  lemma SaveRun(par: Params, p: string, r: Reservation, s: Store, ins: seq<Input>) returns (evt: string)
    requires Completes(par, p, ReserveSave(r), s, ins) && r.productId == p
    ensures Run(par, p, ReserveSave(r), s, ins) == (Finished(Got(r)), s.AddHold(r, evt))
  {
    Peel(par, p, ReserveSave(r), s, ins);
    var s1 := s.PutReservation(r.reservationId, r);
    Peel(par, p, ReserveCount(r), s1, ins[1..]);
    var s2 := s1.TakeHold(p);
    var i2 := ins[1..][1..];
    Peel(par, p, ReservedDraw(r), s2, i2);
    evt := i2[0].id;
    Peel(par, p, ReservedAppend(r, evt), s2, i2[1..]);
    FinishedStays(par, p, Got(r), s2.AppendEvent(ReservedEvent(r, evt)), i2[1..][1..]);
  }

  /** A complete run of ConfirmReservation's section. */
  lemma ConfirmRun(par: Params, p: string, id: string, s: Store, ins: seq<Input>)
    requires Completes(par, p, Begin(ConfirmJob(id)), s, ins)
    ensures var (cs', s') := Run(par, p, Begin(ConfirmJob(id)), s, ins);
      exists i, evt | i in ins :: ConfirmEffect(id, i.now, s, evt) == (s', cs'.out)
  {
    Peel(par, p, ConfirmLoad(id), s, ins);
    var r, i1 := s.Lookup(id), ins[1..];
    Peel(par, p, ConfirmClock(id, r), s, i1);
    var now, i2 := i1[0].now, i1[1..];
    assert ins[1] in ins && ins[1].now == now;
    if r.IsActive() && r.Lapsed(now) {
      var evts, rest := LoopRun(par, p, [r.reservationId], now, ConfirmExit, s, i2);
      var s' := s.End(r.reservationId, ToExpired, now, evts[0]);
      assert EndAll(s', [], now, evts[1..]) == s';
      assert EndAll(s, [r.reservationId], now, evts) == s';
      FinishedStays(par, p, Failed(ReservationExpired), s', rest);
      assert ConfirmEffect(id, ins[1].now, s, evts[0]) == (s', Failed(ReservationExpired));
    } else if !r.IsActive() {
      FinishedStays(par, p, DecideConfirm(id, r, now).out, s, i2);
      assert ConfirmEffect(id, ins[1].now, s, "") == (s, DecideConfirm(id, r, now).out);
    } else {
      var evt, rest := EndRun(par, p, ToConfirmed, id, now, Return(Got(ZERO_RESERVATION)), s, i2);
      var out := Got(s.EndReservation(id, ToConfirmed, now).Lookup(id));
      FinishedStays(par, p, out, s.End(id, ToConfirmed, now, evt), rest);
      assert ConfirmEffect(id, ins[1].now, s, evt).1 == out;
    }
  }

  /** A complete run of CancelReservation's section. */
  lemma CancelRun(par: Params, p: string, id: string, s: Store, ins: seq<Input>)
    requires Completes(par, p, Begin(CancelJob(id)), s, ins)
    ensures var (cs', s') := Run(par, p, Begin(CancelJob(id)), s, ins);
      exists i, evt | i in ins :: CancelEffect(id, i.now, s, evt) == (s', cs'.out)
  {
    Peel(par, p, CancelLoad(id), s, ins);
    var r, i1 := s.Lookup(id), ins[1..];
    if !r.IsActive() {
      FinishedStays(par, p, Failed(ReservationAlreadyFinalized), s, i1);
      assert ins[0] in ins && CancelEffect(id, ins[0].now, s, "") == (s, Failed(ReservationAlreadyFinalized));
    } else {
      Peel(par, p, CancelClock(id, r), s, i1);
      var now, i2 := i1[0].now, i1[1..];
      var evt, rest := EndRun(par, p, ToCancelled, id, now, Return(Got(ZERO_RESERVATION)), s, i2);
      var out := Got(s.EndReservation(id, ToCancelled, now).Lookup(id));
      FinishedStays(par, p, out, s.End(id, ToCancelled, now, evt), rest);
      assert ins[1] in ins && CancelEffect(id, ins[1].now, s, evt).1 == out;
    }
  }

  /** A complete run of a sweep's section on one product, re-checking or not. */
  lemma SweepRun(par: Params, p: string, ids: seq<string>, now: int, s: Store, ins: seq<Input>)
    requires Completes(par, p, Begin(SweepJob(ids, now)), s, ins) && Distinct(ids)
    ensures var (cs', s') := Run(par, p, Begin(SweepJob(ids, now)), s, ins);
      SweepMeans(par, ids, now, s, s', cs'.out)
  {
    var evts, rest := LoopRun(par, p, ids, now, SweepExit(0), s, ins);
    var worked := Worked(par, SweepExit(0), s, ids);
    FinishedStays(par, p, Swept(|worked|), EndAll(s, worked, now, evts), rest);
  }
}
