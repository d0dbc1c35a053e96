/** The atomic run behind a schedule, read as a sequence of whole operations: each move
    is a ReserveItem, ConfirmReservation, CancelReservation or one product's share of a
    sweep, with the meaning given in `Meaning`, on a store in which every slice is at rest.
    It does not matter whether sweeps look again: atomicity comes from the locks. */
module Linearization {
  import opened Domain
  import opened Stores
  import opened Accounts
  import opened Section
  import opened SectionInvariant
  import opened Interleaving
  import opened Safety
  import opened Refinement
  import opened Meaning
  import opened Laws

  /** Thread `t` performs a whole operation and moves on to `next`. */
  predicate Moved(a: Atomic, a': Atomic, t: nat, next: APc) {
    t < |a.threads| && a'.threads == a.threads[t := next]
  }

  /** The operation's clock reading is no earlier than that of any operation on the same
      product before it, and no later than that of any after it. */
  predicate OnTime(a: Atomic, a': Atomic, p: string, now: int) {
    && (p in a.seen ==> a.seen[p] <= now)
    && p in a'.seen && now <= a'.seen[p]
  }

  ghost predicate Reserves(par: Params, p: string, user: string, a: Atomic, a': Atomic, t: nat, now: int,
                           out: Outcome)
  {
    && ReserveMeans(par.holdFor, p, user, now, a.store, a'.store, out)
    && Moved(a, a', t, ADone(out)) && OnTime(a, a', p, now)
  }

  predicate Confirms(id: string, a: Atomic, a': Atomic, t: nat, now: int, evt: string) {
    id in a.store.reservations && OnTime(a, a', a.store.reservations[id].productId, now) &&
    var (s', out) := ConfirmEffect(id, now, a.store, evt);
    a'.store == s' && Moved(a, a', t, ADone(out))
  }

  predicate Cancels(id: string, a: Atomic, a': Atomic, t: nat, now: int, evt: string) {
    id in a.store.reservations && OnTime(a, a', a.store.reservations[id].productId, now) &&
    var (s', out) := CancelEffect(id, now, a.store, evt);
    a'.store == s' && Moved(a, a', t, ADone(out))
  }

  ghost predicate SweepsGroup(par: Params, now: int, groups: seq<Group>, total: int, a: Atomic, a': Atomic, t: nat,
                              n: int)
    requires groups != []
  {
    && QueueOk(Restrict(a.store, groups[0].product), groups[0].ids, now, SweepExit(0))
    && SweepMeans(par, groups[0].ids, now, a.store, a'.store, Swept(n))
    && Moved(a, a', t, ASweep(now, groups[1..], total + n))
  }

  predicate Finishes(a: Atomic, a': Atomic, t: nat, out: Outcome) {
    a'.store == a.store && Moved(a, a', t, ADone(out))
  }

  /** One whole operation of thread `t`. */
  ghost predicate Operation(par: Params, a: Atomic, a': Atomic, t: nat) {
    t < |a.threads| &&
    match a.threads[t]
    case ATodo(ReserveOp(p, user)) => exists now, out :: Reserves(par, p, user, a, a', t, now, out)
    case ATodo(ConfirmOp(id)) =>
      if id in a.store.reservations then exists now, evt :: Confirms(id, a, a', t, now, evt)
      else Finishes(a, a', t, Failed(ReservationNotFound))
    case ATodo(CancelOp(id)) =>
      if id in a.store.reservations then exists now, evt :: Cancels(id, a, a', t, now, evt)
      else Finishes(a, a', t, Failed(ReservationNotFound))
    case ATodo(SweepOp(now)) =>
      && a'.store == a.store
      && exists u: Store, groups: seq<Group> ::
           Glimpse(par, a, u) && Collects(groups, u, now) && Moved(a, a', t, ASweep(now, groups, 0))
    case ATodo(StockOp(p)) =>
      if p in a.store.products
      then exists u: Store :: Glimpse(par, a, u) && p in u.products
                              && Finishes(a, a', t, Stock(u.products[p].AvailableStock()))
      else Finishes(a, a', t, Failed(ProductNotFound))
    case ASweep(now, groups, total) =>
      if groups == [] then Finishes(a, a', t, Swept(total))
      else exists n :: SweepsGroup(par, now, groups, total, a, a', t, n)
    case ADone(_) => false
  }

  lemma SectionFacts(par: Params, a: Atomic, a': Atomic, t: nat, p: string, job: Job, ret: Ret)
      returns (ins: seq<Input>, out: Outcome)
    requires ASection(par, a, a', t, p, job, ret)
    ensures Completes(par, p, Begin(job), a.store, ins)
    ensures Run(par, p, Begin(job), a.store, ins) == (Finished(out), a'.store)
    ensures Moved(a, a', t, AResumed(ret, out))
    ensures forall i | i in ins :: OnTime(a, a', p, i.now)
  {
    var i, now, o, s' :| AllFit(par, p, Begin(job), a.store, i)
      && Run(par, p, Begin(job), a.store, i) == (Finished(o), s')
      && InWindow(a, p, i, now)
      && t < |a.threads|
      && a' == Atomic(s', a.seen[p := now], a.threads[t := AResumed(ret, o)]);
    ins, out := i, o;
  }

  lemma ReserveIsOperation(par: Params, a: Atomic, a': Atomic, t: nat, p: string, user: string)
    requires Tidy(par.holdFor, a.store) && ASection(par, a, a', t, p, ReserveJob(user), Reply)
    ensures exists now, out :: Reserves(par, p, user, a, a', t, now, out)
  {
    var ins, out := SectionFacts(par, a, a', t, p, ReserveJob(user), Reply);
    TidyKeys(par.holdFor, a.store);
    ReserveRun(par, p, user, a.store, ins);
    var i :| i in ins && ReserveMeans(par.holdFor, p, user, i.now, a.store, a'.store, out);
    assert Reserves(par, p, user, a, a', t, i.now, out);
  }

  lemma ConfirmIsOperation(par: Params, a: Atomic, a': Atomic, t: nat, p: string, id: string)
    requires ASection(par, a, a', t, p, ConfirmJob(id), Reply)
    requires id in a.store.reservations && a.store.reservations[id].productId == p
    ensures exists now, evt :: Confirms(id, a, a', t, now, evt)
  {
    var ins, out := SectionFacts(par, a, a', t, p, ConfirmJob(id), Reply);
    ConfirmRun(par, p, id, a.store, ins);
    var i, evt :| i in ins && ConfirmEffect(id, i.now, a.store, evt) == (a'.store, out);
    assert Confirms(id, a, a', t, i.now, evt);
  }

  lemma CancelIsOperation(par: Params, a: Atomic, a': Atomic, t: nat, p: string, id: string)
    requires ASection(par, a, a', t, p, CancelJob(id), Reply)
    requires id in a.store.reservations && a.store.reservations[id].productId == p
    ensures exists now, evt :: Cancels(id, a, a', t, now, evt)
  {
    var ins, out := SectionFacts(par, a, a', t, p, CancelJob(id), Reply);
    CancelRun(par, p, id, a.store, ins);
    var i, evt :| i in ins && CancelEffect(id, i.now, a.store, evt) == (a'.store, out);
    assert Cancels(id, a, a', t, i.now, evt);
  }

  lemma SweepIsOperation(par: Params, a: Atomic, a': Atomic, t: nat, now: int, groups: seq<Group>, total: int)
    requires groups != [] && QueueOk(Restrict(a.store, groups[0].product), groups[0].ids, now, SweepExit(0))
    requires ASection(par, a, a', t, groups[0].product, SweepJob(groups[0].ids, now), SweepOn(now, groups[1..], total))
    ensures exists n :: SweepsGroup(par, now, groups, total, a, a', t, n)
  {
    var ret := SweepOn(now, groups[1..], total);
    var ins, out := SectionFacts(par, a, a', t, groups[0].product, SweepJob(groups[0].ids, now), ret);
    SweepRun(par, groups[0].product, groups[0].ids, now, a.store, ins);
    assert SweepsGroup(par, now, groups, total, a, a', t, out.count);
  }

  /** Every atomic action is a whole operation. */
  lemma AStepIsOperation(par: Params, a: Atomic, a': Atomic, t: nat)
    requires Tidy(par.holdFor, a.store) && AStep(par, a, a', t)
    ensures Operation(par, a, a', t)
  {
    match a.threads[t]
    case ATodo(ReserveOp(p, user)) => ReserveIsOperation(par, a, a', t, p, user);
    case ATodo(ConfirmOp(id)) =>
      if id in a.store.reservations { ConfirmIsOperation(par, a, a', t, a.store.reservations[id].productId, id); }
    case ATodo(CancelOp(id)) =>
      if id in a.store.reservations { CancelIsOperation(par, a, a', t, a.store.reservations[id].productId, id); }
    case ATodo(SweepOp(now)) =>
    case ATodo(StockOp(p)) =>
      if p in a.store.products {
        var u: Store :| Glimpse(par, a, u) && p in u.products
          && a' == a.(threads := a.threads[t := ADone(Stock(u.products[p].AvailableStock()))]);
        assert Finishes(a, a', t, Stock(u.products[p].AvailableStock()));
      }
    case ASweep(now, groups, total) =>
      if groups != [] { SweepIsOperation(par, a, a', t, now, groups, total); }
    case ADone(_) =>
  }

  lemma BeginIsKept(par: Params, p: string, job: Job, v: Store)
    requires Under(par, p, Begin(job), v)
    ensures Kept(par.holdFor, p, v)
  {
    match job
    case ReserveJob(_) =>
    case _ =>
  }

  lemma BusySliceIsKept(par: Params, c: Config, a: Atomic, t: nat)
    requires StoreRel(par, c, a) && t < |c.threads| && c.threads[t].Inside?
    ensures Kept(par.holdFor, c.threads[t].p, Restrict(a.store, c.threads[t].p))
  {
    var ins :| Progress(par, c, a, t, ins);
    BeginIsKept(par, c.threads[t].p, c.threads[t].job, Restrict(a.store, c.threads[t].p));
  }

  /** The atomic store of a related pair is at rest everywhere. */
  lemma AtomicStoreIsTidy(par: Params, c: Config, a: Atomic)
    requires Rel(par, c, a)
    ensures Tidy(par.holdFor, a.store)
  {
    forall p ensures Kept(par.holdFor, p, Restrict(a.store, p)) {
      if Free(c, p) {
        assert Rest(par.holdFor, false, p, Restrict(c.store, p));
      } else {
        var t :| 0 <= t < |c.threads| && InsideOf(c, t, p);
        BusySliceIsKept(par, c, a, t);
      }
    }
  }

  /** And exact, if it was before and the schedule is sound. */
  lemma AtomicStoreIsGood(par: Params, c': Config, a: Atomic, a': Atomic)
    requires Inv(par, true, c') && Rel(par, c', a') && Good(par.holdFor, a.store)
    requires forall q | !Free(c', q) :: Restrict(a'.store, q) == Restrict(a.store, q)
    ensures Good(par.holdFor, a'.store)
  {
    forall p ensures Quiet(par.holdFor, p, Restrict(a'.store, p)) {
      if Free(c', p) {
        assert Rest(par.holdFor, true, p, Restrict(c'.store, p));
      } else {
        assert Quiet(par.holdFor, p, Restrict(a.store, p));
      }
    }
  }

  /** `trace` is a sequence of whole operations on stores at rest, each made by the thread
      the schedule moved at that point, so between its call and its return. */
  ghost predicate Sequential(par: Params, trace: seq<Atomic>, ls: seq<Label>) {
    && |trace| == |ls| + 1
    && (forall k | 0 <= k <= |ls| :: Tidy(par.holdFor, trace[k].store))
    && (forall k | 0 <= k < |ls| :: trace[k + 1] == trace[k] || Operation(par, trace[k], trace[k + 1], ls[k].t))
  }

  ghost predicate AllGood(par: Params, trace: seq<Atomic>) {
    forall a | a in trace :: Good(par.holdFor, a.store)
  }

  /** `c` has a match at the end of `trace`. */
  ghost predicate Tracked(par: Params, c0: Config, ls: seq<Label>, trace: seq<Atomic>) {
    && Sequential(par, trace, ls) && trace[0] == Start(c0)
    && Exec(par, c0, ls).Some? && Rel(par, Exec(par, c0, ls).value, trace[|ls|])
    && (SoundRun(par, c0, ls) ==> AllGood(par, trace))
  }

  lemma StartIsTracked(par: Params, c0: Config) returns (trace: seq<Atomic>)
    requires Initial(c0)
    ensures Tracked(par, c0, [], trace)
  {
    trace := [Start(c0)];
    assert Rel(par, c0, Start(c0)) by { StartRel(par, c0); }
    assert Tidy(par.holdFor, Start(c0).store) by { AtomicStoreIsTidy(par, c0, Start(c0)); }
    assert Good(par.holdFor, Start(c0).store) by { StartIsGood(par, c0); }
  }

  lemma StartIsGood(par: Params, c0: Config)
    requires Initial(c0)
    ensures Good(par.holdFor, c0.store)
  {
    forall p ensures Quiet(par.holdFor, p, Restrict(c0.store, p)) {
      FreshIsQuiet(par.holdFor, p, Restrict(c0.store, p));
    }
  }

  lemma StepIsOperation(par: Params, c: Config, l: Label, a: Atomic) returns (a': Atomic)
    requires Rel(par, c, a) && Tidy(par.holdFor, a.store) && Next(par, c, l).Some?
    ensures a' == a || Operation(par, a, a', l.t)
    ensures Rel(par, Next(par, c, l).value, a') && Tidy(par.holdFor, a'.store)
    ensures forall q | !Free(Next(par, c, l).value, q) :: Restrict(a'.store, q) == Restrict(a.store, q)
  {
    a' := StepSimulates(par, c, l, a);
    assert Tidy(par.holdFor, a'.store) by { AtomicStoreIsTidy(par, Next(par, c, l).value, a'); }
    if a' != a { AStepIsOperation(par, a, a', l.t); }
  }

  lemma StepStaysGood(par: Params, c0: Config, ls: seq<Label>, a: Atomic, a': Atomic)
    requires Initial(c0) && SoundRun(par, c0, ls) && Exec(par, c0, ls).Some?
    requires Rel(par, Exec(par, c0, ls).value, a') && Good(par.holdFor, a.store)
    requires forall q | !Free(Exec(par, c0, ls).value, q) :: Restrict(a'.store, q) == Restrict(a.store, q)
    ensures Good(par.holdFor, a'.store)
  {
    InitialInv(par, true, c0);
    ExecKeepsInv(par, true, c0, ls);
    AtomicStoreIsGood(par, Exec(par, c0, ls).value, a, a');
  }

  lemma LastIsTidy(par: Params, trace: seq<Atomic>, ls: seq<Label>)
    requires Sequential(par, trace, ls)
    ensures |trace| == |ls| + 1 && Tidy(par.holdFor, trace[|ls|].store)
  {
  }

  /** One more step of the schedule, one more entry of the trace. */
  lemma TraceStep(par: Params, c: Config, before: seq<Atomic>, ls: seq<Label>, l: Label) returns (a': Atomic)
    requires Sequential(par, before, ls) && Rel(par, c, before[|ls|]) && Next(par, c, l).Some?
    ensures Sequential(par, before + [a'], ls + [l]) && Rel(par, Next(par, c, l).value, a')
    ensures forall q | !Free(Next(par, c, l).value, q) :: Restrict(a'.store, q) == Restrict(before[|ls|].store, q)
  {
    LastIsTidy(par, before, ls);
    a' := StepIsOperation(par, c, l, before[|ls|]);
    SequentialSnoc(par, before, ls, a', l);
  }

  lemma {:induction false} ScheduleIsSequential(par: Params, c0: Config, ls: seq<Label>) returns (trace: seq<Atomic>)
    requires Initial(c0) && Exec(par, c0, ls).Some?
    ensures Tracked(par, c0, ls, trace)
    decreases |ls|
  {
    if ls == [] {
      trace := StartIsTracked(par, c0);
    } else {
      var n := |ls| - 1;
      var before := ScheduleIsSequential(par, c0, ls[..n]);
      var a' := TraceStep(par, Exec(par, c0, ls[..n]).value, before, ls[..n], ls[n]);
      assert ls[..n] + [ls[n]] == ls;
      TraceGrows(par, c0, ls, before, a');
      trace := before + [a'];
    }
  }

  lemma TraceGrows(par: Params, c0: Config, ls: seq<Label>, before: seq<Atomic>, a': Atomic)
    requires Initial(c0) && ls != [] && Exec(par, c0, ls).Some?
    requires |before| == |ls| && before[0] == Start(c0) && Sequential(par, before + [a'], ls)
    requires Rel(par, Exec(par, c0, ls).value, a')
    requires SoundRun(par, c0, ls) ==> AllGood(par, before)
    requires forall q | !Free(Exec(par, c0, ls).value, q) ::
      Restrict(a'.store, q) == Restrict(before[|ls| - 1].store, q)
    ensures Tracked(par, c0, ls, before + [a'])
  {
    assert SoundRun(par, c0, ls) ==> AllGood(par, before + [a']) by {
      if SoundRun(par, c0, ls) { GoodSnoc(par, c0, ls, before, a'); }
    }
  }

  lemma GoodSnoc(par: Params, c0: Config, ls: seq<Label>, before: seq<Atomic>, a': Atomic)
    requires Initial(c0) && SoundRun(par, c0, ls) && Exec(par, c0, ls).Some? && |before| == |ls|
    requires AllGood(par, before) && before != [] && Rel(par, Exec(par, c0, ls).value, a')
    requires forall q | !Free(Exec(par, c0, ls).value, q) ::
      Restrict(a'.store, q) == Restrict(before[|ls| - 1].store, q)
    ensures AllGood(par, before + [a'])
  {
    assert before[|ls| - 1] in before;
    StepStaysGood(par, c0, ls, before[|ls| - 1], a');
  }

  lemma SequentialSnoc(par: Params, trace: seq<Atomic>, ls: seq<Label>, a': Atomic, l: Label)
    requires Sequential(par, trace, ls) && Tidy(par.holdFor, a'.store)
    requires a' == trace[|ls|] || Operation(par, trace[|ls|], a', l.t)
    ensures Sequential(par, trace + [a'], ls + [l])
  {
  }

  /** Linearizability, of the code as written and of the system whose sweeps look again.
      Every schedule, however its calls interleave, has a run of whole operations in which
      each finished operation returned the same result and after which every product nobody
      is inside has the same counters, reservations and log. If the schedule is sound, the
      accounts are exact before and after every operation. */
  lemma Linearizable(par: Params, c0: Config, ls: seq<Label>)
    requires Initial(c0) && Exec(par, c0, ls).Some?
    ensures var c := Exec(par, c0, ls).value;
      exists trace: seq<Atomic> ::
        && Sequential(par, trace, ls) && trace[0] == Start(c0)
        && (SoundRun(par, c0, ls) ==> AllGood(par, trace))
        && |trace[|ls|].threads| == |c.threads|
        && (forall t | 0 <= t < |c.threads| && c.threads[t].Done? :: trace[|ls|].threads[t] == ADone(c.threads[t].out))
        && (forall p | Free(c, p) :: Restrict(trace[|ls|].store, p) == Restrict(c.store, p))
  {
    var c := Exec(par, c0, ls).value;
    var trace := ScheduleIsSequential(par, c0, ls);
    forall t | 0 <= t < |c.threads| && c.threads[t].Done? ensures trace[|ls|].threads[t] == ADone(c.threads[t].out) {
      assert PcRel(c.threads[t], trace[|ls|].threads[t]);
    }
  }

  /** When every operation has returned, the run of whole operations ends in the very same
      products and reservations and the same log of each product. */
  lemma LinearizableAtRest(par: Params, c0: Config, ls: seq<Label>)
    requires Initial(c0) && Exec(par, c0, ls).Some?
    requires var c := Exec(par, c0, ls).value; forall t | 0 <= t < |c.threads| :: c.threads[t].Done?
    ensures var c := Exec(par, c0, ls).value;
      exists trace: seq<Atomic> ::
        && Sequential(par, trace, ls) && trace[0] == Start(c0)
        && (SoundRun(par, c0, ls) ==> AllGood(par, trace))
        && trace[|ls|].store.products == c.store.products
        && trace[|ls|].store.reservations == c.store.reservations
        && (forall p :: LogOf(trace[|ls|].store.events, p) == LogOf(c.store.events, p))
        && |trace[|ls|].threads| == |c.threads|
        && (forall t | 0 <= t < |c.threads| :: trace[|ls|].threads[t] == ADone(c.threads[t].out))
  {
    var c := Exec(par, c0, ls).value;
    var trace := ScheduleIsSequential(par, c0, ls);
    SameSlicesAtRest(par, c, trace[|ls|]);
    forall t | 0 <= t < |c.threads| ensures trace[|ls|].threads[t] == ADone(c.threads[t].out) {
      assert PcRel(c.threads[t], trace[|ls|].threads[t]);
    }
  }

  lemma SameSlicesAtRest(par: Params, c: Config, a: Atomic)
    requires Rel(par, c, a) && forall t | 0 <= t < |c.threads| :: c.threads[t].Done?
    ensures a.store.products == c.store.products && a.store.reservations == c.store.reservations
    ensures forall p :: LogOf(a.store.events, p) == LogOf(c.store.events, p)
  {
    forall p ensures Restrict(a.store, p) == Restrict(c.store, p) {
      assert Free(c, p);
    }
    SlicesDetermine(a.store, c.store);
  }
}
