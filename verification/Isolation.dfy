/** Sections of different products do not see each other: run in either order they fit,
    return the same results and leave the same counters, records and logs. */
module Isolation {
  import opened Stores
  import opened Accounts
  import opened Section
  import opened SectionInvariant
  import opened Refinement
  import opened Laws

  /** Reservations a run adds are named by ids it was given. */
  lemma {:induction false} RunAdds(par: Params, p: string, cs: Cs, s: Store, ins: seq<Input>)
    ensures forall id | id in Run(par, p, cs, s, ins).1.reservations ::
      id in s.reservations || id in IdsOf(ins) || (cs.ReserveSave? && id == cs.res.reservationId)
    decreases |ins|
  {
    if ins != [] {
      var (cs', s') := Step(par, p, cs, s, ins[0]);
      assert ins[0].id in IdsOf(ins) && IdsOf(ins[1..]) <= IdsOf(ins);
      StepAdds(par, p, cs, s, ins[0]);
      RunAdds(par, p, cs', s', ins[1..]);
    }
  }

  lemma StepAdds(par: Params, p: string, cs: Cs, s: Store, i: Input)
    ensures var (cs', s') := Step(par, p, cs, s, i);
      && (forall id | id in s'.reservations :: id in s.reservations || (cs.ReserveSave? && id == cs.res.reservationId))
      && (cs'.ReserveSave? ==> cs'.res.reservationId == i.id)
  {
  }

  /** A job that can be started on p's slice of a store at rest, with inputs that fit and
      ids no other product uses. */
  ghost predicate Startable(par: Params, p: string, job: Job, s: Store, ins: seq<Input>) {
    && JobOk(Restrict(s, p), job)
    && AllFit(par, p, Begin(job), Restrict(s, p), ins)
    && NoForeign(IdsOf(ins), s, p)
  }

  function After(par: Params, p: string, job: Job, s: Store, ins: seq<Input>): Store {
    Run(par, p, Begin(job), s, ins).1
  }

  function ResultOf(par: Params, p: string, job: Job, s: Store, ins: seq<Input>): Cs {
    Run(par, p, Begin(job), s, ins).0
  }

  /** A section leaves every other product's job as startable as it was, and p's slice as
      the section alone would. */
  lemma OthersUnaffected(par: Params, p: string, a: Job, q: string, b: Job, s: Store, ins: seq<Input>, jns: seq<Input>)
    requires p != q && Tidy(par.holdFor, s)
    requires Startable(par, p, a, s, ins) && Startable(par, q, b, s, jns) && IdsOf(ins) !! IdsOf(jns)
    ensures var t := After(par, p, a, s, ins);
      && Startable(par, q, b, t, jns)
      && Restrict(t, q) == Restrict(s, q)
      && Restrict(t, p) == After(par, p, a, Restrict(s, p), ins)
      && ResultOf(par, p, a, s, ins) == ResultOf(par, p, a, Restrict(s, p), ins)
      && AllFit(par, p, Begin(a), s, ins)
      && (forall r | r != p :: Restrict(t, r) == Restrict(s, r))
  {
    assert Kept(par.holdFor, p, Restrict(s, p));
    BeginIsMid(par, false, p, a, Restrict(s, p));
    RunLocal(par, p, Begin(a), s, ins);
    RunAdds(par, p, Begin(a), s, ins);
    ForeignStays(s, After(par, p, a, s, ins), q, IdsOf(jns));
  }

  lemma ForeignStays(s: Store, t: Store, q: string, ids: set<string>)
    requires NoForeign(ids, s, q) && Restrict(t, q) == Restrict(s, q)
    requires forall id | id in ids && id in t.reservations :: id in s.reservations
    ensures NoForeign(ids, t, q)
  {
    forall id | id in ids && id in t.reservations ensures t.reservations[id].productId == q {
      assert id in Restrict(s, q).reservations && id in Restrict(t, q).reservations;
    }
  }

  lemma StillTidy(par: Params, p: string, a: Job, s: Store, ins: seq<Input>)
    requires Tidy(par.holdFor, s) && Startable(par, p, a, s, ins)
    requires ResultOf(par, p, a, s, ins).Finished?
    ensures Tidy(par.holdFor, After(par, p, a, s, ins))
  {
    assert Kept(par.holdFor, p, Restrict(s, p));
    BeginIsMid(par, false, p, a, Restrict(s, p));
    RunLocal(par, p, Begin(a), s, ins);
    var t := After(par, p, a, s, ins);
    FinishIsRest(par, false, p, ResultOf(par, p, a, s, ins).out, Restrict(t, p));
    forall r ensures Kept(par.holdFor, r, Restrict(t, r)) {
      assert Kept(par.holdFor, r, Restrict(s, r));
    }
  }

  /** Sections of different products commute. */
  lemma SectionsCommute(par: Params, p: string, a: Job, q: string, b: Job, s: Store, ins: seq<Input>, jns: seq<Input>)
    requires p != q && Tidy(par.holdFor, s)
    requires Startable(par, p, a, s, ins) && Startable(par, q, b, s, jns) && IdsOf(ins) !! IdsOf(jns)
    requires ResultOf(par, p, a, s, ins).Finished? && ResultOf(par, q, b, s, jns).Finished?
    ensures var sp, sq := After(par, p, a, s, ins), After(par, q, b, s, jns);
      && AllFit(par, q, Begin(b), sp, jns) && AllFit(par, p, Begin(a), sq, ins)
      && ResultOf(par, q, b, sp, jns) == ResultOf(par, q, b, s, jns)
      && ResultOf(par, p, a, sq, ins) == ResultOf(par, p, a, s, ins)
      && var spq, sqp := After(par, q, b, sp, jns), After(par, p, a, sq, ins);
         && spq.products == sqp.products && spq.reservations == sqp.reservations
         && forall r :: LogOf(spq.events, r) == LogOf(sqp.events, r)
  {
    var sp, sq := After(par, p, a, s, ins), After(par, q, b, s, jns);
    OthersUnaffected(par, p, a, q, b, s, ins, jns);
    OthersUnaffected(par, q, b, p, a, s, jns, ins);
    StillTidy(par, p, a, s, ins);
    StillTidy(par, q, b, s, jns);
    SecondRun(par, p, a, q, b, s, ins, jns);
    SecondRun(par, q, b, p, a, s, jns, ins);
    SameSlices(After(par, q, b, sp, jns), After(par, p, a, sq, ins), p, q, s);
  }

  lemma SameSlices(a: Store, b: Store, p: string, q: string, s: Store)
    requires Restrict(a, p) == Restrict(b, p) && Restrict(a, q) == Restrict(b, q)
    requires forall r | r != p && r != q :: Restrict(a, r) == Restrict(s, r)
    requires forall r | r != p && r != q :: Restrict(b, r) == Restrict(s, r)
    ensures a.products == b.products && a.reservations == b.reservations
    ensures forall r :: LogOf(a.events, r) == LogOf(b.events, r)
  {
    forall r ensures Restrict(a, r) == Restrict(b, r) {
      assert r != p && r != q ==> Restrict(a, r) == Restrict(s, r) == Restrict(b, r);
    }
    SlicesDetermine(a, b);
  }

  /** The slices after `a` on `p` and then `b` on `q`. */
  lemma SecondRun(par: Params, p: string, a: Job, q: string, b: Job, s: Store, ins: seq<Input>, jns: seq<Input>)
    requires p != q && Tidy(par.holdFor, s) && Tidy(par.holdFor, After(par, p, a, s, ins))
    requires Startable(par, p, a, s, ins) && Startable(par, q, b, s, jns) && IdsOf(ins) !! IdsOf(jns)
    ensures var sp := After(par, p, a, s, ins); var spq := After(par, q, b, sp, jns);
      && AllFit(par, q, Begin(b), sp, jns)
      && ResultOf(par, q, b, sp, jns) == ResultOf(par, q, b, Restrict(s, q), jns)
      && Restrict(spq, q) == After(par, q, b, Restrict(s, q), jns)
      && Restrict(spq, p) == After(par, p, a, Restrict(s, p), ins)
      && forall r | r != p && r != q :: Restrict(spq, r) == Restrict(s, r)
  {
    var sp := After(par, p, a, s, ins);
    OthersUnaffected(par, p, a, q, b, s, ins, jns);
    assert Kept(par.holdFor, q, Restrict(sp, q));
    BeginIsMid(par, false, q, b, Restrict(sp, q));
    RunLocal(par, q, Begin(b), sp, jns);
  }
}
