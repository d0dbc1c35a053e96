/** Atomicity: every schedule of the interleaved system is matched, step for step, by a
    run of a machine that performs each product's critical section in one go. */
module Refinement {
  import opened Domain
  import opened Ids
  import opened Stores
  import opened Section
  import opened SectionInvariant
  import opened Locality
  import opened Interleaving
  import opened Safety

  // ----- The atomic machine -----

  datatype APc =
    | ATodo(op: Op)
    | ASweep(now: int, groups: seq<Group>, total: int)
    | ADone(out: Outcome)

  /** `seen` is the latest clock value used by an operation on each product. */
  datatype Atomic = Atomic(store: Store, seen: map<string, int>, threads: seq<APc>)

  function AResumed(ret: Ret, out: Outcome): APc {
    match ret
    case Reply => ADone(out)
    case SweepOn(now, rest, total) => ASweep(now, rest, total + (if out.Swept? then out.count else 0))
  }

  /** Inputs that respect a clock which never runs backwards for this product. */
  predicate InWindow(a: Atomic, p: string, ins: seq<Input>, now: int) {
    && (p in a.seen ==> a.seen[p] <= now)
    && forall i | i in ins :: i.now <= now && (p in a.seen ==> a.seen[p] <= i.now)
  }

  /** Thread `t` runs the whole section of `job` on product `p` without interruption. */
  ghost predicate ASection(par: Params, a: Atomic, a': Atomic, t: nat, p: string, job: Job, ret: Ret) {
    exists ins: seq<Input>, now: int, out: Outcome, s': Store ::
      && AllFit(par, p, Begin(job), a.store, ins)
      && Run(par, p, Begin(job), a.store, ins) == (Finished(out), s')
      && InWindow(a, p, ins, now)
      && t < |a.threads|
      && a' == Atomic(s', a.seen[p := now], a.threads[t := AResumed(ret, out)])
  }

  function OpOf(p: string, job: Job): Op {
    match job
    case ReserveJob(user) => ReserveOp(p, user)
    case ConfirmJob(id) => ConfirmOp(id)
    case CancelJob(id) => CancelOp(id)
    case SweepJob(_, now) => SweepOp(now)
  }

  /** What the atomic thread is about to do while the concrete one waits for, or is inside,
      the section of `job`. */
  predicate Awaits(p: string, job: Job, ret: Ret, apc: APc) {
    match ret
    case Reply => !job.SweepJob? && apc == ATodo(OpOf(p, job))
    case SweepOn(now, rest, total) =>
      job.SweepJob? && job.now == now && apc == ASweep(now, [Group(p, job.ids)] + rest, total)
  }

  /** `w` is p's slice `v` after some of the calls of a section of `job`. */
  ghost predicate PartWay(par: Params, p: string, job: Job, v: Store, w: Store) {
    exists ins: seq<Input> ::
      JobOk(v, job) && AllFit(par, p, Begin(job), v, ins) && Run(par, p, Begin(job), v, ins).1 == w
  }

  /** Thread `t` has yet to run the section of `job` on `p`, and `w` is what it has done so
      far. */
  ghost predicate UnderWay(par: Params, a: Atomic, t: nat, p: string, job: Job, ret: Ret, w: Store) {
    && t < |a.threads| && Awaits(p, job, ret, a.threads[t])
    && PartWay(par, p, job, Restrict(a.store, p), w)
  }

  /** A reader without a lock finds each product as the atomic store has it, or part way
      through the next section of one of the threads. */
  ghost predicate Glimpse(par: Params, a: Atomic, u: Store) {
    forall p :: Restrict(u, p) == Restrict(a.store, p)
                || exists t: nat, job: Job, ret: Ret :: UnderWay(par, a, t, p, job, ret, Restrict(u, p))
  }

  /** One atomic action of thread `t`. */
  ghost predicate AStep(par: Params, a: Atomic, a': Atomic, t: nat) {
    t < |a.threads| &&
    match a.threads[t]
    case ATodo(ReserveOp(p, user)) => ASection(par, a, a', t, p, ReserveJob(user), Reply)
    case ATodo(ConfirmOp(id)) =>
      if id in a.store.reservations
      then ASection(par, a, a', t, a.store.reservations[id].productId, ConfirmJob(id), Reply)
      else a' == a.(threads := a.threads[t := ADone(Failed(ReservationNotFound))])
    case ATodo(CancelOp(id)) =>
      if id in a.store.reservations
      then ASection(par, a, a', t, a.store.reservations[id].productId, CancelJob(id), Reply)
      else a' == a.(threads := a.threads[t := ADone(Failed(ReservationNotFound))])
    case ATodo(SweepOp(now)) =>
      exists u: Store, groups: seq<Group> ::
        Glimpse(par, a, u) && Collects(groups, u, now)
        && a' == a.(threads := a.threads[t := ASweep(now, groups, 0)])
    case ATodo(StockOp(p)) =>
      if p in a.store.products
      then exists u: Store ::
        Glimpse(par, a, u) && p in u.products
        && a' == a.(threads := a.threads[t := ADone(Stock(u.products[p].AvailableStock()))])
      else a' == a.(threads := a.threads[t := ADone(Failed(ProductNotFound))])
    case ASweep(now, groups, total) =>
      if groups == [] then a' == a.(threads := a.threads[t := ADone(Swept(total))])
      else
        && QueueOk(Restrict(a.store, groups[0].product), groups[0].ids, now, SweepExit(0))
        && ASection(par, a, a', t, groups[0].product, SweepJob(groups[0].ids, now), SweepOn(now, groups[1..], total))
    case ADone(_) => false
  }

  // ----- A section on its slice is the section on the whole store -----

  /** None of these ids names a reservation of another product. */
  predicate NoForeign(ids: set<string>, s: Store, p: string) {
    forall id | id in ids && id in s.reservations :: s.reservations[id].productId == p
  }

  function IdsOf(ins: seq<Input>): set<string> {
    set i | i in ins :: i.id
  }

  /** One step of `RunLocal`. */
  lemma StepOnWhole(par: Params, p: string, cs: Cs, s: Store, i: Input)
    requires Under(par, p, cs, Restrict(s, p))
    requires Fits(p, cs, Restrict(s, p), i) && NoForeign({i.id}, s, p)
    requires cs.ReserveSave? ==> cs.res.reservationId !in s.reservations
    ensures Fits(p, cs, s, i)
    ensures var (cs', s') := Step(par, p, cs, s, i);
      && Step(par, p, cs, Restrict(s, p), i) == (cs', Restrict(s', p))
      && Under(par, p, cs', Restrict(s', p))
      && (forall q | q != p :: Restrict(s', q) == Restrict(s, q))
      && Evolves(s, s')
      && (cs'.ReserveSave? ==> cs'.res.reservationId !in s'.reservations)
  {
    StepLocal(par, p, cs, s, i);
    StepEvolvesGlobally(par, p, cs, s, i);
    MidStep(par, false, p, cs, Restrict(s, p), i);
    if cs.ReserveSnapshot? { StaleIsLocal(s, p, cs.now); }
    assert i.id in s.reservations ==> i.id in Restrict(s, p).reservations;
    SaveFollowsDraw(par, p, cs, s, i);
  }

  lemma SaveFollowsDraw(par: Params, p: string, cs: Cs, s: Store, i: Input)
    ensures var (cs', s') := Step(par, p, cs, s, i);
      cs'.ReserveSave? ==> cs.ReserveDraw? && s' == s && cs'.res.reservationId == i.id
  {
  }

  lemma {:induction false} RunLocal(par: Params, p: string, cs: Cs, s: Store, ins: seq<Input>)
    requires Under(par, p, cs, Restrict(s, p))
    requires AllFit(par, p, cs, Restrict(s, p), ins)
    requires NoForeign(IdsOf(ins), s, p)
    requires cs.ReserveSave? ==> cs.res.reservationId !in s.reservations
    ensures AllFit(par, p, cs, s, ins)
    ensures var (cs', s') := Run(par, p, cs, s, ins);
      && Run(par, p, cs, Restrict(s, p), ins) == (cs', Restrict(s', p))
      && Under(par, p, cs', Restrict(s', p))
      && (forall q | q != p :: Restrict(s', q) == Restrict(s, q))
      && Evolves(s, s')
    decreases |ins|
  {
    if ins != [] {
      var (cs', s') := Step(par, p, cs, s, ins[0]);
      assert ins[0].id in IdsOf(ins);
      StepOnWhole(par, p, cs, s, ins[0]);
      NoForeignStep(IdsOf(ins), s, s', p);
      assert IdsOf(ins[1..]) <= IdsOf(ins);
      RunLocal(par, p, cs', s', ins[1..]);
      EvolvesTrans(s, s', Run(par, p, cs', s', ins[1..]).1);
    }
  }

  lemma NoForeignStep(ids: set<string>, s: Store, s': Store, p: string)
    requires NoForeign(ids, s, p)
    requires forall q | q != p :: Restrict(s', q) == Restrict(s, q)
    ensures NoForeign(ids, s', p)
  {
    forall id | id in ids && id in s'.reservations ensures s'.reservations[id].productId == p {
      var q := s'.reservations[id].productId;
      assert id in Restrict(s', q).reservations;
    }
  }

  // ----- The relation between the two machines -----

  predicate PcRel(pc: Pc, apc: APc) {
    match pc
    case Called(op) => apc == ATodo(op)
    case NeedLock(p, job, ret) => Awaits(p, job, ret, apc)
    case NeedMutex(p, _, job, ret) => Awaits(p, job, ret, apc)
    case Inside(p, _, job, _, ret) => Awaits(p, job, ret, apc)
    case Sweeping(now, groups, total) => apc == ASweep(now, groups, total)
    case Done(out) => apc == ADone(out)
  }

  /** An id a section was given is an event id, or its own hold's id, saved or not. */
  ghost predicate Own(id: string, p: string, cs: Cs, s: Store) {
    || (exists n: nat :: id == MakeId(EVT, n))
    || (cs.ReserveSave? && id == cs.res.reservationId)
    || (id in s.reservations && s.reservations[id].productId == p)
  }

  ghost predicate Progress(par: Params, c: Config, a: Atomic, t: nat, ins: seq<Input>)
    requires t < |c.threads| && c.threads[t].Inside?
  {
    var pc := c.threads[t];
    && Under(par, pc.p, Begin(pc.job), Restrict(a.store, pc.p))
    && AllFit(par, pc.p, Begin(pc.job), Restrict(a.store, pc.p), ins)
    && Run(par, pc.p, Begin(pc.job), Restrict(a.store, pc.p), ins) == (pc.cs, Restrict(c.store, pc.p))
    && (forall i | i in ins :: Own(i.id, pc.p, pc.cs, c.store))
    && InWindow(a, pc.p, ins, c.clock)
  }

  /** The atomic store lags behind in the products whose section is under way. */
  ghost predicate StoreRel(par: Params, c: Config, a: Atomic) {
    && (forall p | Free(c, p) :: Restrict(a.store, p) == Restrict(c.store, p))
    && (forall t | 0 <= t < |c.threads| && c.threads[t].Inside? :: exists ins :: Progress(par, c, a, t, ins))
    && (forall id | id in a.store.reservations ::
          id in c.store.reservations && a.store.reservations[id].productId == c.store.reservations[id].productId)
    && (forall k :: k in a.store.products <==> k in c.store.products)
    && (forall k | k in a.store.products :: a.store.products[k].totalStock == c.store.products[k].totalStock)
    && (forall p | p in a.seen :: a.seen[p] <= c.clock)
  }

  predicate ThreadsRel(c: Config, a: Atomic) {
    |a.threads| == |c.threads| && forall t | 0 <= t < |c.threads| :: PcRel(c.threads[t], a.threads[t])
  }

  ghost predicate Rel(par: Params, c: Config, a: Atomic) {
    Inv(par, false, c) && ThreadsRel(c, a) && StoreRel(par, c, a)
  }

  // ----- Steps the atomic machine does not see -----

  /** Another thread's progress is not disturbed by a step that leaves its slice alone. */
  lemma ProgressSurvives(par: Params, c: Config, c': Config, a: Atomic, u: nat, ins: seq<Input>)
    requires u < |c.threads| && c.threads[u].Inside? && Progress(par, c, a, u, ins)
    requires u < |c'.threads| && c'.threads[u] == c.threads[u]
    requires Restrict(c'.store, c.threads[u].p) == Restrict(c.store, c.threads[u].p)
    requires Evolves(c.store, c'.store) && c.clock <= c'.clock
    ensures Progress(par, c', a, u, ins)
  {
    var pc := c.threads[u];
    forall i | i in ins ensures Own(i.id, pc.p, pc.cs, c'.store) {
      assert Own(i.id, pc.p, pc.cs, c.store);
    }
  }

  lemma SomeProgress(par: Params, c: Config, c': Config, a: Atomic, u: nat)
    requires u < |c.threads| && c.threads[u].Inside? && exists ins :: Progress(par, c, a, u, ins)
    requires u < |c'.threads| && c'.threads[u] == c.threads[u]
    requires Restrict(c'.store, c.threads[u].p) == Restrict(c.store, c.threads[u].p)
    requires Evolves(c.store, c'.store) && c.clock <= c'.clock
    ensures exists ins :: Progress(par, c', a, u, ins)
  {
    var ins :| Progress(par, c, a, u, ins);
    ProgressSurvives(par, c, c', a, u, ins);
  }

  lemma StutterOutside(par: Params, c: Config, c': Config, a: Atomic, t: nat, pc': Pc)
    requires StoreRel(par, c, a) && Moves(c, c', t, pc')
    requires c'.store == c.store && c.clock <= c'.clock
    requires !c.threads[t].Inside? && !pc'.Inside?
    ensures StoreRel(par, c', a)
  {
    EvolvesRefl(c.store);
    forall p | Free(c', p) ensures Restrict(a.store, p) == Restrict(c'.store, p) {
      FreeBefore(c, c', t, pc', p);
    }
    forall u | 0 <= u < |c'.threads| && c'.threads[u].Inside? ensures exists ins :: Progress(par, c', a, u, ins) {
      SomeProgress(par, c, c', a, u);
    }
  }

  lemma StutterAcquire(par: Params, c: Config, c': Config, a: Atomic, t: nat, pc': Pc)
    requires StoreRel(par, c, a) && Moves(c, c', t, pc')
    requires c'.store == c.store && c'.clock == c.clock
    requires !c.threads[t].Inside? && pc'.Inside? && pc'.cs == Begin(pc'.job) && Free(c, pc'.p)
    requires Under(par, pc'.p, pc'.cs, Restrict(c.store, pc'.p))
    ensures StoreRel(par, c', a)
  {
    EvolvesRefl(c.store);
    forall p | Free(c', p) ensures Restrict(a.store, p) == Restrict(c'.store, p) {
      FreeBefore(c, c', t, pc', p);
    }
    forall u | 0 <= u < |c'.threads| && c'.threads[u].Inside? ensures exists ins :: Progress(par, c', a, u, ins) {
      if u == t {
        assert Progress(par, c', a, t, []);
      } else {
        SomeProgress(par, c, c', a, u);
      }
    }
  }

  /** The input just consumed belongs to the section. */
  lemma OwnStep(par: Params, c: Config, l: Label, id: string)
    requires l.t < |c.threads| && c.threads[l.t].Inside? && !c.threads[l.t].cs.Finished?
    requires Next(par, c, l).Some? && Evolves(c.store, Next(par, c, l).value.store)
    requires Grounded(par, c.threads[l.t].p, c.threads[l.t].cs, c.store)
    requires var pc := c.threads[l.t];
      Own(id, pc.p, pc.cs, c.store) || id == InputOf(c, pc.cs, l).id
    ensures var c' := Next(par, c, l).value; var pc' := c'.threads[l.t];
      Own(id, pc'.p, pc'.cs, c'.store)
  {
    var pc := c.threads[l.t];
    OwnSection(par, pc.p, pc.cs, c.store, InputOf(c, pc.cs, l), c.counter, id);
  }

  lemma OwnSection(par: Params, p: string, cs: Cs, s: Store, i: Input, n: nat, id: string)
    requires Own(id, p, cs, s) || id == i.id
    requires i.id == NextId(cs, n) && Grounded(par, p, cs, s)
    requires Evolves(s, Step(par, p, cs, s, i).1)
    ensures var (cs', s') := Step(par, p, cs, s, i); Own(id, p, cs', s')
  {
    if id == i.id && !cs.ReserveDraw? {
      assert id == MakeId(EVT, n + 1);
    }
  }

  lemma InsideProgress(par: Params, c: Config, l: Label, a: Atomic, ins: seq<Input>)
    requires Inv(par, false, c)
    requires l.t < |c.threads| && c.threads[l.t].Inside? && !c.threads[l.t].cs.Finished?
    requires Next(par, c, l).Some?
    requires Progress(par, c, a, l.t, ins)
    ensures var c' := Next(par, c, l).value;
      c'.threads[l.t].Inside? && Progress(par, c', a, l.t, ins + [InputOf(c, c.threads[l.t].cs, l)])
  {
    var c', pc := Next(par, c, l).value, c.threads[l.t];
    var i := InputOf(c, pc.cs, l);
    InsideEffect(par, false, c, l);
    assert Grounded(par, pc.p, pc.cs, c.store) by { InsideGrounded(par, false, c, l); }
    RunAppend(par, pc.p, Begin(pc.job), Restrict(a.store, pc.p), ins, i);
    OwnSteps(par, c, l, ins);
    assert InWindow(a, pc.p, ins + [i], c'.clock) by { WindowGrows(par, c, l, a, ins); }
  }

  lemma WindowGrows(par: Params, c: Config, l: Label, a: Atomic, ins: seq<Input>)
    requires l.t < |c.threads| && c.threads[l.t].Inside? && !c.threads[l.t].cs.Finished?
    requires Next(par, c, l).Some? && InWindow(a, c.threads[l.t].p, ins, c.clock)
    ensures InWindow(a, c.threads[l.t].p, ins + [InputOf(c, c.threads[l.t].cs, l)], Next(par, c, l).value.clock)
  {
    var i := InputOf(c, c.threads[l.t].cs, l);
    assert forall j | j in ins + [i] :: j in ins || j == i;
  }

  lemma OwnSteps(par: Params, c: Config, l: Label, ins: seq<Input>)
    requires l.t < |c.threads| && c.threads[l.t].Inside? && !c.threads[l.t].cs.Finished?
    requires Next(par, c, l).Some? && Evolves(c.store, Next(par, c, l).value.store)
    requires Grounded(par, c.threads[l.t].p, c.threads[l.t].cs, c.store)
    requires var pc := c.threads[l.t]; forall i | i in ins :: Own(i.id, pc.p, pc.cs, c.store)
    ensures var c', i := Next(par, c, l).value, InputOf(c, c.threads[l.t].cs, l); var pc' := c'.threads[l.t];
      forall j | j in ins + [i] :: Own(j.id, pc'.p, pc'.cs, c'.store)
  {
    var c', pc := Next(par, c, l).value, c.threads[l.t];
    var i, pc' := InputOf(c, pc.cs, l), c'.threads[l.t];
    forall j | j in ins + [i] ensures Own(j.id, pc'.p, pc'.cs, c'.store) {
      if j in ins { assert Own(j.id, pc.p, pc.cs, c.store); } else { assert j == i; }
      OwnStep(par, c, l, j.id);
    }
  }

  lemma SectionMove(par: Params, c: Config, c': Config, a: Atomic, t: nat, pc': Pc, mine: seq<Input>)
    requires HoldersOk(c) && StoreRel(par, c, a) && Moves(c, c', t, pc')
    requires c.threads[t].Inside? && pc'.Inside? && pc'.p == c.threads[t].p
    requires forall q | q != pc'.p :: Restrict(c'.store, q) == Restrict(c.store, q)
    requires Evolves(c.store, c'.store) && c.clock <= c'.clock
    requires Progress(par, c', a, t, mine)
    ensures StoreRel(par, c', a)
  {
    forall p | Free(c', p) ensures Restrict(a.store, p) == Restrict(c'.store, p) {
      assert !InsideOf(c', t, p);
      FreeBefore(c, c', t, pc', p);
    }
    forall u | 0 <= u < |c'.threads| && c'.threads[u].Inside? ensures exists ins :: Progress(par, c', a, u, ins) {
      if u != t {
        InsideElsewhere(c, u, t);
        SomeProgress(par, c, c', a, u);
      }
    }
    StoreMoves(c.store, c'.store, a.store);
  }

  lemma StoreMoves(s: Store, t: Store, a: Store)
    requires Evolves(s, t)
    requires forall id | id in a.reservations ::
      id in s.reservations && a.reservations[id].productId == s.reservations[id].productId
    requires forall k :: k in a.products <==> k in s.products
    requires forall k | k in a.products :: a.products[k].totalStock == s.products[k].totalStock
    ensures forall id | id in a.reservations ::
      id in t.reservations && a.reservations[id].productId == t.reservations[id].productId
    ensures forall k :: k in a.products <==> k in t.products
    ensures forall k | k in a.products :: a.products[k].totalStock == t.products[k].totalStock
  {
  }

  lemma InsideShape(par: Params, c: Config, l: Label)
    requires l.t < |c.threads| && c.threads[l.t].Inside? && !c.threads[l.t].cs.Finished?
    requires Next(par, c, l).Some?
    ensures var c' := Next(par, c, l).value; var pc' := c'.threads[l.t];
      && Moves(c, c', l.t, pc') && pc'.Inside? && pc'.p == c.threads[l.t].p && c.clock <= c'.clock
  {
  }

  lemma InsideFrame(par: Params, c: Config, l: Label)
    requires Inv(par, false, c)
    requires l.t < |c.threads| && c.threads[l.t].Inside? && !c.threads[l.t].cs.Finished?
    requires Next(par, c, l).Some?
    ensures var c' := Next(par, c, l).value;
      && (forall q | q != c.threads[l.t].p :: Restrict(c'.store, q) == Restrict(c.store, q))
      && Evolves(c.store, c'.store)
  {
    InsideEffect(par, false, c, l);
  }

  lemma StutterInside(par: Params, c: Config, l: Label, a: Atomic)
    requires Inv(par, false, c) && StoreRel(par, c, a)
    requires l.t < |c.threads| && c.threads[l.t].Inside? && !c.threads[l.t].cs.Finished?
    requires Next(par, c, l).Some?
    ensures StoreRel(par, Next(par, c, l).value, a)
  {
    var c', pc := Next(par, c, l).value, c.threads[l.t];
    InsideShape(par, c, l);
    InsideFrame(par, c, l);
    var ins :| Progress(par, c, a, l.t, ins);
    assert Progress(par, c', a, l.t, ins + [InputOf(c, pc.cs, l)]) by { InsideProgress(par, c, l, a, ins); }
    SectionMove(par, c, c', a, l.t, c'.threads[l.t], ins + [InputOf(c, pc.cs, l)]);
  }

  // ----- Giving the lock back is the atomic action -----

  lemma OwnIsNotForeign(c: Config, a: Atomic, p: string, cs: Cs, ins: seq<Input>)
    requires IdsOk(c) && !cs.ReserveSave?
    requires forall id | id in a.store.reservations ::
      id in c.store.reservations && a.store.reservations[id].productId == c.store.reservations[id].productId
    requires forall i | i in ins :: Own(i.id, p, cs, c.store)
    ensures NoForeign(IdsOf(ins), a.store, p)
  {
    forall id | id in IdsOf(ins) && id in a.store.reservations ensures a.store.reservations[id].productId == p {
      assert Own(id, p, cs, c.store);
      if n: nat :| id == MakeId(EVT, n) {
        assert Drawn(RES, id, c.counter);
        var k: nat :| 1 <= k <= c.counter && id == MakeId(RES, k);
        MakeIdInjective(EVT, n, RES, k);
      }
    }
  }

  ghost predicate SubRel(c: Config, a: Atomic) {
    forall id | id in a.store.reservations ::
      id in c.store.reservations && a.store.reservations[id].productId == c.store.reservations[id].productId
  }

  /** The section that ends with this release, run at once on the atomic store. */
  lemma SectionFires(par: Params, c: Config, a: Atomic, t: nat, ins: seq<Input>) returns (a': Atomic)
    requires IdsOk(c) && SubRel(c, a) && t < |c.threads| && t < |a.threads|
    requires c.threads[t].Inside? && c.threads[t].cs.Finished?
    requires Progress(par, c, a, t, ins)
    ensures var pc := c.threads[t];
      && ASection(par, a, a', t, pc.p, pc.job, pc.ret)
      && a'.threads == a.threads[t := AResumed(pc.ret, pc.cs.out)]
      && a'.seen == a.seen[pc.p := c.clock]
      && Restrict(a'.store, pc.p) == Restrict(c.store, pc.p)
      && (forall q | q != pc.p :: Restrict(a'.store, q) == Restrict(a.store, q))
      && Evolves(a.store, a'.store)
  {
    var pc := c.threads[t];
    OwnIsNotForeign(c, a, pc.p, pc.cs, ins);
    RunLocal(par, pc.p, Begin(pc.job), a.store, ins);
    var s' := Run(par, pc.p, Begin(pc.job), a.store, ins).1;
    a' := Atomic(s', a.seen[pc.p := c.clock], a.threads[t := AResumed(pc.ret, pc.cs.out)]);
  }

  /** `a'` is `a` after the section of product `p` has fired. */
  ghost predicate Fired(c: Config, a: Atomic, a': Atomic, p: string) {
    && Restrict(a'.store, p) == Restrict(c.store, p)
    && (forall q | q != p :: Restrict(a'.store, q) == Restrict(a.store, q))
    && Evolves(a.store, a'.store)
    && a'.seen == a.seen[p := c.clock]
  }

  lemma FiredProgress(par: Params, c: Config, c': Config, a: Atomic, a': Atomic, t: nat, u: nat, ins: seq<Input>)
    requires HoldersOk(c) && t < |c.threads| && c.threads[t].Inside? && Fired(c, a, a', c.threads[t].p)
    requires u < |c.threads| && u != t && c.threads[u].Inside? && Progress(par, c, a, u, ins)
    requires c'.store == c.store && c'.clock == c.clock && u < |c'.threads| && c'.threads[u] == c.threads[u]
    ensures Progress(par, c', a', u, ins)
  {
    InsideElsewhere(c, t, u);
  }

  lemma FiredSub(c: Config, a: Atomic, a': Atomic, p: string)
    requires SubRel(c, a) && Fired(c, a, a', p)
    ensures SubRel(c, a')
  {
    forall id | id in a'.store.reservations
      ensures id in c.store.reservations && a'.store.reservations[id].productId == c.store.reservations[id].productId
    {
      var q := a'.store.reservations[id].productId;
      assert id in Restrict(a'.store, q).reservations;
      if q == p {
        assert id in Restrict(c.store, p).reservations;
      } else {
        assert id in Restrict(a.store, q).reservations;
      }
    }
  }

  lemma ReleaseStoreRel(par: Params, c: Config, c': Config, a: Atomic, a': Atomic, t: nat, pc': Pc)
    requires HoldersOk(c) && StoreRel(par, c, a) && Moves(c, c', t, pc')
    requires c'.store == c.store && c'.clock == c.clock
    requires c.threads[t].Inside? && !pc'.Inside? && Fired(c, a, a', c.threads[t].p)
    ensures StoreRel(par, c', a')
  {
    var p := c.threads[t].p;
    forall q | Free(c', q) ensures Restrict(a'.store, q) == Restrict(c'.store, q) {
      if q != p { FreeBefore(c, c', t, pc', q); }
    }
    forall u | 0 <= u < |c'.threads| && c'.threads[u].Inside? ensures exists ins :: Progress(par, c', a', u, ins) {
      var ins :| Progress(par, c, a, u, ins);
      FiredProgress(par, c, c', a, a', t, u, ins);
    }
    FiredSub(c, a, a', p);
  }

  // ----- The simulation -----

  /** `a` is followed by nothing, or by one atomic action of thread `t`. */
  ghost predicate Matches(par: Params, a: Atomic, a': Atomic, t: nat) {
    a' == a || AStep(par, a, a', t)
  }

  lemma ReleaseThreads(c: Config, c': Config, a: Atomic, a': Atomic, t: nat)
    requires ThreadsRel(c, a) && t < |c.threads| && c.threads[t].Inside? && c.threads[t].cs.Finished?
    requires Moves(c, c', t, Resumed(c.threads[t].ret, c.threads[t].cs.out))
    requires a'.threads == a.threads[t := AResumed(c.threads[t].ret, c.threads[t].cs.out)]
    ensures ThreadsRel(c', a')
  {
  }

  lemma ReleaseSimulates(par: Params, c: Config, l: Label, a: Atomic) returns (a': Atomic)
    requires ThreadsRel(c, a) && StoreRel(par, c, a) && IdsOk(c) && HoldersOk(c)
    requires l.t < |c.threads| && c.threads[l.t].Inside? && c.threads[l.t].cs.Finished?
    requires Next(par, c, l).Some?
    ensures AStep(par, a, a', l.t)
    ensures ThreadsRel(Next(par, c, l).value, a') && StoreRel(par, Next(par, c, l).value, a')
    ensures forall q | q != c.threads[l.t].p :: Restrict(a'.store, q) == Restrict(a.store, q)
  {
    a' := ReleaseFires(par, c, Next(par, c, l).value, a, l.t);
  }

  lemma ReleaseFires(par: Params, c: Config, c': Config, a: Atomic, t: nat) returns (a': Atomic)
    requires ThreadsRel(c, a) && StoreRel(par, c, a) && IdsOk(c) && HoldersOk(c)
    requires t < |c.threads| && c.threads[t].Inside? && c.threads[t].cs.Finished?
    requires Moves(c, c', t, Resumed(c.threads[t].ret, c.threads[t].cs.out))
    requires c'.store == c.store && c'.clock == c.clock
    ensures AStep(par, a, a', t) && ThreadsRel(c', a') && StoreRel(par, c', a')
    ensures forall q | q != c.threads[t].p :: Restrict(a'.store, q) == Restrict(a.store, q)
  {
    var ins :| Progress(par, c, a, t, ins);
    a' := SectionFires(par, c, a, t, ins);
    ReleaseIsAStep(par, c, a, a', t, ins);
    ReleaseThreads(c, c', a, a', t);
    ReleaseStoreRel(par, c, c', a, a', t, Resumed(c.threads[t].ret, c.threads[t].cs.out));
  }

  lemma ReleaseIsAStep(par: Params, c: Config, a: Atomic, a': Atomic, t: nat, ins: seq<Input>)
    requires ThreadsRel(c, a) && t < |c.threads| && c.threads[t].Inside?
    requires Progress(par, c, a, t, ins)
    requires ASection(par, a, a', t, c.threads[t].p, c.threads[t].job, c.threads[t].ret)
    ensures AStep(par, a, a', t)
  {
    var pc := c.threads[t];
    assert PcRel(pc, a.threads[t]);
    assert JobOk(Restrict(a.store, pc.p), pc.job);
    match pc.ret
    case Reply =>
    case SweepOn(now, rest, total) =>
      assert ([Group(pc.p, pc.job.ids)] + rest)[1..] == rest;
  }

  lemma LookupSimulates(par: Params, c: Config, l: Label, a: Atomic, id: string) returns (a': Atomic)
    requires ThreadsRel(c, a) && SubRel(c, a) && l.t < |c.threads| && Next(par, c, l).Some?
    requires c.threads[l.t] == Called(ConfirmOp(id)) || c.threads[l.t] == Called(CancelOp(id))
    ensures Matches(par, a, a', l.t) && a'.store == a.store && a'.seen == a.seen
    ensures ThreadsRel(Next(par, c, l).value, a')
  {
    assert PcRel(c.threads[l.t], a.threads[l.t]);
    a' := if id in c.store.reservations then a
          else a.(threads := a.threads[l.t := ADone(Failed(ReservationNotFound))]);
  }

  lemma StockSimulates(par: Params, c: Config, l: Label, a: Atomic, p: string) returns (a': Atomic)
    requires Rel(par, c, a) && l.t < |c.threads| && Next(par, c, l).Some?
    requires c.threads[l.t] == Called(StockOp(p))
    ensures Matches(par, a, a', l.t) && a'.store == a.store && a'.seen == a.seen
    ensures ThreadsRel(Next(par, c, l).value, a')
  {
    assert PcRel(c.threads[l.t], a.threads[l.t]);
    if p in c.store.products {
      StoreIsGlimpse(par, c, a);
      a' := a.(threads := a.threads[l.t := ADone(Stock(c.store.products[p].AvailableStock()))]);
    } else {
      a' := a.(threads := a.threads[l.t := ADone(Failed(ProductNotFound))]);
    }
  }

  lemma BegunIsStartable(par: Params, p: string, job: Job, v: Store)
    requires Local(par, p, Begin(job), v)
    ensures JobOk(v, job)
  {
  }

  lemma BusyIsUnderWay(par: Params, c: Config, a: Atomic, t: nat, ins: seq<Input>)
    requires ThreadsRel(c, a) && t < |c.threads| && c.threads[t].Inside? && Progress(par, c, a, t, ins)
    ensures var pc := c.threads[t]; UnderWay(par, a, t, pc.p, pc.job, pc.ret, Restrict(c.store, pc.p))
  {
    var pc := c.threads[t];
    BegunIsStartable(par, pc.p, pc.job, Restrict(a.store, pc.p));
    assert PcRel(pc, a.threads[t]);
  }

  /** What a reader without a lock finds is a glimpse of the atomic store. */
  lemma StoreIsGlimpse(par: Params, c: Config, a: Atomic)
    requires ThreadsRel(c, a) && StoreRel(par, c, a)
    ensures Glimpse(par, a, c.store)
  {
    forall p | !Free(c, p)
      ensures exists t: nat, job: Job, ret: Ret :: UnderWay(par, a, t, p, job, ret, Restrict(c.store, p))
    {
      var t :| 0 <= t < |c.threads| && InsideOf(c, t, p);
      var ins :| Progress(par, c, a, t, ins);
      BusyIsUnderWay(par, c, a, t, ins);
    }
  }

  lemma SnapshotSimulates(par: Params, c: Config, l: Label, a: Atomic, now: int) returns (a': Atomic)
    requires Rel(par, c, a) && l.t < |c.threads| && Next(par, c, l).Some?
    requires c.threads[l.t] == Called(SweepOp(now))
    ensures Matches(par, a, a', l.t) && a'.store == a.store && a'.seen == a.seen
    ensures ThreadsRel(Next(par, c, l).value, a')
  {
    assert PcRel(c.threads[l.t], a.threads[l.t]);
    StoreIsGlimpse(par, c, a);
    a' := a.(threads := a.threads[l.t := ASweep(now, l.groups, 0)]);
  }

  lemma CalledSimulates(par: Params, c: Config, l: Label, a: Atomic) returns (a': Atomic)
    requires Rel(par, c, a) && l.t < |c.threads| && c.threads[l.t].Called? && Next(par, c, l).Some?
    ensures Matches(par, a, a', l.t) && a'.store == a.store && a'.seen == a.seen
    ensures ThreadsRel(Next(par, c, l).value, a')
  {
    assert PcRel(c.threads[l.t], a.threads[l.t]);
    match c.threads[l.t].op
    case ReserveOp(_, _) => a' := a;
    case ConfirmOp(id) => a' := LookupSimulates(par, c, l, a, id);
    case CancelOp(id) => a' := LookupSimulates(par, c, l, a, id);
    case SweepOp(now) => a' := SnapshotSimulates(par, c, l, a, now);
    case StockOp(p) => a' := StockSimulates(par, c, l, a, p);
  }

  lemma WaitingSimulates(par: Params, c: Config, l: Label, a: Atomic) returns (a': Atomic)
    requires Rel(par, c, a) && l.t < |c.threads| && Next(par, c, l).Some?
    requires c.threads[l.t].NeedLock? || c.threads[l.t].Sweeping?
    ensures Matches(par, a, a', l.t) && a'.store == a.store && a'.seen == a.seen
    ensures ThreadsRel(Next(par, c, l).value, a')
  {
    assert PcRel(c.threads[l.t], a.threads[l.t]);
    a' := a;
    if c.threads[l.t].Sweeping? {
      a' := SweepingSimulates(par, c, l, a);
    }
  }

  lemma SweepingSimulates(par: Params, c: Config, l: Label, a: Atomic) returns (a': Atomic)
    requires ThreadsRel(c, a) && l.t < |c.threads| && Next(par, c, l).Some? && c.threads[l.t].Sweeping?
    ensures Matches(par, a, a', l.t) && a'.store == a.store && a'.seen == a.seen
    ensures ThreadsRel(Next(par, c, l).value, a')
  {
    assert PcRel(c.threads[l.t], a.threads[l.t]);
    var groups := c.threads[l.t].groups;
    if groups == [] {
      a' := a.(threads := a.threads[l.t := ADone(Swept(c.threads[l.t].total))]);
    } else {
      a' := a;
      assert [Group(groups[0].product, groups[0].ids)] + groups[1..] == groups;
    }
  }

  lemma AcquireSimulates(par: Params, c: Config, l: Label, a: Atomic)
    requires Rel(par, c, a) && l.t < |c.threads| && c.threads[l.t].NeedMutex? && Next(par, c, l).Some?
    ensures ThreadsRel(Next(par, c, l).value, a) && StoreRel(par, Next(par, c, l).value, a)
  {
    var c', pc := Next(par, c, l).value, c.threads[l.t];
    NobodyHolds(c, l.t);
    assert Under(par, pc.p, Begin(pc.job), Restrict(c.store, pc.p)) by {
      assert WaitOk(pc, c.store);
      BeginIsMid(par, false, pc.p, pc.job, Restrict(c.store, pc.p));
    }
    StutterAcquire(par, c, c', a, l.t, c'.threads[l.t]);
  }

  lemma OutsideSimulates(par: Params, c: Config, l: Label, a: Atomic) returns (a': Atomic)
    requires Rel(par, c, a) && l.t < |c.threads| && Next(par, c, l).Some?
    requires c.threads[l.t].Called? || c.threads[l.t].NeedLock? || c.threads[l.t].Sweeping?
    ensures Matches(par, a, a', l.t) && a'.store == a.store
    ensures ThreadsRel(Next(par, c, l).value, a') && StoreRel(par, Next(par, c, l).value, a')
  {
    var c' := Next(par, c, l).value;
    OutsideShape(par, c, l);
    if c.threads[l.t].Called? {
      a' := CalledSimulates(par, c, l, a);
    } else {
      a' := WaitingSimulates(par, c, l, a);
    }
    StutterOutside(par, c, c', a, l.t, c'.threads[l.t]);
    SameStoreRel(par, c', a, a');
  }

  lemma SameStoreRel(par: Params, c: Config, a: Atomic, a': Atomic)
    requires StoreRel(par, c, a) && a'.store == a.store && a'.seen == a.seen
    ensures StoreRel(par, c, a')
  {
    forall t | 0 <= t < |c.threads| && c.threads[t].Inside? ensures exists ins :: Progress(par, c, a', t, ins) {
      var ins :| Progress(par, c, a, t, ins);
      assert Progress(par, c, a', t, ins);
    }
  }

  lemma OutsideShape(par: Params, c: Config, l: Label)
    requires l.t < |c.threads| && Next(par, c, l).Some?
    requires c.threads[l.t].Called? || c.threads[l.t].NeedLock? || c.threads[l.t].Sweeping?
    ensures var c' := Next(par, c, l).value;
      && Moves(c, c', l.t, c'.threads[l.t]) && !c'.threads[l.t].Inside?
      && c'.store == c.store && c.clock <= c'.clock
  {
    match c.threads[l.t]
    case Called(SweepOp(_)) =>
    case _ =>
  }

  /** Each step of each thread is matched by at most one atomic action of that thread. */
  lemma StepSimulates(par: Params, c: Config, l: Label, a: Atomic) returns (a': Atomic)
    requires Rel(par, c, a) && Next(par, c, l).Some?
    ensures Matches(par, a, a', l.t) && Rel(par, Next(par, c, l).value, a')
    ensures forall q | !Free(Next(par, c, l).value, q) :: Restrict(a'.store, q) == Restrict(a.store, q)
  {
    NextKeepsInv(par, false, c, l);
    match c.threads[l.t]
    case Called(_) => a' := OutsideSimulates(par, c, l, a);
    case NeedLock(_, _, _) => a' := OutsideSimulates(par, c, l, a);
    case Sweeping(_, _, _) => a' := OutsideSimulates(par, c, l, a);
    case NeedMutex(_, _, _, _) =>
      a' := a;
      AcquireSimulates(par, c, l, a);
    case Inside(_, _, _, cs, _) =>
      if cs.Finished? {
        a' := ReleaseSimulates(par, c, l, a);
        ReleaseFrees(par, c, l);
      } else {
        a' := a;
        StutterInside(par, c, l, a);
        InsideThreads(par, c, l, a);
      }
    case Done(_) =>
  }

  lemma ReleaseFrees(par: Params, c: Config, l: Label)
    requires HoldersOk(c) && Next(par, c, l).Some?
    requires c.threads[l.t].Inside? && c.threads[l.t].cs.Finished?
    ensures Free(Next(par, c, l).value, c.threads[l.t].p)
  {
    var c', p := Next(par, c, l).value, c.threads[l.t].p;
    forall u | 0 <= u < |c'.threads| ensures !InsideOf(c', u, p) {
      if u != l.t && c.threads[u].Inside? { InsideElsewhere(c, u, l.t); }
    }
  }

  lemma InsideThreads(par: Params, c: Config, l: Label, a: Atomic)
    requires ThreadsRel(c, a) && Next(par, c, l).Some?
    requires l.t < |c.threads| && c.threads[l.t].Inside? && !c.threads[l.t].cs.Finished?
    ensures ThreadsRel(Next(par, c, l).value, a)
  {
  }

  // ----- The start -----

  function Start(c: Config): Atomic {
    Atomic(c.store, map[], seq(|c.threads|, t requires 0 <= t < |c.threads| =>
      if c.threads[t].Called? then ATodo(c.threads[t].op) else ADone(Swept(0))))
  }

  lemma StartRel(par: Params, c0: Config)
    requires Initial(c0)
    ensures Rel(par, c0, Start(c0))
  {
    InitialInv(par, false, c0);
    assert StoreRel(par, c0, Start(c0));
  }
}
