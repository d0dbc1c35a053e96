/** The invariant of the whole system and the proof that every step of every schedule
    keeps it. What `exact` adds is kept by every step that ends only Active reservations,
    so by every step of a system whose sweeps re-check under the lock. */
module Safety {
  import opened Ids
  import opened Stores
  import opened Accounts
  import opened Section
  import opened SectionInvariant
  import opened Locality
  import opened Interleaving

  // ----- Locks -----

  /** Bound keys have mutexes of their own. */
  predicate LocksOk(c: Config) {
    && (forall k | k in c.locks :: c.locks[k] < |c.locks|)
    && (forall j, k | j in c.locks && k in c.locks && c.locks[j] == c.locks[k] :: j == k)
  }

  /** A thread that was given a mutex was given its key's one, and a held mutex belongs to
      the thread inside it. */
  predicate HoldersOk(c: Config) {
    && (forall t | 0 <= t < |c.threads| && (c.threads[t].NeedMutex? || c.threads[t].Inside?) ::
          c.threads[t].p in c.locks && c.locks[c.threads[t].p] == c.threads[t].m)
    && (forall t | 0 <= t < |c.threads| && c.threads[t].Inside? ::
          c.threads[t].m in c.held && c.held[c.threads[t].m] == t)
    && (forall m | m in c.held ::
          c.held[m] < |c.threads| && c.threads[c.held[m]].Inside? && c.threads[c.held[m]].m == m)
  }

  predicate InsideOf(c: Config, t: nat, p: string) {
    t < |c.threads| && c.threads[t].Inside? && c.threads[t].p == p
  }

  /** Nobody is in the critical section of `p`. */
  predicate Free(c: Config, p: string) {
    forall t | 0 <= t < |c.threads| :: !InsideOf(c, t, p)
  }

  // ----- Slices -----

  ghost predicate SliceOk(par: Params, exact: bool, c: Config, t: nat)
    requires t < |c.threads| && c.threads[t].Inside?
  {
    Mid(par, exact, c.threads[t].p, c.threads[t].cs, Restrict(c.store, c.threads[t].p))
  }

  ghost predicate SlicesOk(par: Params, exact: bool, c: Config) {
    && (forall t | 0 <= t < |c.threads| && c.threads[t].Inside? :: SliceOk(par, exact, c, t))
    && (forall p | Free(c, p) :: Rest(par.holdFor, exact, p, Restrict(c.store, p)))
  }

  // ----- What threads outside their section rely on -----

  ghost predicate GroupsOk(groups: seq<Group>, s: Store, now: int) {
    forall g | g in groups :: QueueOk(Restrict(s, g.product), g.ids, now, SweepExit(0))
  }

  ghost predicate RetOk(ret: Ret, s: Store) {
    ret.SweepOn? ==> GroupsOk(ret.rest, s, ret.now)
  }

  ghost predicate WaitOk(pc: Pc, s: Store) {
    match pc
    case NeedLock(p, job, ret) => JobOk(Restrict(s, p), job) && RetOk(ret, s)
    case NeedMutex(p, _, job, ret) => JobOk(Restrict(s, p), job) && RetOk(ret, s)
    case Inside(_, _, _, _, ret) => RetOk(ret, s)
    case Sweeping(now, groups, _) => GroupsOk(groups, s, now)
    case Done(out) => out.Stock? ==> out.available >= 0
    case Called(_) => true
  }

  ghost predicate WaitsOk(c: Config) {
    forall t | 0 <= t < |c.threads| :: WaitOk(c.threads[t], c.store)
  }

  // ----- Identifiers -----

  predicate PendingRes(pc: Pc) {
    pc.Inside? && pc.cs.ReserveSave?
  }

  predicate PendingEvt(pc: Pc) {
    pc.Inside? && (pc.cs.EndAppend? || pc.cs.RejectAppend? || pc.cs.ReservedAppend?)
  }

  /** The id a thread has drawn and not yet stored. */
  function PendingId(pc: Pc): string
    requires PendingRes(pc) || PendingEvt(pc)
  {
    if PendingRes(pc) then pc.cs.res.reservationId else pc.cs.evt
  }

  ghost predicate PendingOk(pc: Pc, s: Store, n: nat) {
    && (PendingRes(pc) ==> Drawn(RES, PendingId(pc), n) && PendingId(pc) !in s.reservations)
    && (PendingEvt(pc) ==> Drawn(EVT, PendingId(pc), n))
    && (PendingEvt(pc) ==> forall i | 0 <= i < |s.events| :: s.events[i].eventId != PendingId(pc))
  }

  predicate HasPending(pc: Pc) {
    PendingRes(pc) || PendingEvt(pc)
  }

  ghost predicate IdsOk(c: Config) {
    && IdsFrom(c.store, c.counter)
    && (forall t | 0 <= t < |c.threads| :: PendingOk(c.threads[t], c.store, c.counter))
    && (forall t, u | 0 <= t < u < |c.threads| && HasPending(c.threads[t]) && HasPending(c.threads[u]) ::
          PendingId(c.threads[t]) != PendingId(c.threads[u]))
  }

  /** The global invariant. */
  ghost predicate Inv(par: Params, exact: bool, c: Config) {
    LocksOk(c) && HoldersOk(c) && SlicesOk(par, exact, c) && WaitsOk(c) && IdsOk(c)
  }

  /** If this step ends a reservation, the reservation it loaded is Active. */
  predicate Sound(c: Config, l: Label) {
    l.t < |c.threads| && c.threads[l.t].Inside? ==> Promise(c.threads[l.t].cs)
  }

  /** Every step of the schedule that ends a reservation loaded an Active one. */
  ghost predicate SoundRun(par: Params, c0: Config, ls: seq<Label>)
    decreases |ls|
  {
    ls == [] ||
    var n := |ls| - 1;
    && SoundRun(par, c0, ls[..n])
    && (Exec(par, c0, ls[..n]).Some? ==> Sound(Exec(par, c0, ls[..n]).value, ls[n]))
  }

  // ----- It holds at the start -----

  lemma InitialInv(par: Params, exact: bool, c: Config)
    requires Initial(c)
    ensures Inv(par, exact, c)
  {
    forall p ensures Rest(par.holdFor, exact, p, Restrict(c.store, p)) {
      FreshIsQuiet(par.holdFor, p, Restrict(c.store, p));
    }
  }

  // ----- Consequences used by the step lemmas -----

  /** At most one thread is inside the critical section of a product. */
  lemma MutualExclusion(c: Config, p: string, t: nat, u: nat)
    requires HoldersOk(c) && InsideOf(c, t, p) && InsideOf(c, u, p)
    ensures t == u
  {
  }

  lemma InsideElsewhere(c: Config, t: nat, u: nat)
    requires HoldersOk(c) && t < |c.threads| && u < |c.threads| && t != u
    requires c.threads[t].Inside? && c.threads[u].Inside?
    ensures c.threads[t].p != c.threads[u].p
  {
  }

  lemma JobSurvives(s: Store, t: Store, p: string, job: Job)
    requires Evolves(s, t) && JobOk(Restrict(s, p), job)
    ensures JobOk(Restrict(t, p), job)
  {
  }

  lemma GroupsSurvive(s: Store, t: Store, groups: seq<Group>, now: int)
    requires Evolves(s, t) && GroupsOk(groups, s, now)
    ensures GroupsOk(groups, t, now)
  {
    forall g | g in groups ensures QueueOk(Restrict(t, g.product), g.ids, now, SweepExit(0)) {
      JobSurvives(s, t, g.product, SweepJob(g.ids, now));
    }
  }

  lemma WaitSurvives(pc: Pc, s: Store, t: Store)
    requires Evolves(s, t) && WaitOk(pc, s)
    ensures WaitOk(pc, t)
  {
    match pc
    case NeedLock(p, job, ret) =>
      JobSurvives(s, t, p, job);
      if ret.SweepOn? { GroupsSurvive(s, t, ret.rest, ret.now); }
    case NeedMutex(p, _, job, ret) =>
      JobSurvives(s, t, p, job);
      if ret.SweepOn? { GroupsSurvive(s, t, ret.rest, ret.now); }
    case Inside(_, _, _, _, ret) => if ret.SweepOn? { GroupsSurvive(s, t, ret.rest, ret.now); }
    case Sweeping(now, groups, _) => GroupsSurvive(s, t, groups, now);
    case _ =>
  }

  // ----- Steps outside critical sections -----

  /** `c'` is `c` with thread `t` moved to `pc'`. */
  predicate Moves(c: Config, c': Config, t: nat, pc': Pc) {
    t < |c.threads| && c'.threads == c.threads[t := pc']
  }

  lemma IdsUntouched(c: Config, c': Config, t: nat, pc': Pc)
    requires Moves(c, c', t, pc') && IdsOk(c)
    requires c'.store == c.store && c'.counter == c.counter && !HasPending(pc')
    ensures IdsOk(c')
  {
    forall u | 0 <= u < |c'.threads| ensures PendingOk(c'.threads[u], c'.store, c'.counter) {
      assert u != t ==> PendingOk(c.threads[u], c.store, c.counter);
    }
  }

  lemma WaitsUntouched(c: Config, c': Config, t: nat, pc': Pc)
    requires Moves(c, c', t, pc') && WaitsOk(c)
    requires c'.store == c.store && WaitOk(pc', c.store)
    ensures WaitsOk(c')
  {
    forall u | 0 <= u < |c'.threads| ensures WaitOk(c'.threads[u], c'.store) {
      assert u != t ==> WaitOk(c.threads[u], c.store);
    }
  }

  lemma SlicesUntouched(par: Params, exact: bool, c: Config, c': Config, t: nat, pc': Pc)
    requires Moves(c, c', t, pc') && SlicesOk(par, exact, c)
    requires c'.store == c.store && !c.threads[t].Inside? && !pc'.Inside?
    ensures SlicesOk(par, exact, c')
  {
    forall u | 0 <= u < |c'.threads| && c'.threads[u].Inside? ensures SliceOk(par, exact, c', u) {
      assert SliceOk(par, exact, c, u);
    }
    forall p | Free(c', p) ensures Rest(par.holdFor, exact, p, Restrict(c'.store, p)) {
      FreeBefore(c, c', t, pc', p);
    }
  }

  lemma FreeBefore(c: Config, c': Config, t: nat, pc': Pc, p: string)
    requires Moves(c, c', t, pc') && Free(c', p) && !InsideOf(c, t, p)
    ensures Free(c, p)
  {
    forall u | 0 <= u < |c.threads| ensures !InsideOf(c, u, p) {
      assert !InsideOf(c', u, p);
    }
  }

  lemma OutsideMove(par: Params, exact: bool, c: Config, c': Config, t: nat, pc': Pc)
    requires Inv(par, exact, c) && Moves(c, c', t, pc')
    requires c'.store == c.store && c'.counter == c.counter && c'.held == c.held
    requires !c.threads[t].Inside? && !pc'.Inside? && WaitOk(pc', c.store)
    requires LocksOk(c') && forall k | k in c.locks :: k in c'.locks && c'.locks[k] == c.locks[k]
    requires pc'.NeedMutex? ==> pc'.p in c'.locks && c'.locks[pc'.p] == pc'.m
    ensures Inv(par, exact, c')
  {
    IdsUntouched(c, c', t, pc');
    WaitsUntouched(c, c', t, pc');
    SlicesUntouched(par, exact, c, c', t, pc');
    OutsideHolders(c, c', t, pc');
  }

  lemma NewLockOk(c: Config, p: string)
    requires LocksOk(c)
    ensures var m := if p in c.locks then c.locks[p] else |c.locks|;
      var locks := c.locks[p := m];
      LocksOk(c.(locks := locks)) && forall k | k in c.locks :: k in locks && locks[k] == c.locks[k]
  {
    if p in c.locks {
      assert c.locks[p := c.locks[p]] == c.locks;
    }
  }

  /** The stock a lock-free reader computes. */
  lemma StockIsNonNegative(par: Params, exact: bool, c: Config, p: string)
    requires Inv(par, exact, c)
    ensures Solvent(p, c.store)
  {
    var v := Restrict(c.store, p);
    assert p in c.store.products ==> v.products[p] == c.store.products[p];
    assert Solvent(p, v) by {
      if Free(c, p) {
        assert Rest(par.holdFor, exact, p, v);
      } else {
        var t :| 0 <= t < |c.threads| && InsideOf(c, t, p);
        assert SliceOk(par, exact, c, t);
      }
    }
  }

  /** A reservation that exists belongs to a slice in order. */
  lemma SliceIsKeyed(par: Params, exact: bool, c: Config, p: string)
    requires Inv(par, exact, c)
    ensures WellKeyed(par.holdFor, p, Restrict(c.store, p))
  {
    if !Free(c, p) {
      var t :| 0 <= t < |c.threads| && InsideOf(c, t, p);
      assert SliceOk(par, exact, c, t);
    }
  }

  lemma CollectedOk(par: Params, exact: bool, c: Config, groups: seq<Group>, now: int)
    requires Inv(par, exact, c) && Collects(groups, c.store, now)
    ensures GroupsOk(groups, c.store, now)
  {
    forall g | g in groups ensures QueueOk(Restrict(c.store, g.product), g.ids, now, SweepExit(0)) {
      assert Enumerates(g.ids, c.store.StaleIds(g.product, now));
    }
  }

  lemma CalledWaits(par: Params, exact: bool, c: Config, l: Label)
    requires Inv(par, exact, c) && l.t < |c.threads| && c.threads[l.t].Called?
    requires Next(par, c, l).Some?
    ensures WaitOk(Next(par, c, l).value.threads[l.t], c.store)
  {
    match c.threads[l.t].op
    case ReserveOp(_, _) =>
    case ConfirmOp(id) =>
      if id in c.store.reservations { SliceIsKeyed(par, exact, c, c.store.reservations[id].productId); }
    case CancelOp(id) =>
      if id in c.store.reservations { SliceIsKeyed(par, exact, c, c.store.reservations[id].productId); }
    case SweepOp(now) => CollectedOk(par, exact, c, l.groups, now);
    case StockOp(p) => StockIsNonNegative(par, exact, c, p);
  }

  lemma CalledShape(par: Params, c: Config, l: Label)
    requires l.t < |c.threads| && c.threads[l.t].Called? && Next(par, c, l).Some?
    ensures var c' := Next(par, c, l).value; var pc' := c'.threads[l.t];
      && Moves(c, c', l.t, pc') && c'.store == c.store && c'.counter == c.counter
      && c'.held == c.held && c'.locks == c.locks && !pc'.Inside? && !pc'.NeedMutex?
  {
    match c.threads[l.t].op
    case SweepOp(_) =>
    case _ =>
  }

  lemma CalledStep(par: Params, exact: bool, c: Config, l: Label)
    requires Inv(par, exact, c) && l.t < |c.threads| && c.threads[l.t].Called?
    requires Next(par, c, l).Some?
    ensures Inv(par, exact, Next(par, c, l).value)
  {
    var c' := Next(par, c, l).value;
    CalledShape(par, c, l);
    assert WaitOk(c'.threads[l.t], c.store) by { CalledWaits(par, exact, c, l); }
    OutsideMove(par, exact, c, c', l.t, c'.threads[l.t]);
  }

  lemma WaitingStep(par: Params, exact: bool, c: Config, l: Label)
    requires Inv(par, exact, c) && l.t < |c.threads|
    requires c.threads[l.t].NeedLock? || c.threads[l.t].Sweeping?
    requires Next(par, c, l).Some?
    ensures Inv(par, exact, Next(par, c, l).value)
  {
    var c' := Next(par, c, l).value;
    var pc := c.threads[l.t];
    assert WaitOk(pc, c.store);
    if pc.NeedLock? {
      NewLockOk(c, pc.p);
    } else if pc.groups != [] {
      assert pc.groups[0] in pc.groups;
      assert forall g | g in pc.groups[1..] :: g in pc.groups;
    }
    OutsideMove(par, exact, c, c', l.t, c'.threads[l.t]);
  }

  // ----- Taking and giving back a product lock -----

  lemma NobodyHolds(c: Config, t: nat)
    requires LocksOk(c) && HoldersOk(c) && t < |c.threads| && c.threads[t].NeedMutex?
    requires c.threads[t].m !in c.held
    ensures Free(c, c.threads[t].p)
  {
  }

  lemma AcquireHolders(c: Config, c': Config, t: nat, pc': Pc)
    requires LocksOk(c) && HoldersOk(c) && t < |c.threads| && c.threads[t].NeedMutex? && c.threads[t].m !in c.held
    requires Moves(c, c', t, pc') && pc'.Inside? && pc'.p == c.threads[t].p && pc'.m == c.threads[t].m
    requires c'.locks == c.locks && c'.held == c.held[pc'.m := t]
    ensures HoldersOk(c')
  {
  }

  lemma AcquireSlices(par: Params, exact: bool, c: Config, c': Config, t: nat, pc': Pc)
    requires Moves(c, c', t, pc') && SlicesOk(par, exact, c) && c'.store == c.store
    requires !c.threads[t].Inside? && pc'.Inside? && Mid(par, exact, pc'.p, pc'.cs, Restrict(c.store, pc'.p))
    ensures SlicesOk(par, exact, c')
  {
    forall u | 0 <= u < |c'.threads| && c'.threads[u].Inside? ensures SliceOk(par, exact, c', u) {
      if u != t { assert SliceOk(par, exact, c, u); }
    }
    forall p | Free(c', p) ensures Rest(par.holdFor, exact, p, Restrict(c'.store, p)) {
      FreeBefore(c, c', t, pc', p);
    }
  }

  lemma AcquireIsMid(par: Params, exact: bool, c: Config, t: nat)
    requires Inv(par, exact, c) && t < |c.threads| && c.threads[t].NeedMutex? && c.threads[t].m !in c.held
    ensures Mid(par, exact, c.threads[t].p, Begin(c.threads[t].job), Restrict(c.store, c.threads[t].p))
  {
    var pc := c.threads[t];
    NobodyHolds(c, t);
    assert WaitOk(pc, c.store) && Rest(par.holdFor, exact, pc.p, Restrict(c.store, pc.p));
    BeginIsMid(par, exact, pc.p, pc.job, Restrict(c.store, pc.p));
  }

  lemma AcquireWaits(c: Config, c': Config, t: nat, pc': Pc)
    requires WaitsOk(c) && t < |c.threads| && c.threads[t].NeedMutex?
    requires Moves(c, c', t, pc') && c'.store == c.store && pc'.Inside? && pc'.ret == c.threads[t].ret
    ensures WaitsOk(c')
  {
    assert WaitOk(c.threads[t], c.store);
    WaitsUntouched(c, c', t, pc');
  }

  lemma AcquireInto(par: Params, exact: bool, c: Config, c': Config, t: nat, pc': Pc)
    requires Inv(par, exact, c) && t < |c.threads| && c.threads[t].NeedMutex? && c.threads[t].m !in c.held
    requires Moves(c, c', t, pc') && c'.store == c.store
    requires pc'.Inside? && pc'.p == c.threads[t].p && pc'.cs == Begin(c.threads[t].job)
    ensures SlicesOk(par, exact, c')
  {
    AcquireIsMid(par, exact, c, t);
    AcquireSlices(par, exact, c, c', t, pc');
  }

  lemma BeginPendsNothing(pc: Pc)
    requires pc.Inside? && pc.cs == Begin(pc.job)
    ensures !HasPending(pc)
  {
    match pc.job
    case ReserveJob(_) =>
    case _ =>
  }

  lemma AcquireMove(par: Params, exact: bool, c: Config, c': Config, t: nat, pc': Pc)
    requires Inv(par, exact, c) && t < |c.threads| && c.threads[t].NeedMutex? && c.threads[t].m !in c.held
    requires Moves(c, c', t, pc') && c'.store == c.store && c'.counter == c.counter
    requires pc'.Inside? && pc'.p == c.threads[t].p && pc'.m == c.threads[t].m
    requires pc'.cs == Begin(pc'.job) && pc'.job == c.threads[t].job && pc'.ret == c.threads[t].ret
    requires c'.locks == c.locks && c'.held == c.held[pc'.m := t]
    ensures Inv(par, exact, c')
  {
    AcquireHolders(c, c', t, pc');
    AcquireInto(par, exact, c, c', t, pc');
    BeginPendsNothing(pc');
    IdsUntouched(c, c', t, pc');
    AcquireWaits(c, c', t, pc');
  }

  lemma AcquireStep(par: Params, exact: bool, c: Config, l: Label)
    requires Inv(par, exact, c) && l.t < |c.threads| && c.threads[l.t].NeedMutex?
    requires Next(par, c, l).Some?
    ensures Inv(par, exact, Next(par, c, l).value)
  {
    var c' := Next(par, c, l).value;
    AcquireMove(par, exact, c, c', l.t, c'.threads[l.t]);
  }

  lemma ReleaseHolders(c: Config, c': Config, t: nat, pc': Pc)
    requires HoldersOk(c) && t < |c.threads| && c.threads[t].Inside?
    requires Moves(c, c', t, pc') && !pc'.Inside? && !pc'.NeedMutex?
    requires c'.locks == c.locks && c'.held == c.held - {c.threads[t].m}
    ensures HoldersOk(c')
  {
  }

  lemma ReleaseSlices(par: Params, exact: bool, c: Config, c': Config, t: nat, pc': Pc)
    requires Moves(c, c', t, pc') && SlicesOk(par, exact, c) && c'.store == c.store
    requires c.threads[t].Inside? && !pc'.Inside?
    requires Rest(par.holdFor, exact, c.threads[t].p, Restrict(c.store, c.threads[t].p))
    ensures SlicesOk(par, exact, c')
  {
    forall u | 0 <= u < |c'.threads| && c'.threads[u].Inside? ensures SliceOk(par, exact, c', u) {
      assert SliceOk(par, exact, c, u);
    }
    forall p | Free(c', p) ensures Rest(par.holdFor, exact, p, Restrict(c'.store, p)) {
      if p != c.threads[t].p {
        FreeBefore(c, c', t, pc', p);
      }
    }
  }

  lemma ReleaseLocalFacts(par: Params, exact: bool, c: Config, t: nat)
    requires Inv(par, exact, c) && t < |c.threads| && c.threads[t].Inside? && c.threads[t].cs.Finished?
    ensures Rest(par.holdFor, exact, c.threads[t].p, Restrict(c.store, c.threads[t].p))
    ensures WaitOk(Resumed(c.threads[t].ret, c.threads[t].cs.out), c.store)
  {
    assert WaitOk(c.threads[t], c.store);
    assert SliceOk(par, exact, c, t);
    FinishIsRest(par, exact, c.threads[t].p, c.threads[t].cs.out, Restrict(c.store, c.threads[t].p));
  }

  lemma ReleaseStep(par: Params, exact: bool, c: Config, l: Label)
    requires Inv(par, exact, c) && l.t < |c.threads| && c.threads[l.t].Inside? && c.threads[l.t].cs.Finished?
    requires Next(par, c, l).Some?
    ensures Inv(par, exact, Next(par, c, l).value)
  {
    var c' := Next(par, c, l).value;
    var pc' := Resumed(c.threads[l.t].ret, c.threads[l.t].cs.out);
    ReleaseLocalFacts(par, exact, c, l.t);
    ReleaseHolders(c, c', l.t, pc');
    ReleaseSlices(par, exact, c, c', l.t, pc');
    IdsUntouched(c, c', l.t, pc');
    WaitsUntouched(c, c', l.t, pc');
  }

  // ----- A step inside a critical section -----

  lemma InsideGrounded(par: Params, exact: bool, c: Config, l: Label)
    requires Inv(par, exact, c) && l.t < |c.threads| && c.threads[l.t].Inside?
    ensures var pc := c.threads[l.t];
      && Grounded(par, pc.p, pc.cs, c.store)
      && Mid(par, exact, pc.p, pc.cs, Restrict(c.store, pc.p))
  {
    assert SliceOk(par, exact, c, l.t);
    assert PendingOk(c.threads[l.t], c.store, c.counter);
  }

  /** What a scheduled section step is given always fits. */
  lemma InsideFits(par: Params, exact: bool, c: Config, l: Label)
    requires Inv(par, exact, c) && l.t < |c.threads| && c.threads[l.t].Inside? && !c.threads[l.t].cs.Finished?
    requires Next(par, c, l).Some?
    ensures var pc := c.threads[l.t]; Fits(pc.p, pc.cs, c.store, InputOf(c, pc.cs, l))
  {
    if c.threads[l.t].cs.ReserveDraw? { NextHoldIsNew(c.store, c.counter); }
  }

  lemma NextHoldIsNew(s: Store, n: nat)
    requires IdsFrom(s, n)
    ensures MakeId(RES, n + 1) !in s.reservations
  {
    if MakeId(RES, n + 1) in s.reservations { CounterIsNew(RES, MakeId(RES, n + 1), n, RES); }
  }

  /** Seen from p's slice, a scheduled step is the section's own step; from any other slice
      nothing happens. */
  lemma InsideEffect(par: Params, exact: bool, c: Config, l: Label)
    requires Inv(par, exact, c) && l.t < |c.threads| && c.threads[l.t].Inside? && !c.threads[l.t].cs.Finished?
    requires Next(par, c, l).Some?
    ensures var c', pc, i := Next(par, c, l).value, c.threads[l.t], InputOf(c, c.threads[l.t].cs, l);
      && c'.threads[l.t].Inside?
      && Step(par, pc.p, pc.cs, Restrict(c.store, pc.p), i) == (c'.threads[l.t].cs, Restrict(c'.store, pc.p))
      && Fits(pc.p, pc.cs, Restrict(c.store, pc.p), i)
      && (forall q | q != pc.p :: Restrict(c'.store, q) == Restrict(c.store, q))
      && Evolves(c.store, c'.store)
  {
    var pc, i := c.threads[l.t], InputOf(c, c.threads[l.t].cs, l);
    InsideGrounded(par, exact, c, l);
    InsideFits(par, exact, c, l);
    StepLocal(par, pc.p, pc.cs, c.store, i);
    FitsIsLocal(pc.p, pc.cs, c.store, i);
    StepEvolvesGlobally(par, pc.p, pc.cs, c.store, i);
  }

  /** Only p's slice changes and its invariant holds again: then all slices are in order. */
  lemma SlicesMove(par: Params, exact: bool, c: Config, c': Config, t: nat, pc': Pc)
    requires HoldersOk(c) && SlicesOk(par, exact, c) && Moves(c, c', t, pc')
    requires c.threads[t].Inside? && pc'.Inside? && pc'.p == c.threads[t].p
    requires Mid(par, exact, pc'.p, pc'.cs, Restrict(c'.store, pc'.p))
    requires forall q | q != pc'.p :: Restrict(c'.store, q) == Restrict(c.store, q)
    ensures SlicesOk(par, exact, c')
  {
    forall u | 0 <= u < |c'.threads| && c'.threads[u].Inside? ensures SliceOk(par, exact, c', u) {
      if u != t {
        assert SliceOk(par, exact, c, u);
        InsideElsewhere(c, u, t);
      }
    }
    forall p | Free(c', p) ensures Rest(par.holdFor, exact, p, Restrict(c'.store, p)) {
      assert !InsideOf(c', t, p);
      FreeBefore(c, c', t, pc', p);
    }
  }

  lemma InsideMid(par: Params, exact: bool, c: Config, l: Label)
    requires (exact ==> Sound(c, l)) && Inv(par, exact, c)
    requires l.t < |c.threads| && c.threads[l.t].Inside? && !c.threads[l.t].cs.Finished?
    requires Next(par, c, l).Some?
    ensures var c', pc := Next(par, c, l).value, c.threads[l.t];
      c'.threads[l.t].Inside? && Mid(par, exact, pc.p, c'.threads[l.t].cs, Restrict(c'.store, pc.p))
  {
    var pc := c.threads[l.t];
    InsideEffect(par, exact, c, l);
    InsideGrounded(par, exact, c, l);
    MidStep(par, exact, pc.p, pc.cs, Restrict(c.store, pc.p), InputOf(c, pc.cs, l));
  }

  lemma InsideSlices(par: Params, exact: bool, c: Config, l: Label)
    requires (exact ==> Sound(c, l)) && Inv(par, exact, c)
    requires l.t < |c.threads| && c.threads[l.t].Inside? && !c.threads[l.t].cs.Finished?
    requires Next(par, c, l).Some?
    ensures SlicesOk(par, exact, Next(par, c, l).value)
  {
    var c' := Next(par, c, l).value;
    InsideEffect(par, exact, c, l);
    InsideMid(par, exact, c, l);
    SlicesMove(par, exact, c, c', l.t, c'.threads[l.t]);
  }

  lemma InsideWaits(par: Params, exact: bool, c: Config, l: Label)
    requires Inv(par, exact, c)
    requires l.t < |c.threads| && c.threads[l.t].Inside? && !c.threads[l.t].cs.Finished?
    requires Next(par, c, l).Some?
    ensures WaitsOk(Next(par, c, l).value)
  {
    var c' := Next(par, c, l).value;
    InsideEffect(par, exact, c, l);
    forall u | 0 <= u < |c'.threads| ensures WaitOk(c'.threads[u], c'.store) {
      assert WaitOk(c.threads[u], c.store);
      WaitSurvives(c.threads[u], c.store, c'.store);
    }
  }

  /** What a scheduled section step does to the configuration. */
  lemma InsideMoves(par: Params, c: Config, l: Label)
    requires Next(par, c, l).Some? && c.threads[l.t].Inside? && !c.threads[l.t].cs.Finished?
    ensures var c', pc := Next(par, c, l).value, c.threads[l.t];
      var (cs', s') := Step(par, pc.p, pc.cs, c.store, InputOf(c, pc.cs, l));
      Moves(c, c', l.t, pc.(cs := cs')) && c'.store == s'
  {
  }

  // ----- Identifiers inside a critical section -----

  /** Which ids a section step moves: a drawn id becomes pending, a pending one is stored. */
  lemma IdEffect(par: Params, c: Config, l: Label)
    requires l.t < |c.threads| && c.threads[l.t].Inside? && !c.threads[l.t].cs.Finished?
    requires Next(par, c, l).Some?
    ensures var c', pc := Next(par, c, l).value, c.threads[l.t]; var pc' := c'.threads[l.t];
      && Moves(c, c', l.t, pc')
      && c'.store.reservations.Keys
         == c.store.reservations.Keys + (if PendingRes(pc) then {PendingId(pc)} else {})
      && (if PendingEvt(pc) then
            exists e :: c'.store.events == c.store.events + [e] && e.eventId == PendingId(pc)
          else c'.store.events == c.store.events)
      && (HasPending(pc') <==> pc.cs.DrawsId())
      && (pc.cs.DrawsId() ==> PendingId(pc') == NextId(pc.cs, c.counter) && (PendingRes(pc') <==> pc.cs.ReserveDraw?))
      && c'.counter == c.counter + (if pc.cs.DrawsId() then 1 else 0)
      && (pc.cs.DrawsId() ==> !HasPending(pc))
  {
    match c.threads[l.t].cs
    case ExpireLoop(_, _, _) =>
    case EndRecord(_, _, _, _, _) =>
    case _ =>
  }

  lemma PendingLater(pc: Pc, s: Store, m: nat, n: nat)
    requires PendingOk(pc, s, m) && m <= n
    ensures PendingOk(pc, s, n)
  {
  }

  /** Drawing an id: it is new to the store and to every other thread. */
  lemma DrawKeepsIds(c: Config, c': Config, t: nat, pc': Pc, cs: Cs)
    requires IdsOk(c) && Moves(c, c', t, pc') && c'.store == c.store && c'.counter == c.counter + 1
    requires HasPending(pc') && PendingId(pc') == NextId(cs, c.counter) && (PendingRes(pc') <==> cs.ReserveDraw?)
    ensures IdsOk(c')
  {
    var new_ := PendingId(pc');
    assert Drawn(if PendingRes(pc') then RES else EVT, new_, c'.counter);
    forall id | id in c.store.reservations ensures id != new_ && Drawn(RES, id, c'.counter) {
      CounterIsNew(RES, id, c.counter, if PendingRes(pc') then RES else EVT);
      DrawnLater(RES, id, c.counter, c'.counter);
    }
    forall i | 0 <= i < |c.store.events|
      ensures c.store.events[i].eventId != new_ && Drawn(EVT, c.store.events[i].eventId, c'.counter)
    {
      CounterIsNew(EVT, c.store.events[i].eventId, c.counter, if PendingRes(pc') then RES else EVT);
      DrawnLater(EVT, c.store.events[i].eventId, c.counter, c'.counter);
    }
    forall u | 0 <= u < |c'.threads| ensures PendingOk(c'.threads[u], c'.store, c'.counter) {
      if u != t { PendingLater(c.threads[u], c.store, c.counter, c'.counter); }
    }
    forall u | 0 <= u < |c.threads| && u != t && HasPending(c.threads[u]) ensures PendingId(c.threads[u]) != new_ {
      assert PendingOk(c.threads[u], c.store, c.counter);
      CounterIsNew(if PendingRes(c.threads[u]) then RES else EVT, PendingId(c.threads[u]), c.counter,
                   if PendingRes(pc') then RES else EVT);
    }
  }

  /** Storing the pending id, if any: no other thread waits to store the same one. */
  lemma StoreKeepsIds(c: Config, c': Config, t: nat, pc: Pc, pc': Pc)
    requires IdsOk(c) && Moves(c, c', t, pc') && c.threads[t] == pc && c'.counter == c.counter && !HasPending(pc')
    requires c'.store.reservations.Keys
          == c.store.reservations.Keys + (if PendingRes(pc) then {PendingId(pc)} else {})
    requires if PendingEvt(pc) then
               exists e :: c'.store.events == c.store.events + [e] && e.eventId == PendingId(pc)
             else c'.store.events == c.store.events
    ensures IdsOk(c')
  {
    assert PendingOk(pc, c.store, c.counter);
    assert forall id | id in c'.store.reservations ::
      id in c.store.reservations || (PendingRes(pc) && id == PendingId(pc));
    forall u | 0 <= u < |c'.threads| ensures PendingOk(c'.threads[u], c'.store, c'.counter) {
      if u != t && HasPending(c.threads[u]) {
        assert PendingOk(c.threads[u], c.store, c.counter);
        assert HasPending(pc) ==> PendingId(c.threads[u]) != PendingId(pc);
      }
    }
  }

  lemma InsideIds(par: Params, c: Config, l: Label)
    requires IdsOk(c)
    requires l.t < |c.threads| && c.threads[l.t].Inside? && !c.threads[l.t].cs.Finished?
    requires Next(par, c, l).Some?
    ensures IdsOk(Next(par, c, l).value)
  {
    var c', pc := Next(par, c, l).value, c.threads[l.t];
    IdEffect(par, c, l);
    if pc.cs.DrawsId() {
      assert c'.store == c.store;
      DrawKeepsIds(c, c', l.t, c'.threads[l.t], pc.cs);
    } else {
      StoreKeepsIds(c, c', l.t, pc, c'.threads[l.t]);
    }
  }

  lemma InsideHolders(par: Params, c: Config, l: Label)
    requires HoldersOk(c)
    requires l.t < |c.threads| && c.threads[l.t].Inside? && !c.threads[l.t].cs.Finished?
    requires Next(par, c, l).Some?
    ensures HoldersOk(Next(par, c, l).value)
  {
  }

  /** Every step of a schedule keeps the global invariant. */
  lemma NextKeepsInv(par: Params, exact: bool, c: Config, l: Label)
    requires (exact ==> Sound(c, l)) && Inv(par, exact, c) && Next(par, c, l).Some?
    ensures Inv(par, exact, Next(par, c, l).value)
  {
    match c.threads[l.t]
    case Called(_) => CalledStep(par, exact, c, l);
    case NeedLock(_, _, _) => WaitingStep(par, exact, c, l);
    case Sweeping(_, _, _) => WaitingStep(par, exact, c, l);
    case NeedMutex(_, _, _, _) => AcquireStep(par, exact, c, l);
    case Inside(_, _, _, cs, _) =>
      if cs.Finished? {
        ReleaseStep(par, exact, c, l);
      } else {
        InsideSlices(par, exact, c, l);
        InsideWaits(par, exact, c, l);
        InsideIds(par, c, l);
        InsideHolders(par, c, l);
      }
    case Done(_) =>
  }

  /** The invariant holds after every schedule, the exact one after every sound schedule. */
  lemma {:induction false} ExecKeepsInv(par: Params, exact: bool, c: Config, ls: seq<Label>)
    requires (exact ==> SoundRun(par, c, ls)) && Inv(par, exact, c) && Exec(par, c, ls).Some?
    ensures Inv(par, exact, Exec(par, c, ls).value)
    decreases |ls|
  {
    if ls != [] {
      var n := |ls| - 1;
      ExecKeepsInv(par, exact, c, ls[..n]);
      NextKeepsInv(par, exact, Exec(par, c, ls[..n]).value, ls[n]);
    }
  }

  // ----- How the store changes -----

  lemma NextEvolves(par: Params, c: Config, l: Label)
    requires Inv(par, false, c) && Next(par, c, l).Some?
    ensures Evolves(c.store, Next(par, c, l).value.store)
  {
    EvolvesRefl(c.store);
    if c.threads[l.t].Inside? && !c.threads[l.t].cs.Finished? {
      InsideEffect(par, false, c, l);
    } else {
      OnlySectionsWrite(par, c, l);
    }
  }

  lemma OnlySectionsWrite(par: Params, c: Config, l: Label)
    requires Next(par, c, l).Some? && (!c.threads[l.t].Inside? || c.threads[l.t].cs.Finished?)
    ensures Next(par, c, l).value.store == c.store
  {
    match c.threads[l.t]
    case Called(_) => CalledShape(par, c, l);
    case _ =>
  }

  lemma {:induction false} ExecEvolves(par: Params, c: Config, ls: seq<Label>)
    requires Inv(par, false, c) && Exec(par, c, ls).Some?
    ensures Evolves(c.store, Exec(par, c, ls).value.store)
    decreases |ls|
  {
    if ls == [] {
      EvolvesRefl(c.store);
    } else {
      var n := |ls| - 1;
      ExecEvolves(par, c, ls[..n]);
      ExecKeepsInv(par, false, c, ls[..n]);
      var d := Exec(par, c, ls[..n]).value;
      NextEvolves(par, d, ls[n]);
      EvolvesTrans(c.store, d.store, Next(par, d, ls[n]).value.store);
    }
  }

  // ----- Soundness -----

  /** Only a sweep that does not look again can end what has ended. */
  lemma OnlySweepsEndTwice(par: Params, c: Config, l: Label)
    requires Inv(par, false, c)
    ensures !Sound(c, l) ==>
      !par.guarded && FromSweep(c.threads[l.t].cs.then_) && c.threads[l.t].cs.e.ToExpired?
  {
    if l.t < |c.threads| && c.threads[l.t].Inside? {
      var pc := c.threads[l.t];
      assert SliceOk(par, false, c, l.t);
      if par.guarded || !(pc.cs.EndRecord? && FromSweep(pc.cs.then_)) {
        PromiseKept(par, pc.p, pc.cs, Restrict(c.store, pc.p));
      }
    }
  }

  /** Sweeps that look again make every schedule sound. */
  lemma {:induction false} GuardedRunsAreSound(par: Params, c0: Config, ls: seq<Label>)
    requires par.guarded && Inv(par, false, c0)
    ensures SoundRun(par, c0, ls)
    decreases |ls|
  {
    if ls != [] {
      var n := |ls| - 1;
      GuardedRunsAreSound(par, c0, ls[..n]);
      if Exec(par, c0, ls[..n]).Some? {
        ExecKeepsInv(par, false, c0, ls[..n]);
        OnlySweepsEndTwice(par, Exec(par, c0, ls[..n]).value, ls[n]);
      }
    }
  }

  // ----- Locks alone -----

  lemma OutsideHolders(c: Config, c': Config, t: nat, pc': Pc)
    requires HoldersOk(c) && Moves(c, c', t, pc') && c'.held == c.held
    requires !c.threads[t].Inside? && !pc'.Inside?
    requires forall k | k in c.locks :: k in c'.locks && c'.locks[k] == c.locks[k]
    requires pc'.NeedMutex? ==> pc'.p in c'.locks && c'.locks[pc'.p] == pc'.m
    ensures HoldersOk(c')
  {
  }

  lemma OutsideLocks(par: Params, c: Config, l: Label)
    requires LocksOk(c) && HoldersOk(c) && Next(par, c, l).Some?
    requires c.threads[l.t].Called? || c.threads[l.t].NeedLock? || c.threads[l.t].Sweeping?
    ensures LocksOk(Next(par, c, l).value) && HoldersOk(Next(par, c, l).value)
  {
    var c' := Next(par, c, l).value;
    match c.threads[l.t]
    case Called(_) =>
      CalledShape(par, c, l);
      OutsideHolders(c, c', l.t, c'.threads[l.t]);
    case NeedLock(p, _, _) =>
      NewLockOk(c, p);
      OutsideHolders(c, c', l.t, c'.threads[l.t]);
    case Sweeping(_, _, _) =>
      OutsideHolders(c, c', l.t, c'.threads[l.t]);
  }

  /** Lock discipline is kept by every step of the code as written, too. */
  lemma NextKeepsLocks(par: Params, c: Config, l: Label)
    requires LocksOk(c) && HoldersOk(c) && Next(par, c, l).Some?
    ensures LocksOk(Next(par, c, l).value) && HoldersOk(Next(par, c, l).value)
  {
    var c' := Next(par, c, l).value;
    match c.threads[l.t]
    case NeedMutex(_, _, _, _) => AcquireHolders(c, c', l.t, c'.threads[l.t]);
    case Inside(_, _, _, cs, _) =>
      if cs.Finished? { ReleaseHolders(c, c', l.t, c'.threads[l.t]); } else { InsideHolders(par, c, l); }
    case _ => OutsideLocks(par, c, l);
  }

  lemma {:induction false} ExecKeepsLocks(par: Params, c: Config, ls: seq<Label>)
    requires LocksOk(c) && HoldersOk(c) && Exec(par, c, ls).Some?
    ensures LocksOk(Exec(par, c, ls).value) && HoldersOk(Exec(par, c, ls).value)
    decreases |ls|
  {
    if ls != [] {
      var n := |ls| - 1;
      ExecKeepsLocks(par, c, ls[..n]);
      NextKeepsLocks(par, Exec(par, c, ls[..n]).value, ls[n]);
    }
  }
}
