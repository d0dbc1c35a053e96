/** The sweep as the code has it: it collects ids before taking any lock and does not look
    again. When its section is safe, exactly, and a schedule in which it is not. */
module SweepRace {
  import opened Domain
  import opened Ids
  import opened Stores
  import opened Section
  import opened Meaning
  import opened Laws
  import opened ServiceSpec
  import opened Interleaving
  import opened Solo

  // ----- One section: the exact condition -----

  /** The counters of `p` are the numbers of its Active and Confirmed reservations. */
  predicate CountsAgree(s: Store, p: string) {
    p in s.products
    && s.products[p].activeReservationCount == |InStateOf(s, p, Active)|
    && s.products[p].confirmedCount == |InStateOf(s, p, Confirmed)|
  }

  lemma {:induction false} RemoveListed(a: set<string>, ids: seq<string>)
    requires Distinct(ids)
    ensures |a - (set id | id in ids)| >= |a| - |ids|
    ensures |a - (set id | id in ids)| == |a| - |ids| <==> forall id | id in ids :: id in a
    decreases |ids|
  {
    if ids == [] {
      assert a - (set id | id in ids) == a;
    } else {
      var b := a - {ids[0]};
      assert ids[0] !in ids[1..];
      assert forall id :: id in ids <==> id == ids[0] || id in ids[1..];
      RemoveListed(b, ids[1..]);
      assert a - (set id | id in ids) == b - (set id | id in ids[1..]);
      assert |b| == if ids[0] in a then |a| - 1 else |a|;
    }
  }

  function Listed(ids: seq<string>): set<string> {
    set id | id in ids
  }

  lemma EndAllCounts(s: Store, p: string, ids: seq<string>, now: int, evts: seq<string>)
    requires Distinct(ids) && |evts| == |ids| && p in s.products
    requires forall id | id in ids :: id in s.reservations && s.reservations[id].productId == p
    ensures var s' := EndAll(s, ids, now, evts);
      && p in s'.products
      && s'.products[p].activeReservationCount == s.products[p].activeReservationCount - |ids|
      && s'.products[p].confirmedCount == s.products[p].confirmedCount
      && InStateOf(s', p, Active) == InStateOf(s, p, Active) - Listed(ids)
      && ((forall id | id in ids :: s.reservations[id].IsActive())
          ==> InStateOf(s', p, Confirmed) == InStateOf(s, p, Confirmed))
  {
    EndAllRecords(s, ids, now, evts);
    EndAllCounters(s, ids, now, evts, p);
    CountOfEnumeration(s, ids, Listed(ids), p);
    EnumerationSize(ids, Listed(ids));
  }

  /** The sweep's section on one product, as written, leaves the counters equal to the
      records they count if and only if every id it was handed is still Active when the
      lock is taken. */
  lemma UnguardedSectionExact(par: Params, p: string, ids: seq<string>, now: int, s: Store, ins: seq<Input>)
    requires !par.guarded && CountsAgree(s, p) && Distinct(ids)
    requires forall id | id in ids :: id in s.reservations && s.reservations[id].productId == p
    requires Completes(par, p, Begin(SweepJob(ids, now)), s, ins)
    ensures CountsAgree(Run(par, p, Begin(SweepJob(ids, now)), s, ins).1, p)
       <==> forall id | id in ids :: s.reservations[id].IsActive()
  {
    SweepRun(par, p, ids, now, s, ins);
    var evts: seq<string> :|
      |evts| == |ids| && Run(par, p, Begin(SweepJob(ids, now)), s, ins).1 == EndAll(s, ids, now, evts);
    EndAllCounts(s, p, ids, now, evts);
    RemoveListed(InStateOf(s, p, Active), ids);
  }

  // ----- One step: when the code as written is the guarded system -----

  /** The id thread `l.t` is about to expire for a sweep, if any, is still Active. */
  predicate StillActive(c: Config, l: Label) {
    l.t < |c.threads| && c.threads[l.t].Inside? && c.threads[l.t].cs.ExpireLoop?
    && c.threads[l.t].cs.queue != [] && c.threads[l.t].cs.exit.SweepExit?
    ==> c.store.Lookup(c.threads[l.t].cs.queue[0]).IsActive()
  }

  /** A step as written is the guarded step exactly when that precondition holds. */
  lemma StepsCoincide(holdFor: int, c: Config, l: Label)
    requires Next(Params(true, holdFor), c, l).Some?
    ensures Next(Params(false, holdFor), c, l) == Next(Params(true, holdFor), c, l) <==> StillActive(c, l)
  {
    if l.t < |c.threads| && c.threads[l.t].Inside? && c.threads[l.t].cs.ExpireLoop? {
      var a, b := Next(Params(false, holdFor), c, l).value, Next(Params(true, holdFor), c, l).value;
      assert a.threads[l.t] == b.threads[l.t] <==> StillActive(c, l);
    }
  }

  // ----- A schedule in which it is not safe -----

  const SKU := "sku"
  const AS_WRITTEN := Params(false, 10)

  /** One unit of stock, three buyers and a sweep at time 10; holds last 10. */
  function RaceStart(): Config {
    Config(Store(map[SKU := ProductInventory(SKU, 1, 0, 0)], map[], []), 0, 0, map[], map[],
           [Called(ReserveOp(SKU, "a")), Called(SweepOp(10)), Called(ReserveOp(SKU, "b")), Called(ReserveOp(SKU, "c"))])
  }

  function FirstHold(): Reservation {
    NewHold(MakeId(RES, 1), SKU, "a", 0, 10)
  }

  function SecondHold(): Reservation {
    NewHold(MakeId(RES, 4), SKU, "b", 10, 10)
  }

  function ThirdHold(): Reservation {
    NewHold(MakeId(RES, 7), SKU, "c", 10, 10)
  }

  lemma HoldIdsDiffer()
    ensures FirstHold().reservationId != SecondHold().reservationId
    ensures FirstHold().reservationId != ThirdHold().reservationId
    ensures SecondHold().reservationId != ThirdHold().reservationId
  {
    if MakeId(RES, 1) == MakeId(RES, 4) { MakeIdInjective(RES, 1, RES, 4); }
    if MakeId(RES, 1) == MakeId(RES, 7) { MakeIdInjective(RES, 1, RES, 7); }
    if MakeId(RES, 4) == MakeId(RES, 7) { MakeIdInjective(RES, 4, RES, 7); }
  }

  function Collected(): seq<Group> {
    [Group(SKU, [FirstHold().reservationId])]
  }

  /** The first buyer holds the unit and the sweep has seen the hold lapsed. */
  function AfterSnapshot(): Config {
    var c := RaceStart();
    Config(c.store.AddHold(FirstHold(), MakeId(EVT, 2)), 2, 10, map[SKU := 0], map[],
           [Done(Got(FirstHold())), Sweeping(10, Collected(), 0), c.threads[2], c.threads[3]])
  }

  /** The second buyer has expired the first hold and holds the unit. */
  function AfterSecond(): Config {
    var c := AfterSnapshot();
    var s := c.store.End(FirstHold().reservationId, ToExpired, 10, MakeId(EVT, 3));
    Config(s.AddHold(SecondHold(), MakeId(EVT, 5)), 5, 10, map[SKU := 0], map[],
           [c.threads[0], c.threads[1], Done(Got(SecondHold())), c.threads[3]])
  }

  /** The sweep has expired the first hold a second time and returned 1. */
  function AfterSweep(): Config {
    var c := AfterSecond();
    Config(c.store.End(FirstHold().reservationId, ToExpired, 10, MakeId(EVT, 6)), 6, 10, map[SKU := 0], map[],
           [c.threads[0], Sweeping(10, [], 1), c.threads[2], c.threads[3]])
  }

  /** The third buyer has been given the unit the second one still holds. */
  function AfterThird(): Config {
    var c := AfterSweep();
    Config(c.store.AddHold(ThirdHold(), MakeId(EVT, 8)), 8, 10, map[SKU := 0], map[],
           [c.threads[0], c.threads[1], c.threads[2], Done(Got(ThirdHold()))])
  }

  lemma RaceFirst(K: iset<Config>)
    requires Closed(AS_WRITTEN, K) && RaceStart() in K
    ensures AfterSnapshot() in K
  {
    var c := RaceStart();
    assert c.store.StaleIds(SKU, 0) == {};
    SoloReserve(AS_WRITTEN, K, c, 0, SKU, "a", 0, []);
    assert EndAll(c.store, [], 0, EvtIds(0, 0)) == c.store;
    var s := c.store.AddHold(FirstHold(), MakeId(EVT, 2));
    var c1 := Config(s, 2, 0, map[SKU := 0], map[],
                     [Done(Got(FirstHold())), c.threads[1], c.threads[2], c.threads[3]]);
    assert c.threads[0 := Done(Got(FirstHold()))] == c1.threads;
    assert c.locks[SKU := 0] == c1.locks;
    assert s.StaleIds(SKU, 10) == {FirstHold().reservationId};
    assert Collects(Collected(), s, 10);
    assert c1.threads[1 := Sweeping(10, Collected(), 0)] == AfterSnapshot().threads;
    Go(AS_WRITTEN, K, c1, Label(1, 0, [], Collected()), AfterSnapshot());
  }

  lemma RaceSecond(K: iset<Config>)
    requires Closed(AS_WRITTEN, K) && AfterSnapshot() in K
    ensures AfterSecond() in K
  {
    var c, id := AfterSnapshot(), FirstHold().reservationId;
    assert c.store.StaleIds(SKU, 10) == {id};
    SoloReserve(AS_WRITTEN, K, c, 2, SKU, "b", 10, [id]);
    EndAllOne(c.store, id, 10, 2);
    assert c.threads[2 := Done(Got(SecondHold()))] == AfterSecond().threads;
    assert c.locks[SKU := 0] == c.locks;
  }

  lemma RaceSweep(K: iset<Config>)
    requires Closed(AS_WRITTEN, K) && AfterSecond() in K
    ensures AfterSweep() in K
  {
    var c, id := AfterSecond(), FirstHold().reservationId;
    SoloShare(AS_WRITTEN, K, c, 1, 10, Collected(), 0);
    EndAllOne(c.store, id, 10, 5);
    assert Collected()[1..] == [];
    assert c.threads[1 := Sweeping(10, [], 1)] == AfterSweep().threads;
    assert c.locks[SKU := 0] == c.locks;
  }

  lemma RaceThird(K: iset<Config>)
    requires Closed(AS_WRITTEN, K) && AfterSweep() in K
    ensures AfterThird() in K
  {
    var c := AfterSweep();
    HoldIdsDiffer();
    assert c.store.StaleIds(SKU, 10) == {};
    SoloReserve(AS_WRITTEN, K, c, 3, SKU, "c", 10, []);
    assert EndAll(c.store, [], 10, EvtIds(6, 0)) == c.store;
    assert c.threads[3 := Done(Got(ThirdHold()))] == AfterThird().threads;
    assert c.locks[SKU := 0] == c.locks;
  }

  lemma RaceRuns()
    ensures exists ls :: Exec(AS_WRITTEN, RaceStart(), ls) == Some(AfterThird())
  {
    var K := Reachable(AS_WRITTEN, RaceStart());
    ReachableIsClosed(AS_WRITTEN, RaceStart());
    RaceFirst(K);
    RaceSecond(K);
    RaceSweep(K);
    RaceThird(K);
  }

  /** Two calls have returned a hold each, and both holds are Active on record and in time. */
  predicate TwoLiveHolds(c: Config, t: nat, u: nat) {
    && t < |c.threads| && c.threads[t].Done? && c.threads[t].out.Got?
    && u < |c.threads| && c.threads[u].Done? && c.threads[u].out.Got?
    && var r, q := c.threads[t].out.reservation, c.threads[u].out.reservation;
       && r.reservationId != q.reservationId && r.productId == q.productId
       && LiveIds(c.store, r.productId, c.clock) == {r.reservationId, q.reservationId}
       && |LiveIds(c.store, r.productId, c.clock)| == 2
  }

  lemma RaceEndsWithTwoHolds()
    ensures SKU in AfterThird().store.products && AfterThird().store.products[SKU].totalStock == 1
    ensures |AfterThird().threads| == 4 && TwoLiveHolds(AfterThird(), 2, 3)
  {
    HoldIdsDiffer();
    var b, d := SecondHold().reservationId, ThirdHold().reservationId;
    var live := LiveIds(AfterThird().store, SKU, 10);
    assert b in live && d in live && FirstHold().reservationId !in live;
    assert live == {b, d};
  }

  ghost predicate Oversold(ls: seq<Label>, d: Config) {
    && Exec(AS_WRITTEN, RaceStart(), ls) == Some(d)
    && SKU in d.store.products && d.store.products[SKU].totalStock == 1
    && |d.threads| == 4 && TwoLiveHolds(d, 2, 3)
  }

  lemma RaceOversells()
    ensures exists ls: seq<Label> :: Oversold(ls, AfterThird())
  {
    RaceRuns();
    RaceEndsWithTwoHolds();
    var ls :| Exec(AS_WRITTEN, RaceStart(), ls) == Some(AfterThird());
    assert Oversold(ls, AfterThird());
  }

  /** The sweep as written can sell what is held: from one unit of stock a schedule reaches
      two successful ReserveItem calls whose holds are both Active and in time. */
  lemma SweepRaceOversells()
    ensures !AS_WRITTEN.guarded && Initial(RaceStart())
    ensures RaceStart().store.products == map[SKU := ProductInventory(SKU, 1, 0, 0)]
    ensures exists ls: seq<Label>, d: Config :: Oversold(ls, d)
  {
    RaceOversells();
  }
}
