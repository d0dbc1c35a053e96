/** A second schedule against the sweep as written: a sale that has been reported to its
    buyer is turned into an expiry. */
module SaleRace {
  import opened Domain
  import opened Ids
  import opened Stores
  import opened Section
  import opened Meaning
  import opened ServiceSpec
  import opened Interleaving
  import opened Solo
  import opened SweepRace

  const HOLD_ID := MakeId(RES, 1)

  /** One unit of stock, one buyer who reserves and confirms, and a sweep at time 10; holds
      last 10. */
  function SaleStart(): Config {
    Config(Store(map[SKU := ProductInventory(SKU, 1, 0, 0)], map[], []), 0, 0, map[], map[],
           [Called(ReserveOp(SKU, "a")), Called(SweepOp(10)), Called(ConfirmOp(HOLD_ID))])
  }

  function Reserved(): Config {
    Config(SaleStart().store.AddHold(FirstHold(), MakeId(EVT, 2)), 2, 0, map[SKU := 0], map[],
           [Done(Got(FirstHold())), Called(SweepOp(10)), Called(ConfirmOp(HOLD_ID))])
  }

  function Confirming(cs: Cs): Pc {
    Inside(SKU, 0, ConfirmJob(HOLD_ID), cs, Reply)
  }

  /** Where the confirmation is once it has seen, at time 9, that the hold is in time. */
  function Decided(): Cs {
    EndRecord(ToConfirmed, HOLD_ID, FirstHold(), 9, Return(Got(ZERO_RESERVATION)))
  }

  /** The confirmation has decided to sell. */
  function Deciding(): Config {
    Config(Reserved().store, 2, 9, map[SKU := 0], map[0 := 2],
           [Done(Got(FirstHold())), Called(SweepOp(10)), Confirming(Decided())])
  }

  /** The sweep, at time 10, finds the hold Active and lapsed. */
  function Snapped(): Config {
    Config(Reserved().store, 2, 10, map[SKU := 0], map[0 := 2],
           [Done(Got(FirstHold())), Sweeping(10, Collected(), 0), Confirming(Decided())])
  }

  /** The confirmation has returned: the unit is sold. */
  function Sold(): Config {
    Config(Reserved().store.End(HOLD_ID, ToConfirmed, 9, MakeId(EVT, 3)), 3, 10, map[SKU := 0], map[],
           [Done(Got(FirstHold())), Sweeping(10, Collected(), 0), Done(Got(Ended(FirstHold(), ToConfirmed, 9)))])
  }

  /** The sweep has expired the sold reservation. */
  function Undone(): Config {
    Config(Sold().store.End(HOLD_ID, ToExpired, 10, MakeId(EVT, 4)), 4, 10, map[SKU := 0], map[],
           [Done(Got(FirstHold())), Sweeping(10, [], 1), Done(Got(Ended(FirstHold(), ToConfirmed, 9)))])
  }

  lemma SaleFirst(K: iset<Config>)
    requires Closed(AS_WRITTEN, K) && SaleStart() in K
    ensures Reserved() in K
  {
    var c := SaleStart();
    assert c.store.StaleIds(SKU, 0) == {};
    SoloReserve(AS_WRITTEN, K, c, 0, SKU, "a", 0, []);
    assert EndAll(c.store, [], 0, EvtIds(0, 0)) == c.store;
    assert c.threads[0 := Done(Got(FirstHold()))] == Reserved().threads;
    assert c.locks[SKU := 0] == Reserved().locks;
  }

  /** The confirmation takes the lock. */
  lemma SaleLocks(K: iset<Config>)
    requires Closed(AS_WRITTEN, K) && Reserved() in K
    ensures Locked(Reserved(), 2, SKU, ConfirmJob(HOLD_ID), Reply) in K
  {
    var c, job := Reserved(), ConfirmJob(HOLD_ID);
    assert c.store.Lookup(HOLD_ID) == FirstHold();
    Go(AS_WRITTEN, K, c, Tick(2, 0), c.At(2, NeedLock(SKU, job, Reply)));
    SoloLock(AS_WRITTEN, K, c, 2, SKU, job, Reply);
  }

  /** It loads the hold and reads the clock at 9. */
  lemma SaleDecides(K: iset<Config>)
    requires Closed(AS_WRITTEN, K) && Reserved() in K
    ensures Deciding() in K
  {
    var c := Reserved();
    var d := Locked(c, 2, SKU, ConfirmJob(HOLD_ID), Reply);
    assert c.store.Lookup(HOLD_ID) == FirstHold();
    SaleLocks(K);
    PutSame(d, 2);
    PutGo(AS_WRITTEN, K, d, 2, d.threads[2], ConfirmLoad(HOLD_ID), c.store, 2,
          ConfirmClock(HOLD_ID, FirstHold()), c.store);
    var d1 := Put(d, 2, d.threads[2], ConfirmClock(HOLD_ID, FirstHold()), c.store, 2);
    assert d1.threads[2 := Confirming(Decided())] == Deciding().threads;
    assert c.locks[SKU := 0] == c.locks;
    Go(AS_WRITTEN, K, d1, Tick(2, 9), Deciding());
  }

  lemma SaleIsCollected(K: iset<Config>)
    requires Closed(AS_WRITTEN, K) && Deciding() in K
    ensures Snapped() in K
  {
    var c := Deciding();
    assert c.store.StaleIds(SKU, 10) == {HOLD_ID};
    assert Collects(Collected(), c.store, 10);
    assert c.threads[1 := Sweeping(10, Collected(), 0)] == Snapped().threads;
    Go(AS_WRITTEN, K, c, Label(1, 9, [], Collected()), Snapped());
  }

  lemma SaleIsMade(K: iset<Config>)
    requires Closed(AS_WRITTEN, K) && Snapped() in K
    ensures Sold() in K
  {
    var c, at := Snapped(), Confirming(Decided());
    var s := c.store;
    assert s.Lookup(HOLD_ID) == FirstHold();
    PutSame(c, 2);
    SoloEnd(AS_WRITTEN, K, c, 2, at, ToConfirmed, HOLD_ID, 9, Return(Got(ZERO_RESERVATION)), s, 2);
    var out := Got(Ended(FirstHold(), ToConfirmed, 9));
    var c1 := Put(c, 2, at, Finished(out), Sold().store, 3);
    assert map[0 := 2] - {0} == map[];
    assert c1.threads[2 := Done(out)] == Sold().threads;
    Go(AS_WRITTEN, K, c1, Tick(2, 10), Sold());
  }

  lemma SaleIsUndone(K: iset<Config>)
    requires Closed(AS_WRITTEN, K) && Sold() in K
    ensures Undone() in K
  {
    var c := Sold();
    SoloShare(AS_WRITTEN, K, c, 1, 10, Collected(), 0);
    EndAllOne(c.store, HOLD_ID, 10, 3);
    assert Collected()[1..] == [];
    assert c.threads[1 := Sweeping(10, [], 1)] == Undone().threads;
    assert c.locks[SKU := 0] == c.locks;
  }

  lemma SaleRuns()
    ensures exists ls :: Exec(AS_WRITTEN, SaleStart(), ls) == Some(Sold())
    ensures exists ls :: Exec(AS_WRITTEN, Sold(), ls) == Some(Undone())
  {
    ReachableIsClosed(AS_WRITTEN, SaleStart());
    SaleFirst(Reachable(AS_WRITTEN, SaleStart()));
    SaleDecides(Reachable(AS_WRITTEN, SaleStart()));
    SaleIsCollected(Reachable(AS_WRITTEN, SaleStart()));
    SaleIsMade(Reachable(AS_WRITTEN, SaleStart()));
    ReachableIsClosed(AS_WRITTEN, Sold());
    SaleIsUndone(Reachable(AS_WRITTEN, Sold()));
  }

  /** A confirmation has returned a sale that is on record. */
  predicate SaleReported(c: Config, t: nat) {
    && t < |c.threads| && c.threads[t].Done? && c.threads[t].out.Got?
    && var r := c.threads[t].out.reservation;
       r.state == Confirmed && c.store.Lookup(r.reservationId) == r
  }

  /** The sweep as written can undo a sale: a confirmation returns success, and later the
      reservation is Expired and the active counter is -1. Terminal states are not final
      and counters not non-negative without the re-check. */
  lemma SweepUndoesASale()
    ensures !AS_WRITTEN.guarded && Initial(SaleStart())
    ensures SaleStart().store.products == map[SKU := ProductInventory(SKU, 1, 0, 0)]
    ensures exists ls: seq<Label>, sold: Config, more: seq<Label>, undone: Config ::
      && Exec(AS_WRITTEN, SaleStart(), ls) == Some(sold) && Exec(AS_WRITTEN, sold, more) == Some(undone)
      && SaleReported(sold, 2) && sold.threads[2].out.reservation.reservationId == HOLD_ID
      && undone.store.Lookup(HOLD_ID).state == Expired
      && SKU in undone.store.products && undone.store.products[SKU].activeReservationCount == -1
  {
    SaleRuns();
    var ls :| Exec(AS_WRITTEN, SaleStart(), ls) == Some(Sold());
    var more :| Exec(AS_WRITTEN, Sold(), more) == Some(Undone());
    assert SaleReported(Sold(), 2);
    assert Undone().store.Lookup(HOLD_ID).state == Expired;
    assert Undone().store.products[SKU].activeReservationCount == -1;
  }
}
