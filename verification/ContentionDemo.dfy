/** The contention demo: its driver starts the goroutines, waits, counts what they came
    back with and checks the totals. The check passes exactly when no hold was expired
    before the last call came. */
module ContentionDemo {
  import opened Domain
  import opened Ids
  import opened Stores
  import opened Section
  import opened Meaning
  import opened ServiceSpec
  import opened Interleaving
  import opened Safety
  import opened Solo
  import opened Contention

  const HOT := "sku-hot"
  const DEMO_HOLD := 120_000_000_000

  datatype DemoResult = BadArguments | InvariantFailed | Passed

  /** `user-` and the goroutine's number, padded to three digits. */
  function UserName(i: nat): string {
    "user-" + (if i < 10 then "00" else if i < 100 then "0" else "") + Decimal(i)
  }

  /** Three digits or more that spell the number. */
  lemma UserNameReads(i: nat)
    ensures var name := UserName(i);
      && |name| >= 8 && name[..5] == "user-" && Value(name[5..]) == i
      && (|name| > 8 ==> name[5] != '0')
  {
    var d, name := Decimal(i), UserName(i);
    DecimalReads(i);
    DecimalWidth(i);
    assert name[..5] == "user-";
    if i < 10 {
      PaddedValue(d);
      PaddedValue("0" + d);
      assert name[5..] == "0" + ("0" + d);
    } else if i < 100 {
      PaddedValue(d);
      assert name[5..] == "0" + d;
    } else {
      assert name[5..] == d;
    }
  }

  lemma DecimalWidth(i: nat)
    ensures |Decimal(i)| == if i < 10 then 1 else if i < 100 then 2 else 1 + |Decimal(i / 10)|
    ensures i >= 100 ==> |Decimal(i)| >= 3
  {
    if i >= 100 { assert |Decimal(i / 10)| >= 2; }
  }

  /** One seeded product and `requests` goroutines about to call ReserveItem. */
  function DemoStart(requests: nat, stock: nat, clock: int): Config {
    Config(Store(map[HOT := ProductInventory(HOT, stock, 0, 0)], map[], []), 0, clock, map[], map[],
           seq(requests, i requires 0 <= i < requests => Called(ReserveOp(HOT, UserName(i)))))
  }

  /** Every goroutine asks for the one product there is, in a name of its own. */
  lemma EverybodyWantsOne(requests: nat, stock: nat, clock: int)
    ensures var c := DemoStart(requests, stock, clock);
      && Initial(c) && c.clock == clock && |c.threads| == requests
      && c.store.products == map["sku-hot" := ProductInventory("sku-hot", stock, 0, 0)]
      && (forall t | 0 <= t < requests ::
            && c.threads[t].Called? && c.threads[t].op.ReserveOp? && c.threads[t].op.product == "sku-hot"
            && |c.threads[t].op.user| >= 8 && c.threads[t].op.user[..5] == "user-"
            && Value(c.threads[t].op.user[5..]) == t)
  {
    forall t: nat | t < requests { UserNameReads(t); }
  }

  /** The goroutines can end like this: `ls` is a schedule from the demo's start after which
      every call has returned. */
  ghost predicate EndsIn(guarded: bool, requests: nat, stock: nat, clock: int, ls: seq<Label>, end: Config) {
    && Exec(Params(guarded, DEMO_HOLD), DemoStart(requests, stock, clock), ls) == Some(end)
    && (forall t | 0 <= t < |end.threads| :: end.threads[t].Done?)
  }

  function GotUpTo(c: Config, n: nat): set<nat> {
    set t | 0 <= t < n && t < |c.threads| && c.threads[t].Done? && c.threads[t].out.Got?
  }

  function RefusedUpTo(c: Config, n: nat): set<nat> {
    set t | 0 <= t < n && t < |c.threads| && c.threads[t] == Done(Failed(OutOfStock))
  }

  /** The goroutines' counters, and the final reading of the stock. */
  method Tally(end: Config) returns (successes: nat, outOfStock: nat, otherErrors: nat)
    requires forall t | 0 <= t < |end.threads| :: end.threads[t].Done?
    ensures successes == |Winners(end)| && outOfStock == |Losers(end)|
    ensures otherErrors == |end.threads| - |Winners(end)| - |Losers(end)|
  {
    successes, outOfStock, otherErrors := 0, 0, 0;
    for i := 0 to |end.threads|
      invariant successes == |GotUpTo(end, i)| && outOfStock == |RefusedUpTo(end, i)|
      invariant successes + outOfStock + otherErrors == i
    {
      var out := end.threads[i].out;
      if out.Got? {
        assert GotUpTo(end, i + 1) == GotUpTo(end, i) + {i} && RefusedUpTo(end, i + 1) == RefusedUpTo(end, i);
        successes := successes + 1;
      } else if out == Failed(OutOfStock) {
        assert GotUpTo(end, i + 1) == GotUpTo(end, i) && RefusedUpTo(end, i + 1) == RefusedUpTo(end, i) + {i};
        outOfStock := outOfStock + 1;
      } else {
        assert GotUpTo(end, i + 1) == GotUpTo(end, i) && RefusedUpTo(end, i + 1) == RefusedUpTo(end, i);
        otherErrors := otherErrors + 1;
      }
    }
    assert GotUpTo(end, |end.threads|) == Winners(end) && RefusedUpTo(end, |end.threads|) == Losers(end);
  }

  /** Whatever the interleaving, the demo refuses bad arguments and otherwise passes its own
      check if and only if no hold was expired. `end` is what the goroutines left behind. */
  method Run(requests: int, stock: int, end: Config, ghost guarded: bool, ghost clock: int, ghost ls: seq<Label>)
      returns (r: DemoResult)
    requires 0 <= stock < requests ==> EndsIn(guarded, requests, stock, clock, ls, end)
    ensures r == if !(0 <= stock < requests) then BadArguments
                 else if end.store.InState(Expired) == {} then Passed else InvariantFailed
  {
    if requests <= 0 || stock < 0 || requests <= stock {
      return BadArguments;
    }
    DemoOutcome(Params(guarded, DEMO_HOLD), DemoStart(requests, stock, clock), ls, HOT, end);
    ThreadsStay(Params(guarded, DEMO_HOLD), DemoStart(requests, stock, clock), ls);
    var successes, outOfStock, otherErrors := Tally(end);
    if HOT !in end.store.products {
      return InvariantFailed;
    }
    var available := end.store.products[HOT].AvailableStock();
    if successes != stock || outOfStock != requests - stock || otherErrors != 0 || available != 0 {
      return InvariantFailed;
    }
    return Passed;
  }

  /** A demo whose goroutines are done within the hold time expires nothing. */
  lemma FastDemoPasses(guarded: bool, requests: nat, stock: nat, clock: int, ls: seq<Label>, end: Config)
    requires EndsIn(guarded, requests, stock, clock, ls, end)
    requires forall l | l in ls :: l.now < clock + 120_000_000_000
    ensures end.store.InState(Expired) == {}
  {
    var par, c0 := Params(guarded, DEMO_HOLD), DemoStart(requests, stock, clock);
    assert Initial(c0);
    InitialInv(par, false, c0);
    PromptCrowd(par, c0, ls, Scene(HOT, stock), clock + DEMO_HOLD - 1);
  }

  // ----- A demo that fails its check -----

  function SlowHold(n: nat, user: nat, now: int): Reservation {
    NewHold(MakeId(RES, n), HOT, UserName(user), now, DEMO_HOLD)
  }

  /** One unit, two calls; the first has returned at once. */
  function SlowFirst(): Config {
    Config(DemoStart(2, 1, 0).store.AddHold(SlowHold(1, 0, 0), MakeId(EVT, 2)), 2, 0, map[HOT := 0], map[],
           [Done(Got(SlowHold(1, 0, 0))), Called(ReserveOp(HOT, UserName(1)))])
  }

  /** The second came when the hold had lapsed. */
  function SlowSecond(): Config {
    var s := SlowFirst().store.End(MakeId(RES, 1), ToExpired, DEMO_HOLD, MakeId(EVT, 3));
    Config(s.AddHold(SlowHold(4, 1, DEMO_HOLD), MakeId(EVT, 5)), 5, DEMO_HOLD, map[HOT := 0], map[],
           [Done(Got(SlowHold(1, 0, 0))), Done(Got(SlowHold(4, 1, DEMO_HOLD)))])
  }

  lemma SlowStart(K: iset<Config>)
    requires Closed(Params(false, DEMO_HOLD), K) && DemoStart(2, 1, 0) in K
    ensures SlowFirst() in K
  {
    var c := DemoStart(2, 1, 0);
    assert c.store.StaleIds(HOT, 0) == {};
    SoloReserve(Params(false, DEMO_HOLD), K, c, 0, HOT, UserName(0), 0, []);
    assert EndAll(c.store, [], 0, EvtIds(0, 0)) == c.store;
    assert c.threads[0 := Done(Got(SlowHold(1, 0, 0)))] == SlowFirst().threads;
    assert c.locks[HOT := 0] == SlowFirst().locks;
  }

  lemma SlowEnd(K: iset<Config>)
    requires Closed(Params(false, DEMO_HOLD), K) && SlowFirst() in K
    ensures SlowSecond() in K
  {
    var c, id := SlowFirst(), MakeId(RES, 1);
    assert c.store.StaleIds(HOT, DEMO_HOLD) == {id};
    SoloReserve(Params(false, DEMO_HOLD), K, c, 1, HOT, UserName(1), DEMO_HOLD, [id]);
    EndAllOne(c.store, id, DEMO_HOLD, 2);
    assert c.threads[1 := Done(Got(SlowHold(4, 1, DEMO_HOLD)))] == SlowSecond().threads;
    assert c.locks[HOT := 0] == c.locks;
  }

  lemma SlowSecondShows()
    ensures SlowSecond().store.InState(Expired) != {}
    ensures |Winners(SlowSecond())| == 2
  {
    if MakeId(RES, 1) == MakeId(RES, 4) { MakeIdInjective(RES, 1, RES, 4); }
    assert MakeId(RES, 1) in SlowSecond().store.InState(Expired);
    assert Winners(SlowSecond()) == {0, 1};
  }

  lemma SlowRun() returns (ls: seq<Label>)
    ensures EndsIn(false, 2, 1, 0, ls, SlowSecond())
  {
    var par := Params(false, DEMO_HOLD);
    ReachableIsClosed(par, DemoStart(2, 1, 0));
    SlowStart(Reachable(par, DemoStart(2, 1, 0)));
    SlowEnd(Reachable(par, DemoStart(2, 1, 0)));
    ls :| Exec(par, DemoStart(2, 1, 0), ls) == Some(SlowSecond());
  }

  /** Two minutes late is enough: two calls, one unit of stock, two successes. */
  lemma SlowDemoFails()
    ensures exists ls: seq<Label>, end: Config ::
      EndsIn(false, 2, 1, 0, ls, end) && end.clock == 120_000_000_000
      && end.store.InState(Expired) != {} && |Winners(end)| == 2
  {
    var ls := SlowRun();
    var end := SlowSecond();
    SlowSecondShows();
    assert EndsIn(false, 2, 1, 0, ls, end);
  }
}
