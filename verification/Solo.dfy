/** Schedules in which one thread runs undisturbed: they reach exactly what the sequential
    operation computes. Reaching is put as membership in every set of configurations that
    is closed under steps. */
module Solo {
  import opened Domain
  import opened Ids
  import opened Stores
  import opened Section
  import opened Meaning
  import opened Laws
  import opened ServiceSpec
  import opened Interleaving

  /** Steps do not lead out of `K`. */
  ghost predicate Closed(par: Params, K: iset<Config>) {
    forall c, l | c in K && Next(par, c, l).Some? :: Next(par, c, l).value in K
  }

  lemma Go(par: Params, K: iset<Config>, c: Config, l: Label, d: Config)
    requires Closed(par, K) && c in K && Next(par, c, l) == Some(d)
    ensures d in K
  {
  }

  /** What schedules reach from `c`. */
  ghost function Reachable(par: Params, c: Config): iset<Config> {
    iset d | exists ls :: Exec(par, c, ls) == Some(d)
  }

  lemma ReachableIsClosed(par: Params, c: Config)
    ensures Closed(par, Reachable(par, c)) && c in Reachable(par, c)
  {
    assert Exec(par, c, []) == Some(c);
    forall d, l | d in Reachable(par, c) && Next(par, d, l).Some? ensures Next(par, d, l).value in Reachable(par, c) {
      var ls :| Exec(par, c, ls) == Some(d);
      ExecSnoc(par, c, ls, l);
      assert Exec(par, c, ls + [l]) == Next(par, d, l);
    }
  }

  function Tick(t: nat, now: int): Label {
    Label(t, now, [], [])
  }

  /** `c` with thread `t` inside the section of `at` at `cs`, store `s` and counter `n`. */
  function Put(c: Config, t: nat, at: Pc, cs: Cs, s: Store, n: nat): Config
    requires t < |c.threads| && at.Inside?
  {
    Config(s, n, c.clock, c.locks, c.held, c.threads[t := at.(cs := cs)])
  }

  /** A step of the section, when it does not read the clock. */
  lemma PutStep(par: Params, c: Config, t: nat, at: Pc, cs: Cs, s: Store, n: nat)
    requires t < |c.threads| && at.Inside? && !cs.Finished? && !cs.ReadsClock() && !cs.ReserveSnapshot?
    ensures var (cs', s') := Step(par, at.p, cs, s, Input(c.clock, NextId(cs, n), []));
      Next(par, Put(c, t, at, cs, s, n), Tick(t, c.clock))
        == Some(Put(c, t, at, cs', s', if cs.DrawsId() then n + 1 else n))
  {
    var c0 := Put(c, t, at, cs, s, n);
    var (cs', s') := Step(par, at.p, cs, s, Input(c.clock, NextId(cs, n), []));
    assert c0.threads[t := at.(cs := cs')] == c.threads[t := at.(cs := cs')];
  }

  lemma PutGo(par: Params, K: iset<Config>, c: Config, t: nat, at: Pc, cs: Cs, s: Store, n: nat, cs': Cs, s': Store)
    requires t < |c.threads| && at.Inside? && !cs.Finished? && !cs.ReadsClock() && !cs.ReserveSnapshot?
    requires Closed(par, K) && Put(c, t, at, cs, s, n) in K
    requires Step(par, at.p, cs, s, Input(c.clock, NextId(cs, n), [])) == (cs', s')
    ensures Put(c, t, at, cs', s', if cs.DrawsId() then n + 1 else n) in K
  {
    PutStep(par, c, t, at, cs, s, n);
  }

  /** What an ended reservation's caller goes on to do. */
  function AfterEnd(e: Ending, id: string, now: int, then_: Then, s: Store): Then {
    if e.ToExpired? then then_ else Return(Got(s.EndReservation(id, e, now).Lookup(id)))
  }

  /** Drawing the id of the event and logging it. */
  lemma SoloEndLog(par: Params, K: iset<Config>, c: Config, t: nat, at: Pc, e: Ending, id: string, cur: Reservation,
      now: int, then_: Then, s: Store, n: nat)
    requires t < |c.threads| && at.Inside? && Closed(par, K)
    requires Put(c, t, at, EndDraw(e, id, cur, now, then_), s, n) in K
    ensures Put(c, t, at, Continue(then_, now), s.AppendEvent(EndingEvent(e, cur, now, MakeId(EVT, n + 1))), n + 1) in K
  {
    var evt := MakeId(EVT, n + 1);
    PutGo(par, K, c, t, at, EndDraw(e, id, cur, now, then_), s, n, EndAppend(e, id, cur, now, evt, then_), s);
    PutGo(par, K, c, t, at, EndAppend(e, id, cur, now, evt, then_), s, n + 1,
          Continue(then_, now), s.AppendEvent(EndingEvent(e, cur, now, evt)));
  }

  /** The four calls that end a reservation. */
  lemma SoloEnd(par: Params, K: iset<Config>, c: Config, t: nat, at: Pc, e: Ending, id: string, now: int,
      then_: Then, s: Store, n: nat)
    requires t < |c.threads| && at.Inside? && Closed(par, K)
    requires Put(c, t, at, EndRecord(e, id, s.Lookup(id), now, then_), s, n) in K
    ensures Put(c, t, at, Continue(AfterEnd(e, id, now, then_, s), now),
                s.End(id, e, now, MakeId(EVT, n + 1)), n + 1) in K
  {
    var cur := s.Lookup(id);
    var s1 := s.EndReservation(id, e, now);
    var s2 := s1.ReleaseHold(cur.productId, e);
    var then' := AfterEnd(e, id, now, then_, s);
    PutGo(par, K, c, t, at, EndRecord(e, id, cur, now, then_), s, n, EndCount(e, id, cur, now, then'), s1);
    PutGo(par, K, c, t, at, EndCount(e, id, cur, now, then'), s1, n, EndDraw(e, id, cur, now, then'), s2);
    SoloEndLog(par, K, c, t, at, e, id, cur, now, then', s2, n);
  }

  /** A loop that looks again finds everything it is given Active. */
  predicate Passes(par: Params, exit: Exit, s: Store, queue: seq<string>) {
    par.guarded && exit.SweepExit? ==> Distinct(queue) && forall id | id in queue :: s.Lookup(id).IsActive()
  }

  lemma PassesOn(par: Params, exit: Exit, s: Store, queue: seq<string>, now: int, evt: string)
    requires queue != [] && Passes(par, exit, s, queue)
    ensures Passes(par, exit.Bump(), s.End(queue[0], ToExpired, now, evt), queue[1..])
    ensures par.guarded && exit.SweepExit? ==> s.Lookup(queue[0]).IsActive()
  {
    assert queue[0] in queue && forall x | x in queue[1..] :: x in queue;
    assert Distinct(queue) ==> queue[0] !in queue[1..];
  }

  /** A whole expiry loop. */
  lemma {:induction false} SoloLoop(par: Params, K: iset<Config>, c: Config, t: nat, at: Pc, queue: seq<string>,
      now: int, exit: Exit, s: Store, n: nat)
    requires t < |c.threads| && at.Inside? && Passes(par, exit, s, queue) && Closed(par, K)
    requires Put(c, t, at, ExpireLoop(queue, now, exit), s, n) in K
    ensures Put(c, t, at, LoopEnd(now, BumpBy(exit, |queue|)),
                EndAll(s, queue, now, EvtIds(n, |queue|)), n + |queue|) in K
    decreases |queue|
  {
    if queue == [] {
      PutGo(par, K, c, t, at, ExpireLoop(queue, now, exit), s, n, LoopEnd(now, exit), s);
    } else {
      var id, evt := queue[0], MakeId(EVT, n + 1);
      var then_ := Resume(queue[1..], exit);
      PassesOn(par, exit, s, queue, now, evt);
      PutGo(par, K, c, t, at, ExpireLoop(queue, now, exit), s, n,
            EndRecord(ToExpired, id, s.Lookup(id), now, then_), s);
      SoloEnd(par, K, c, t, at, ToExpired, id, now, then_, s, n);
      SoloLoop(par, K, c, t, at, queue[1..], now, exit.Bump(), s.End(id, ToExpired, now, evt), n + 1);
      EvtIdsCons(n, |queue|);
      EndAllCons(s, queue, now, evt, EvtIds(n + 1, |queue| - 1));
      assert BumpBy(exit.Bump(), |queue| - 1) == BumpBy(exit, |queue|);
    }
  }

  lemma SoloSaveLog(par: Params, K: iset<Config>, c: Config, t: nat, at: Pc, r: Reservation, s: Store, n: nat)
    requires t < |c.threads| && at.Inside? && Closed(par, K)
    requires Put(c, t, at, ReservedDraw(r), s, n) in K
    ensures Put(c, t, at, Finished(Got(r)), s.AppendEvent(ReservedEvent(r, MakeId(EVT, n + 1))), n + 1) in K
  {
    var evt := MakeId(EVT, n + 1);
    PutGo(par, K, c, t, at, ReservedDraw(r), s, n, ReservedAppend(r, evt), s);
    PutGo(par, K, c, t, at, ReservedAppend(r, evt), s, n + 1, Finished(Got(r)), s.AppendEvent(ReservedEvent(r, evt)));
  }

  lemma SoloSave(par: Params, K: iset<Config>, c: Config, t: nat, at: Pc, r: Reservation, s: Store, n: nat)
    requires t < |c.threads| && at.Inside? && r.productId == at.p && Closed(par, K)
    requires Put(c, t, at, ReserveSave(r), s, n) in K
    ensures Put(c, t, at, Finished(Got(r)), s.AddHold(r, MakeId(EVT, n + 1)), n + 1) in K
  {
    var s1 := s.PutReservation(r.reservationId, r);
    var s2 := s1.TakeHold(at.p);
    PutGo(par, K, c, t, at, ReserveSave(r), s, n, ReserveCount(r), s1);
    PutGo(par, K, c, t, at, ReserveCount(r), s1, n, ReservedDraw(r), s2);
    SoloSaveLog(par, K, c, t, at, r, s2, n);
  }

  /** The calls from the availability check to the end of ReserveItem's section. */
  lemma SoloTail(par: Params, K: iset<Config>, c: Config, t: nat, at: Pc, user: string, now: int, s: Store, n: nat)
    requires t < |c.threads| && at.Inside? && Closed(par, K)
    requires Put(c, t, at, ReserveCheck(user, now), s, n) in K
    ensures var (s', n', out) := Decide(par.holdFor, at.p, user, now, s, n);
      Put(c, t, at, Finished(out), s', n') in K
  {
    var p := at.p;
    if p !in s.products {
      PutGo(par, K, c, t, at, ReserveCheck(user, now), s, n, Finished(Failed(ProductNotFound)), s);
    } else if s.products[p].AvailableStock() <= 0 {
      var evt := MakeId(EVT, n + 1);
      PutGo(par, K, c, t, at, ReserveCheck(user, now), s, n, RejectDraw(user, now), s);
      PutGo(par, K, c, t, at, RejectDraw(user, now), s, n, RejectAppend(user, now, evt), s);
      PutGo(par, K, c, t, at, RejectAppend(user, now, evt), s, n + 1,
            Finished(Failed(OutOfStock)), s.AppendEvent(RejectedEvent(p, user, now, evt)));
    } else {
      var r := NewHold(MakeId(RES, n + 1), p, user, now, par.holdFor);
      PutGo(par, K, c, t, at, ReserveCheck(user, now), s, n, ReserveDraw(user, now), s);
      PutGo(par, K, c, t, at, ReserveDraw(user, now), s, n, ReserveSave(r), s);
      SoloSave(par, K, c, t, at, r, s, n + 1);
    }
  }

  /** The lock manager's answer for `p`. */
  function MutexOf(c: Config, p: string): nat {
    if p in c.locks then c.locks[p] else |c.locks|
  }

  /** `c` once thread `t` holds p's lock. */
  function Locked(c: Config, t: nat, p: string, job: Job, ret: Ret): Config
    requires t < |c.threads|
  {
    var m := MutexOf(c, p);
    c.(locks := c.locks[p := m], held := c.held[m := t], threads := c.threads[t := Inside(p, m, job, Begin(job), ret)])
  }

  lemma SoloLock(par: Params, K: iset<Config>, c: Config, t: nat, p: string, job: Job, ret: Ret)
    requires t < |c.threads| && MutexOf(c, p) !in c.held && Closed(par, K)
    requires c.At(t, NeedLock(p, job, ret)) in K
    ensures Locked(c, t, p, job, ret) in K
  {
    var m, l := MutexOf(c, p), Tick(t, c.clock);
    var c0 := c.At(t, NeedLock(p, job, ret));
    var c1 := c.(locks := c.locks[p := m], threads := c.threads[t := NeedMutex(p, m, job, ret)]);
    assert c0.threads[t := NeedMutex(p, m, job, ret)] == c1.threads;
    Go(par, K, c0, l, c1);
    assert c1.threads[t := Inside(p, m, job, Begin(job), ret)] == Locked(c, t, p, job, ret).threads;
    Go(par, K, c1, l, Locked(c, t, p, job, ret));
  }

  /** Giving the lock back. */
  lemma SoloUnlock(par: Params, K: iset<Config>, c: Config, t: nat, p: string, job: Job, ret: Ret, out: Outcome,
      clock: int, s: Store, n: nat)
    requires t < |c.threads| && MutexOf(c, p) !in c.held && Closed(par, K)
    requires var d := Locked(c, t, p, job, ret).(clock := clock);
      Put(d, t, d.threads[t], Finished(out), s, n) in K
    ensures Config(s, n, clock, c.locks[p := MutexOf(c, p)], c.held, c.threads[t := Resumed(ret, out)]) in K
  {
    var m, d := MutexOf(c, p), Locked(c, t, p, job, ret).(clock := clock);
    var c1 := Put(d, t, d.threads[t], Finished(out), s, n);
    assert c.held[m := t] - {m} == c.held;
    assert c1.threads[t := Resumed(ret, out)] == c.threads[t := Resumed(ret, out)];
    Go(par, K, c1, Tick(t, clock), Config(s, n, clock, c.locks[p := m], c.held, c.threads[t := Resumed(ret, out)]));
  }

  /** Reading the clock and taking the snapshot. */
  lemma SoloSnapshot(par: Params, K: iset<Config>, c: Config, t: nat, user: string, now: int, order: seq<string>)
    requires t < |c.threads| && c.threads[t].Inside? && c.threads[t].cs == ReserveClock(user) && c.clock <= now
    requires Enumerates(order, c.store.StaleIds(c.threads[t].p, now)) && Closed(par, K) && c in K
    ensures Put(c.(clock := now), t, c.threads[t], ExpireLoop(order, now, LazyExit(user)), c.store, c.counter) in K
  {
    var at, d := c.threads[t], c.(clock := now);
    var c1 := Put(d, t, at, ReserveSnapshot(user, now), c.store, c.counter);
    var c2 := Put(d, t, at, ExpireLoop(order, now, LazyExit(user)), c.store, c.counter);
    Go(par, K, c, Tick(t, now), c1);
    assert c1.threads[t := at.(cs := ExpireLoop(order, now, LazyExit(user)))] == c2.threads;
    Go(par, K, c1, Label(t, now, order, []), c2);
  }

  /** Undisturbed from call to return, ReserveItem does what the sequential operation does,
      whether or not sweeps re-check. */
  lemma SoloReserve(par: Params, K: iset<Config>, c: Config, t: nat, p: string, user: string, now: int,
      order: seq<string>)
    requires t < |c.threads| && c.threads[t] == Called(ReserveOp(p, user))
    requires MutexOf(c, p) !in c.held && c.clock <= now
    requires Enumerates(order, c.store.StaleIds(p, now))
    requires Closed(par, K) && c in K
    ensures var (s', n', out) := ReserveSpec(par.holdFor, p, user, now, c.store, c.counter, order);
      Config(s', n', now, c.locks[p := MutexOf(c, p)], c.held, c.threads[t := Done(out)]) in K
  {
    var (s', n', out) := ReserveSpec(par.holdFor, p, user, now, c.store, c.counter, order);
    var job := ReserveJob(user);
    Go(par, K, c, Tick(t, c.clock), c.At(t, NeedLock(p, job, Reply)));
    SoloLock(par, K, c, t, p, job, Reply);
    SoloSnapshot(par, K, Locked(c, t, p, job, Reply), t, user, now, order);
    var d := Locked(c, t, p, job, Reply).(clock := now);
    SoloSection(par, K, d, t, d.threads[t], user, now, order, c.store, c.counter);
    SoloUnlock(par, K, c, t, p, job, Reply, out, now, s', n');
  }

  /** From the start of the expiry loop to the end of the section. */
  lemma SoloSection(par: Params, K: iset<Config>, d: Config, t: nat, at: Pc, user: string, now: int,
      order: seq<string>, s: Store, n: nat)
    requires t < |d.threads| && at.Inside? && Closed(par, K)
    requires Put(d, t, at, ExpireLoop(order, now, LazyExit(user)), s, n) in K
    ensures var (s', n', out) := ReserveSpec(par.holdFor, at.p, user, now, s, n, order);
      Put(d, t, at, Finished(out), s', n') in K
  {
    var s1, n1 := EndAll(s, order, now, EvtIds(n, |order|)), n + |order|;
    SoloLoop(par, K, d, t, at, order, now, LazyExit(user), s, n);
    SoloTail(par, K, d, t, at, user, now, s1, n1);
  }

  /** One product's share of a sweep, undisturbed. */
  lemma SoloShare(par: Params, K: iset<Config>, c: Config, t: nat, now: int, groups: seq<Group>, total: int)
    requires t < |c.threads| && c.threads[t] == Sweeping(now, groups, total) && groups != []
    requires Passes(par, SweepExit(0), c.store, groups[0].ids)
    requires MutexOf(c, groups[0].product) !in c.held && Closed(par, K) && c in K
    ensures AfterShare(c, t, now, groups, total) in K
  {
    var p, ids := groups[0].product, groups[0].ids;
    var job, ret := SweepJob(ids, now), SweepOn(now, groups[1..], total);
    Go(par, K, c, Tick(t, c.clock), c.At(t, NeedLock(p, job, ret)));
    SoloLock(par, K, c, t, p, job, ret);
    var d := Locked(c, t, p, job, ret);
    PutSame(d, t);
    SoloLoop(par, K, d, t, d.threads[t], ids, now, SweepExit(0), c.store, c.counter);
    SoloUnlock(par, K, c, t, p, job, ret, Swept(|ids|), c.clock,
               EndAll(c.store, ids, now, EvtIds(c.counter, |ids|)), c.counter + |ids|);
  }

  function AfterShare(c: Config, t: nat, now: int, groups: seq<Group>, total: int): Config
    requires t < |c.threads| && groups != []
  {
    var p, ids := groups[0].product, groups[0].ids;
    Config(EndAll(c.store, ids, now, EvtIds(c.counter, |ids|)), c.counter + |ids|, c.clock,
           c.locks[p := MutexOf(c, p)], c.held, c.threads[t := Sweeping(now, groups[1..], total + |ids|)])
  }

  /** Everything collected, in the order it is expired. */
  function Flat(groups: seq<Group>): seq<string> {
    if groups == [] then [] else groups[0].ids + Flat(groups[1..])
  }

  /** The lock map once a sweep has been to these products. */
  function LocksAfter(locks: map<string, nat>, groups: seq<Group>): map<string, nat>
    decreases |groups|
  {
    if groups == [] then locks
    else
      var p := groups[0].product;
      LocksAfter(locks[p := if p in locks then locks[p] else |locks|], groups[1..])
  }

  lemma PassesRest(par: Params, s: Store, a: seq<string>, b: seq<string>, now: int, evts: seq<string>)
    requires Passes(par, SweepExit(0), s, a + b) && |evts| == |a|
    ensures Passes(par, SweepExit(0), s, a) && Passes(par, SweepExit(0), EndAll(s, a, now, evts), b)
  {
    if par.guarded {
      assert a == (a + b)[..|a|] && b == (a + b)[|a|..];
      forall id | id in a ensures id in a + b && id in s.reservations { assert s.Lookup(id).IsActive(); }
      EndAllRecords(s, a, now, evts);
      forall id | id in b ensures EndAll(s, a, now, evts).Lookup(id).IsActive() {
        assert id in a + b && s.Lookup(id).IsActive();
        Apart(a, b, id);
      }
    }
  }

  lemma Apart(a: seq<string>, b: seq<string>, id: string)
    requires Distinct(a + b) && id in b
    ensures id !in a
  {
    var j :| 0 <= j < |b| && b[j] == id;
    forall i | 0 <= i < |a| ensures a[i] != id {
      assert (a + b)[i] == a[i] && (a + b)[|a| + j] == id;
    }
  }

  lemma SharesStore(s: Store, now: int, groups: seq<Group>, n: nat, s1: Store, n1: nat)
    requires groups != [] && n1 == n + |groups[0].ids|
    requires s1 == EndAll(s, groups[0].ids, now, EvtIds(n, |groups[0].ids|))
    ensures |Flat(groups)| == |groups[0].ids| + |Flat(groups[1..])|
    ensures EndAll(s1, Flat(groups[1..]), now, EvtIds(n1, |Flat(groups[1..])|))
         == EndAll(s, Flat(groups), now, EvtIds(n, |Flat(groups)|))
  {
    EndAllConcat(s, groups[0].ids, Flat(groups[1..]), now, n);
  }

  lemma SetTwice(ts: seq<Pc>, t: nat, a: Pc, b: Pc)
    requires t < |ts|
    ensures ts[t := a][t := b] == ts[t := b]
  {
  }

  /** The rest of the configuration once a sweep has been through `groups`. */
  ghost predicate SharesDone(c: Config, e: Config, t: nat, now: int, groups: seq<Group>, total: int)
    requires t < |c.threads|
  {
    && e.clock == c.clock && e.held == c.held && e.locks == LocksAfter(c.locks, groups)
    && e.threads == c.threads[t := Sweeping(now, [], total + |Flat(groups)|)]
  }

  lemma NoShares(c: Config, t: nat, now: int, total: int)
    requires t < |c.threads| && c.threads[t] == Sweeping(now, [], total)
    ensures SharesDone(c, c, t, now, [], total) && c.store == EndAll(c.store, [], now, EvtIds(c.counter, 0))
  {
    assert c.threads[t := Sweeping(now, [], total)] == c.threads;
  }

  lemma SharesAdd(c: Config, d: Config, e: Config, t: nat, now: int, groups: seq<Group>, total: int)
    requires t < |c.threads| && groups != []
    requires d.clock == c.clock && d.held == c.held
    requires d.locks == c.locks[groups[0].product := MutexOf(c, groups[0].product)]
    requires d.threads == c.threads[t := Sweeping(now, groups[1..], total + |groups[0].ids|)]
    requires SharesDone(d, e, t, now, groups[1..], total + |groups[0].ids|)
    ensures SharesDone(c, e, t, now, groups, total)
  {
    SetTwice(c.threads, t, Sweeping(now, groups[1..], total + |groups[0].ids|),
             Sweeping(now, [], total + |Flat(groups)|));
  }

  lemma FirstShare(par: Params, K: iset<Config>, c: Config, t: nat, now: int, groups: seq<Group>, total: int)
      returns (d: Config)
    requires t < |c.threads| && c.threads[t] == Sweeping(now, groups, total) && groups != [] && c.held == map[]
    requires Passes(par, SweepExit(0), c.store, Flat(groups)) && Closed(par, K) && c in K
    ensures d in K && Passes(par, SweepExit(0), d.store, Flat(groups[1..]))
    ensures d.clock == c.clock && d.held == c.held
    ensures d.locks == c.locks[groups[0].product := MutexOf(c, groups[0].product)]
    ensures d.threads == c.threads[t := Sweeping(now, groups[1..], total + |groups[0].ids|)]
    ensures d.counter == c.counter + |groups[0].ids|
    ensures d.store == EndAll(c.store, groups[0].ids, now, EvtIds(c.counter, |groups[0].ids|))
  {
    PassesRest(par, c.store, groups[0].ids, Flat(groups[1..]), now, EvtIds(c.counter, |groups[0].ids|));
    SoloShare(par, K, c, t, now, groups, total);
    d := AfterShare(c, t, now, groups, total);
  }

  /** The turns of a sweep on all its products, undisturbed. */
  lemma {:induction false} SoloShares(par: Params, K: iset<Config>, c: Config, t: nat, now: int, groups: seq<Group>,
      total: int)
      returns (e: Config)
    requires t < |c.threads| && c.threads[t] == Sweeping(now, groups, total) && c.held == map[]
    requires Passes(par, SweepExit(0), c.store, Flat(groups)) && Closed(par, K) && c in K
    ensures e in K && SharesDone(c, e, t, now, groups, total)
    ensures var n := |Flat(groups)|;
      e.store == EndAll(c.store, Flat(groups), now, EvtIds(c.counter, n)) && e.counter == c.counter + n
    decreases |groups|
  {
    if groups == [] {
      e := c;
      NoShares(c, t, now, total);
    } else {
      var d := FirstShare(par, K, c, t, now, groups, total);
      e := SoloShares(par, K, d, t, now, groups[1..], total + |groups[0].ids|);
      SharesAdd(c, d, e, t, now, groups, total);
      SharesStore(c.store, now, groups, c.counter, d.store, d.counter);
    }
  }

  predicate InGroups(groups: seq<Group>, id: string) {
    exists g | g in groups :: id in g.ids
  }

  lemma SnapshotCollects(groups: seq<Group>, s: Store, now: int, id: string)
    requires Collects(groups, s, now)
    ensures InGroups(groups, id) <==> id in AllStale(s, now)
  {
    if InGroups(groups, id) {
      var g :| g in groups && id in g.ids;
      assert Enumerates(g.ids, s.StaleIds(g.product, now));
    }
    if id in AllStale(s, now) {
      var i :| 0 <= i < |groups| && groups[i].product == s.reservations[id].productId;
      assert Enumerates(groups[i].ids, s.StaleIds(groups[i].product, now));
      assert id in s.StaleIds(groups[i].product, now) && groups[i] in groups;
    }
  }

  lemma {:induction false} FlatHas(groups: seq<Group>, id: string)
    ensures id in Flat(groups) <==> InGroups(groups, id)
    decreases |groups|
  {
    if groups != [] {
      FlatHas(groups[1..], id);
      assert forall g :: g in groups <==> g == groups[0] || g in groups[1..];
    }
  }

  lemma DistinctConcat(a: seq<string>, b: seq<string>)
    requires Distinct(a) && Distinct(b) && forall id | id in a :: id !in b
    ensures Distinct(a + b)
  {
    forall i, j | 0 <= i < |a| && 0 <= j < |b| ensures a[i] != b[j] { assert a[i] in a && b[j] in b; }
  }

  lemma NotInRest(groups: seq<Group>, s: Store, now: int, id: string)
    requires groups != [] && DistinctProducts(groups) && id in groups[0].ids
    requires forall i | 0 <= i < |groups| :: Enumerates(groups[i].ids, s.StaleIds(groups[i].product, now))
    ensures !InGroups(groups[1..], id)
  {
    assert id in s.StaleIds(groups[0].product, now);
    forall g | g in groups[1..] ensures id !in g.ids {
      var i :| 0 <= i < |groups[1..]| && groups[1..][i] == g;
      assert groups[i + 1] == g && groups[0].product != groups[i + 1].product;
      assert forall x | x in g.ids :: x in s.StaleIds(g.product, now);
    }
  }

  /** Groups that keep to their own products list each id once. */
  lemma {:induction false} FlatDistinct(groups: seq<Group>, s: Store, now: int)
    requires DistinctProducts(groups)
    requires forall i | 0 <= i < |groups| :: Enumerates(groups[i].ids, s.StaleIds(groups[i].product, now))
    ensures Distinct(Flat(groups))
    decreases |groups|
  {
    if groups != [] {
      forall i | 0 <= i < |groups[1..]|
        ensures Enumerates(groups[1..][i].ids, s.StaleIds(groups[1..][i].product, now))
      {
        assert groups[1..][i] == groups[i + 1];
      }
      FlatDistinct(groups[1..], s, now);
      forall id | id in groups[0].ids ensures id !in Flat(groups[1..]) {
        FlatHas(groups[1..], id);
        NotInRest(groups, s, now, id);
      }
      DistinctConcat(groups[0].ids, Flat(groups[1..]));
    }
  }

  /** A snapshot lists exactly the stale holds, each once. */
  lemma SnapshotIsFlat(groups: seq<Group>, s: Store, now: int)
    requires Collects(groups, s, now)
    ensures Enumerates(Flat(groups), AllStale(s, now))
  {
    FlatDistinct(groups, s, now);
    forall id ensures id in Flat(groups) <==> id in AllStale(s, now) {
      FlatHas(groups, id);
      SnapshotCollects(groups, s, now, id);
    }
  }

  lemma FlatIsAllStale(groups: seq<Group>, s: Store, now: int, n: nat)
    requires Collects(groups, s, now)
    ensures Enumerates(Flat(groups), AllStale(s, now))
    ensures var order := Flat(groups);
      SweepAllMeans(now, s, EndAll(s, order, now, EvtIds(n, |order|)), |order|)
  {
    SnapshotIsFlat(groups, s, now);
  }

  /** `c` once the sweep has taken its snapshot. */
  function Snapped(c: Config, t: nat, now: int, groups: seq<Group>): Config
    requires t < |c.threads|
  {
    c.(clock := if c.clock < now then now else c.clock).At(t, Sweeping(now, groups, 0))
  }

  function AfterSweeping(c: Config, t: nat, now: int, groups: seq<Group>): Config
    requires t < |c.threads|
  {
    var n := |Flat(groups)|;
    Config(EndAll(c.store, Flat(groups), now, EvtIds(c.counter, n)), c.counter + n,
           if c.clock < now then now else c.clock,
           LocksAfter(c.locks, groups), map[], c.threads[t := Done(Swept(n))])
  }

  lemma SnapshotPasses(par: Params, groups: seq<Group>, s: Store, now: int)
    requires Collects(groups, s, now)
    ensures Passes(par, SweepExit(0), s, Flat(groups))
  {
    SnapshotIsFlat(groups, s, now);
    forall id | id in Flat(groups) ensures s.Lookup(id).IsActive() {
      assert id in AllStale(s, now);
    }
  }

  /** Undisturbed from call to return, while nobody holds a lock, a sweep expires exactly the
      stale holds, each once, and returns how many: the sequential sweep, whether or not it
      looks again. */
  lemma SoloSweep(par: Params, K: iset<Config>, c: Config, t: nat, now: int, groups: seq<Group>)
    requires t < |c.threads| && c.threads[t] == Called(SweepOp(now)) && c.held == map[]
    requires Collects(groups, c.store, now) && Closed(par, K) && c in K
    ensures AfterSweeping(c, t, now, groups) in K
    ensures var d := AfterSweeping(c, t, now, groups); SweepAllMeans(now, c.store, d.store, d.threads[t].out.count)
  {
    var d := Snapped(c, t, now, groups);
    Go(par, K, c, Label(t, now, [], groups), d);
    SnapshotPasses(par, groups, c.store, now);
    var e := SoloShares(par, K, d, t, now, groups, 0);
    SweepReturns(par, K, c, t, now, groups, e);
    FlatIsAllStale(groups, c.store, now, c.counter);
  }

  lemma SweepReturns(par: Params, K: iset<Config>, c: Config, t: nat, now: int, groups: seq<Group>, e: Config)
    requires t < |c.threads| && c.held == map[] && Closed(par, K) && e in K
    requires SharesDone(Snapped(c, t, now, groups), e, t, now, groups, 0)
    requires var d := AfterSweeping(c, t, now, groups); e.store == d.store && e.counter == d.counter
    ensures AfterSweeping(c, t, now, groups) in K
  {
    var pc := Done(Swept(|Flat(groups)|));
    assert e.threads[t := pc] == c.threads[t := pc];
    Go(par, K, e, Tick(t, e.clock), AfterSweeping(c, t, now, groups));
  }

  lemma PutSame(c: Config, t: nat)
    requires t < |c.threads| && c.threads[t].Inside?
    ensures Put(c, t, c.threads[t], c.threads[t].cs, c.store, c.counter) == c
  {
    assert c.threads[t := c.threads[t]] == c.threads;
  }
}
