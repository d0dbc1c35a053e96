/** No schedule gets stuck and none goes on for ever. */
module Progress {
  import opened Domain
  import opened Stores
  import opened Section
  import opened Interleaving
  import opened Safety
  import opened Laws

  // ----- Somebody can always move -----

  lemma {:induction false} EnumerationExists(ids: set<string>) returns (xs: seq<string>)
    ensures Enumerates(xs, ids)
    decreases |ids|
  {
    if ids == {} {
      xs := [];
    } else {
      var x :| x in ids;
      var rest := EnumerationExists(ids - {x});
      xs := rest + [x];
      assert x !in rest;
    }
  }

  /** `groups` covers the stale holds of the products in `ps`. */
  ghost predicate CollectsFrom(groups: seq<Group>, s: Store, now: int, ps: set<string>) {
    && DistinctProducts(groups)
    && (forall i | 0 <= i < |groups| ::
          && groups[i].ids != [] && groups[i].product in ps
          && Enumerates(groups[i].ids, s.StaleIds(groups[i].product, now)))
    && (forall p | p in ps && s.StaleIds(p, now) != {} :: exists i | 0 <= i < |groups| :: groups[i].product == p)
  }

  lemma {:induction false} GroupingExists(s: Store, now: int, ps: set<string>) returns (groups: seq<Group>)
    ensures CollectsFrom(groups, s, now, ps)
    decreases |ps|
  {
    if ps == {} {
      groups := [];
    } else {
      var p :| p in ps;
      var before := GroupingExists(s, now, ps - {p});
      if s.StaleIds(p, now) == {} {
        groups := before;
      } else {
        var ids := EnumerationExists(s.StaleIds(p, now));
        groups := before + [Group(p, ids)];
        forall q | q in ps && s.StaleIds(q, now) != {} ensures exists i | 0 <= i < |groups| :: groups[i].product == q {
          if q == p {
            assert groups[|before|].product == q;
          } else {
            var i :| 0 <= i < |before| && before[i].product == q;
            assert groups[i].product == q;
          }
        }
      }
    }
  }

  lemma CollectionExists(s: Store, now: int) returns (groups: seq<Group>)
    ensures Collects(groups, s, now)
  {
    var ps := set id | id in s.reservations :: s.reservations[id].productId;
    groups := GroupingExists(s, now, ps);
    forall id | id in s.reservations && s.reservations[id].IsActive() && s.reservations[id].Lapsed(now)
      ensures exists i | 0 <= i < |groups| :: groups[i].product == s.reservations[id].productId
    {
      assert id in s.StaleIds(s.reservations[id].productId, now);
    }
  }

  /** Only the wait for a product lock can hold a thread up. */
  lemma UnblockedCanMove(par: Params, c: Config, t: nat) returns (l: Label)
    requires t < |c.threads| && !c.threads[t].Done?
    requires c.threads[t].NeedMutex? ==> c.threads[t].m !in c.held
    ensures l.t == t && Next(par, c, l).Some?
  {
    match c.threads[t]
    case Called(SweepOp(now)) =>
      var groups := CollectionExists(c.store, now);
      l := Label(t, c.clock, [], groups);
    case Inside(p, _, _, ReserveSnapshot(user, now), _) =>
      var order := EnumerationExists(c.store.StaleIds(p, now));
      l := Label(t, c.clock, order, []);
    case _ => l := Label(t, c.clock, [], []);
  }

  /** A thread waiting for p's mutex can take it exactly when nobody is inside p's section;
      holders of other products' locks do not matter. */
  lemma WaiterEnabled(par: Params, c: Config, l: Label)
    requires LocksOk(c) && HoldersOk(c) && l.t < |c.threads| && c.threads[l.t].NeedMutex?
    ensures Next(par, c, l).Some? <==> Free(c, c.threads[l.t].p)
  {
    var pc := c.threads[l.t];
    if pc.m in c.held {
      assert InsideOf(c, c.held[pc.m], pc.p);
    } else {
      NobodyHolds(c, l.t);
    }
  }

  /** No deadlock: in every configuration in which some operation has not returned, some
      thread can move. */
  lemma NoDeadlock(par: Params, c: Config)
    requires LocksOk(c) && HoldersOk(c)
    requires exists t | 0 <= t < |c.threads| :: !c.threads[t].Done?
    ensures exists l :: Next(par, c, l).Some?
  {
    if t: nat :| t < |c.threads| && c.threads[t].Inside? {
      var l := UnblockedCanMove(par, c, t);
    } else {
      var u: nat :| u < |c.threads| && !c.threads[u].Done?;
      assert c.threads[u].NeedMutex? ==> c.threads[u].m !in c.held;
      var l := UnblockedCanMove(par, c, u);
    }
  }

  // ----- Every schedule is finite -----

  /** The thread may still save a reservation. */
  predicate MaySave(pc: Pc) {
    match pc
    case Called(op) => op.ReserveOp?
    case NeedLock(_, job, _) => job.ReserveJob?
    case NeedMutex(_, _, job, _) => job.ReserveJob?
    case Inside(_, _, _, cs, _) => CsMaySave(cs)
    case _ => false
  }

  predicate CsMaySave(cs: Cs) {
    match cs
    case ReserveClock(_) => true
    case ReserveSnapshot(_, _) => true
    case ExpireLoop(_, _, exit) => exit.LazyExit?
    case EndRecord(_, _, _, _, then_) => ThenMaySave(then_)
    case EndCount(_, _, _, _, then_) => ThenMaySave(then_)
    case EndDraw(_, _, _, _, then_) => ThenMaySave(then_)
    case EndAppend(_, _, _, _, _, then_) => ThenMaySave(then_)
    case ReserveCheck(_, _) => true
    case ReserveDraw(_, _) => true
    case ReserveSave(_) => true
    case _ => false
  }

  predicate ThenMaySave(then_: Then) {
    then_.Resume? && then_.exit.LazyExit?
  }

  function Savers(ts: seq<Pc>): nat {
    if ts == [] then 0 else (if MaySave(ts[0]) then 1 else 0) + Savers(ts[1..])
  }

  /** Reservations there are or may yet be. */
  function Bound(c: Config): nat {
    |c.store.reservations| + Savers(c.threads)
  }

  function LoopWork(queue: nat, exit: Exit): nat {
    5 * queue + 1 + (if exit.LazyExit? then 7 else 1)
  }

  function ThenWork(then_: Then): nat {
    if then_.Resume? then LoopWork(|then_.queue|, then_.exit) else 1
  }

  /** Steps left in a section, its release included, when snapshots hold at most `b` ids. */
  function CsWork(cs: Cs, b: nat): nat {
    match cs
    case ReserveClock(_) => 10 + 5 * b
    case ReserveSnapshot(_, _) => 9 + 5 * b
    case ExpireLoop(queue, _, exit) => LoopWork(|queue|, exit)
    case EndRecord(e, _, _, _, then_) => 4 + (if e.ToExpired? then ThenWork(then_) else 1)
    case EndCount(_, _, _, _, then_) => 3 + ThenWork(then_)
    case EndDraw(_, _, _, _, then_) => 2 + ThenWork(then_)
    case EndAppend(_, _, _, _, _, then_) => 1 + ThenWork(then_)
    case ReserveCheck(_, _) => 7
    case RejectDraw(_, _) => 3
    case RejectAppend(_, _, _) => 2
    case ReserveDraw(_, _) => 6
    case ReserveSave(_) => 5
    case ReserveCount(_) => 4
    case ReservedDraw(_) => 3
    case ReservedAppend(_, _) => 2
    case ConfirmLoad(_) => 9
    case ConfirmClock(_, _) => 8
    case CancelLoad(_) => 7
    case CancelClock(_, _) => 6
    case Finished(_) => 1
  }

  function GroupsWork(groups: seq<Group>): nat {
    if groups == [] then 0 else 5 * |groups[0].ids| + 5 + GroupsWork(groups[1..])
  }

  function RetWork(ret: Ret): nat {
    if ret.SweepOn? then 1 + GroupsWork(ret.rest) else 0
  }

  /** Steps left in a thread. */
  function Work(pc: Pc, b: nat): nat {
    match pc
    case Called(op) => (match op
      case ReserveOp(_, _) => 13 + 5 * b
      case ConfirmOp(_) => 12
      case CancelOp(_) => 10
      case SweepOp(_) => 2 + 10 * b
      case StockOp(_) => 1)
    case NeedLock(_, job, ret) => 2 + CsWork(Begin(job), b) + RetWork(ret)
    case NeedMutex(_, _, job, ret) => 1 + CsWork(Begin(job), b) + RetWork(ret)
    case Inside(_, _, _, cs, ret) => CsWork(cs, b) + RetWork(ret)
    case Sweeping(_, groups, _) => 1 + GroupsWork(groups)
    case Done(_) => 0
  }

  function TotalWork(ts: seq<Pc>, b: nat): nat {
    if ts == [] then 0 else Work(ts[0], b) + TotalWork(ts[1..], b)
  }

  function Measure(c: Config): nat {
    TotalWork(c.threads, Bound(c))
  }

  lemma {:induction false} SaversUpdate(ts: seq<Pc>, t: nat, pc: Pc)
    requires t < |ts|
    ensures Savers(ts[t := pc]) == Savers(ts) - (if MaySave(ts[t]) then 1 else 0) + (if MaySave(pc) then 1 else 0)
    decreases |ts|
  {
    if t > 0 {
      assert ts[t := pc][1..] == ts[1..][t - 1 := pc];
      SaversUpdate(ts[1..], t - 1, pc);
    } else {
      assert ts[t := pc][1..] == ts[1..];
    }
  }

  lemma WorkMonotone(pc: Pc, b: nat, b': nat)
    requires b' <= b
    ensures Work(pc, b') <= Work(pc, b)
  {
  }

  lemma {:induction false} TotalUpdate(ts: seq<Pc>, t: nat, pc: Pc, b: nat, b': nat)
    requires t < |ts| && b' <= b
    ensures TotalWork(ts[t := pc], b') <= TotalWork(ts, b) - Work(ts[t], b) + Work(pc, b')
    decreases |ts|
  {
    if t > 0 {
      assert ts[t := pc][1..] == ts[1..][t - 1 := pc];
      WorkMonotone(ts[0], b, b');
      TotalUpdate(ts[1..], t - 1, pc, b, b');
    } else {
      assert ts[t := pc][1..] == ts[1..];
      TotalMonotone(ts[1..], b, b');
    }
  }

  lemma {:induction false} TotalMonotone(ts: seq<Pc>, b: nat, b': nat)
    requires b' <= b
    ensures TotalWork(ts, b') <= TotalWork(ts, b)
    decreases |ts|
  {
    if ts != [] {
      WorkMonotone(ts[0], b, b');
      TotalMonotone(ts[1..], b, b');
    }
  }

  lemma SnapshotSize(s: Store, p: string, now: int, order: seq<string>)
    requires Enumerates(order, s.StaleIds(p, now))
    ensures |order| <= |s.reservations|
  {
    EnumerationSize(order, s.StaleIds(p, now));
    SubsetSize(s.StaleIds(p, now), s.reservations.Keys);
  }

  /** The groups of a sweep's snapshot take at most ten steps per stored reservation. */
  lemma {:induction false} GroupsSize(groups: seq<Group>, s: Store, now: int, room: set<string>)
    requires DistinctProducts(groups)
    requires forall i | 0 <= i < |groups| ::
      groups[i].ids != [] && Enumerates(groups[i].ids, s.StaleIds(groups[i].product, now))
      && s.StaleIds(groups[i].product, now) <= room
    ensures GroupsWork(groups) <= 10 * |room|
    decreases |groups|
  {
    if groups != [] {
      var mine := s.StaleIds(groups[0].product, now);
      EnumerationSize(groups[0].ids, mine);
      forall i | 0 <= i < |groups[1..]|
        ensures groups[1..][i].ids != []
          && Enumerates(groups[1..][i].ids, s.StaleIds(groups[1..][i].product, now))
          && s.StaleIds(groups[1..][i].product, now) <= room - mine
      {
        assert groups[1..][i] == groups[i + 1];
        assert groups[0].product != groups[i + 1].product;
      }
      GroupsSize(groups[1..], s, now, room - mine);
      SubsetSize(mine, room);
      assert |room - mine| == |room| - |mine|;
      assert |groups[0].ids| >= 1;
    }
  }

  lemma CollectionWork(groups: seq<Group>, s: Store, now: int)
    requires Collects(groups, s, now)
    ensures GroupsWork(groups) <= 10 * |s.reservations|
  {
    GroupsSize(groups, s, now, s.reservations.Keys);
  }

  lemma WorkShrinks(par: Params, p: string, cs: Cs, s: Store, i: Input, b: nat)
    requires !cs.Finished? && |s.reservations| <= b
    requires cs.ReserveSnapshot? ==> Enumerates(i.order, s.StaleIds(p, cs.now))
    ensures CsWork(Step(par, p, cs, s, i).0, b) < CsWork(cs, b)
  {
    if cs.ReserveSnapshot? {
      SnapshotSize(s, p, cs.now, i.order);
    } else if cs.EndRecord? || cs.EndCount? || cs.EndDraw? || cs.EndAppend? || cs.ExpireLoop? {
      LoopShrinks(par, p, cs, s, i, b);
    }
  }

  lemma LoopShrinks(par: Params, p: string, cs: Cs, s: Store, i: Input, b: nat)
    requires cs.EndRecord? || cs.EndCount? || cs.EndDraw? || cs.EndAppend? || cs.ExpireLoop?
    ensures CsWork(Step(par, p, cs, s, i).0, b) < CsWork(cs, b)
  {
  }

  lemma SizeAfterPut(s: Store, id: string, r: Reservation)
    ensures |s.PutReservation(id, r).reservations| <= |s.reservations| + 1
    ensures id in s.reservations ==> |s.PutReservation(id, r).reservations| == |s.reservations|
  {
    var t := s.PutReservation(id, r);
    assert t.reservations.Keys == s.reservations.Keys + {id};
    assert |t.reservations| == |t.reservations.Keys| && |s.reservations| == |s.reservations.Keys|;
    if id in s.reservations { assert s.reservations.Keys + {id} == s.reservations.Keys; }
  }

  /** A section step stores a reservation only at the price of no longer being able to. */
  lemma RoomKept(par: Params, p: string, cs: Cs, s: Store, i: Input)
    ensures var (cs', s') := Step(par, p, cs, s, i);
      |s'.reservations| + (if CsMaySave(cs') then 1 else 0) <= |s.reservations| + (if CsMaySave(cs) then 1 else 0)
  {
    if cs.ReserveSave? {
      SizeAfterPut(s, cs.res.reservationId, cs.res);
    } else if cs.EndRecord? {
      SizeAfterPut(s, cs.id, Ended(s.Lookup(cs.id), cs.e, cs.now));
    } else {
      StepKeepsRecords(par, p, cs, s, i);
    }
  }

  lemma StepKeepsRecords(par: Params, p: string, cs: Cs, s: Store, i: Input)
    requires !cs.ReserveSave? && !cs.EndRecord?
    ensures var (cs', s') := Step(par, p, cs, s, i);
      s'.reservations == s.reservations && (CsMaySave(cs') ==> CsMaySave(cs))
  {
  }

  /** Moving thread `t` shrinks the measure if it shortens the thread and keeps the bound. */
  lemma MeasureMove(c: Config, c': Config, t: nat, pc': Pc)
    requires Moves(c, c', t, pc') && Bound(c') <= Bound(c)
    requires Work(pc', Bound(c)) < Work(c.threads[t], Bound(c))
    ensures Measure(c') < Measure(c)
  {
    WorkMonotone(pc', Bound(c), Bound(c'));
    TotalUpdate(c.threads, t, pc', Bound(c), Bound(c'));
  }

  lemma OutsideShrinks(par: Params, c: Config, l: Label)
    requires Next(par, c, l).Some? && (!c.threads[l.t].Inside? || c.threads[l.t].cs.Finished?)
    ensures var c' := Next(par, c, l).value; var pc' := c'.threads[l.t];
      && Moves(c, c', l.t, pc') && c'.store == c.store
      && (MaySave(pc') ==> MaySave(c.threads[l.t]))
      && Work(pc', Bound(c)) < Work(c.threads[l.t], Bound(c))
  {
    match c.threads[l.t]
    case Called(_) => CalledShrinks(par, c, l);
    case Sweeping(_, _, _) => SweepingShrinks(par, c, l);
    case _ =>
  }

  lemma CalledShrinks(par: Params, c: Config, l: Label)
    requires Next(par, c, l).Some? && c.threads[l.t].Called?
    ensures var c' := Next(par, c, l).value; var pc' := c'.threads[l.t];
      && Moves(c, c', l.t, pc') && c'.store == c.store
      && (MaySave(pc') ==> MaySave(c.threads[l.t]))
      && Work(pc', Bound(c)) < Work(c.threads[l.t], Bound(c))
  {
    match c.threads[l.t].op
    case SweepOp(now) => CollectionWork(l.groups, c.store, now);
    case _ =>
  }

  lemma SweepingShrinks(par: Params, c: Config, l: Label)
    requires Next(par, c, l).Some? && c.threads[l.t].Sweeping?
    ensures var c' := Next(par, c, l).value; var pc' := c'.threads[l.t];
      && Moves(c, c', l.t, pc') && c'.store == c.store
      && (MaySave(pc') ==> MaySave(c.threads[l.t]))
      && Work(pc', Bound(c)) < Work(c.threads[l.t], Bound(c))
  {
  }

  /** Every step of every thread, sweeps re-checking or not, shrinks the measure. */
  lemma NextShrinks(par: Params, c: Config, l: Label)
    requires Next(par, c, l).Some?
    ensures Measure(Next(par, c, l).value) < Measure(c)
  {
    var c', pc := Next(par, c, l).value, c.threads[l.t];
    if pc.Inside? && !pc.cs.Finished? {
      SaversUpdate(c.threads, l.t, c'.threads[l.t]);
      SaversUpdate(c.threads, l.t, Done(Swept(0)));
      WorkShrinks(par, pc.p, pc.cs, c.store, InputOf(c, pc.cs, l), Bound(c));
      RoomKept(par, pc.p, pc.cs, c.store, InputOf(c, pc.cs, l));
    } else {
      OutsideShrinks(par, c, l);
      SaversUpdate(c.threads, l.t, c'.threads[l.t]);
    }
    MeasureMove(c, c', l.t, c'.threads[l.t]);
  }

  /** No schedule is longer than the measure of where it starts. */
  lemma {:induction false} SchedulesAreFinite(par: Params, c: Config, ls: seq<Label>)
    requires Exec(par, c, ls).Some?
    ensures |ls| + Measure(Exec(par, c, ls).value) <= Measure(c)
    decreases |ls|
  {
    if ls != [] {
      var n := |ls| - 1;
      SchedulesAreFinite(par, c, ls[..n]);
      NextShrinks(par, Exec(par, c, ls[..n]).value, ls[n]);
    }
  }

  lemma SomebodyMoves(par: Params, c0: Config, ls: seq<Label>) returns (l: Label)
    requires Initial(c0) && Exec(par, c0, ls).Some?
    requires var c := Exec(par, c0, ls).value; exists t | 0 <= t < |c.threads| :: !c.threads[t].Done?
    ensures Next(par, Exec(par, c0, ls).value, l).Some?
    ensures Exec(par, c0, ls + [l]) == Next(par, Exec(par, c0, ls).value, l)
  {
    var c := Exec(par, c0, ls).value;
    ExecKeepsLocks(par, c0, ls);
    NoDeadlock(par, c);
    l :| Next(par, c, l).Some?;
    ExecSnoc(par, c0, ls, l);
  }

  /** Every operation has returned after `ls`. */
  ghost predicate Returns(par: Params, c0: Config, ls: seq<Label>) {
    match Exec(par, c0, ls)
    case None => false
    case Some(c) => forall t | 0 <= t < |c.threads| :: c.threads[t].Done?
  }

  lemma PrefixTrans(a: seq<Label>, l: Label, b: seq<Label>)
    requires a + [l] <= b
    ensures a <= b
  {
    assert a == (a + [l])[..|a|];
  }

  /** From the start, every schedule can be continued until every operation has returned. */
  lemma {:induction false} EverybodyReturns(par: Params, c0: Config, ls: seq<Label>)
    requires Initial(c0) && Exec(par, c0, ls).Some?
    ensures exists full :: ls <= full && Returns(par, c0, full)
    decreases Measure(Exec(par, c0, ls).value)
  {
    if Returns(par, c0, ls) {
      assert ls <= ls;
    } else {
      var l := SomebodyMoves(par, c0, ls);
      NextShrinks(par, Exec(par, c0, ls).value, l);
      EverybodyReturns(par, c0, ls + [l]);
      var full :| ls + [l] <= full && Returns(par, c0, full);
      PrefixTrans(ls, l, full);
    }
  }
}
