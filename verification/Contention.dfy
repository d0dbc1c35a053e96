/** Many ReserveItem calls on one product at once: however they interleave, stock goes to
    the first to take the lock, and exactly as many succeed as there is stock for, if and
    only if no hold is expired on the way. */
module Contention {
  import opened Domain
  import opened Stores
  import opened Section
  import opened SectionInvariant
  import opened Locality
  import opened Interleaving
  import opened Safety
  import opened Laws

  /** The scene: calls on `p`, nothing else, available stock `stock` at the start. */
  datatype Scene = Scene(p: string, stock: nat)

  function Least(a: nat, b: nat): nat {
    if a < b then a else b
  }

  function LeftOver(stock: nat, served: nat): nat {
    if served < stock then stock - served else 0
  }

  // ----- Calls to ReserveItem only -----

  /** The section of a ReserveItem can be here. */
  predicate ReservingCs(cs: Cs) {
    match cs
    case ExpireLoop(_, _, exit) => exit.LazyExit?
    case EndRecord(e, _, _, _, then_) => e.ToExpired? && Lazily(then_)
    case EndCount(e, _, _, _, then_) => e.ToExpired? && Lazily(then_)
    case EndDraw(e, _, _, _, then_) => e.ToExpired? && Lazily(then_)
    case EndAppend(e, _, _, _, _, then_) => e.ToExpired? && Lazily(then_)
    case ConfirmLoad(_) => false
    case ConfirmClock(_, _) => false
    case CancelLoad(_) => false
    case CancelClock(_, _) => false
    case _ => true
  }

  predicate Lazily(then_: Then) {
    then_.Resume? && then_.exit.LazyExit?
  }

  predicate Reserving(pc: Pc, p: string) {
    match pc
    case Called(op) => op.ReserveOp? && op.product == p
    case NeedLock(q, job, ret) => q == p && job.ReserveJob? && ret == Reply
    case NeedMutex(q, _, job, ret) => q == p && job.ReserveJob? && ret == Reply
    case Inside(q, _, _, cs, ret) => q == p && ReservingCs(cs) && ret == Reply
    case Sweeping(_, _, _) => false
    case Done(_) => true
  }

  predicate AllReserving(c: Config, p: string) {
    forall t | 0 <= t < |c.threads| :: Reserving(c.threads[t], p)
  }

  lemma ReservingStep(par: Params, p: string, cs: Cs, s: Store, i: Input)
    requires ReservingCs(cs)
    ensures ReservingCs(Step(par, p, cs, s, i).0)
  {
  }

  lemma NextReserving(par: Params, c: Config, l: Label, p: string)
    requires AllReserving(c, p) && Next(par, c, l).Some?
    ensures AllReserving(Next(par, c, l).value, p)
  {
    var c', pc := Next(par, c, l).value, c.threads[l.t];
    assert Reserving(pc, p);
    if pc.Inside? && !pc.cs.Finished? { ReservingStep(par, p, pc.cs, c.store, InputOf(c, pc.cs, l)); }
    forall u | 0 <= u < |c'.threads| ensures Reserving(c'.threads[u], p) {
      assert u != l.t ==> Reserving(c.threads[u], p);
    }
  }

  // ----- Has a hold been expired, or is one about to be? -----

  /** This section is going to expire a hold. */
  predicate Expiring(cs: Cs) {
    (cs.ExpireLoop? && cs.queue != []) || cs.EndRecord?
  }

  /** Besides `past`, somebody has expired a hold or is going to. */
  predicate Marred(past: set<string>, c: Config) {
    || c.store.InState(Expired) - past != {}
    || exists t | 0 <= t < |c.threads| :: c.threads[t].Inside? && Expiring(c.threads[t].cs)
  }

  lemma ExpiringStep(par: Params, p: string, cs: Cs, s: Store, i: Input)
    requires ReservingCs(cs) && Expiring(cs)
    requires cs.EndRecord? ==> cs.id in s.reservations && s.reservations[cs.id].IsActive()
    ensures var (cs', s') := Step(par, p, cs, s, i);
      Expiring(cs') || exists id :: id in s'.InState(Expired) && id !in s.InState(Expired)
  {
    if cs.EndRecord? {
      assert cs.id in s.EndReservation(cs.id, ToExpired, cs.now).InState(Expired) && cs.id !in s.InState(Expired);
    }
  }

  lemma ExpiredGrow(s: Store, t: Store)
    requires Evolves(s, t)
    ensures s.InState(Expired) <= t.InState(Expired)
  {
  }

  lemma InsideMarred(par: Params, c: Config, l: Label, p: string, past: set<string>)
    requires Inv(par, false, c) && AllReserving(c, p) && Next(par, c, l).Some? && past <= c.store.InState(Expired)
    requires c.threads[l.t].Inside? && Expiring(c.threads[l.t].cs)
    ensures Marred(past, Next(par, c, l).value)
  {
    var c', pc := Next(par, c, l).value, c.threads[l.t];
    assert Reserving(pc, p);
    ExpiringRecord(par, c, l);
    ExpiringStep(par, pc.p, pc.cs, c.store, InputOf(c, pc.cs, l));
    InsideMoves(par, c, l);
    if !Expiring(c'.threads[l.t].cs) {
      var id :| id in c'.store.InState(Expired) && id !in c.store.InState(Expired);
      assert id in c'.store.InState(Expired) - past;
    }
  }

  lemma ExpiringRecord(par: Params, c: Config, l: Label)
    requires Inv(par, false, c) && l.t < |c.threads| && c.threads[l.t].Inside? && ReservingCs(c.threads[l.t].cs)
    ensures var cs := c.threads[l.t].cs;
      cs.EndRecord? ==> cs.id in c.store.reservations && c.store.reservations[cs.id].IsActive()
  {
    InsideGrounded(par, false, c, l);
    if c.threads[l.t].cs.EndRecord? { LookupIsLocal(c.store, c.threads[l.t].p, c.threads[l.t].cs.id); }
  }

  /** Once a hold is expired or going to be, it stays so. */
  lemma MarredStays(par: Params, c: Config, l: Label, p: string, past: set<string>)
    requires Inv(par, false, c) && AllReserving(c, p) && Next(par, c, l).Some? && past <= c.store.InState(Expired)
    requires Marred(past, c)
    ensures Marred(past, Next(par, c, l).value)
  {
    var c' := Next(par, c, l).value;
    if c.store.InState(Expired) - past != {} {
      NextEvolves(par, c, l);
      ExpiredGrow(c.store, c'.store);
    } else {
      var t :| 0 <= t < |c.threads| && c.threads[t].Inside? && Expiring(c.threads[t].cs);
      if t == l.t {
        InsideMarred(par, c, l, p, past);
      } else {
        OthersStay(par, c, l, t);
      }
    }
  }

  lemma ExpiredSinceStart(par: Params, c0: Config, ls: seq<Label>)
    requires Inv(par, false, c0) && Exec(par, c0, ls).Some?
    ensures c0.store.InState(Expired) <= Exec(par, c0, ls).value.store.InState(Expired)
  {
    ExecEvolves(par, c0, ls);
    ExpiredGrow(c0.store, Exec(par, c0, ls).value.store);
  }

  // ----- The line at the lock -----

  /** The outcome of this call has been settled. */
  predicate OutcomeSettled(cs: Cs) {
    cs.RejectDraw? || cs.RejectAppend? || cs.ReservedDraw? || cs.ReservedAppend? || cs.Finished?
  }

  /** Where the j-th thread to take the lock can be, if it finds nothing to expire. */
  predicate CsOk(cs: Cs, j: nat, sc: Scene) {
    match cs
    case ReserveClock(_) => true
    case ReserveSnapshot(_, _) => true
    case ExpireLoop(queue, _, exit) => queue == [] && exit.LazyExit?
    case ReserveCheck(_, _) => true
    case RejectDraw(_, _) => sc.stock <= j
    case RejectAppend(_, _, _) => sc.stock <= j
    case ReserveDraw(_, _) => j < sc.stock
    case ReserveSave(res) => j < sc.stock
    case ReserveCount(res) => j < sc.stock
    case ReservedDraw(res) => j < sc.stock
    case ReservedAppend(res, _) => j < sc.stock
    case Finished(out) => OutcomeOk(out, j, sc)
    case _ => false
  }

  /** The j-th call to take the lock succeeds exactly when fewer than `stock` came before. */
  predicate OutcomeOk(out: Outcome, j: nat, sc: Scene) {
    if j < sc.stock then out.Got? else out == Failed(OutOfStock)
  }

  predicate Entered(pc: Pc) {
    pc.Inside? || pc.Done?
  }

  /** How many of the threads in `line` have had their outcome settled. */
  function Served(c: Config, line: seq<nat>): nat
    requires forall j | 0 <= j < |line| :: line[j] < |c.threads|
  {
    var n := |line|;
    if n > 0 && c.threads[line[n - 1]].Inside? && !OutcomeSettled(c.threads[line[n - 1]].cs) then n - 1 else n
  }

  /** `line` lists the threads that have taken the lock, first to last; all but the last
      have returned, each with the outcome its place gives it. */
  predicate LineOk(c: Config, line: seq<nat>, sc: Scene) {
    && (forall j | 0 <= j < |line| :: line[j] < |c.threads|)
    && Distinct(line)
    && (forall t | 0 <= t < |c.threads| :: Entered(c.threads[t]) <==> t in line)
    && (forall j | 0 <= j < |line| - 1 :: c.threads[line[j]].Done?)
    && (forall j | 0 <= j < |line| && c.threads[line[j]].Done? :: OutcomeOk(c.threads[line[j]].out, j, sc))
    && (|line| > 0 && c.threads[line[|line| - 1]].Inside? ==> CsOk(c.threads[line[|line| - 1]].cs, |line| - 1, sc))
  }

  predicate CrowdOk(c: Config, line: seq<nat>, sc: Scene) {
    && AllReserving(c, sc.p)
    && LineOk(c, line, sc)
    && sc.p in c.store.products
    && c.store.products[sc.p].AvailableStock() == LeftOver(sc.stock, Served(c, line))
  }

  lemma InsideIsLast(c: Config, line: seq<nat>, sc: Scene, t: nat)
    requires LineOk(c, line, sc) && t < |c.threads| && c.threads[t].Inside?
    ensures |line| > 0 && line[|line| - 1] == t && CsOk(c.threads[t].cs, |line| - 1, sc)
  {
    assert t in line;
    var j :| 0 <= j < |line| && line[j] == t;
  }

  /** A step before the lock. */
  lemma WaitMove(par: Params, c: Config, l: Label, line: seq<nat>, sc: Scene)
    requires CrowdOk(c, line, sc) && Next(par, c, l).Some?
    requires c.threads[l.t].Called? || c.threads[l.t].NeedLock?
    ensures CrowdOk(Next(par, c, l).value, line, sc)
  {
    NextReserving(par, c, l, sc.p);
    assert Reserving(c.threads[l.t], sc.p);
  }

  /** Taking the lock puts a thread at the end of the line. */
  lemma EnterMove(par: Params, c: Config, l: Label, line: seq<nat>, sc: Scene)
    requires LocksOk(c) && HoldersOk(c) && CrowdOk(c, line, sc) && Next(par, c, l).Some?
    requires c.threads[l.t].NeedMutex?
    ensures CrowdOk(Next(par, c, l).value, line + [l.t], sc)
  {
    NextReserving(par, c, l, sc.p);
    assert Reserving(c.threads[l.t], sc.p);
    NobodyHolds(c, l.t);
    assert l.t !in line;
    if line != [] {
      assert !InsideOf(c, line[|line| - 1], sc.p);
      assert Reserving(c.threads[line[|line| - 1]], sc.p);
    }
    EnterLine(c, Next(par, c, l).value, l.t, Next(par, c, l).value.threads[l.t], line, sc);
  }

  lemma EnterLine(c: Config, c': Config, t: nat, pc': Pc, line: seq<nat>, sc: Scene)
    requires LineOk(c, line, sc) && Moves(c, c', t, pc') && t !in line
    requires line != [] ==> !c.threads[line[|line| - 1]].Inside?
    requires pc'.Inside? && pc'.cs.ReserveClock?
    ensures LineOk(c', line + [t], sc) && Served(c, line) == |line| && Served(c', line + [t]) == |line|
  {
  }

  lemma LeaveMove(par: Params, c: Config, l: Label, line: seq<nat>, sc: Scene)
    requires CrowdOk(c, line, sc) && Next(par, c, l).Some?
    requires c.threads[l.t].Inside? && c.threads[l.t].cs.Finished?
    ensures CrowdOk(Next(par, c, l).value, line, sc)
  {
    NextReserving(par, c, l, sc.p);
    assert Reserving(c.threads[l.t], sc.p);
    InsideIsLast(c, line, sc, l.t);
  }

  /** What one section step of the j-th thread does to its place and the stock. */
  lemma SectionFacts(par: Params, sc: Scene, cs: Cs, j: nat, s: Store, i: Input)
    requires sc.p in s.products && CsOk(cs, j, sc) && !cs.Finished?
    requires s.products[sc.p].AvailableStock() == LeftOver(sc.stock, if OutcomeSettled(cs) then j + 1 else j)
    requires cs.ReserveSnapshot? ==> i.order == []
    ensures var (cs', s') := Step(par, sc.p, cs, s, i);
      && CsOk(cs', j, sc) && sc.p in s'.products
      && s'.products[sc.p].AvailableStock() == LeftOver(sc.stock, if OutcomeSettled(cs') then j + 1 else j)
  {
  }

  lemma SectionMove(par: Params, c: Config, l: Label, line: seq<nat>, sc: Scene)
    requires CrowdOk(c, line, sc) && Next(par, c, l).Some?
    requires c.threads[l.t].Inside? && !c.threads[l.t].cs.Finished?
    requires Next(par, c, l).value.threads[l.t].Inside? && !Expiring(Next(par, c, l).value.threads[l.t].cs)
    ensures CrowdOk(Next(par, c, l).value, line, sc)
  {
    var pc, c' := c.threads[l.t], Next(par, c, l).value;
    NextReserving(par, c, l, sc.p);
    assert Reserving(pc, sc.p);
    InsideIsLast(c, line, sc, l.t);
    InsideMoves(par, c, l);
    SectionFacts(par, sc, pc.cs, |line| - 1, c.store, InputOf(c, pc.cs, l));
    SectionRebuild(c, c', l.t, c'.threads[l.t], line, sc);
  }

  lemma SectionRebuild(c: Config, c': Config, t: nat, pc': Pc, line: seq<nat>, sc: Scene)
    requires CrowdOk(c, line, sc) && Moves(c, c', t, pc') && c.threads[t].Inside? && pc'.Inside?
    requires AllReserving(c', sc.p) && |line| > 0 && line[|line| - 1] == t && CsOk(pc'.cs, |line| - 1, sc)
    requires sc.p in c'.store.products
    requires c'.store.products[sc.p].AvailableStock()
          == LeftOver(sc.stock, if OutcomeSettled(pc'.cs) then |line| else |line| - 1)
    ensures CrowdOk(c', line, sc)
  {
    assert LineOk(c', line, sc);
  }

  /** The threads that took the lock during a schedule, first to last. */
  ghost function Line(par: Params, c0: Config, ls: seq<Label>): seq<nat>
    decreases |ls|
  {
    if ls == [] then []
    else
      var n := |ls| - 1;
      var before := Line(par, c0, ls[..n]);
      match Exec(par, c0, ls[..n])
      case None => before
      case Some(c) => if ls[n].t < |c.threads| && c.threads[ls[n].t].NeedMutex? then before + [ls[n].t] else before
  }

  /** Calls on `p` are about to start on a system at rest. */
  ghost predicate Opening(par: Params, c0: Config, sc: Scene) {
    && Inv(par, false, c0)
    && (forall t | 0 <= t < |c0.threads| :: c0.threads[t].Called?) && AllReserving(c0, sc.p)
    && sc.p in c0.store.products && c0.store.products[sc.p].AvailableStock() == sc.stock
  }

  lemma CrowdStep(par: Params, c: Config, l: Label, line: seq<nat>, sc: Scene, past: set<string>)
    requires LocksOk(c) && HoldersOk(c) && CrowdOk(c, line, sc) && Next(par, c, l).Some?
    requires !Marred(past, Next(par, c, l).value)
    ensures CrowdOk(Next(par, c, l).value, if c.threads[l.t].NeedMutex? then line + [l.t] else line, sc)
  {
    assert Reserving(c.threads[l.t], sc.p);
    match c.threads[l.t]
    case NeedMutex(_, _, _, _) => EnterMove(par, c, l, line, sc);
    case Inside(_, _, _, cs, _) =>
      if cs.Finished? { LeaveMove(par, c, l, line, sc); } else { SectionMove(par, c, l, line, sc); }
    case _ => WaitMove(par, c, l, line, sc);
  }

  lemma {:induction false} StaysReserving(par: Params, c0: Config, ls: seq<Label>, p: string)
    requires AllReserving(c0, p) && Exec(par, c0, ls).Some?
    ensures AllReserving(Exec(par, c0, ls).value, p)
    decreases |ls|
  {
    if ls != [] {
      var n := |ls| - 1;
      StaysReserving(par, c0, ls[..n], p);
      NextReserving(par, Exec(par, c0, ls[..n]).value, ls[n], p);
    }
  }

  lemma {:induction false} CrowdStaysInLine(par: Params, c0: Config, ls: seq<Label>, sc: Scene)
    requires Opening(par, c0, sc) && Exec(par, c0, ls).Some?
    requires !Marred(c0.store.InState(Expired), Exec(par, c0, ls).value)
    ensures CrowdOk(Exec(par, c0, ls).value, Line(par, c0, ls), sc)
    decreases |ls|
  {
    if ls != [] {
      var n, past := |ls| - 1, c0.store.InState(Expired);
      var c := Exec(par, c0, ls[..n]).value;
      ExecKeepsInv(par, false, c0, ls[..n]);
      StaysReserving(par, c0, ls[..n], sc.p);
      ExpiredSinceStart(par, c0, ls[..n]);
      if Marred(past, c) { MarredStays(par, c, ls[n], sc.p, past); }
      CrowdStaysInLine(par, c0, ls[..n], sc);
      CrowdStep(par, c, ls[n], Line(par, c0, ls[..n]), sc, past);
    }
  }

  function Winners(c: Config): set<nat> {
    set t | 0 <= t < |c.threads| && c.threads[t].Done? && c.threads[t].out.Got?
  }

  function Losers(c: Config): set<nat> {
    set t | 0 <= t < |c.threads| && c.threads[t] == Done(Failed(OutOfStock))
  }

  function Members(xs: seq<nat>): set<nat> {
    set x | x in xs
  }

  lemma {:induction false} DistinctSize(xs: seq<nat>)
    requires Distinct(xs)
    ensures |Members(xs)| == |xs|
    decreases |xs|
  {
    if xs == [] {
      assert Members(xs) == {};
    } else {
      DistinctSize(xs[1..]);
      assert xs[0] !in xs[1..];
      assert forall x :: x in xs <==> x == xs[0] || x in xs[1..];
      assert Members(xs) == Members(xs[1..]) + {xs[0]};
    }
  }

  /** The numbers of `n` threads. */
  function Tids(n: nat): (r: set<nat>)
    ensures forall t: nat :: t in r <==> t < n
    ensures |r| == n
  {
    if n == 0 then {} else Tids(n - 1) + {n - 1}
  }

  lemma LineIsEverybody(c: Config, line: seq<nat>, sc: Scene)
    requires LineOk(c, line, sc) && forall t | 0 <= t < |c.threads| :: c.threads[t].Done?
    ensures |line| == |c.threads|
    ensures forall t | 0 <= t < |c.threads| :: t in line
  {
    assert forall t | 0 <= t < |c.threads| :: Entered(c.threads[t]);
    DistinctSize(line);
    assert forall t | t in line :: t < |c.threads|;
    assert Members(line) == Tids(|c.threads|);
  }

  /** Exact winner count. With K calls on p, starting availability A and no hold expired on
      the way, every schedule in which all calls return has exactly min(K, A) successes, the
      rest are refused for lack of stock, and A - min(K, A) is left; the successes are the
      first to take the lock. */
  lemma WinnersAreTheFirst(par: Params, c0: Config, ls: seq<Label>, sc: Scene, c: Config)
    requires Opening(par, c0, sc) && Exec(par, c0, ls) == Some(c)
    requires forall t | 0 <= t < |c.threads| :: c.threads[t].Done?
    requires c.store.InState(Expired) <= c0.store.InState(Expired)
    ensures |Winners(c)| == Least(|c.threads|, sc.stock)
    ensures |Losers(c)| == |c.threads| - Least(|c.threads|, sc.stock)
    ensures sc.p in c.store.products
      && c.store.products[sc.p].AvailableStock() == sc.stock - Least(|c.threads|, sc.stock)
    ensures var line := Line(par, c0, ls);
      && |line| == |c.threads| && Distinct(line)
      && forall j | 0 <= j < |line| :: line[j] in Winners(c) <==> j < sc.stock
  {
    assert !Marred(c0.store.InState(Expired), c);
    CrowdStaysInLine(par, c0, ls, sc);
    var line := Line(par, c0, ls);
    LineIsEverybody(c, line, sc);
    CountByPlace(c, line, sc);
  }

  lemma PlacesDecide(c: Config, line: seq<nat>, sc: Scene, j: nat)
    requires LineOk(c, line, sc) && j < |line| && c.threads[line[j]].Done?
    ensures line[j] in Winners(c) <==> j < sc.stock
    ensures line[j] in Losers(c) <==> sc.stock <= j
  {
    assert OutcomeOk(c.threads[line[j]].out, j, sc);
  }

  lemma CountByPlace(c: Config, line: seq<nat>, sc: Scene)
    requires LineOk(c, line, sc) && |line| == |c.threads|
    requires forall t | 0 <= t < |c.threads| :: c.threads[t].Done? && t in line
    ensures |Winners(c)| == Least(|line|, sc.stock)
    ensures |Losers(c)| == |line| - Least(|line|, sc.stock)
    ensures forall j | 0 <= j < |line| :: line[j] in Winners(c) <==> j < sc.stock
  {
    var n := Least(|line|, sc.stock);
    forall j | 0 <= j < |line|
      ensures line[j] in Winners(c) <==> j < sc.stock
      ensures line[j] in Losers(c) <==> sc.stock <= j
    {
      PlacesDecide(c, line, sc, j);
    }
    WinnersAreMembers(c, line, n);
    DistinctSize(line[..n]);
    DistinctSize(line[n..]);
  }

  lemma WinnersAreMembers(c: Config, line: seq<nat>, n: nat)
    requires n <= |line|
    requires forall t | 0 <= t < |c.threads| :: t in line
    requires forall j | 0 <= j < |line| :: line[j] in Winners(c) <==> j < n
    requires forall j | 0 <= j < |line| :: line[j] in Losers(c) <==> n <= j
    ensures Winners(c) == Members(line[..n]) && Losers(c) == Members(line[n..])
  {
    forall t ensures t in Winners(c) <==> t in line[..n] {
      if t in Winners(c) {
        assert t in line;
        var j :| 0 <= j < |line| && line[j] == t;
        assert line[..n][j] == t;
      }
    }
    forall t ensures t in Losers(c) <==> t in line[n..] {
      if t in Losers(c) {
        assert t in line;
        var j :| 0 <= j < |line| && line[j] == t;
        assert line[n..][j - n] == t;
      }
    }
  }

  // ----- When nothing is expired: the clock stays below every end -----

  /** No Active hold of `p` reaches its end by `limit`. */
  predicate NothingLapses(s: Store, p: string, limit: int) {
    forall id | id in s.reservations && s.reservations[id].productId == p && s.reservations[id].IsActive() ::
      limit < s.reservations[id].expiresAt
  }

  /** The times a section carries lie between `from` and `limit`. */
  predicate CsInTime(cs: Cs, from: int, limit: int) {
    match cs
    case ReserveSnapshot(_, now) => from <= now <= limit
    case ExpireLoop(queue, now, _) => queue == [] && from <= now <= limit
    case EndRecord(_, _, _, _, _) => false
    case EndCount(_, _, _, _, _) => false
    case EndDraw(_, _, _, _, _) => false
    case EndAppend(_, _, _, _, _, _) => false
    case ReserveCheck(_, now) => from <= now <= limit
    case ReserveDraw(_, now) => from <= now <= limit
    case ReserveSave(res) => limit < res.expiresAt
    case _ => true
  }

  predicate Prompt(past: set<string>, c: Config, p: string, from: int, limit: int) {
    && NothingLapses(c.store, p, limit) && from <= c.clock && c.store.InState(Expired) == past
    && forall t | 0 <= t < |c.threads| && c.threads[t].Inside? :: CsInTime(c.threads[t].cs, from, limit)
  }

  lemma PromptSection(par: Params, p: string, cs: Cs, s: Store, i: Input, from: int, limit: int)
    requires ReservingCs(cs) && CsInTime(cs, from, limit) && NothingLapses(s, p, limit)
    requires cs.ReserveSnapshot? ==> Enumerates(i.order, s.StaleIds(p, cs.now))
    requires cs.ReadsClock() ==> from <= i.now <= limit
    requires limit < from + par.holdFor
    requires cs.ReserveSave? ==> cs.res.IsActive() && cs.res.reservationId !in s.reservations
    ensures var (cs', s') := Step(par, p, cs, s, i);
      CsInTime(cs', from, limit) && NothingLapses(s', p, limit) && s'.InState(Expired) == s.InState(Expired)
  {
    if cs.ReserveSnapshot? {
      assert s.StaleIds(p, cs.now) == {};
      EnumerationSize(i.order, {});
    } else if cs.ReserveSave? {
      var s' := s.PutReservation(cs.res.reservationId, cs.res);
      assert s'.InState(Expired) == s.InState(Expired);
    }
  }

  lemma PromptInside(par: Params, c: Config, l: Label, p: string, from: int, limit: int, past: set<string>)
    requires Inv(par, false, c) && AllReserving(c, p) && Prompt(past, c, p, from, limit) && Next(par, c, l).Some?
    requires c.threads[l.t].Inside? && !c.threads[l.t].cs.Finished?
    requires l.now <= limit < from + par.holdFor
    ensures Prompt(past, Next(par, c, l).value, p, from, limit)
  {
    var pc, c' := c.threads[l.t], Next(par, c, l).value;
    assert pc.p == p && ReservingCs(pc.cs) by { assert Reserving(pc, p); }
    assert Grounded(par, p, pc.cs, c.store) by { InsideGrounded(par, false, c, l); }
    InsideMoves(par, c, l);
    PromptSection(par, p, pc.cs, c.store, InputOf(c, pc.cs, l), from, limit);
  }

  lemma PromptStep(par: Params, c: Config, l: Label, p: string, from: int, limit: int, past: set<string>)
    requires Inv(par, false, c) && AllReserving(c, p) && Prompt(past, c, p, from, limit) && Next(par, c, l).Some?
    requires l.now <= limit < from + par.holdFor
    ensures Prompt(past, Next(par, c, l).value, p, from, limit)
  {
    assert Reserving(c.threads[l.t], p);
    if c.threads[l.t].Inside? && !c.threads[l.t].cs.Finished? {
      PromptInside(par, c, l, p, from, limit, past);
    }
  }

  /** A crowd that is done before any hold can lapse has none expired. */
  lemma {:induction false} PromptCrowd(par: Params, c0: Config, ls: seq<Label>, sc: Scene, limit: int)
    requires Opening(par, c0, sc) && Exec(par, c0, ls).Some?
    requires NothingLapses(c0.store, sc.p, limit)
    requires limit < c0.clock + par.holdFor && forall l | l in ls :: l.now <= limit
    ensures Prompt(c0.store.InState(Expired), Exec(par, c0, ls).value, sc.p, c0.clock, limit)
    decreases |ls|
  {
    if ls != [] {
      var n := |ls| - 1;
      assert forall l | l in ls[..n] :: l in ls;
      assert ls[n] in ls;
      PromptCrowd(par, c0, ls[..n], sc, limit);
      ExecKeepsInv(par, false, c0, ls[..n]);
      StaysReserving(par, c0, ls[..n], sc.p);
      PromptStep(par, Exec(par, c0, ls[..n]).value, ls[n], sc.p, c0.clock, limit, c0.store.InState(Expired));
    }
  }

  // ----- Every success has left a record -----

  predicate SavedCs(cs: Cs) {
    cs.ReserveCount? || cs.ReservedDraw? || cs.ReservedAppend? || (cs.Finished? && cs.out.Got?)
  }

  /** The call has saved its hold. */
  predicate HasSaved(pc: Pc) {
    match pc
    case Inside(_, _, _, cs, _) => SavedCs(cs)
    case Done(out) => out.Got?
    case _ => false
  }

  function HaveSaved(c: Config): set<nat> {
    set t | 0 <= t < |c.threads| && HasSaved(c.threads[t])
  }

  lemma SavedMove(c: Config, c': Config, t: nat, pc': Pc)
    requires Moves(c, c', t, pc') && (HasSaved(c.threads[t]) ==> HasSaved(pc'))
    ensures |HaveSaved(c')| == |HaveSaved(c)| + (if HasSaved(pc') && !HasSaved(c.threads[t]) then 1 else 0)
  {
    if HasSaved(pc') && !HasSaved(c.threads[t]) {
      assert t !in HaveSaved(c);
      assert HaveSaved(c') == HaveSaved(c) + {t};
    } else {
      assert HaveSaved(c') == HaveSaved(c);
    }
  }

  lemma SectionSaves(par: Params, p: string, cs: Cs, s: Store, i: Input)
    requires ReservingCs(cs) && !cs.Finished? && (cs.ReserveSave? ==> cs.res.reservationId !in s.reservations)
    ensures var (cs', s') := Step(par, p, cs, s, i);
      && s'.reservations.Keys == s.reservations.Keys + (if cs.ReserveSave? then {cs.res.reservationId} else {})
      && (SavedCs(cs') <==> SavedCs(cs) || cs.ReserveSave?)
  {
  }

  lemma SavingInside(par: Params, c: Config, l: Label, p: string)
    requires AllReserving(c, p) && Next(par, c, l).Some?
    requires c.threads[l.t].Inside? && !c.threads[l.t].cs.Finished?
    requires c.threads[l.t].cs.ReserveSave? ==> c.threads[l.t].cs.res.reservationId !in c.store.reservations
    requires |c.store.reservations| == |HaveSaved(c)|
    ensures |Next(par, c, l).value.store.reservations| == |HaveSaved(Next(par, c, l).value)|
  {
    var pc, c' := c.threads[l.t], Next(par, c, l).value;
    assert Reserving(pc, p);
    InsideMoves(par, c, l);
    SectionSaves(par, p, pc.cs, c.store, InputOf(c, pc.cs, l));
    SavedMove(c, c', l.t, c'.threads[l.t]);
    KeysSize(c.store, c'.store, if pc.cs.ReserveSave? then {pc.cs.res.reservationId} else {});
  }

  lemma KeysSize(s: Store, t: Store, new_: set<string>)
    requires t.reservations.Keys == s.reservations.Keys + new_ && s.reservations.Keys !! new_
    ensures |t.reservations| == |s.reservations| + |new_|
  {
    assert |t.reservations| == |t.reservations.Keys| && |s.reservations| == |s.reservations.Keys|;
  }

  lemma SavingOutside(par: Params, c: Config, l: Label, p: string)
    requires AllReserving(c, p) && Next(par, c, l).Some?
    requires !c.threads[l.t].Inside? || c.threads[l.t].cs.Finished?
    ensures var c' := Next(par, c, l).value; c'.store == c.store && |HaveSaved(c')| == |HaveSaved(c)|
  {
    var c' := Next(par, c, l).value;
    assert Reserving(c.threads[l.t], p);
    SavedMove(c, c', l.t, c'.threads[l.t]);
  }

  /** From an empty store there are as many records as calls that have saved one. */
  lemma {:induction false} RecordsAreSaved(par: Params, c0: Config, ls: seq<Label>, p: string)
    requires Inv(par, false, c0) && AllReserving(c0, p) && Exec(par, c0, ls).Some?
    requires c0.store.reservations == map[] && forall t | 0 <= t < |c0.threads| :: c0.threads[t].Called?
    ensures var c := Exec(par, c0, ls).value; |c.store.reservations| == |HaveSaved(c)|
    decreases |ls|
  {
    if ls == [] {
      assert HaveSaved(c0) == {};
    } else {
      var n := |ls| - 1;
      var c := Exec(par, c0, ls[..n]).value;
      RecordsAreSaved(par, c0, ls[..n], p);
      ExecKeepsInv(par, false, c0, ls[..n]);
      StaysReserving(par, c0, ls[..n], p);
      if c.threads[ls[n].t].Inside? && !c.threads[ls[n].t].cs.Finished? {
        InsideGrounded(par, false, c, ls[n]);
        SavingInside(par, c, ls[n], p);
      } else {
        SavingOutside(par, c, ls[n], p);
      }
    }
  }

  // ----- Reserving alone is sound, however sweeps are written -----

  lemma {:induction false} CrowdIsSound(par: Params, c0: Config, ls: seq<Label>, p: string)
    requires Inv(par, false, c0) && AllReserving(c0, p)
    ensures SoundRun(par, c0, ls)
    decreases |ls|
  {
    if ls != [] {
      var n := |ls| - 1;
      CrowdIsSound(par, c0, ls[..n], p);
      if Exec(par, c0, ls[..n]).Some? {
        ExecKeepsInv(par, false, c0, ls[..n]);
        StaysReserving(par, c0, ls[..n], p);
        ReservingIsSound(par, Exec(par, c0, ls[..n]).value, ls[n], p);
      }
    }
  }

  lemma ReservingIsSound(par: Params, c: Config, l: Label, p: string)
    requires Inv(par, false, c) && AllReserving(c, p)
    ensures Sound(c, l)
  {
    OnlySweepsEndTwice(par, c, l);
    assert !Sound(c, l) ==> Reserving(c.threads[l.t], p);
  }

  // ----- The contention demo -----

  /** More calls than stock on a freshly seeded product, all returned: exactly `stock`
      successes, every other call out of stock and nothing left, if and only if no hold was
      expired on the way. */
  lemma DemoOutcome(par: Params, c0: Config, ls: seq<Label>, p: string, c: Config)
    requires Initial(c0) && Exec(par, c0, ls) == Some(c)
    requires p in c0.store.products && |c0.threads| > c0.store.products[p].totalStock
    requires forall t | 0 <= t < |c0.threads| :: c0.threads[t].op.ReserveOp? && c0.threads[t].op.product == p
    requires forall t | 0 <= t < |c.threads| :: c.threads[t].Done?
    ensures p in c.store.products
    ensures var stock := c0.store.products[p].totalStock;
      (|Winners(c)| == stock && |Losers(c)| == |c0.threads| - stock && c.store.products[p].AvailableStock() == 0)
      <==> c.store.InState(Expired) == {}
  {
    InitialInv(par, false, c0);
    ThreadsStay(par, c0, ls);
    assert AllReserving(c0, p);
    DemoStock(par, c0, ls, p, c);
    if c.store.InState(Expired) == {} {
      WinnersAreTheFirst(par, c0, ls, Scene(p, c0.store.products[p].totalStock), c);
    } else {
      ExpiryOversells(par, c0, ls, p, c);
    }
  }

  /** What is not available is held or sold. */
  lemma DemoStock(par: Params, c0: Config, ls: seq<Label>, p: string, c: Config)
    requires Initial(c0) && Exec(par, c0, ls) == Some(c) && p in c0.store.products && AllReserving(c0, p)
    requires forall t | 0 <= t < |c.threads| :: c.threads[t].Done?
    ensures p in c.store.products
    ensures c.store.products[p].AvailableStock()
         == c0.store.products[p].totalStock - |InStateOf(c.store, p, Active)| - |InStateOf(c.store, p, Confirmed)|
  {
    InitialInv(par, true, c0);
    InitialInv(par, false, c0);
    CrowdIsSound(par, c0, ls, p);
    ExecKeepsInv(par, true, c0, ls);
    ExecStock(par, c0, ls, p);
    assert Free(c, p) && Rest(par.holdFor, true, p, Restrict(c.store, p));
    SliceCounts(c.store, p, Active);
    SliceCounts(c.store, p, Confirmed);
    assert Restrict(c.store, p).products[p] == c.store.products[p];
  }

  lemma {:induction false} ExecStock(par: Params, c0: Config, ls: seq<Label>, p: string)
    requires Inv(par, false, c0) && p in c0.store.products && Exec(par, c0, ls).Some?
    ensures var s := Exec(par, c0, ls).value.store;
      p in s.products && s.products[p].totalStock == c0.store.products[p].totalStock
    decreases |ls|
  {
    if ls != [] {
      var n := |ls| - 1;
      ExecStock(par, c0, ls[..n], p);
      ExecKeepsInv(par, false, c0, ls[..n]);
      NextEvolves(par, Exec(par, c0, ls[..n]).value, ls[n]);
    }
  }

  /** Holds, sales and expiries are different records. */
  lemma RecordsAdd(s: Store, p: string)
    requires s.InState(Expired) != {}
    ensures |s.reservations| > |InStateOf(s, p, Active)| + |InStateOf(s, p, Confirmed)|
  {
    var a, b, e := InStateOf(s, p, Active), InStateOf(s, p, Confirmed), s.InState(Expired);
    assert a !! b && (a + b) !! e && a + b + e <= s.reservations.Keys;
    SubsetSize(a + b + e, s.reservations.Keys);
    assert |a + b + e| == |a| + |b| + |e| && |s.reservations.Keys| == |s.reservations|;
  }

  /** If a hold was expired and the stock is used up, more calls succeeded than there is
      stock. */
  lemma ExpiryOversells(par: Params, c0: Config, ls: seq<Label>, p: string, c: Config)
    requires Initial(c0) && Exec(par, c0, ls) == Some(c) && p in c0.store.products && AllReserving(c0, p)
    requires forall t | 0 <= t < |c.threads| :: c.threads[t].Done?
    requires c.store.InState(Expired) != {}
    ensures p in c.store.products
    ensures c.store.products[p].AvailableStock() == 0 ==> |Winners(c)| > c0.store.products[p].totalStock
  {
    DemoStock(par, c0, ls, p, c);
    InitialInv(par, false, c0);
    RecordsAreSaved(par, c0, ls, p);
    assert HaveSaved(c) == Winners(c);
    RecordsAdd(c.store, p);
  }

  lemma {:induction false} ThreadsStay(par: Params, c0: Config, ls: seq<Label>)
    requires Exec(par, c0, ls).Some?
    ensures |Exec(par, c0, ls).value.threads| == |c0.threads|
    decreases |ls|
  {
    if ls != [] {
      var n := |ls| - 1;
      ThreadsStay(par, c0, ls[..n]);
      var d := Exec(par, c0, ls[..n]).value;
      match d.threads[ls[n].t]
      case Called(op) => match op { case SweepOp(_) => case _ => }
      case _ =>
    }
  }
}
