/** Sweeps in schedules: what a sweep has collected and not yet dealt with, which schedules
    of the code as written are sound, and what a sweep has done when it returns. */
module SweepRuns {
  import opened Domain
  import opened Stores
  import opened Section
  import opened SectionInvariant
  import opened Locality
  import opened Laws
  import opened Interleaving
  import opened Safety
  import opened Solo
  import opened SweepRace

  // ----- What a sweep has collected -----

  /** Ids a thread has collected for a sweep and not yet begun to expire. */
  predicate HasCollected(pc: Pc, id: string) {
    match pc
    case NeedLock(_, job, ret) => InJob(job, id) || InRet(ret, id)
    case NeedMutex(_, _, job, ret) => InJob(job, id) || InRet(ret, id)
    case Inside(_, _, _, cs, ret) => InQueue(cs, id) || InRet(ret, id)
    case Sweeping(_, groups, _) => InGroups(groups, id)
    case _ => false
  }

  predicate InJob(job: Job, id: string) {
    job.SweepJob? && id in job.ids
  }

  predicate InRet(ret: Ret, id: string) {
    ret.SweepOn? && InGroups(ret.rest, id)
  }

  predicate InQueue(cs: Cs, id: string) {
    match cs
    case ExpireLoop(queue, _, exit) => exit.SweepExit? && id in queue
    case EndRecord(_, _, _, _, then_) => InThen(then_, id)
    case EndCount(_, _, _, _, then_) => InThen(then_, id)
    case EndDraw(_, _, _, _, then_) => InThen(then_, id)
    case EndAppend(_, _, _, _, _, then_) => InThen(then_, id)
    case _ => false
  }

  predicate InThen(then_: Then, id: string) {
    FromSweep(then_) && id in then_.queue
  }

  lemma GroupsSplit(groups: seq<Group>, id: string)
    requires groups != []
    ensures InGroups(groups, id) <==> id in groups[0].ids || InGroups(groups[1..], id)
  {
    assert forall g :: g in groups <==> g == groups[0] || g in groups[1..];
  }

  /** The step does not touch what this thread has collected, unless it is the snapshot. */
  lemma OutsideCollected(par: Params, c: Config, l: Label, id: string)
    requires Next(par, c, l).Some? && (!c.threads[l.t].Inside? || c.threads[l.t].cs.Finished?)
    ensures var pc, pc' := c.threads[l.t], Next(par, c, l).value.threads[l.t];
      HasCollected(pc', id)
      <==> if pc.Called? && pc.op.SweepOp? then id in AllStale(c.store, pc.op.now) else HasCollected(pc, id)
  {
    match c.threads[l.t]
    case Called(op) => CalledCollects(par, c, l, id);
    case Sweeping(_, groups, _) => if groups != [] { GroupsSplit(groups, id); }
    case _ =>
  }

  lemma CalledCollects(par: Params, c: Config, l: Label, id: string)
    requires Next(par, c, l).Some? && c.threads[l.t].Called?
    ensures var op, pc' := c.threads[l.t].op, Next(par, c, l).value.threads[l.t];
      HasCollected(pc', id) <==> op.SweepOp? && id in AllStale(c.store, op.now)
  {
    match c.threads[l.t].op
    case SweepOp(now) => SnapshotCollects(l.groups, c.store, now, id);
    case _ =>
  }

  /** A section step collects nothing. */
  lemma SectionCollected(par: Params, p: string, cs: Cs, s: Store, i: Input, id: string)
    requires !cs.Finished? && InQueue(Step(par, p, cs, s, i).0, id)
    ensures InQueue(cs, id)
  {
    match cs
    case ExpireLoop(queue, _, _) => if queue != [] { assert forall x | x in queue[1..] :: x in queue; }
    case _ =>
  }

  // ----- Everything a sweep saw is ended when it returns -----

  /** The section is still going to expire `id`. */
  predicate OwesCs(cs: Cs, id: string) {
    InQueue(cs, id) || (cs.EndRecord? && cs.id == id && cs.e.ToExpired?)
  }

  predicate Owes(pc: Pc, id: string) {
    HasCollected(pc, id) || (pc.Inside? && OwesCs(pc.cs, id))
  }

  predicate EndedIn(s: Store, id: string) {
    id in s.reservations && !s.reservations[id].IsActive()
  }

  lemma EndedStays(s: Store, t: Store, id: string)
    requires Evolves(s, t) && EndedIn(s, id)
    ensures EndedIn(t, id)
  {
  }

  lemma OweLoop(par: Params, p: string, cs: Cs, s: Store, i: Input, id: string)
    requires cs.ExpireLoop? && InQueue(cs, id) && id in s.reservations
    ensures var (cs', s') := Step(par, p, cs, s, i); OwesCs(cs', id) || EndedIn(s', id)
  {
    assert cs.queue != [] && (id == cs.queue[0] || id in cs.queue[1..]);
  }

  lemma OweSection(par: Params, p: string, cs: Cs, s: Store, i: Input, id: string)
    requires OwesCs(cs, id) && id in s.reservations
    requires cs.EndRecord? && FromSweep(cs.then_) ==> cs.e.ToExpired?
    ensures var (cs', s') := Step(par, p, cs, s, i); OwesCs(cs', id) || EndedIn(s', id)
  {
    if cs.ExpireLoop? { OweLoop(par, p, cs, s, i, id); }
  }

  lemma OweInside(par: Params, c: Config, l: Label, id: string)
    requires Next(par, c, l).Some? && id in c.store.reservations
    requires c.threads[l.t].Inside? && !c.threads[l.t].cs.Finished? && Owes(c.threads[l.t], id)
    requires var cs := c.threads[l.t].cs; cs.EndRecord? && FromSweep(cs.then_) ==> cs.e.ToExpired?
    ensures var c' := Next(par, c, l).value;
      l.t < |c'.threads| && (Owes(c'.threads[l.t], id) || EndedIn(c'.store, id))
  {
    var pc := c.threads[l.t];
    if OwesCs(pc.cs, id) { OweSection(par, pc.p, pc.cs, c.store, InputOf(c, pc.cs, l), id); }
  }

  lemma SweepsExpire(par: Params, c: Config, l: Label)
    requires Inv(par, false, c) && l.t < |c.threads| && c.threads[l.t].Inside?
    ensures var cs := c.threads[l.t].cs; cs.EndRecord? && FromSweep(cs.then_) ==> cs.e.ToExpired?
  {
    InsideGrounded(par, false, c, l);
  }

  lemma OweStep(par: Params, c: Config, l: Label, t: nat, id: string)
    requires Inv(par, false, c) && Next(par, c, l).Some? && t < |c.threads| && id in c.store.reservations
    requires Owes(c.threads[t], id) || EndedIn(c.store, id)
    ensures var c' := Next(par, c, l).value;
      && t < |c'.threads| && id in c'.store.reservations
      && (Owes(c'.threads[t], id) || EndedIn(c'.store, id))
  {
    var c' := Next(par, c, l).value;
    NextEvolves(par, c, l);
    assert id in c'.store.reservations;
    if EndedIn(c.store, id) {
      EndedStays(c.store, c'.store, id);
      if t != l.t { OthersStay(par, c, l, t); } else { SameThreads(par, c, l); }
    } else if t != l.t {
      OthersStay(par, c, l, t);
    } else if c.threads[t].Inside? && !c.threads[t].cs.Finished? {
      SweepsExpire(par, c, l);
      OweInside(par, c, l, id);
    } else {
      OutsideCollected(par, c, l, id);
      SameThreads(par, c, l);
    }
  }

  lemma SameThreads(par: Params, c: Config, l: Label)
    requires Next(par, c, l).Some?
    ensures |Next(par, c, l).value.threads| == |c.threads|
  {
    match c.threads[l.t]
    case Called(op) => match op { case SweepOp(_) => case _ => }
    case _ =>
  }

  lemma {:induction false} OweRun(par: Params, c: Config, ls: seq<Label>, t: nat, id: string)
    requires Inv(par, false, c) && Exec(par, c, ls).Some? && t < |c.threads| && id in c.store.reservations
    requires Owes(c.threads[t], id) || EndedIn(c.store, id)
    ensures var d := Exec(par, c, ls).value;
      && t < |d.threads| && id in d.store.reservations
      && (Owes(d.threads[t], id) || EndedIn(d.store, id))
    decreases |ls|
  {
    if ls != [] {
      var n := |ls| - 1;
      OweRun(par, c, ls[..n], t, id);
      ExecKeepsInv(par, false, c, ls[..n]);
      OweStep(par, Exec(par, c, ls[..n]).value, ls[n], t, id);
    }
  }

  lemma SnapshotOwes(par: Params, c0: Config, before: seq<Label>, c: Config, l: Label, id: string)
    requires Initial(c0) && Exec(par, c0, before) == Some(c)
    requires l.t < |c.threads| && c.threads[l.t].Called? && c.threads[l.t].op.SweepOp? && Next(par, c, l).Some?
    requires id in AllStale(c.store, c.threads[l.t].op.now)
    ensures var c1 := Next(par, c, l).value;
      Inv(par, false, c1) && l.t < |c1.threads| && id in c1.store.reservations && Owes(c1.threads[l.t], id)
  {
    assert Inv(par, false, c) by {
      InitialInv(par, false, c0);
      ExecKeepsInv(par, false, c0, before);
    }
    NextKeepsInv(par, false, c, l);
    CalledCollects(par, c, l, id);
    CalledShape(par, c, l);
  }

  lemma OwedIsEnded(par: Params, c: Config, ls: seq<Label>, t: nat, id: string)
    requires Inv(par, false, c) && Exec(par, c, ls).Some? && t < |c.threads| && id in c.store.reservations
    requires Owes(c.threads[t], id)
    ensures var d := Exec(par, c, ls).value;
      t < |d.threads| && (d.threads[t].Done? ==> EndedIn(d.store, id))
  {
    OweRun(par, c, ls, t, id);
  }

  /** When a sweep has returned, every hold that was stale when it took its snapshot has
      ended, whatever else went on and whether or not sweeps look again. */
  lemma SweepEndsWhatItSaw(par: Params, c0: Config, before: seq<Label>, c: Config, l: Label,
      after: seq<Label>, d: Config, id: string)
    requires Initial(c0) && Exec(par, c0, before) == Some(c)
    requires l.t < |c.threads| && c.threads[l.t].Called? && c.threads[l.t].op.SweepOp? && Next(par, c, l).Some?
    requires Exec(par, Next(par, c, l).value, after) == Some(d) && l.t < |d.threads| && d.threads[l.t].Done?
    requires id in AllStale(c.store, c.threads[l.t].op.now)
    ensures id in d.store.reservations && !d.store.reservations[id].IsActive()
  {
    SnapshotOwes(par, c0, before, c, l, id);
    OwedIsEnded(par, Next(par, c, l).value, after, l.t, id);
  }

  // ----- What a sweep returns -----

  /** The step is one in which a sweep expires a reservation. */
  predicate Expires(c: Config, l: Label, t: nat) {
    && l.t == t && t < |c.threads| && c.threads[t].Inside?
    && c.threads[t].cs.EndRecord? && FromSweep(c.threads[t].cs.then_)
  }

  /** And one that moves it from Active to Expired. */
  predicate MovesOne(c: Config, l: Label, t: nat) {
    Expires(c, l, t) && c.store.Lookup(c.threads[t].cs.id).IsActive()
  }

  /** How many reservations thread `t` expired during a schedule. */
  ghost function ExpiredBy(par: Params, c: Config, ls: seq<Label>, t: nat): nat
    decreases |ls|
  {
    if ls == [] then 0
    else
      var n := |ls| - 1;
      ExpiredBy(par, c, ls[..n], t)
      + (if Exec(par, c, ls[..n]).Some? && Expires(Exec(par, c, ls[..n]).value, ls[n], t) then 1 else 0)
  }

  /** How many of them it moved from Active to Expired. */
  ghost function MovedBy(par: Params, c: Config, ls: seq<Label>, t: nat): nat
    decreases |ls|
  {
    if ls == [] then 0
    else
      var n := |ls| - 1;
      MovedBy(par, c, ls[..n], t)
      + (if Exec(par, c, ls[..n]).Some? && MovesOne(Exec(par, c, ls[..n]).value, ls[n], t) then 1 else 0)
  }

  /** The thread runs a sweep. */
  predicate SweepsOn(pc: Pc) {
    match pc
    case Called(op) => op.SweepOp?
    case NeedLock(_, job, ret) => job.SweepJob? && ret.SweepOn?
    case NeedMutex(_, _, job, ret) => job.SweepJob? && ret.SweepOn?
    case Inside(_, _, _, cs, ret) => SweepsCs(cs) && ret.SweepOn?
    case Sweeping(_, _, _) => true
    case Done(out) => out.Swept?
  }

  predicate SweepsCs(cs: Cs) {
    match cs
    case ExpireLoop(_, _, exit) => exit.SweepExit?
    case EndRecord(e, _, _, _, then_) => e.ToExpired? && FromSweep(then_)
    case EndCount(_, _, _, _, then_) => FromSweep(then_)
    case EndDraw(_, _, _, _, then_) => FromSweep(then_)
    case EndAppend(_, _, _, _, _, then_) => FromSweep(then_)
    case Finished(out) => out.Swept?
    case _ => false
  }

  /** What the sweep has counted so far. */
  function Counted(pc: Pc): int
    requires SweepsOn(pc)
  {
    match pc
    case Called(_) => 0
    case NeedLock(_, _, ret) => ret.total
    case NeedMutex(_, _, _, ret) => ret.total
    case Inside(_, _, _, cs, ret) => ret.total + CountedCs(cs)
    case Sweeping(_, _, total) => total
    case Done(out) => out.count
  }

  function CountedCs(cs: Cs): int
    requires SweepsCs(cs)
  {
    match cs
    case ExpireLoop(_, _, exit) => exit.total
    case EndRecord(_, _, _, _, then_) => then_.exit.total
    case EndCount(_, _, _, _, then_) => then_.exit.total + 1
    case EndDraw(_, _, _, _, then_) => then_.exit.total + 1
    case EndAppend(_, _, _, _, _, then_) => then_.exit.total + 1
    case Finished(out) => out.count
  }

  lemma SectionCounts(par: Params, p: string, cs: Cs, s: Store, i: Input)
    requires SweepsCs(cs) && !cs.Finished?
    ensures var cs' := Step(par, p, cs, s, i).0;
      SweepsCs(cs') && CountedCs(cs') == CountedCs(cs) + (if cs.EndRecord? then 1 else 0)
  {
  }

  lemma CountStep(par: Params, c: Config, l: Label)
    requires Next(par, c, l).Some? && SweepsOn(c.threads[l.t])
    ensures var c' := Next(par, c, l).value;
      && l.t < |c'.threads| && SweepsOn(c'.threads[l.t])
      && Counted(c'.threads[l.t]) == Counted(c.threads[l.t]) + (if Expires(c, l, l.t) then 1 else 0)
  {
    SameThreads(par, c, l);
    var pc := c.threads[l.t];
    if pc.Inside? && !pc.cs.Finished? {
      SectionCounts(par, pc.p, pc.cs, c.store, InputOf(c, pc.cs, l));
    }
  }

  lemma {:induction false} CountRun(par: Params, c: Config, ls: seq<Label>, t: nat)
    requires t < |c.threads| && c.threads[t].Called? && c.threads[t].op.SweepOp? && Exec(par, c, ls).Some?
    ensures var d := Exec(par, c, ls).value;
      t < |d.threads| && SweepsOn(d.threads[t]) && Counted(d.threads[t]) == ExpiredBy(par, c, ls, t)
    decreases |ls|
  {
    if ls != [] {
      var n := |ls| - 1;
      CountRun(par, c, ls[..n], t);
      var d := Exec(par, c, ls[..n]).value;
      if ls[n].t == t { CountStep(par, d, ls[n]); } else { OthersStay(par, d, ls[n], t); }
    }
  }

  lemma SoundMoves(par: Params, c: Config, l: Label, t: nat)
    requires Inv(par, false, c) && Sound(c, l)
    ensures Expires(c, l, t) <==> MovesOne(c, l, t)
  {
    if Expires(c, l, t) {
      InsideGrounded(par, false, c, l);
      LookupIsLocal(c.store, c.threads[t].p, c.threads[t].cs.id);
    }
  }

  lemma {:induction false} SoundCount(par: Params, c: Config, ls: seq<Label>, t: nat)
    requires Inv(par, false, c) && SoundRun(par, c, ls) && Exec(par, c, ls).Some?
    ensures MovedBy(par, c, ls, t) == ExpiredBy(par, c, ls, t)
    decreases |ls|
  {
    if ls != [] {
      var n := |ls| - 1;
      SoundCount(par, c, ls[..n], t);
      ExecKeepsInv(par, false, c, ls[..n]);
      SoundMoves(par, Exec(par, c, ls[..n]).value, ls[n], t);
    }
  }

  /** A sweep returns how many reservations it expired: if the schedule is sound, how many it
      moved from Active to Expired. */
  lemma SweepCountsItsMoves(par: Params, c0: Config, before: seq<Label>, c: Config, after: seq<Label>, d: Config,
      t: nat)
    requires Initial(c0) && Exec(par, c0, before) == Some(c)
    requires t < |c.threads| && c.threads[t].Called? && c.threads[t].op.SweepOp?
    requires Exec(par, c, after) == Some(d) && t < |d.threads| && d.threads[t].Done?
    ensures d.threads[t].out == Swept(ExpiredBy(par, c, after, t))
    ensures SoundRun(par, c, after) ==> d.threads[t].out == Swept(MovedBy(par, c, after, t))
  {
    CountRun(par, c, after, t);
    if SoundRun(par, c, after) {
      InitialInv(par, false, c0);
      ExecKeepsInv(par, false, c0, before);
      SoundCount(par, c, after, t);
    }
  }

  // ----- When the code as written is sound -----

  /** No other thread ends a reservation that a sweep has collected and not yet reached. */
  predicate Undisturbed(c: Config, l: Label) {
    l.t < |c.threads| && c.threads[l.t].Inside? && c.threads[l.t].cs.EndRecord?
    ==> forall u | 0 <= u < |c.threads| && u != l.t :: !HasCollected(c.threads[u], c.threads[l.t].cs.id)
  }

  /** Everything collected is Active, and everything loaded to be ended. */
  ghost predicate Fresh(c: Config) {
    && (forall t, id | 0 <= t < |c.threads| && HasCollected(c.threads[t], id) :: c.store.Lookup(id).IsActive())
    && (forall t | 0 <= t < |c.threads| && c.threads[t].Inside? :: Promise(c.threads[t].cs))
  }

  predicate GroupsApart(groups: seq<Group>, p: string) {
    forall g | g in groups :: g.product != p
  }

  /** A sweep visits each product once. */
  predicate Orderly(pc: Pc) {
    match pc
    case NeedLock(p, job, ret) => OrderlyRet(p, ret)
    case NeedMutex(p, _, job, ret) => OrderlyRet(p, ret)
    case Inside(p, _, _, _, ret) => OrderlyRet(p, ret)
    case Sweeping(_, groups, _) => DistinctProducts(groups)
    case _ => true
  }

  predicate OrderlyRet(p: string, ret: Ret) {
    ret.SweepOn? ==> DistinctProducts(ret.rest) && GroupsApart(ret.rest, p)
  }

  predicate AllOrderly(c: Config) {
    forall t | 0 <= t < |c.threads| :: Orderly(c.threads[t])
  }

  lemma StepOrderly(par: Params, c: Config, l: Label)
    requires Next(par, c, l).Some? && Orderly(c.threads[l.t])
    ensures l.t < |Next(par, c, l).value.threads| && Orderly(Next(par, c, l).value.threads[l.t])
  {
    match c.threads[l.t]
    case Called(op) => match op { case SweepOp(_) => case _ => }
    case Sweeping(_, groups, _) => if groups != [] { TailApart(groups); }
    case _ =>
  }

  lemma TailApart(groups: seq<Group>)
    requires groups != [] && DistinctProducts(groups)
    ensures DistinctProducts(groups[1..]) && GroupsApart(groups[1..], groups[0].product)
  {
    forall g | g in groups[1..] ensures g.product != groups[0].product {
      var i :| 0 <= i < |groups[1..]| && groups[1..][i] == g;
      assert groups[i + 1] == g;
    }
  }

  lemma KeepsOrderly(par: Params, c: Config, l: Label)
    requires AllOrderly(c) && Next(par, c, l).Some?
    ensures AllOrderly(Next(par, c, l).value)
  {
    var c' := Next(par, c, l).value;
    StepOrderly(par, c, l);
    SameThreads(par, c, l);
    forall u | 0 <= u < |c'.threads| ensures Orderly(c'.threads[u]) {
      if u != l.t { OthersStay(par, c, l, u); }
    }
  }

  lemma OutsideFresh(par: Params, c: Config, l: Label)
    requires Fresh(c) && Next(par, c, l).Some? && (!c.threads[l.t].Inside? || c.threads[l.t].cs.Finished?)
    ensures Fresh(Next(par, c, l).value)
  {
    var c' := Next(par, c, l).value;
    OnlySectionsWrite(par, c, l);
    SameThreads(par, c, l);
    forall u, id | 0 <= u < |c'.threads| && HasCollected(c'.threads[u], id) ensures c'.store.Lookup(id).IsActive() {
      if u == l.t { OutsideCollected(par, c, l, id); } else { OthersStay(par, c, l, u); }
    }
    forall u | 0 <= u < |c'.threads| && c'.threads[u].Inside? ensures Promise(c'.threads[u].cs) {
      if u == l.t { EntersWithPromise(par, c, l); } else { OthersStay(par, c, l, u); }
    }
  }

  lemma EntersWithPromise(par: Params, c: Config, l: Label)
    requires Next(par, c, l).Some? && (!c.threads[l.t].Inside? || c.threads[l.t].cs.Finished?)
    ensures var c' := Next(par, c, l).value;
      l.t < |c'.threads| && (c'.threads[l.t].Inside? ==> Promise(c'.threads[l.t].cs))
  {
    match c.threads[l.t]
    case Called(_) => CalledShape(par, c, l);
    case _ =>
  }

  lemma LookupStays(par: Params, p: string, cs: Cs, s: Store, i: Input, id: string)
    requires s.Lookup(id).IsActive() && (cs.EndRecord? ==> cs.id != id)
    requires cs.ReserveSave? ==> cs.res.reservationId !in s.reservations
    ensures Step(par, p, cs, s, i).1.Lookup(id) == s.Lookup(id)
  {
  }

  lemma OwnQueue(par: Params, p: string, cs: Cs, s: Store, i: Input, id: string)
    requires InQueue(Step(par, p, cs, s, i).0, id) && Local(par, p, cs, Restrict(s, p)) && !cs.Finished?
    ensures InQueue(cs, id) && (cs.EndRecord? ==> cs.id != id)
  {
    SectionCollected(par, p, cs, s, i, id);
  }

  /** What the moving thread still has collected, it had before, and is not what it ends. */
  lemma OwnCollected(par: Params, c: Config, l: Label, id: string)
    requires Inv(par, false, c) && AllOrderly(c)
    requires l.t < |c.threads| && c.threads[l.t].Inside? && !c.threads[l.t].cs.Finished?
    requires var pc := c.threads[l.t];
      InQueue(Step(par, pc.p, pc.cs, c.store, InputOf(c, pc.cs, l)).0, id) || InRet(pc.ret, id)
    ensures HasCollected(c.threads[l.t], id)
    ensures c.threads[l.t].cs.EndRecord? ==> c.threads[l.t].cs.id != id
  {
    var pc := c.threads[l.t];
    InsideGrounded(par, false, c, l);
    assert Orderly(pc) && WaitOk(pc, c.store);
    if InRet(pc.ret, id) {
      var g :| g in pc.ret.rest && id in g.ids;
      assert QueueOk(Restrict(c.store, g.product), g.ids, pc.ret.now, SweepExit(0));
      LookupIsLocal(c.store, g.product, id);
    } else {
      OwnQueue(par, pc.p, pc.cs, c.store, InputOf(c, pc.cs, l), id);
    }
  }

  /** A section step that ends nothing collected by others leaves every collected id Active. */
  /** What is collected after a section step was before, and is not what the step ends. */
  lemma WasCollected(par: Params, c: Config, l: Label, u: nat, id: string)
    requires Inv(par, false, c) && AllOrderly(c) && Undisturbed(c, l) && Next(par, c, l).Some?
    requires c.threads[l.t].Inside? && !c.threads[l.t].cs.Finished?
    requires u < |Next(par, c, l).value.threads| && HasCollected(Next(par, c, l).value.threads[u], id)
    ensures u < |c.threads| && HasCollected(c.threads[u], id)
    ensures c.threads[l.t].cs.EndRecord? ==> c.threads[l.t].cs.id != id
  {
    SameThreads(par, c, l);
    if u == l.t { OwnCollected(par, c, l, id); } else { OthersStay(par, c, l, u); }
  }

  lemma CollectedStays(par: Params, c: Config, l: Label, u: nat, id: string)
    requires Inv(par, false, c) && Fresh(c) && AllOrderly(c) && Undisturbed(c, l) && Next(par, c, l).Some?
    requires c.threads[l.t].Inside? && !c.threads[l.t].cs.Finished?
    requires u < |Next(par, c, l).value.threads| && HasCollected(Next(par, c, l).value.threads[u], id)
    ensures Next(par, c, l).value.store.Lookup(id).IsActive()
  {
    var pc := c.threads[l.t];
    WasCollected(par, c, l, u, id);
    InsideGrounded(par, false, c, l);
    LookupStays(par, pc.p, pc.cs, c.store, InputOf(c, pc.cs, l), id);
  }

  /** What a section loads to end is Active if what it has collected is. */
  lemma LoadsActive(par: Params, p: string, cs: Cs, s: Store, i: Input)
    requires Local(par, p, cs, Restrict(s, p)) && !cs.Finished?
    requires forall id | InQueue(cs, id) :: s.Lookup(id).IsActive()
    ensures Promise(Step(par, p, cs, s, i).0)
  {
    match cs
    case ExpireLoop(queue, _, exit) =>
      if queue != [] {
        assert queue[0] in queue;
        LookupIsLocal(s, p, queue[0]);
      }
    case _ =>
  }

  lemma InsideFresh(par: Params, c: Config, l: Label)
    requires Inv(par, false, c) && Fresh(c) && AllOrderly(c) && Undisturbed(c, l) && Next(par, c, l).Some?
    requires c.threads[l.t].Inside? && !c.threads[l.t].cs.Finished?
    ensures Fresh(Next(par, c, l).value)
  {
    var c', pc := Next(par, c, l).value, c.threads[l.t];
    SameThreads(par, c, l);
    forall u, id | 0 <= u < |c'.threads| && HasCollected(c'.threads[u], id) ensures c'.store.Lookup(id).IsActive() {
      CollectedStays(par, c, l, u, id);
    }
    forall u | 0 <= u < |c'.threads| && c'.threads[u].Inside? ensures Promise(c'.threads[u].cs) {
      if u == l.t {
        InsideGrounded(par, false, c, l);
        assert forall id | InQueue(pc.cs, id) :: HasCollected(pc, id);
        LoadsActive(par, pc.p, pc.cs, c.store, InputOf(c, pc.cs, l));
      } else {
        OthersStay(par, c, l, u);
      }
    }
  }

  /** No other thread ends a reservation between a sweep's snapshot and the sweep's own turn
      on it, at any step of the schedule. */
  ghost predicate UndisturbedRun(par: Params, c0: Config, ls: seq<Label>)
    decreases |ls|
  {
    ls == [] ||
    var n := |ls| - 1;
    && UndisturbedRun(par, c0, ls[..n])
    && (Exec(par, c0, ls[..n]).Some? ==> Undisturbed(Exec(par, c0, ls[..n]).value, ls[n]))
  }

  lemma {:induction false} UndisturbedIsFresh(par: Params, c0: Config, ls: seq<Label>)
    requires Initial(c0) && UndisturbedRun(par, c0, ls) && Exec(par, c0, ls).Some?
    ensures Fresh(Exec(par, c0, ls).value) && AllOrderly(Exec(par, c0, ls).value)
    ensures Inv(par, false, Exec(par, c0, ls).value)
    decreases |ls|
  {
    InitialInv(par, false, c0);
    ExecKeepsInv(par, false, c0, ls);
    if ls != [] {
      var n := |ls| - 1;
      var c := Exec(par, c0, ls[..n]).value;
      UndisturbedIsFresh(par, c0, ls[..n]);
      KeepsOrderly(par, c, ls[n]);
      if c.threads[ls[n].t].Inside? && !c.threads[ls[n].t].cs.Finished? {
        InsideFresh(par, c, ls[n]);
      } else {
        OutsideFresh(par, c, ls[n]);
      }
    }
  }

  /** The code as written is sound in every schedule in which no other transition of a
      collected reservation completes before the sweep gets to it. */
  lemma {:induction false} UndisturbedRunsAreSound(par: Params, c0: Config, ls: seq<Label>)
    requires Initial(c0) && UndisturbedRun(par, c0, ls)
    ensures SoundRun(par, c0, ls)
    decreases |ls|
  {
    if ls != [] {
      var n := |ls| - 1;
      UndisturbedRunsAreSound(par, c0, ls[..n]);
      if Exec(par, c0, ls[..n]).Some? {
        UndisturbedIsFresh(par, c0, ls[..n]);
      }
    }
  }

  /** Such a schedule takes the very steps of the system whose sweeps look again. */
  lemma {:induction false} UndisturbedRunsAreGuarded(holdFor: int, c0: Config, ls: seq<Label>)
    requires Initial(c0) && UndisturbedRun(Params(false, holdFor), c0, ls)
    ensures Exec(Params(false, holdFor), c0, ls) == Exec(Params(true, holdFor), c0, ls)
    decreases |ls|
  {
    if ls != [] {
      var n := |ls| - 1;
      UndisturbedRunsAreGuarded(holdFor, c0, ls[..n]);
      if Exec(Params(false, holdFor), c0, ls[..n]).Some? {
        UndisturbedIsFresh(Params(false, holdFor), c0, ls[..n]);
        FreshStep(holdFor, Exec(Params(false, holdFor), c0, ls[..n]).value, ls[n]);
      }
    }
  }

  lemma FreshStep(holdFor: int, c: Config, l: Label)
    requires Fresh(c)
    ensures Next(Params(false, holdFor), c, l) == Next(Params(true, holdFor), c, l)
  {
    assert StillActive(c, l) by {
      if l.t < |c.threads| && c.threads[l.t].Inside? && c.threads[l.t].cs.ExpireLoop?
         && c.threads[l.t].cs.queue != [] && c.threads[l.t].cs.exit.SweepExit? {
        assert HasCollected(c.threads[l.t], c.threads[l.t].cs.queue[0]);
      }
    }
  }

  // ----- Without sweeps -----

  /** The thread has nothing to do with a sweep. */
  predicate SweepFree(pc: Pc) {
    match pc
    case Called(op) => !op.SweepOp?
    case NeedLock(_, job, ret) => !job.SweepJob? && ret.Reply?
    case NeedMutex(_, _, job, ret) => !job.SweepJob? && ret.Reply?
    case Inside(_, _, job, cs, ret) => CsSweepFree(cs) && ret.Reply?
    case Sweeping(_, _, _) => false
    case Done(_) => true
  }

  predicate CsSweepFree(cs: Cs) {
    match cs
    case ExpireLoop(_, _, exit) => !exit.SweepExit?
    case EndRecord(_, _, _, _, then_) => !FromSweep(then_)
    case EndCount(_, _, _, _, then_) => !FromSweep(then_)
    case EndDraw(_, _, _, _, then_) => !FromSweep(then_)
    case EndAppend(_, _, _, _, _, then_) => !FromSweep(then_)
    case _ => true
  }

  predicate NobodySweeps(c: Config) {
    forall t | 0 <= t < |c.threads| :: SweepFree(c.threads[t])
  }

  lemma StepSweepFree(par: Params, p: string, cs: Cs, s: Store, i: Input)
    requires CsSweepFree(cs)
    ensures CsSweepFree(Step(par, p, cs, s, i).0)
  {
  }

  lemma NextSweepFree(par: Params, c: Config, l: Label)
    requires NobodySweeps(c) && Next(par, c, l).Some?
    ensures NobodySweeps(Next(par, c, l).value)
  {
    var c', pc := Next(par, c, l).value, c.threads[l.t];
    assert SweepFree(pc);
    if pc.Inside? && !pc.cs.Finished? { StepSweepFree(par, pc.p, pc.cs, c.store, InputOf(c, pc.cs, l)); }
    SameThreads(par, c, l);
    assert SweepFree(c'.threads[l.t]);
    forall u | 0 <= u < |c'.threads| ensures SweepFree(c'.threads[u]) {
      if u != l.t { OthersStay(par, c, l, u); }
    }
  }

  lemma {:induction false} ExecSweepFree(par: Params, c0: Config, ls: seq<Label>)
    requires NobodySweeps(c0) && Exec(par, c0, ls).Some?
    ensures NobodySweeps(Exec(par, c0, ls).value)
    decreases |ls|
  {
    if ls != [] {
      var n := |ls| - 1;
      ExecSweepFree(par, c0, ls[..n]);
      NextSweepFree(par, Exec(par, c0, ls[..n]).value, ls[n]);
    }
  }

  lemma SweepFreeSame(holdFor: int, c: Config, l: Label)
    requires NobodySweeps(c)
    ensures Next(Params(false, holdFor), c, l) == Next(Params(true, holdFor), c, l)
  {
    if l.t < |c.threads| { assert SweepFree(c.threads[l.t]); }
  }

  lemma SweepFreeSound(par: Params, c: Config, l: Label)
    requires Inv(par, false, c) && NobodySweeps(c)
    ensures Sound(c, l)
  {
    OnlySweepsEndTwice(par, c, l);
    assert !Sound(c, l) ==> SweepFree(c.threads[l.t]);
  }

  /** Without a sweep among the threads every schedule of the code as written is sound:
      reserving, confirming and cancelling, with their own lazy expiry, need no re-check. */
  lemma {:induction false} WithoutSweepsAsWritten(par: Params, c0: Config, ls: seq<Label>)
    requires Initial(c0) && forall t | 0 <= t < |c0.threads| :: !c0.threads[t].op.SweepOp?
    ensures SoundRun(par, c0, ls)
    ensures Exec(Params(false, par.holdFor), c0, ls) == Exec(Params(true, par.holdFor), c0, ls)
    decreases |ls|
  {
    if ls != [] {
      var n := |ls| - 1;
      WithoutSweepsAsWritten(par, c0, ls[..n]);
      if Exec(par, c0, ls[..n]).Some? {
        InitialInv(par, false, c0);
        ExecKeepsInv(par, false, c0, ls[..n]);
        ExecSweepFree(par, c0, ls[..n]);
        SweepFreeSound(par, Exec(par, c0, ls[..n]).value, ls[n]);
        SweepFreeSame(par.holdFor, Exec(par, c0, ls[..n]).value, ls[n]);
      }
      assert par == Params(par.guarded, par.holdFor);
    }
  }
}
