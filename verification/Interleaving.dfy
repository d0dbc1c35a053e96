/** The service as a transition system: any number of threads, each running one
    operation, interleaved at every clock read, id draw, lock call and repository call. */
module Interleaving {
  import opened Domain
  import opened Ids
  import opened Stores
  import opened Section

  datatype Op =
    | ReserveOp(product: string, user: string)
    | ConfirmOp(id: string)
    | CancelOp(id: string)
    | SweepOp(now: int)
    | StockOp(product: string)

  /** The ids a sweep collected for one product. */
  datatype Group = Group(product: string, ids: seq<string>)

  /** What to do with a section's result. */
  datatype Ret = Reply | SweepOn(now: int, rest: seq<Group>, total: int)

  datatype Pc =
    | Called(op: Op)
    | NeedLock(p: string, job: Job, ret: Ret)
    | NeedMutex(p: string, m: nat, job: Job, ret: Ret)
    | Inside(p: string, m: nat, job: Job, cs: Cs, ret: Ret)
    | Sweeping(now: int, groups: seq<Group>, total: int)
    | Done(out: Outcome)

  /** `locks` is the lock manager's map from keys to mutexes; `held` says which thread has
      which mutex. The n-th mutex ever made is number n. */
  datatype Config = Config(
    store: Store,
    counter: nat,
    clock: int,
    locks: map<string, nat>,
    held: map<nat, nat>,
    threads: seq<Pc>)
  {
    function At(t: nat, pc: Pc): Config
      requires t < |threads|
    {
      this.(threads := threads[t := pc])
    }
  }

  /** The scheduler's choice: which thread moves, what the clock shows, and in which order
      a map snapshot comes out. */
  datatype Label = Label(t: nat, now: int, order: seq<string>, groups: seq<Group>)

  predicate DistinctProducts(groups: seq<Group>) {
    forall i, j | 0 <= i < j < |groups| :: groups[i].product != groups[j].product
  }

  /** `groups` is a way to collect the stale holds of `s` by product. */
  ghost predicate Collects(groups: seq<Group>, s: Store, now: int) {
    && DistinctProducts(groups)
    && (forall i | 0 <= i < |groups| ::
          groups[i].ids != [] && Enumerates(groups[i].ids, s.StaleIds(groups[i].product, now)))
    && (forall id | id in s.reservations && s.reservations[id].IsActive() && s.reservations[id].Lapsed(now) ::
          exists i | 0 <= i < |groups| :: groups[i].product == s.reservations[id].productId)
  }

  function NextId(cs: Cs, counter: nat): string {
    MakeId(if cs.ReserveDraw? then RES else EVT, counter + 1)
  }

  /** What the section step of `l` is given in configuration `c`. */
  function InputOf(c: Config, cs: Cs, l: Label): Input {
    Input(if cs.ReadsClock() then l.now else c.clock, NextId(cs, c.counter), l.order)
  }

  /** The step `l` chooses, if it can be taken. */
  ghost function Next(par: Params, c: Config, l: Label): Option<Config> {
    if l.t >= |c.threads| then None
    else
      match c.threads[l.t]
      case Called(op) => NextCalled(c, l, op)
      case NeedLock(p, job, ret) =>
        // lockFor: find the key's mutex or make one
        var m := if p in c.locks then c.locks[p] else |c.locks|;
        Some(c.(locks := c.locks[p := m]).At(l.t, NeedMutex(p, m, job, ret)))
      case NeedMutex(p, m, job, ret) =>
        if m in c.held then None
        else Some(c.(held := c.held[m := l.t]).At(l.t, Inside(p, m, job, Begin(job), ret)))
      case Inside(p, m, job, cs, ret) =>
        if cs.Finished? then Some(c.(held := c.held - {m}).At(l.t, Resumed(ret, cs.out)))
        else NextInside(par, c, l, p, m, job, cs, ret)
      case Sweeping(now, groups, total) =>
        if groups == [] then Some(c.At(l.t, Done(Swept(total))))
        else Some(c.At(l.t, NeedLock(groups[0].product, SweepJob(groups[0].ids, now),
                                     SweepOn(now, groups[1..], total))))
      case Done(_) => None
  }

  function Resumed(ret: Ret, out: Outcome): Pc {
    match ret
    case Reply => Done(out)
    case SweepOn(now, rest, total) =>
      Sweeping(now, rest, total + (if out.Swept? then out.count else 0))
  }

  /** The calls made before any lock is taken. */
  ghost function NextCalled(c: Config, l: Label, op: Op): Option<Config>
    requires l.t < |c.threads|
  {
    match op
    case ReserveOp(p, user) => Some(c.At(l.t, NeedLock(p, ReserveJob(user), Reply)))
    case ConfirmOp(id) => Some(c.At(l.t, AfterLookup(c.store, id, ConfirmJob(id))))
    case CancelOp(id) => Some(c.At(l.t, AfterLookup(c.store, id, CancelJob(id))))
    case SweepOp(now) =>
      if Collects(l.groups, c.store, now)
      then Some(c.(clock := if c.clock < now then now else c.clock).At(l.t, Sweeping(now, l.groups, 0)))
      else None
    case StockOp(p) =>
      Some(c.At(l.t, Done(if p in c.store.products then Stock(c.store.products[p].AvailableStock())
                          else Failed(ProductNotFound))))
  }

  function AfterLookup(s: Store, id: string, job: Job): Pc {
    if id in s.reservations then NeedLock(s.reservations[id].productId, job, Reply)
    else Done(Failed(ReservationNotFound))
  }

  ghost function NextInside(par: Params, c: Config, l: Label,
                            p: string, m: nat, job: Job, cs: Cs, ret: Ret): Option<Config>
    requires l.t < |c.threads|
  {
    var i := InputOf(c, cs, l);
    if cs.ReadsClock() && l.now < c.clock then None
    else if cs.ReserveSnapshot? && !Enumerates(l.order, c.store.StaleIds(p, cs.now)) then None
    else
      var (cs', s') := Step(par, p, cs, c.store, i);
      Some(Config(s',
                  if cs.DrawsId() then c.counter + 1 else c.counter,
                  if cs.ReadsClock() then l.now else c.clock,
                  c.locks, c.held,
                  c.threads[l.t := Inside(p, m, job, cs', ret)]))
  }

  /** Taking the steps of a schedule one after the other. */
  ghost function Exec(par: Params, c: Config, ls: seq<Label>): Option<Config>
    decreases |ls|
  {
    if ls == [] then Some(c)
    else
      var n := |ls| - 1;
      match Exec(par, c, ls[..n])
      case None => None
      case Some(d) => Next(par, d, ls[n])
  }

  /** Products seeded with nothing held or sold, no reservation, no thread started. */
  ghost predicate Initial(c: Config) {
    && (forall k | k in c.store.products ::
          && c.store.products[k].productId == k && c.store.products[k].totalStock >= 0
          && c.store.products[k].confirmedCount == 0 && c.store.products[k].activeReservationCount == 0)
    && c.store.reservations == map[] && c.store.events == []
    && c.counter == 0 && c.locks == map[] && c.held == map[]
    && forall t | 0 <= t < |c.threads| :: c.threads[t].Called?
  }

  /** A step moves one thread. */
  lemma OthersStay(par: Params, c: Config, l: Label, t: nat)
    requires Next(par, c, l).Some? && t < |c.threads| && t != l.t
    ensures t < |Next(par, c, l).value.threads| && Next(par, c, l).value.threads[t] == c.threads[t]
  {
    match c.threads[l.t]
    case Called(op) => match op { case SweepOp(_) => case _ => }
    case _ =>
  }

  lemma ExecSnoc(par: Params, c: Config, ls: seq<Label>, l: Label)
    ensures Exec(par, c, ls + [l])
         == (match Exec(par, c, ls) case None => None case Some(d) => Next(par, d, l))
  {
    assert (ls + [l])[..|ls|] == ls;
  }

  /** Schedules compose. */
  lemma {:induction false} ExecConcat(par: Params, c: Config, a: seq<Label>, b: seq<Label>)
    ensures Exec(par, c, a + b)
         == (match Exec(par, c, a) case None => None case Some(d) => Exec(par, d, b))
    decreases |b|
  {
    if b == [] {
      assert a + b == a;
    } else {
      var n := |b| - 1;
      assert (a + b)[..|a + b| - 1] == a + b[..n];
      ExecConcat(par, c, a, b[..n]);
    }
  }
}
