/** The reservation service as an object, for a caller who is alone: every method is tied
    to the whole operation it performs, keeps the accounts in order, and decides as the
    declarative rules say. */
module Service {
  import opened Domain
  import opened Ids
  import opened Stores
  import opened Accounts
  import opened Section
  import opened Meaning
  import opened Laws
  import opened ServiceSpec
  import opened Repository

  const SECOND := 1_000_000_000
  const DEFAULT_HOLD_DURATION := 2 * 60 * SECOND

  /** A zero hold time falls back to the default. */
  function HoldTime(holdFor: int): int {
    if holdFor == 0 then DEFAULT_HOLD_DURATION else holdFor
  }

  /** A service made with hold time zero sells a hold made at `t` at any time before two minutes
      have passed and refuses it from then on. */
  lemma DefaultIsTwoMinutes(p: string, user: string, t: int, s: Store, s': Store, out: Outcome, now: int, evt: string)
    requires ReserveMeans(HoldTime(0), p, user, t, s, s', out) && out.Got?
    ensures var verdict := ConfirmEffect(out.reservation.reservationId, now, s', evt).1;
      if now < t + 120_000_000_000 then verdict.Got? else verdict == Failed(ReservationExpired)
  {
    HoldIsTimely(HoldTime(0), p, user, t, s, s', out, now, evt);
  }

  lemma IdsAfterEvent(s: Store, n: nat, t: Store, e: InventoryEvent)
    requires IdsFrom(s, n) && t.reservations.Keys == s.reservations.Keys
    requires t.events == s.events + [e] && e.eventId == MakeId(EVT, n + 1)
    ensures IdsFrom(t, n + 1)
  {
    forall id | id in t.reservations ensures Drawn(RES, id, n + 1) { DrawnLater(RES, id, n, n + 1); }
    forall i | 0 <= i < |s.events| ensures Drawn(EVT, t.events[i].eventId, n + 1) && t.events[i].eventId != e.eventId {
      DrawnLater(EVT, s.events[i].eventId, n, n + 1);
      CounterIsNew(EVT, s.events[i].eventId, n, EVT);
    }
    assert Drawn(EVT, e.eventId, n + 1);
  }

  lemma IdsAfterHold(s: Store, n: nat, r: Reservation)
    requires IdsFrom(s, n) && r.reservationId == MakeId(RES, n + 1)
    ensures r.reservationId !in s.reservations
    ensures IdsFrom(s.PutReservation(r.reservationId, r), n + 1)
  {
    if r.reservationId in s.reservations { CounterIsNew(RES, r.reservationId, n, RES); }
    var t := s.PutReservation(r.reservationId, r);
    forall id | id in t.reservations ensures Drawn(RES, id, n + 1) {
      if id in s.reservations { DrawnLater(RES, id, n, n + 1); }
    }
    forall i | 0 <= i < |s.events| ensures Drawn(EVT, t.events[i].eventId, n + 1) {
      DrawnLater(EVT, s.events[i].eventId, n, n + 1);
    }
  }

  lemma IdsAfterEnd(s: Store, n: nat, id: string, e: Ending, now: int)
    requires IdsFrom(s, n) && id in s.reservations
    ensures IdsFrom(s.End(id, e, now, MakeId(EVT, n + 1)), n + 1)
  {
    var t := s.End(id, e, now, MakeId(EVT, n + 1));
    assert t.reservations.Keys == s.reservations.Keys;
    IdsAfterEvent(s, n, t, EndingEvent(e, s.Lookup(id), now, MakeId(EVT, n + 1)));
  }

  lemma {:induction false} IdsAfterEndAll(s: Store, n: nat, ids: seq<string>, now: int)
    requires IdsFrom(s, n) && forall id | id in ids :: id in s.reservations
    ensures IdsFrom(EndAll(s, ids, now, EvtIds(n, |ids|)), n + |ids|)
    decreases |ids|
  {
    if ids != [] {
      assert ids[0] in ids && forall x | x in ids[1..] :: x in ids;
      IdsAfterEnd(s, n, ids[0], ToExpired, now);
      EvtIdsCons(n, |ids|);
      assert EvtIds(n, |ids|)[1..] == EvtIds(n + 1, |ids| - 1);
      IdsAfterEndAll(s.End(ids[0], ToExpired, now, MakeId(EVT, n + 1)), n + 1, ids[1..], now);
    }
  }

  lemma GotFacts(holdFor: int, p: string, user: string, now: int, s1: Store, n1: nat)
    requires IdsFrom(s1, n1)
    ensures var rid := MakeId(RES, n1 + 1);
      rid !in s1.reservations && IdsFrom(s1.AddHold(NewHold(rid, p, user, now, holdFor), MakeId(EVT, n1 + 2)), n1 + 2)
  {
    var rid := MakeId(RES, n1 + 1);
    var r := NewHold(rid, p, user, now, holdFor);
    IdsAfterHold(s1, n1, r);
    var s2 := s1.PutReservation(rid, r);
    IdsAfterEvent(s2, n1 + 1, s1.AddHold(r, MakeId(EVT, n1 + 2)), ReservedEvent(r, MakeId(EVT, n1 + 2)));
  }

  /** The decision of the sequential ReserveItem is the one `ReserveTail` describes. */
  lemma DecideFacts(holdFor: int, p: string, user: string, now: int, s: Store, n: nat)
      returns (rid: string, evt: string)
    requires IdsFrom(s, n)
    ensures var (s', n', out) := Decide(holdFor, p, user, now, s, n);
      && ReserveTail(holdFor, p, user, now, s, rid, evt) == (s', out)
      && IdsFrom(s', n') && (out.Got? ==> rid !in s.reservations)
  {
    rid, evt := MakeId(RES, n + 1), MakeId(EVT, n + 1);
    if p in s.products {
      if s.products[p].AvailableStock() <= 0 {
        var e := RejectedEvent(p, user, now, evt);
        IdsAfterEvent(s, n, s.AppendEvent(e), e);
      } else {
        evt := MakeId(EVT, n + 2);
        GotFacts(holdFor, p, user, now, s, n);
      }
    }
  }

  /** The hold it makes, field by field. */
  lemma DecideText(holdFor: int, p: string, user: string, now: int, s: Store, n: nat)
    ensures var out := Decide(holdFor, p, user, now, s, n).2;
      out.Got? ==>
        && out.reservation
           == Reservation(out.reservation.reservationId, p, user, Active, now, now + holdFor, None, None, None)
        && Reads(out.reservation.reservationId, "res-", n + 1)
  {
    IdText(n + 1);
  }

  lemma ReserveIntro(holdFor: int, p: string, user: string, now: int, s: Store,
                     order: seq<string>, evts: seq<string>, rid: string, evt: string, s': Store, out: Outcome)
    requires Enumerates(order, s.StaleIds(p, now)) && |evts| == |order|
    requires out.Got? ==> rid !in s.reservations
    requires ReserveTail(holdFor, p, user, now, EndAll(s, order, now, evts), rid, evt) == (s', out)
    ensures ReserveMeans(holdFor, p, user, now, s, s', out)
  {
  }

  /** The sequential ReserveItem is the operation `ReserveMeans` describes, and it uses each
      id once. */
  lemma ReserveSpecFacts(holdFor: int, p: string, user: string, now: int, s: Store, n: nat, order: seq<string>)
    requires IdsFrom(s, n) && Enumerates(order, s.StaleIds(p, now))
    ensures var (s', n', out) := ReserveSpec(holdFor, p, user, now, s, n, order);
      ReserveMeans(holdFor, p, user, now, s, s', out) && IdsFrom(s', n')
  {
    var s1 := EndAll(s, order, now, EvtIds(n, |order|));
    IdsAfterEndAll(s, n, order, now);
    EndAllKeys(s, order, now, EvtIds(n, |order|));
    var rid, evt := DecideFacts(holdFor, p, user, now, s1, n + |order|);
    var (s', n', out) := Decide(holdFor, p, user, now, s1, n + |order|);
    ReserveIntro(holdFor, p, user, now, s, order, EvtIds(n, |order|), rid, evt, s', out);
  }

  /** Everything ReserveItem promises, of the sequential operation. */
  lemma ReserveSpecLaws(holdFor: int, p: string, user: string, now: int, s: Store, n: nat, order: seq<string>)
    requires Good(holdFor, s) && IdsFrom(s, n) && Enumerates(order, s.StaleIds(p, now))
    ensures var (s', n', out) := ReserveSpec(holdFor, p, user, now, s, n, order);
      && Good(holdFor, s') && IdsFrom(s', n')
      && (out.Got? <==> p in s.products && s.products[p].totalStock > Taken(s, p, now))
      && (holdFor > 0 ==> s'.StaleIds(p, now) == {})
  {
    var (s', n', out) := ReserveSpec(holdFor, p, user, now, s, n, order);
    ReserveSpecFacts(holdFor, p, user, now, s, n, order);
    ReserveKeepsOrder(holdFor, p, user, now, s, s', out);
    ReserveDecision(holdFor, p, user, now, s, s', out);
    ReserveRecords(holdFor, p, user, now, s, s', out);
  }

  /** Ending an Active reservation keeps the store in order and uses a new event id. */
  lemma EndingKeeps(holdFor: int, s: Store, n: nat, id: string, e: Ending, now: int)
    requires Good(holdFor, s) && IdsFrom(s, n)
    requires id in s.reservations && MayEnd(s.reservations[id], e, now)
    ensures var t := s.End(id, e, now, MakeId(EVT, n + 1)); Good(holdFor, t) && IdsFrom(t, n + 1)
  {
    EndKeepsOrder(holdFor, s, id, e, now, MakeId(EVT, n + 1));
    IdsAfterEnd(s, n, id, e, now);
  }

  lemma ConfirmSpecLaws(holdFor: int, id: string, now: int, s: Store, n: nat)
    requires Good(holdFor, s) && IdsFrom(s, n) && id in s.reservations
    ensures var s' := ConfirmEffect(id, now, s, MakeId(EVT, n + 1)).0;
      Good(holdFor, s') && IdsFrom(s', n + (if s.reservations[id].IsActive() then 1 else 0))
  {
    GoodKeys(holdFor, s);
    if s.reservations[id].IsActive() {
      EndingKeeps(holdFor, s, n, id, if s.reservations[id].Lapsed(now) then ToExpired else ToConfirmed, now);
    }
  }

  lemma CancelSpecLaws(holdFor: int, id: string, now: int, s: Store, n: nat)
    requires Good(holdFor, s) && IdsFrom(s, n) && id in s.reservations
    ensures var s' := CancelEffect(id, now, s, MakeId(EVT, n + 1)).0;
      Good(holdFor, s') && IdsFrom(s', n + (if s.reservations[id].IsActive() then 1 else 0))
  {
    if s.reservations[id].IsActive() {
      EndingKeeps(holdFor, s, n, id, ToCancelled, now);
    }
  }

  /** `ids` are the stale holds of `p` among those `seen`, each listed once. */
  predicate Groups(ids: seq<string>, s: Store, p: string, now: int, seen: seq<string>) {
    && Distinct(ids)
    && (forall id | id in ids :: id in seen && id in s.StaleIds(p, now))
    && (forall id | id in seen && id in s.StaleIds(p, now) :: id in ids)
  }

  lemma GroupsOneMore(ids: seq<string>, s: Store, p: string, now: int, seen: seq<string>, id: string)
    requires Groups(ids, s, p, now, seen) && id !in seen
    ensures Groups(if id in s.StaleIds(p, now) then ids + [id] else ids, s, p, now, seen + [id])
  {
    assert id !in ids;
  }

  /** One turn of the lazy expiry loop, on the hold `id`. */
  lemma ExpireTurn(s: Store, n: nat, p: string, now: int, seen: seq<string>, order: seq<string>, id: string,
      t: Store, t': Store)
      returns (order': seq<string>)
    requires Groups(order, s, p, now, seen) && id !in seen && id in s.ActiveIds(p)
    requires t == EndAll(s, order, now, EvtIds(n, |order|))
    requires t' == if s.reservations[id].Lapsed(now) then t.End(id, ToExpired, now, MakeId(EVT, n + |order| + 1)) else t
    ensures Groups(order', s, p, now, seen + [id]) && t' == EndAll(s, order', now, EvtIds(n, |order'|))
    ensures |order'| == |order| + (if s.reservations[id].Lapsed(now) then 1 else 0)
  {
    GroupsOneMore(order, s, p, now, seen, id);
    EndAllSnoc(s, order, now, n, id);
    order' := if s.reservations[id].Lapsed(now) then order + [id] else order;
  }

  lemma GroupsAll(ids: seq<string>, s: Store, p: string, now: int, seen: seq<string>)
    requires Groups(ids, s, p, now, seen) && forall id | id in s.StaleIds(p, now) :: id in seen
    ensures Enumerates(ids, s.StaleIds(p, now))
  {
  }

  /** The stale holds of the products not in `rest`. */
  function StaleOutside(s: Store, now: int, rest: set<string>): set<string> {
    set id | id in AllStale(s, now) && s.reservations[id].productId !in rest
  }

  lemma OneMoreProduct(s: Store, now: int, rest: set<string>, p: string, order: seq<string>, ids: seq<string>)
    requires p in rest && Enumerates(order, StaleOutside(s, now, rest)) && Enumerates(ids, s.StaleIds(p, now))
    ensures Enumerates(order + ids, StaleOutside(s, now, rest - {p}))
  {
    forall i, j | 0 <= i < |order| && 0 <= j < |ids| ensures order[i] != ids[j] {
      assert order[i] in order && ids[j] in ids;
    }
    forall x | x in StaleOutside(s, now, rest - {p}) ensures x in order + ids {
      assert x in StaleOutside(s, now, rest) || x in s.StaleIds(p, now);
    }
  }

  /** Go's pair of a reservation and an error, as one value. */
  function Result(r: Reservation, err: Option<DomainError>): Outcome {
    if err.None? then Got(r) else Failed(err.value)
  }

  class ReservationService {
    const repo: InMemoryRepository
    const locks: LockManager
    const clock: FakeClock
    const holdFor: int
    var idCounter: nat

    /** The store is in order, ids come from the counter, and no lock is held. */
    ghost predicate Valid()
      reads this, repo, locks
    {
      && Good(holdFor, repo.Contents())
      && IdsFrom(repo.Contents(), idCounter)
      && locks.Valid() && locks.held == {}
    }

    /** A hold time of zero means two minutes. */
    constructor (repo: InMemoryRepository, locks: LockManager, clock: FakeClock, holdFor: int)
      requires repo.reservations == map[] && repo.events == []
      requires forall k | k in repo.products ::
        && repo.products[k].productId == k && repo.products[k].totalStock >= 0
        && repo.products[k].confirmedCount == 0 && repo.products[k].activeReservationCount == 0
      requires locks.Valid() && locks.held == {}
      ensures Valid() && idCounter == 0
      ensures this.repo == repo && this.locks == locks && this.clock == clock
      ensures this.holdFor == if holdFor == 0 then 2 * 60 * 1_000_000_000 else holdFor
      ensures this.holdFor == HoldTime(holdFor)
    {
      this.repo, this.locks, this.clock, this.idCounter := repo, locks, clock, 0;
      this.holdFor := HoldTime(holdFor);
      new;
      forall p ensures Quiet(this.holdFor, p, Restrict(repo.Contents(), p)) {
        FreshIsQuiet(this.holdFor, p, Restrict(repo.Contents(), p));
      }
    }

    method NextID(prefix: string) returns (id: string)
      modifies this
      ensures idCounter == old(idCounter) + 1 && id == MakeId(prefix, idCounter)
      ensures Reads(id, prefix + "-", idCounter)
    {
      idCounter := idCounter + 1;
      id := MakeId(prefix, idCounter);
      MakeIdReads(prefix, idCounter, id);
    }

    /** Gives the event the next id and records it. */
    method AppendEvent(e: InventoryEvent) returns (r: InventoryEvent)
      modifies this, repo
      ensures idCounter == old(idCounter) + 1 && r == e.(eventId := MakeId(EVT, idCounter))
      ensures Reads(r.eventId, "evt-", idCounter)
      ensures repo.Contents() == old(repo.Contents()).AppendEvent(r)
    {
      var id := NextID(EVT);
      r := e.(eventId := id);
      repo.AppendEvent(r);
      IdText(idCounter);
    }

    /** Expires one reservation, whatever its state: looking first is the caller's part. */
    method ExpireReservationLocked(id: string, now: int)
      modifies this, repo
      ensures repo.Contents() == old(repo.Contents()).End(id, ToExpired, now, MakeId(EVT, idCounter))
      ensures idCounter == old(idCounter) + 1
    {
      var current, _ := repo.GetReservation(id);
      var _ := repo.UpdateReservation(id, (r: Reservation) => (r.(state := Expired, expiredAt := Some(now)), None));
      var _ := repo.UpdateProduct(current.productId,
        (p: ProductInventory) => (p.(activeReservationCount := p.activeReservationCount - 1), None));
      var _ := AppendEvent(InventoryEvent(
        "", EventExpired, current.productId, Some(current.reservationId), Some(current.userId), None, now));
    }

    method ExpireForProductLocked(product: string, now: int) returns (ghost order: seq<string>)
      requires Good(holdFor, repo.Contents())
      modifies this, repo
      ensures Enumerates(order, old(repo.Contents()).StaleIds(product, now))
      ensures idCounter == old(idCounter) + |order|
      ensures repo.Contents() == EndAll(old(repo.Contents()), order, now, EvtIds(old(idCounter), |order|))
    {
      ghost var s0, n0 := repo.Contents(), idCounter;
      var snapshot := repo.ActiveReservationsByProduct(product);
      ghost var from :| Walk(snapshot, from, s0, s0.ActiveIds(product));
      order := [];
      assert EndAll(s0, [], now, EvtIds(n0, 0)) == s0;
      assert forall i | 0 <= i < |snapshot| :: snapshot[i].reservationId == from[i] by { GoodKeys(holdFor, s0); }
      for i := 0 to |snapshot|
        invariant Groups(order, s0, product, now, from[..i])
        invariant idCounter == n0 + |order|
        invariant repo.Contents() == EndAll(s0, order, now, EvtIds(n0, |order|))
      {
        assert from[..i + 1] == from[..i] + [from[i]] && from[i] !in from[..i] && from[i] in from;
        ghost var before := repo.Contents();
        if snapshot[i].Lapsed(now) {
          ExpireReservationLocked(snapshot[i].reservationId, now);
        }
        order := ExpireTurn(s0, n0, product, now, from[..i], order, from[i], before, repo.Contents());
      }
      assert from[..|snapshot|] == from;
      GroupsAll(order, s0, product, now, from);
    }

    /** The decision and the hold, once p's stale holds are gone. */
    method DecideLocked(product: string, user: string, now: int) returns (result: Reservation, err: Option<DomainError>)
      modifies this, repo
      ensures (repo.Contents(), idCounter, Result(result, err))
           == Decide(holdFor, product, user, now, old(repo.Contents()), old(idCounter))
      ensures err.None? ==>
        && result == Reservation(result.reservationId, product, user, Active, now, now + holdFor, None, None, None)
        && Reads(result.reservationId, "res-", old(idCounter) + 1)
      ensures err.Some? ==> result == Reservation("", "", "", Unset, 0, 0, None, None, None)
    {
      result, err := Reservation("", "", "", Unset, 0, 0, None, None, None), None;
      var p, ok := repo.GetProduct(product);
      if !ok {
        err := Some(ProductNotFound);
      } else if p.AvailableStock() <= 0 {
        err := Some(OutOfStock);
        var _ := AppendEvent(InventoryEvent(
          "", EventReserveRejected, product, None, Some(user), Some("out of stock"), now));
      } else {
        var id := NextID(RES);
        result := Reservation(id, product, user, Active, now, now + holdFor, None, None, None);
        repo.SaveReservation(result);
        var _ := repo.UpdateProduct(product,
          (q: ProductInventory) => (q.(activeReservationCount := q.activeReservationCount + 1), None));
        assert repo.Contents() == old(repo.Contents()).PutReservation(id, result).TakeHold(product);
        var _ := AppendEvent(InventoryEvent(
          "", EventReserved, result.productId, Some(result.reservationId), Some(result.userId), None, now));
        assert repo.Contents() == old(repo.Contents()).AddHold(result, MakeId(EVT, idCounter));
      }
      DecideText(holdFor, product, user, now, old(repo.Contents()), old(idCounter));
    }

    /** The closure ReserveItem runs under the lock. */
    method ReserveLocked(product: string, user: string)
        returns (result: Reservation, err: Option<DomainError>, ghost order: seq<string>)
      requires Good(holdFor, repo.Contents())
      modifies this, repo
      ensures Enumerates(order, old(repo.Contents()).StaleIds(product, clock.current))
      ensures (repo.Contents(), idCounter, Result(result, err))
           == ReserveSpec(holdFor, product, user, clock.current, old(repo.Contents()), old(idCounter), order)
      ensures err.None? ==>
        && result == Reservation(result.reservationId, product, user, Active, clock.current,
                                 clock.current + holdFor, None, None, None)
        && Reads(result.reservationId, "res-", old(idCounter) + |order| + 1)
      ensures err.Some? ==> result == Reservation("", "", "", Unset, 0, 0, None, None, None)
    {
      var now := clock.Now();
      order := ExpireForProductLocked(product, now);
      result, err := DecideLocked(product, user, now);
    }

    /** Success exactly when sales and live holds leave a unit; p's stale holds are expired
        on the way, in the order `order`. */
    method ReserveItem(product: string, user: string)
        returns (result: Reservation, err: Option<DomainError>, ghost order: seq<string>)
      requires Valid()
      modifies this, repo, locks
      ensures Valid()
      ensures Enumerates(order, old(repo.Contents()).StaleIds(product, clock.current))
      ensures (repo.Contents(), idCounter, Result(result, err))
           == ReserveSpec(holdFor, product, user, clock.current, old(repo.Contents()), old(idCounter), order)
      ensures err.None? ==>
        && result == Reservation(result.reservationId, product, user, Active, clock.current,
                                 clock.current + holdFor, None, None, None)
        && Reads(result.reservationId, "res-", old(idCounter) + |order| + 1)
      ensures err.Some? ==> result == Reservation("", "", "", Unset, 0, 0, None, None, None)
      ensures err.None? <==> (product in old(repo.Contents()).products
        && old(repo.Contents()).products[product].totalStock > Taken(old(repo.Contents()), product, clock.current))
      ensures holdFor > 0 ==> repo.Contents().StaleIds(product, clock.current) == {}
    {
      var l := locks.LockFor(product);
      locks.Lock(l);
      result, err, order := ReserveLocked(product, user);
      locks.Unlock(l);
      ReserveSpecLaws(holdFor, product, user, clock.current, old(repo.Contents()), old(idCounter), order);
    }

    /** The closure ConfirmReservation runs under the lock. */
    method ConfirmLocked(id: string) returns (result: Reservation, err: Option<DomainError>)
      requires id in repo.reservations && repo.reservations[id].reservationId == id
      modifies this, repo
      ensures (repo.Contents(), Result(result, err))
           == ConfirmEffect(id, clock.current, old(repo.Contents()), MakeId(EVT, old(idCounter) + 1))
      ensures idCounter == old(idCounter) + (if old(repo.reservations)[id].IsActive() then 1 else 0)
      ensures err.None? ==>
        result == old(repo.reservations)[id].(state := Confirmed, confirmedAt := Some(clock.current))
      ensures err.Some? ==> result == Reservation("", "", "", Unset, 0, 0, None, None, None)
    {
      result, err := Reservation("", "", "", Unset, 0, 0, None, None, None), None;
      var current, _ := repo.GetReservation(id);
      var now := clock.Now();
      if current.IsActive() && current.Lapsed(now) {
        ExpireReservationLocked(current.reservationId, now);
        err := Some(ReservationExpired);
      } else if !current.IsActive() {
        err := Some(if current.state == Expired then ReservationExpired else ReservationAlreadyFinalized);
      } else {
        var _ := repo.UpdateReservation(id,
          (r: Reservation) => (r.(state := Confirmed, confirmedAt := Some(now)), None));
        result := current.(state := Confirmed, confirmedAt := Some(now));
        var _ := repo.UpdateProduct(current.productId,
          (p: ProductInventory) => (p.(activeReservationCount := p.activeReservationCount - 1,
                                       confirmedCount := p.confirmedCount + 1), None));
        var _ := AppendEvent(InventoryEvent(
          "", EventConfirmed, current.productId, Some(current.reservationId), Some(current.userId), None, now));
      }
    }

    /** A sale if the hold is Active and in time; a lapsed hold is expired instead. */
    method ConfirmReservation(id: string) returns (result: Reservation, err: Option<DomainError>)
      requires Valid()
      modifies this, repo, locks
      ensures Valid()
      ensures id !in old(repo.Contents()).reservations ==>
        err == Some(ReservationNotFound) && repo.Contents() == old(repo.Contents()) && idCounter == old(idCounter)
      ensures id in old(repo.Contents()).reservations ==>
        && (repo.Contents(), Result(result, err))
           == ConfirmEffect(id, clock.current, old(repo.Contents()), MakeId(EVT, old(idCounter) + 1))
        && idCounter == old(idCounter) + (if old(repo.reservations)[id].IsActive() then 1 else 0)
      ensures err.None? ==>
        && id in old(repo.reservations)
        && result == old(repo.reservations)[id].(state := Confirmed, confirmedAt := Some(clock.current))
      ensures err.Some? ==> result == Reservation("", "", "", Unset, 0, 0, None, None, None)
    {
      var res, ok := repo.GetReservation(id);
      if !ok {
        return Reservation("", "", "", Unset, 0, 0, None, None, None), Some(ReservationNotFound);
      }
      assert res.reservationId == id by { GoodKeys(holdFor, repo.Contents()); }
      var l := locks.LockFor(res.productId);
      locks.Lock(l);
      result, err := ConfirmLocked(id);
      locks.Unlock(l);
      ConfirmSpecLaws(holdFor, id, clock.current, old(repo.Contents()), old(idCounter));
    }

    /** The closure CancelReservation runs under the lock. */
    method CancelLocked(id: string) returns (result: Reservation, err: Option<DomainError>)
      requires id in repo.reservations
      modifies this, repo
      ensures (repo.Contents(), Result(result, err))
           == CancelEffect(id, clock.current, old(repo.Contents()), MakeId(EVT, old(idCounter) + 1))
      ensures idCounter == old(idCounter) + (if old(repo.reservations)[id].IsActive() then 1 else 0)
      ensures err.None? ==>
        result == old(repo.reservations)[id].(state := Cancelled, cancelledAt := Some(clock.current))
      ensures err.Some? ==> result == Reservation("", "", "", Unset, 0, 0, None, None, None)
    {
      result, err := Reservation("", "", "", Unset, 0, 0, None, None, None), None;
      var current, _ := repo.GetReservation(id);
      if !current.IsActive() {
        err := Some(ReservationAlreadyFinalized);
      } else {
        var now := clock.Now();
        var _ := repo.UpdateReservation(id,
          (r: Reservation) => (r.(state := Cancelled, cancelledAt := Some(now)), None));
        result := current.(state := Cancelled, cancelledAt := Some(now));
        var _ := repo.UpdateProduct(current.productId,
          (p: ProductInventory) => (p.(activeReservationCount := p.activeReservationCount - 1), None));
        var _ := AppendEvent(InventoryEvent(
          "", EventCancelled, current.productId, Some(current.reservationId), Some(current.userId), None, now));
      }
    }

    /** Gives the hold of an Active reservation back, lapsed or not. */
    method CancelReservation(id: string) returns (result: Reservation, err: Option<DomainError>)
      requires Valid()
      modifies this, repo, locks
      ensures Valid()
      ensures id !in old(repo.Contents()).reservations ==>
        err == Some(ReservationNotFound) && repo.Contents() == old(repo.Contents()) && idCounter == old(idCounter)
      ensures id in old(repo.Contents()).reservations ==>
        && (repo.Contents(), Result(result, err))
           == CancelEffect(id, clock.current, old(repo.Contents()), MakeId(EVT, old(idCounter) + 1))
        && idCounter == old(idCounter) + (if old(repo.reservations)[id].IsActive() then 1 else 0)
      ensures err.None? ==>
        && id in old(repo.reservations)
        && result == old(repo.reservations)[id].(state := Cancelled, cancelledAt := Some(clock.current))
      ensures err.Some? ==> result == Reservation("", "", "", Unset, 0, 0, None, None, None)
    {
      var res, ok := repo.GetReservation(id);
      if !ok {
        return Reservation("", "", "", Unset, 0, 0, None, None, None), Some(ReservationNotFound);
      }
      var l := locks.LockFor(res.productId);
      locks.Lock(l);
      result, err := CancelLocked(id);
      locks.Unlock(l);
      CancelSpecLaws(holdFor, id, clock.current, old(repo.Contents()), old(idCounter));
    }

    /** The stale holds of a snapshot of `s`, grouped by product. */
    method CollectStale(snapshot: seq<Reservation>, ghost from: seq<string>, ghost s: Store, now: int)
        returns (byProduct: map<string, seq<string>>)
      requires Good(holdFor, s) && Walk(snapshot, from, s, s.InState(Active))
      ensures forall p | p in byProduct :: Enumerates(byProduct[p], s.StaleIds(p, now))
      ensures forall id | id in AllStale(s, now) :: s.reservations[id].productId in byProduct
    {
      byProduct := map[];
      GoodKeys(holdFor, s);
      for i := 0 to |snapshot|
        invariant forall p | p in byProduct :: Groups(byProduct[p], s, p, now, from[..i])
        invariant forall id | id in from[..i] && s.reservations[id].Lapsed(now) ::
          s.reservations[id].productId in byProduct
      {
        var r := snapshot[i];
        assert from[..i + 1] == from[..i] + [from[i]] && from[i] !in from[..i];
        assert from[i] in from && r.reservationId == from[i];
        ghost var before := byProduct;
        if r.Lapsed(now) {
          var ids := if r.productId in byProduct then byProduct[r.productId] else [];
          byProduct := byProduct[r.productId := ids + [r.reservationId]];
        }
        forall p | p in byProduct ensures Groups(byProduct[p], s, p, now, from[..i] + [from[i]]) {
          var ids := if p in before then before[p] else [];
          assert Groups(ids, s, p, now, from[..i]);
          GroupsOneMore(ids, s, p, now, from[..i], from[i]);
        }
      }
      assert from[..|snapshot|] == from;
      forall p | p in byProduct ensures Enumerates(byProduct[p], s.StaleIds(p, now)) {
        assert forall id | id in s.StaleIds(p, now) :: id in s.InState(Active);
        GroupsAll(byProduct[p], s, p, now, from);
      }
      forall id | id in AllStale(s, now) ensures s.reservations[id].productId in byProduct {
        assert id in s.InState(Active) && id in from;
      }
    }

    /** A sweep's turn on one product: the lock, and the closure run under it. */
    method ExpireGroup(product: string, ids: seq<string>, now: int) returns (count: int)
      requires locks.Valid() && locks.held == {}
      modifies this, repo, locks
      ensures locks.Valid() && locks.held == {}
      ensures count == |ids| && idCounter == old(idCounter) + |ids|
      ensures repo.Contents() == EndAll(old(repo.Contents()), ids, now, EvtIds(old(idCounter), |ids|))
    {
      var l := locks.LockFor(product);
      locks.Lock(l);
      count := 0;
      assert ids[..0] == [] && EndAll(old(repo.Contents()), [], now, EvtIds(old(idCounter), 0)) == old(repo.Contents());
      for i := 0 to |ids|
        invariant locks.Valid() && locks.held == {l}
        invariant count == i && idCounter == old(idCounter) + i
        invariant repo.Contents() == EndAll(old(repo.Contents()), ids[..i], now, EvtIds(old(idCounter), i))
      {
        assert ids[..i + 1] == ids[..i] + [ids[i]];
        EndAllSnoc(old(repo.Contents()), ids[..i], now, old(idCounter), ids[i]);
        ExpireReservationLocked(ids[i], now);
        count := count + 1;
      }
      assert ids[..|ids|] == ids;
      locks.Unlock(l);
    }

    /** The sweep's turns on all collected products, in no particular order. */
    method ExpireGroups(byProduct: map<string, seq<string>>, now: int) returns (total: int, ghost order: seq<string>)
      requires locks.Valid() && locks.held == {}
      requires forall p | p in byProduct :: Enumerates(byProduct[p], repo.Contents().StaleIds(p, now))
      requires forall id | id in AllStale(repo.Contents(), now) :: repo.reservations[id].productId in byProduct
      modifies this, repo, locks
      ensures locks.Valid() && locks.held == {}
      ensures total == |order| && Enumerates(order, AllStale(old(repo.Contents()), now))
      ensures repo.Contents() == EndAll(old(repo.Contents()), order, now, EvtIds(old(idCounter), |order|))
      ensures idCounter == old(idCounter) + |order|
    {
      ghost var s0, n0 := repo.Contents(), idCounter;
      total, order := 0, [];
      var rest := byProduct.Keys;
      assert EndAll(s0, [], now, EvtIds(n0, 0)) == s0 && StaleOutside(s0, now, rest) == {};
      while rest != {}
        invariant rest <= byProduct.Keys
        invariant locks.Valid() && locks.held == {}
        invariant total == |order| && Enumerates(order, StaleOutside(s0, now, rest))
        invariant idCounter == n0 + |order|
        invariant repo.Contents() == EndAll(s0, order, now, EvtIds(n0, |order|))
        decreases |rest|
      {
        var product :| product in rest;
        var count := ExpireGroup(product, byProduct[product], now);
        total := total + count;
        EndAllConcat(s0, order, byProduct[product], now, n0);
        OneMoreProduct(s0, now, rest, product, order, byProduct[product]);
        order := order + byProduct[product];
        rest := rest - {product};
      }
      assert StaleOutside(s0, now, {}) == AllStale(s0, now);
    }

    /** Expires every stale hold of every product and says how many there were. */
    method ExpireReservations(now: int) returns (total: int, ghost order: seq<string>)
      requires Valid()
      modifies this, repo, locks
      ensures Valid()
      ensures Enumerates(order, AllStale(old(repo.Contents()), now))
      ensures repo.Contents() == EndAll(old(repo.Contents()), order, now, EvtIds(old(idCounter), |order|))
      ensures idCounter == old(idCounter) + |order|
      ensures total == |AllStale(old(repo.Contents()), now)|
      ensures SweepAllMeans(now, old(repo.Contents()), repo.Contents(), total)
    {
      var snapshot := repo.AllActiveReservations();
      ghost var from :| Walk(snapshot, from, repo.Contents(), repo.Contents().InState(Active));
      var byProduct := CollectStale(snapshot, from, repo.Contents(), now);
      total, order := ExpireGroups(byProduct, now);
      SweepLaws(old(repo.Contents()), now, old(idCounter), order);
    }

    lemma SweepLaws(s: Store, now: int, n: nat, order: seq<string>)
      requires Good(holdFor, s) && IdsFrom(s, n) && Enumerates(order, AllStale(s, now))
      ensures var t := EndAll(s, order, now, EvtIds(n, |order|));
        && Good(holdFor, t) && IdsFrom(t, n + |order|)
        && |order| == |AllStale(s, now)| && SweepAllMeans(now, s, t, |order|)
    {
      EndAllKeepsOrder(holdFor, s, order, now, EvtIds(n, |order|));
      IdsAfterEndAll(s, n, order, now);
      EnumerationSize(order, AllStale(s, now));
    }

    method GetAvailableStock(product: string) returns (available: int, err: Option<DomainError>)
      requires Valid()
      ensures product in repo.products ==>
        && err == None && available >= 0
        && available == repo.products[product].totalStock
                        - |InStateOf(repo.Contents(), product, Confirmed)|
                        - |InStateOf(repo.Contents(), product, Active)|
      ensures product !in repo.products ==> err == Some(ProductNotFound) && available == 0
    {
      var p, ok := repo.GetProduct(product);
      GoodAt(holdFor, repo.Contents(), product);
      if !ok {
        return 0, Some(ProductNotFound);
      }
      return p.AvailableStock(), None;
    }

    method GetReservation(id: string) returns (r: Reservation, ok: bool)
      ensures ok <==> id in repo.reservations
      ensures r == if ok then repo.reservations[id] else Reservation("", "", "", Unset, 0, 0, None, None, None)
    {
      r, ok := repo.GetReservation(id);
    }

    method Events() returns (out: seq<InventoryEvent>)
      ensures out == repo.events
    {
      out := repo.AllEvents();
    }
  }
}
