/** Sweeping is all but invisible to buyers: with sweeps inserted anywhere into a history
    of operations, every ReserveItem and every ConfirmReservation succeeds or fails as it
    would have without them, and only the cancellation of a lapsed hold can differ. */
module Transparency {
  import opened Domain
  import opened Stores
  import opened Section
  import opened Meaning
  import opened Laws

  /** Operations of a history; reservations are named by the order they were made in, since
      ids depend on how many events were logged before. */
  datatype SeqOp =
    | SReserve(product: string, user: string, now: int)
    | SConfirm(k: nat, now: int)
    | SCancel(k: nat, now: int)
    | SSweep(now: int)

  /** A store together with the ids of its reservations, oldest first. */
  datatype Sys = Sys(store: Store, ids: seq<string>)

  ghost predicate SeqStep(holdFor: int, x: Sys, op: SeqOp, y: Sys, out: Outcome) {
    match op
    case SReserve(p, user, now) =>
      && ReserveMeans(holdFor, p, user, now, x.store, y.store, out)
      && y.ids == (if out.Got? then x.ids + [out.reservation.reservationId] else x.ids)
    case SConfirm(k, now) =>
      if k < |x.ids| then y.ids == x.ids && exists evt :: ConfirmEffect(x.ids[k], now, x.store, evt) == (y.store, out)
      else y == x && out == Failed(ReservationNotFound)
    case SCancel(k, now) =>
      if k < |x.ids| then y.ids == x.ids && exists evt :: CancelEffect(x.ids[k], now, x.store, evt) == (y.store, out)
      else y == x && out == Failed(ReservationNotFound)
    case SSweep(now) =>
      y.ids == x.ids && out.Swept? && SweepAllMeans(now, x.store, y.store, out.count)
  }

  /** The ids name the reservations, each once. */
  predicate Lists(x: Sys) {
    Enumerates(x.ids, x.store.reservations.Keys)
  }

  ghost predicate Ordered(holdFor: int, x: Sys) {
    Good(holdFor, x.store) && Lists(x)
  }

  /** Cancelled, and not before it had lapsed. */
  predicate CancelledLate(r: Reservation) {
    r.state == Cancelled && r.cancelledAt.Some? && r.expiresAt <= r.cancelledAt.value
  }

  /** One reservation in a history without sweeps and the same one in a history with them,
      at time `t`: the sweep may have expired what has lapsed by then, before a cancellation
      that came later still. */
  predicate Match(r: Reservation, q: Reservation, t: int) {
    && r.productId == q.productId && r.userId == q.userId
    && r.createdAt == q.createdAt && r.expiresAt == q.expiresAt
    && (r.state == q.state
        || (q.state == Expired && r.expiresAt <= t && (r.state == Active || CancelledLate(r))))
  }

  /** The i-th reservation made. */
  function Rec(x: Sys, i: nat): Reservation
    requires i < |x.ids|
  {
    x.store.Lookup(x.ids[i])
  }

  predicate Paired(x: Sys, y: Sys, t: int) {
    |x.ids| == |y.ids| && forall i: nat | i < |x.ids| :: Match(Rec(x, i), Rec(y, i), t)
  }

  predicate SameStock(x: Store, y: Store) {
    && x.products.Keys == y.products.Keys
    && forall k | k in x.products :: x.products[k].totalStock == y.products[k].totalStock
  }

  ghost predicate Alike(holdFor: int, x: Sys, y: Sys, t: int) {
    Ordered(holdFor, x) && Ordered(holdFor, y) && SameStock(x.store, y.store) && Paired(x, y, t)
  }

  // ----- Counting through the order of creation -----

  /** Taking the last listed id out of a set. */
  lemma WithoutLast(xs: seq<string>, a: set<string>)
    requires xs != [] && Distinct(xs) && forall id | id in a :: id in xs
    ensures var n := |xs| - 1;
      && Distinct(xs[..n]) && (forall id | id in a - {xs[n]} :: id in xs[..n])
      && (forall i | 0 <= i < n :: xs[i] in a - {xs[n]} <==> xs[i] in a)
      && |a| == |a - {xs[n]}| + (if xs[n] in a then 1 else 0)
  {
    var n := |xs| - 1;
    assert forall id | id in xs :: id == xs[n] || id in xs[..n];
    if xs[n] !in a { assert a - {xs[n]} == a; }
  }

  lemma {:induction false} SameSize(xs: seq<string>, ys: seq<string>, a: set<string>, b: set<string>)
    requires |xs| == |ys| && Distinct(xs) && Distinct(ys)
    requires (forall id | id in a :: id in xs) && (forall id | id in b :: id in ys)
    requires forall i | 0 <= i < |xs| :: xs[i] in a <==> ys[i] in b
    ensures |a| == |b|
    decreases |xs|
  {
    if xs == [] {
      assert a == {} && b == {};
    } else {
      var n := |xs| - 1;
      WithoutLast(xs, a);
      WithoutLast(ys, b);
      SameSize(xs[..n], ys[..n], a - {xs[n]}, b - {ys[n]});
    }
  }

  lemma PlaceOf(x: Sys, i: nat, p: string, now: int)
    requires Lists(x) && i < |x.ids|
    ensures x.ids[i] in x.store.reservations && Rec(x, i) == x.store.reservations[x.ids[i]]
    ensures x.ids[i] in InStateOf(x.store, p, Confirmed) <==> Rec(x, i).productId == p && Rec(x, i).state == Confirmed
    ensures x.ids[i] in LiveIds(x.store, p, now)
       <==> Rec(x, i).productId == p && Rec(x, i).IsActive() && !Rec(x, i).Lapsed(now)
  {
    assert x.ids[i] in x.ids;
  }

  /** Both histories have the same sales and, from `t` on, the same live holds. */
  lemma SameTaken(x: Sys, y: Sys, t: int, p: string, now: int)
    requires Lists(x) && Lists(y) && Paired(x, y, t) && t <= now
    ensures Taken(x.store, p, now) == Taken(y.store, p, now)
  {
    forall i: nat | i < |x.ids|
      ensures x.ids[i] in InStateOf(x.store, p, Confirmed) <==> y.ids[i] in InStateOf(y.store, p, Confirmed)
      ensures x.ids[i] in LiveIds(x.store, p, now) <==> y.ids[i] in LiveIds(y.store, p, now)
    {
      PlaceOf(x, i, p, now);
      PlaceOf(y, i, p, now);
      assert Match(Rec(x, i), Rec(y, i), t);
    }
    SameSize(x.ids, y.ids, InStateOf(x.store, p, Confirmed), InStateOf(y.store, p, Confirmed));
    SameSize(x.ids, y.ids, LiveIds(x.store, p, now), LiveIds(y.store, p, now));
  }

  // ----- What each operation does to the i-th reservation -----

  /** Expired if it is a stale hold of `p`. */
  function Unstaled1(r: Reservation, p: string, now: int): Reservation {
    if r.productId == p && r.IsActive() && r.Lapsed(now) then Ended(r, ToExpired, now) else r
  }

  /** Expired if it is stale. */
  function Swept1(r: Reservation, now: int): Reservation {
    if r.IsActive() && r.Lapsed(now) then Ended(r, ToExpired, now) else r
  }

  /** After a confirmation or a cancellation aimed at it. */
  function Finished1(r: Reservation, op: SeqOp): Reservation
    requires op.SConfirm? || op.SCancel?
  {
    if !r.IsActive() then r
    else if op.SCancel? then Ended(r, ToCancelled, op.now)
    else if r.Lapsed(op.now) then Ended(r, ToExpired, op.now) else Ended(r, ToConfirmed, op.now)
  }

  lemma ReserveOrdered(holdFor: int, x: Sys, op: SeqOp, x': Sys, out: Outcome)
    requires op.SReserve? && Ordered(holdFor, x) && SeqStep(holdFor, x, op, x', out)
    ensures Ordered(holdFor, x') && SameStock(x.store, x'.store)
    ensures |x'.ids| == |x.ids| + (if out.Got? then 1 else 0)
    ensures forall i: nat | i < |x.ids| :: Rec(x', i) == Unstaled1(Rec(x, i), op.product, op.now)
    ensures out.Got? ==> Rec(x', |x.ids|) == NewHold(x'.ids[|x.ids|], op.product, op.user, op.now, holdFor)
  {
    ReserveKeepsOrder(holdFor, op.product, op.user, op.now, x.store, x'.store, out);
    ReserveRecords(holdFor, op.product, op.user, op.now, x.store, x'.store, out);
    assert Unstaled(x.store, op.product, op.now).Keys == x.store.reservations.Keys;
    if out.Got? {
      assert out.reservation.reservationId !in x.ids;
      assert x'.store.reservations.Keys == x.store.reservations.Keys + {out.reservation.reservationId};
    }
    assert forall i | 0 <= i < |x.ids| :: x.ids[i] in x.ids;
  }

  /** What a confirmation or a cancellation aimed at it returns. */
  function Verdict1(r: Reservation, op: SeqOp): Outcome
    requires op.SConfirm? || op.SCancel?
  {
    if r.IsActive() && (op.SCancel? || !r.Lapsed(op.now)) then Got(Finished1(r, op))
    else if op.SConfirm? && (r.IsActive() || r.state == Expired) then Failed(ReservationExpired)
    else Failed(ReservationAlreadyFinalized)
  }

  lemma ConfirmEffects(holdFor: int, x: Sys, op: SeqOp, x': Sys, out: Outcome)
    requires op.SConfirm? && Ordered(holdFor, x) && SeqStep(holdFor, x, op, x', out) && op.k < |x.ids|
    ensures FinishEffects(holdFor, x, op, x', out)
  {
    assert x.ids[op.k] in x.ids;
    GoodIsTidy(holdFor, x.store);
    var evt :| ConfirmEffect(x.ids[op.k], op.now, x.store, evt) == (x'.store, out);
    ConfirmLaws(holdFor, x.ids[op.k], op.now, x.store, evt);
  }

  lemma CancelEffects(holdFor: int, x: Sys, op: SeqOp, x': Sys, out: Outcome)
    requires op.SCancel? && Ordered(holdFor, x) && SeqStep(holdFor, x, op, x', out) && op.k < |x.ids|
    ensures FinishEffects(holdFor, x, op, x', out)
  {
    assert x.ids[op.k] in x.ids;
    GoodIsTidy(holdFor, x.store);
    var evt :| CancelEffect(x.ids[op.k], op.now, x.store, evt) == (x'.store, out);
    CancelLaws(holdFor, x.ids[op.k], op.now, x.store, evt);
  }

  ghost predicate FinishEffects(holdFor: int, x: Sys, op: SeqOp, x': Sys, out: Outcome)
    requires (op.SConfirm? || op.SCancel?) && op.k < |x.ids|
  {
    var id := x.ids[op.k];
    && Good(holdFor, x'.store) && SameStock(x.store, x'.store) && x'.ids == x.ids
    && id in x.store.reservations
    && x'.store.reservations == x.store.reservations[id := Finished1(x.store.reservations[id], op)]
    && out == Verdict1(Rec(x, op.k), op)
  }

  lemma FinishOrdered(holdFor: int, x: Sys, op: SeqOp, x': Sys, out: Outcome)
    requires op.SConfirm? || op.SCancel?
    requires Ordered(holdFor, x) && SeqStep(holdFor, x, op, x', out) && op.k < |x.ids|
    ensures Ordered(holdFor, x') && x'.ids == x.ids && SameStock(x.store, x'.store)
    ensures forall i: nat | i < |x.ids| :: Rec(x', i) == if i == op.k then Finished1(Rec(x, i), op) else Rec(x, i)
    ensures out == Verdict1(Rec(x, op.k), op)
  {
    if op.SConfirm? { ConfirmEffects(holdFor, x, op, x', out); } else { CancelEffects(holdFor, x, op, x', out); }
    assert x'.store.reservations.Keys == x.store.reservations.Keys;
    forall i: nat | i < |x.ids| ensures Rec(x', i) == if i == op.k then Finished1(Rec(x, i), op) else Rec(x, i) {
      assert x.ids[i] in x.ids;
      assert i != op.k ==> x.ids[i] != x.ids[op.k];
    }
  }

  lemma SweepOrdered(holdFor: int, x: Sys, op: SeqOp, x': Sys, out: Outcome)
    requires op.SSweep? && Ordered(holdFor, x) && SeqStep(holdFor, x, op, x', out)
    ensures Ordered(holdFor, x') && x'.ids == x.ids && SameStock(x.store, x'.store)
    ensures forall i: nat | i < |x.ids| :: Rec(x', i) == Swept1(Rec(x, i), op.now)
  {
    SweepEffect(op.now, x.store, x'.store, out.count);
    SweepKeepsOrder(holdFor, op.now, x.store, x'.store, out.count);
    assert SweptRecords(x.store, op.now).Keys == x.store.reservations.Keys;
    assert forall i | 0 <= i < |x.ids| :: x.ids[i] in x.ids;
  }

  // ----- Each operation keeps the histories alike -----

  predicate SameHold(r: Reservation, q: Reservation) {
    && r.productId == q.productId && r.userId == q.userId && r.state == q.state
    && r.createdAt == q.createdAt && r.expiresAt == q.expiresAt
  }

  /** Do these results of one operation, without sweeps from `x` and with them, look alike to
      its caller? A cancellation of a lapsed hold may come too late once there are sweeps, and
      a later confirmation of that hold then fails with the other error; nothing else
      differs. */
  predicate SameToCaller(x: Sys, op: SeqOp, a: Outcome, b: Outcome) {
    match op
    case SReserve(_, _, _) => (a.Got? && b.Got? && SameHold(a.reservation, b.reservation)) || (a == b && a.Failed?)
    case SConfirm(k, _) =>
      || (a.Got? && b.Got? && SameHold(a.reservation, b.reservation))
      || (a == b && a.Failed?)
      || (k < |x.ids| && CancelledLate(Rec(x, k))
          && a == Failed(ReservationAlreadyFinalized) && b == Failed(ReservationExpired))
    case SCancel(_, now) =>
      || (a.Got? && b.Got? && SameHold(a.reservation, b.reservation))
      || (a == b && a.Failed?)
      || (a.Got? && a.reservation.Lapsed(now) && b == Failed(ReservationAlreadyFinalized))
    case SSweep(_) => true
  }

  lemma ReserveVerdict(holdFor: int, x: Sys, y: Sys, t: int, op: SeqOp, x': Sys, y': Sys, a: Outcome, b: Outcome)
    requires op.SReserve? && Alike(holdFor, x, y, t) && t <= op.now
    requires SeqStep(holdFor, x, op, x', a) && SeqStep(holdFor, y, op, y', b)
    ensures SameToCaller(x, op, a, b)
  {
    SameTaken(x, y, t, op.product, op.now);
    ReserveDecision(holdFor, op.product, op.user, op.now, x.store, x'.store, a);
    ReserveDecision(holdFor, op.product, op.user, op.now, y.store, y'.store, b);
    ReserveRecords(holdFor, op.product, op.user, op.now, x.store, x'.store, a);
    ReserveRecords(holdFor, op.product, op.user, op.now, y.store, y'.store, b);
  }

  lemma PairedReserve(holdFor: int, x: Sys, y: Sys, t: int, op: SeqOp, x': Sys, y': Sys, got: bool)
    requires op.SReserve? && Paired(x, y, t) && t <= op.now
    requires |x'.ids| == |x.ids| + (if got then 1 else 0) && |y'.ids| == |x'.ids|
    requires forall i: nat | i < |x.ids| :: Rec(x', i) == Unstaled1(Rec(x, i), op.product, op.now)
    requires forall i: nat | i < |y.ids| :: Rec(y', i) == Unstaled1(Rec(y, i), op.product, op.now)
    requires got ==> Rec(x', |x.ids|) == NewHold(x'.ids[|x.ids|], op.product, op.user, op.now, holdFor)
    requires got ==> Rec(y', |y.ids|) == NewHold(y'.ids[|y.ids|], op.product, op.user, op.now, holdFor)
    ensures Paired(x', y', op.now)
  {
    forall i: nat | i < |x'.ids| ensures Match(Rec(x', i), Rec(y', i), op.now) {
      if i < |x.ids| { assert Match(Rec(x, i), Rec(y, i), t); }
    }
  }

  lemma ReserveAlike(holdFor: int, x: Sys, y: Sys, t: int, op: SeqOp, x': Sys, y': Sys, a: Outcome, b: Outcome)
    requires op.SReserve? && Alike(holdFor, x, y, t) && t <= op.now
    requires SeqStep(holdFor, x, op, x', a) && SeqStep(holdFor, y, op, y', b)
    ensures Alike(holdFor, x', y', op.now)
  {
    ReserveVerdict(holdFor, x, y, t, op, x', y', a, b);
    ReserveOrdered(holdFor, x, op, x', a);
    ReserveOrdered(holdFor, y, op, y', b);
    PairedReserve(holdFor, x, y, t, op, x', y', a.Got?);
  }

  lemma PairedFinish(x: Sys, y: Sys, t: int, op: SeqOp, x': Sys, y': Sys)
    requires op.SConfirm? || op.SCancel?
    requires Paired(x, y, t) && t <= op.now && op.k < |x.ids| && x'.ids == x.ids && y'.ids == y.ids
    requires forall i: nat | i < |x.ids| :: Rec(x', i) == if i == op.k then Finished1(Rec(x, i), op) else Rec(x, i)
    requires forall i: nat | i < |y.ids| :: Rec(y', i) == if i == op.k then Finished1(Rec(y, i), op) else Rec(y, i)
    ensures Paired(x', y', op.now)
  {
    forall i: nat | i < |x'.ids| ensures Match(Rec(x', i), Rec(y', i), op.now) {
      assert Match(Rec(x, i), Rec(y, i), t);
    }
  }

  lemma FinishAlike(holdFor: int, x: Sys, y: Sys, t: int, op: SeqOp, x': Sys, y': Sys, a: Outcome, b: Outcome)
    requires op.SConfirm? || op.SCancel?
    requires Alike(holdFor, x, y, t) && t <= op.now
    requires SeqStep(holdFor, x, op, x', a) && SeqStep(holdFor, y, op, y', b)
    ensures Alike(holdFor, x', y', op.now)
  {
    if op.k < |x.ids| {
      FinishOrdered(holdFor, x, op, x', a);
      FinishOrdered(holdFor, y, op, y', b);
      PairedFinish(x, y, t, op, x', y');
    } else {
      LaterAlike(holdFor, x, y, t, op.now);
    }
  }

  lemma LaterAlike(holdFor: int, x: Sys, y: Sys, t: int, now: int)
    requires Alike(holdFor, x, y, t) && t <= now
    ensures Alike(holdFor, x, y, now)
  {
    forall i: nat | i < |x.ids| ensures Match(Rec(x, i), Rec(y, i), now) {
      assert Match(Rec(x, i), Rec(y, i), t);
    }
  }

  /** Confirmations and cancellations look alike to their callers. */
  lemma FinishVerdict(holdFor: int, x: Sys, y: Sys, t: int, op: SeqOp, x': Sys, y': Sys, a: Outcome, b: Outcome)
    requires op.SConfirm? || op.SCancel?
    requires Alike(holdFor, x, y, t) && t <= op.now
    requires SeqStep(holdFor, x, op, x', a) && SeqStep(holdFor, y, op, y', b)
    ensures SameToCaller(x, op, a, b)
  {
    if op.k < |x.ids| {
      assert Match(Rec(x, op.k), Rec(y, op.k), t);
      FinishOrdered(holdFor, x, op, x', a);
      FinishOrdered(holdFor, y, op, y', b);
    }
  }

  /** A sweep in the second history alone keeps the two alike. */
  lemma SweepAlike(holdFor: int, x: Sys, y: Sys, t: int, op: SeqOp, y': Sys, b: Outcome)
    requires op.SSweep? && Alike(holdFor, x, y, t) && t <= op.now && SeqStep(holdFor, y, op, y', b)
    ensures Alike(holdFor, x, y', op.now)
  {
    SweepOrdered(holdFor, y, op, y', b);
    PairedSweep(x, y, t, op.now, y');
  }

  lemma PairedSweep(x: Sys, y: Sys, t: int, now: int, y': Sys)
    requires Paired(x, y, t) && t <= now && y'.ids == y.ids
    requires forall i: nat | i < |y.ids| :: Rec(y', i) == Swept1(Rec(y, i), now)
    ensures Paired(x, y', now)
  {
    forall i: nat | i < |x.ids| ensures Match(Rec(x, i), Rec(y', i), now) {
      assert Match(Rec(x, i), Rec(y, i), t);
    }
  }

  // ----- Histories -----

  /** `xs` are the states and `outs` the results of running `ops` one after the other. */
  ghost predicate SeqRun(holdFor: int, xs: seq<Sys>, ops: seq<SeqOp>, outs: seq<Outcome>) {
    && |outs| == |ops| && |xs| == |ops| + 1
    && forall i | 0 <= i < |ops| :: SeqStep(holdFor, xs[i], ops[i], xs[i + 1], outs[i])
  }

  /** Time does not run backwards. */
  predicate Timed(ops: seq<SeqOp>, t: int)
    decreases |ops|
  {
    ops == [] || (t <= ops[0].now && Timed(ops[1..], ops[0].now))
  }

  function WithoutSweeps(ops: seq<SeqOp>): seq<SeqOp>
    decreases |ops|
  {
    if ops == [] then []
    else (if ops[0].SSweep? then [] else [ops[0]]) + WithoutSweeps(ops[1..])
  }

  /** The results of `ops` without its sweeps, through the states `xs`, and with them, looked
      at one by one. */
  predicate SameToCallers(xs: seq<Sys>, ops: seq<SeqOp>, plain: seq<Outcome>, swept: seq<Outcome>)
    requires |plain| == |WithoutSweeps(ops)| && |xs| == |plain| + 1 && |swept| == |ops|
    decreases |ops|
  {
    if ops == [] then true
    else if ops[0].SSweep? then SameToCallers(xs, ops[1..], plain, swept[1..])
    else SameToCaller(xs[0], ops[0], plain[0], swept[0]) && SameToCallers(xs[1..], ops[1..], plain[1..], swept[1..])
  }

  /** One operation made in both histories. */
  lemma StepAlike(holdFor: int, x: Sys, y: Sys, t: int, op: SeqOp, x': Sys, y': Sys, a: Outcome, b: Outcome)
    requires !op.SSweep? && Alike(holdFor, x, y, t) && t <= op.now
    requires SeqStep(holdFor, x, op, x', a) && SeqStep(holdFor, y, op, y', b)
    ensures Alike(holdFor, x', y', op.now)
    ensures SameToCaller(x, op, a, b)
  {
    if op.SReserve? {
      ReserveVerdict(holdFor, x, y, t, op, x', y', a, b);
      ReserveAlike(holdFor, x, y, t, op, x', y', a, b);
    } else {
      FinishVerdict(holdFor, x, y, t, op, x', y', a, b);
      FinishAlike(holdFor, x, y, t, op, x', y', a, b);
    }
  }

  lemma RestRuns(holdFor: int, xs: seq<Sys>, ops: seq<SeqOp>, outs: seq<Outcome>)
    requires ops != [] && SeqRun(holdFor, xs, ops, outs)
    ensures SeqStep(holdFor, xs[0], ops[0], xs[1], outs[0])
    ensures SeqRun(holdFor, xs[1..], ops[1..], outs[1..]) && xs[1..][0] == xs[1]
  {
    forall i | 0 <= i < |ops[1..]| ensures SeqStep(holdFor, xs[1..][i], ops[1..][i], xs[1..][i + 1], outs[1..][i]) {
      assert SeqStep(holdFor, xs[i + 1], ops[i + 1], xs[i + 2], outs[i + 1]);
    }
  }

  lemma WithoutHead(ops: seq<SeqOp>)
    requires ops != []
    ensures ops[0].SSweep? ==> WithoutSweeps(ops) == WithoutSweeps(ops[1..])
    ensures !ops[0].SSweep? ==>
      WithoutSweeps(ops) != [] && WithoutSweeps(ops)[0] == ops[0] && WithoutSweeps(ops)[1..] == WithoutSweeps(ops[1..])
  {
  }

  /** Inserting sweeps anywhere into a history leaves every other result as it was, as far
      as `SameToCaller` goes. */
  lemma {:induction false} SweepsAreInvisible(holdFor: int, t: int, ops: seq<SeqOp>,
      xs: seq<Sys>, plain: seq<Outcome>, ys: seq<Sys>, swept: seq<Outcome>)
    requires SeqRun(holdFor, xs, WithoutSweeps(ops), plain) && SeqRun(holdFor, ys, ops, swept)
    requires Alike(holdFor, xs[0], ys[0], t) && Timed(ops, t)
    ensures SameToCallers(xs, ops, plain, swept)
    decreases |ops|
  {
    if ops != [] {
      RestRuns(holdFor, ys, ops, swept);
      WithoutHead(ops);
      if ops[0].SSweep? {
        SweepAlike(holdFor, xs[0], ys[0], t, ops[0], ys[1], swept[0]);
        SweepsAreInvisible(holdFor, ops[0].now, ops[1..], xs, plain, ys[1..], swept[1..]);
      } else {
        RestRuns(holdFor, xs, WithoutSweeps(ops), plain);
        StepAlike(holdFor, xs[0], ys[0], t, ops[0], xs[1], ys[1], plain[0], swept[0]);
        SweepsAreInvisible(holdFor, ops[0].now, ops[1..], xs[1..], plain[1..], ys[1..], swept[1..]);
      }
    }
  }

  lemma AlikeSelf(holdFor: int, x: Sys, t: int)
    requires Ordered(holdFor, x)
    ensures Alike(holdFor, x, x, t)
  {
  }

  /** From one and the same store. */
  lemma SweepTransparency(holdFor: int, t: int, ops: seq<SeqOp>,
      xs: seq<Sys>, plain: seq<Outcome>, ys: seq<Sys>, swept: seq<Outcome>)
    requires SeqRun(holdFor, xs, WithoutSweeps(ops), plain) && SeqRun(holdFor, ys, ops, swept)
    requires xs[0] == ys[0] && Ordered(holdFor, xs[0]) && Timed(ops, t)
    ensures SameToCallers(xs, ops, plain, swept)
  {
    AlikeSelf(holdFor, xs[0], t);
    SweepsAreInvisible(holdFor, t, ops, xs, plain, ys, swept);
  }
}
