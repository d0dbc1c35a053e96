/** How often a schedule ends reservations that have ended already, and what exactly comes of
    it: how far the counters are out, which ended states change, what the log spells. */
module Endings {
  import opened Domain
  import opened Stores
  import opened Accounts
  import opened Section
  import opened SectionInvariant
  import opened Locality
  import opened Interleaving
  import opened Safety
  import opened Laws
  import opened Settling
  import opened Guarantees

  /** The states a reservation can be in that has ended. */
  const ENDED := {Confirmed, Cancelled, Expired}

  /** The step ends a reservation of `p` that is in one of `states`. */
  predicate Ends(c: Config, l: Label, p: string, states: set<ReservationState>) {
    InsideOf(c, l.t, p) && c.threads[l.t].cs.EndRecord? && c.threads[l.t].cs.cur.state in states
  }

  lemma EndsEnded(c: Config, l: Label, p: string)
    requires InsideOf(c, l.t, p) && c.threads[l.t].cs.EndRecord?
    ensures Ends(c, l, p, ENDED) <==> c.threads[l.t].cs.cur.state != Active && c.threads[l.t].cs.cur.state != Unset
  {
  }

  function One(b: bool): nat {
    if b then 1 else 0
  }

  /** How many steps of the schedule end a reservation of `p` that is in one of `states`. */
  ghost function Endings(par: Params, c0: Config, ls: seq<Label>, p: string, states: set<ReservationState>): nat
    decreases |ls|
  {
    if ls == [] then 0
    else
      var n := |ls| - 1;
      Endings(par, c0, ls[..n], p, states)
      + (match Exec(par, c0, ls[..n])
         case None => 0
         case Some(c) => One(Ends(c, ls[n], p, states)))
  }

  /** What has ended is a sale or it is not. */
  lemma {:induction false} EndingsSplit(par: Params, c0: Config, ls: seq<Label>, p: string)
    ensures Endings(par, c0, ls, p, ENDED)
         == Endings(par, c0, ls, p, {Confirmed}) + Endings(par, c0, ls, p, {Cancelled, Expired})
    decreases |ls|
  {
    if ls != [] { EndingsSplit(par, c0, ls[..|ls| - 1], p); }
  }

  // ----- Counters -----

  /** The active counter of `p` is `d` short of the Active records, and the confirmed one `u`
      ahead of the Confirmed ones. */
  predicate Drifted(p: string, v: Store, d: int, u: int) {
    p in v.products ==>
      && v.products[p].activeReservationCount == |v.InState(Active)| - d
      && v.products[p].confirmedCount == |v.InState(Confirmed)| + u
  }

  /** Ending what has ended takes a unit off the active counter and none off the records;
      expiring a sale takes a Confirmed record away and none off its counter. */
  lemma EndDrifts(p: string, v: Store, id: string, e: Ending, now: int, d: int, u: int)
    requires Drifted(p, v, d, u) && id in v.reservations && v.reservations[id].productId == p
    requires InTime(v.reservations[id], e, now)
    ensures var r := v.reservations[id];
      Drifted(p, v.End(id, e, now, ""), d + One(r.state != Active), u + One(r.state == Confirmed))
  {
    var w := v.End(id, e, now, "");
    EndMovesOne(v, id, e, now, Active);
    EndMovesOne(v, id, e, now, Confirmed);
    SameStates(v.EndReservation(id, e, now), w);
  }

  lemma AddDrifts(p: string, v: Store, r: Reservation, d: int, u: int)
    requires Drifted(p, v, d, u) && r.reservationId !in v.reservations && r.productId == p && r.IsActive()
    ensures Drifted(p, v.AddHold(r, ""), d, u)
  {
    var w := v.AddHold(r, "");
    assert r.reservationId !in v.InState(Active);
    assert w.InState(Active) == v.InState(Active) + {r.reservationId};
    assert w.InState(Confirmed) == v.InState(Confirmed);
  }

  lemma TransitionDrifts(par: Params, p: string, cs: Cs, raw: Store, v: Store, w: Store, d: int, u: int)
    requires Transition(p, cs, v, w) && Local(par, p, cs, raw) && WellKeyed(par.holdFor, p, raw)
    requires cs.EndRecord? || cs.ReserveSave? ==> v == raw
    requires Drifted(p, v, d, u)
    ensures Drifted(p, w, d + One(cs.EndRecord? && cs.cur.state in ENDED),
                          u + One(cs.EndRecord? && cs.cur.state in {Confirmed}))
  {
    match cs
    case EndRecord(e, id, cur, now, _) => EndDrifts(p, v, id, e, now, d, u);
    case ReserveSave(res) => AddDrifts(p, v, res, d, u);
    case _ => SameStates(v, w);
  }

  lemma EndsLoaded(par: Params, c: Config, l: Label, p: string)
    requires Inv(par, false, c) && InsideOf(c, l.t, p) && c.threads[l.t].cs.EndRecord?
    ensures p in c.store.products && Works(c, l, p)
    ensures var cs := c.threads[l.t].cs;
      && cs.id in c.store.reservations && c.store.reservations[cs.id] == cs.cur
      && cs.cur.productId == p && cs.cur.state != Unset && InTime(cs.cur, cs.e, cs.now)
  {
    assert SliceOk(par, false, c, l.t);
    LookupIsLocal(c.store, p, c.threads[l.t].cs.id);
    assert p in Restrict(c.store, p).products;
  }

  lemma WorkDrifts(par: Params, c: Config, l: Label, p: string, w: Store, d: int, u: int)
    requires Inv(par, false, c) && Works(c, l, p) && Drifted(p, SettledAt(c, p), d, u)
    requires Transition(p, c.threads[l.t].cs, SettledAt(c, p), w)
    ensures Drifted(p, w, d + One(Ends(c, l, p, ENDED)), u + One(Ends(c, l, p, {Confirmed})))
  {
    assert SliceOk(par, false, c, l.t);
    SettledInside(c, l.t, p);
    TransitionDrifts(par, p, c.threads[l.t].cs, Restrict(c.store, p), SettledAt(c, p), w, d, u);
  }

  lemma NextDrifts(par: Params, c: Config, l: Label, p: string, d: int, u: int)
    requires Inv(par, false, c) && Next(par, c, l).Some? && Drifted(p, SettledAt(c, p), d, u)
    ensures Drifted(p, SettledAt(Next(par, c, l).value, p),
                    d + One(Ends(c, l, p, ENDED)), u + One(Ends(c, l, p, {Confirmed})))
  {
    SettledStep(par, c, l, p);
    if Works(c, l, p) {
      WorkDrifts(par, c, l, p, SettledAt(Next(par, c, l).value, p), d, u);
    }
  }

  lemma {:induction false} ExecDrifts(par: Params, c0: Config, ls: seq<Label>, p: string)
    requires Initial(c0) && Exec(par, c0, ls).Some?
    ensures Drifted(p, SettledAt(Exec(par, c0, ls).value, p),
                    Endings(par, c0, ls, p, ENDED), Endings(par, c0, ls, p, {Confirmed}))
    decreases |ls|
  {
    if ls == [] {
      InitialDrift(c0, p);
    } else {
      var n := |ls| - 1;
      ExecDrifts(par, c0, ls[..n], p);
      ReachedInv(par, false, c0, ls[..n], Exec(par, c0, ls[..n]).value);
      NextDrifts(par, Exec(par, c0, ls[..n]).value, ls[n], p,
                 Endings(par, c0, ls[..n], p, ENDED), Endings(par, c0, ls[..n], p, {Confirmed}));
    }
  }

  lemma InitialDrift(c0: Config, p: string)
    requires Initial(c0)
    ensures Drifted(p, SettledAt(c0, p), 0, 0)
  {
    var v := Restrict(c0.store, p);
    assert Free(c0, p);
    assert v.InState(Active) == {} && v.InState(Confirmed) == {};
  }

  /** The counters of `p` are this far ahead of the numbers of records they count. */
  predicate CountersAhead(s: Store, p: string, dActive: int, dConfirmed: int) {
    p in s.products ==>
      && s.products[p].activeReservationCount == |InStateOf(s, p, Active)| + dActive
      && s.products[p].confirmedCount == |InStateOf(s, p, Confirmed)| + dConfirmed
  }

  /** The active counter of `p` is `short` units short and the confirmed one so far `ahead`,
      besides what the thread inside `p`, if any, is about to put right. */
  ghost predicate CountersOut(c: Config, p: string, short: int, ahead: int) {
    && (Free(c, p) ==> CountersAhead(c.store, p, -short, ahead))
    && (forall t: nat | t < |c.threads| && InsideOf(c, t, p) ::
          CountersAhead(c.store, p, ActiveOffset(c.threads[t].cs) - short, ConfirmedOffset(c.threads[t].cs) + ahead))
  }

  /** Raw counters, from those of the settled slice. */
  lemma RawCounters(c: Config, p: string, d: int, u: int)
    requires HoldersOk(c) && Drifted(p, SettledAt(c, p), d, u)
    ensures CountersOut(c, p, d, u)
  {
    var v := Restrict(c.store, p);
    SliceCounts(c.store, p, Active);
    SliceCounts(c.store, p, Confirmed);
    if p in c.store.products {
      assert v.products[p] == c.store.products[p];
      forall t: nat | t < |c.threads| && InsideOf(c, t, p)
        ensures CountersAhead(c.store, p, ActiveOffset(c.threads[t].cs) - d, ConfirmedOffset(c.threads[t].cs) + u)
      {
        SettledInside(c, t, p);
        SettledCounters(p, c.threads[t].cs, v);
        SameStates(v, SettledAt(c, p));
      }
    }
  }

  /** The exact drift, of every schedule at every instant: the active counter of `p` is short by
      as many units as the schedule made second endings, the confirmed one ahead by as many as
      sales it expired. */
  lemma CountersDrift(par: Params, c0: Config, ls: seq<Label>, c: Config, p: string)
    requires Reached(par, c0, ls, c)
    ensures CountersOut(c, p, Endings(par, c0, ls, p, ENDED), Endings(par, c0, ls, p, {Confirmed}))
  {
    ReachedInv(par, false, c0, ls, c);
    ExecDrifts(par, c0, ls, p);
    RawCounters(c, p, Endings(par, c0, ls, p, ENDED), Endings(par, c0, ls, p, {Confirmed}));
  }

  /** So the number of holds is negative exactly when there have been more second endings than
      there are holds, the offset of the thread inside apart. */
  lemma NegativeHolds(par: Params, c0: Config, ls: seq<Label>, c: Config, p: string)
    requires Reached(par, c0, ls, c) && p in c.store.products
    ensures var x, d := c.store.products[p].activeReservationCount, Endings(par, c0, ls, p, ENDED);
      var holds := |InStateOf(c.store, p, Active)|;
      && (Free(c, p) ==> (x < 0 <==> d > holds))
      && (forall t: nat | t < |c.threads| && InsideOf(c, t, p) ::
            (x < 0 <==> d > holds + ActiveOffset(c.threads[t].cs)))
  {
    CountersDrift(par, c0, ls, c, p);
  }

  /** How far a schedule can oversell: sales and holds on record exceed the stock by at most the
      number of Cancelled and Expired reservations it has expired once more. */
  lemma OversellBound(par: Params, c0: Config, ls: seq<Label>, c: Config, p: string)
    requires Reached(par, c0, ls, c) && p in c.store.products
    ensures |InStateOf(c.store, p, Confirmed)| + |InStateOf(c.store, p, Active)|
         <= c.store.products[p].totalStock + Endings(par, c0, ls, p, {Cancelled, Expired})
  {
    ReachedInv(par, false, c0, ls, c);
    ExecDrifts(par, c0, ls, p);
    EndingsSplit(par, c0, ls, p);
    SettledStock(par, c, p);
    SettledSets(par, c, p);
  }

  lemma SettledTotal(p: string, cs: Cs, v: Store)
    ensures var w := Settled(p, cs, v);
      p in v.products ==> p in w.products && w.products[p].totalStock == v.products[p].totalStock
  {
  }

  lemma SettledStock(par: Params, c: Config, p: string)
    requires Inv(par, false, c) && p in c.store.products
    ensures var w := SettledAt(c, p);
      && p in w.products && w.products[p].totalStock == c.store.products[p].totalStock
      && w.products[p].AvailableStock() >= 0
  {
    var v := Restrict(c.store, p);
    assert v.products[p] == c.store.products[p];
    SettledIsRest(par, false, c, p);
    if !Free(c, p) {
      var t: nat :| t < |c.threads| && InsideOf(c, t, p);
      SettledInside(c, t, p);
      SettledTotal(p, c.threads[t].cs, v);
    }
  }

  lemma SettledSets(par: Params, c: Config, p: string)
    requires Inv(par, false, c)
    ensures SettledAt(c, p).InState(Active) == InStateOf(c.store, p, Active)
    ensures SettledAt(c, p).InState(Confirmed) == InStateOf(c.store, p, Confirmed)
  {
    SettledIsRest(par, false, c, p);
    SameStates(Restrict(c.store, p), SettledAt(c, p));
    SliceCounts(c.store, p, Active);
    SliceCounts(c.store, p, Confirmed);
  }

  // ----- Soundness is exactly what the counters need -----

  /** An unsound step ends what has ended in the product of its thread. */
  lemma UnsoundEnds(par: Params, c: Config, l: Label)
    requires Inv(par, false, c) && !Sound(c, l)
    ensures Ends(c, l, c.threads[l.t].p, ENDED)
  {
    EndsLoaded(par, c, l, c.threads[l.t].p);
    EndsEnded(c, l, c.threads[l.t].p);
  }

  lemma {:induction false} SoundRunsEndOnce(par: Params, c0: Config, ls: seq<Label>, p: string)
    requires Initial(c0) && Exec(par, c0, ls).Some? && SoundRun(par, c0, ls)
    ensures Endings(par, c0, ls, p, ENDED) == 0
    decreases |ls|
  {
    if ls != [] {
      var n := |ls| - 1;
      SoundRunsEndOnce(par, c0, ls[..n], p);
    }
  }

  /** A product in which a schedule that is not sound ends what has ended. */
  lemma {:induction false} SecondEndingSomewhere(par: Params, c0: Config, ls: seq<Label>) returns (p: string)
    requires Initial(c0) && Exec(par, c0, ls).Some? && !SoundRun(par, c0, ls)
    ensures Endings(par, c0, ls, p, ENDED) > 0 && p in Exec(par, c0, ls).value.store.products
    decreases |ls|
  {
    var n := |ls| - 1;
    var c := Exec(par, c0, ls[..n]).value;
    ReachedInv(par, false, c0, ls[..n], c);
    NextEvolves(par, c, ls[n]);
    if SoundRun(par, c0, ls[..n]) {
      p := c.threads[ls[n].t].p;
      UnsoundEnds(par, c, ls[n]);
      EndsLoaded(par, c, ls[n], p);
    } else {
      p := SecondEndingSomewhere(par, c0, ls[..n]);
    }
  }

  /** A schedule is sound if and only if it makes no second ending in any product. */
  lemma SoundIffNoneTwice(par: Params, c0: Config, ls: seq<Label>)
    requires Initial(c0) && Exec(par, c0, ls).Some?
    ensures SoundRun(par, c0, ls) <==> forall p :: Endings(par, c0, ls, p, ENDED) == 0
  {
    if SoundRun(par, c0, ls) {
      forall p ensures Endings(par, c0, ls, p, ENDED) == 0 {
        SoundRunsEndOnce(par, c0, ls, p);
      }
    } else {
      var p := SecondEndingSomewhere(par, c0, ls);
    }
  }

  /** Everywhere the counters differ from the records by exactly the offset of the thread
      inside, and by nothing where nobody is. */
  ghost predicate CountersFollow(c: Config) {
    forall p :: CountersOut(c, p, 0, 0)
  }

  /** Mid-section or not, the counters are what the records and the program counter of the
      thread inside make them. */
  lemma CountersFollowRecords(par: Params, c0: Config, ls: seq<Label>, c: Config)
    requires ReachedSoundly(par, c0, ls, c)
    ensures CountersFollow(c)
  {
    forall p ensures CountersOut(c, p, 0, 0) {
      CountersDrift(par, c0, ls, c, p);
      SoundRunsEndOnce(par, c0, ls, p);
      EndingsSplit(par, c0, ls, p);
    }
  }

  lemma DriftIsOne(c: Config, p: string, short: int, ahead: int)
    requires p in c.store.products && CountersOut(c, p, short, ahead)
    ensures CountersOut(c, p, 0, 0) ==> short == 0 && ahead == 0
  {
    if !Free(c, p) {
      var t: nat :| t < |c.threads| && InsideOf(c, t, p);
    }
  }

  /** No counter that is out is ever put right again. */
  lemma FollowingIsSound(par: Params, c0: Config, ls: seq<Label>, c: Config)
    requires Reached(par, c0, ls, c) && CountersFollow(c)
    ensures SoundRun(par, c0, ls)
  {
    if !SoundRun(par, c0, ls) {
      var p := SecondEndingSomewhere(par, c0, ls);
      CountersDrift(par, c0, ls, c, p);
      DriftIsOne(c, p, Endings(par, c0, ls, p, ENDED), Endings(par, c0, ls, p, {Confirmed}));
    }
  }

  /** The counters follow the records after every prefix of the schedule. */
  ghost predicate AlwaysFollow(par: Params, c0: Config, ls: seq<Label>) {
    forall k | 0 <= k <= |ls| && Exec(par, c0, ls[..k]).Some? :: CountersFollow(Exec(par, c0, ls[..k]).value)
  }

  lemma {:induction false} SoundPrefix(par: Params, c0: Config, ls: seq<Label>, k: nat)
    requires Exec(par, c0, ls).Some? && k <= |ls|
    ensures Exec(par, c0, ls[..k]).Some? && (SoundRun(par, c0, ls) ==> SoundRun(par, c0, ls[..k]))
    decreases |ls|
  {
    if k < |ls| {
      assert ls[..|ls| - 1][..k] == ls[..k];
      SoundPrefix(par, c0, ls[..|ls| - 1], k);
    } else {
      assert ls[..k] == ls;
    }
  }

  /** The exact condition, for every schedule and with it for the code as written: the counters
      follow the records where the schedule leads, and then at every instant on the way, if and
      only if every step that ended a reservation had loaded an Active one, under the lock. */
  lemma CountersFollowIffSound(par: Params, c0: Config, ls: seq<Label>)
    requires Initial(c0) && Exec(par, c0, ls).Some?
    ensures CountersFollow(Exec(par, c0, ls).value) <==> SoundRun(par, c0, ls)
    ensures AlwaysFollow(par, c0, ls) <==> SoundRun(par, c0, ls)
  {
    var c := Exec(par, c0, ls).value;
    if CountersFollow(c) { FollowingIsSound(par, c0, ls, c); }
    assert ls[..|ls|] == ls;
    if SoundRun(par, c0, ls) {
      forall k | 0 <= k <= |ls| && Exec(par, c0, ls[..k]).Some? ensures CountersFollow(Exec(par, c0, ls[..k]).value) {
        SoundPrefix(par, c0, ls, k);
        CountersFollowRecords(par, c0, ls[..k], Exec(par, c0, ls[..k]).value);
      }
    }
  }

  // ----- What has ended and changes its state -----

  /** What has ended in `s` is in the same state in `t`. */
  predicate StatesFinal(s: Store, t: Store) {
    forall id | id in s.reservations && !s.reservations[id].IsActive() ::
      id in t.reservations && t.reservations[id].state == s.reservations[id].state
  }

  lemma StatesFinalTrans(s: Store, t: Store, u: Store)
    requires StatesFinal(s, t) && StatesFinal(t, u)
    ensures StatesFinal(s, u)
  {
  }

  lemma EndFinalIff(par: Params, p: string, cs: Cs, s: Store)
    requires cs.EndRecord? && Grounded(par, p, cs, s)
    ensures StatesFinal(s, s.EndReservation(cs.id, cs.e, cs.now)) <==> cs.cur.state !in {Confirmed, Cancelled}
  {
    LookupIsLocal(s, p, cs.id);
    var t := s.EndReservation(cs.id, cs.e, cs.now);
    assert t.reservations[cs.id] == Ended(cs.cur, cs.e, cs.now);
  }

  lemma StepFinalIff(par: Params, p: string, cs: Cs, s: Store, i: Input)
    requires Grounded(par, p, cs, s)
    ensures StatesFinal(s, Step(par, p, cs, s, i).1) <==> !(cs.EndRecord? && cs.cur.state in {Confirmed, Cancelled})
  {
    if cs.EndRecord? { EndFinalIff(par, p, cs, s); } else { StepFinal(par, p, cs, s, i); }
  }

  /** The product whose section the thread that moves is in, if it is in any. */
  function PlaceOf(c: Config, l: Label): string {
    if l.t < |c.threads| && c.threads[l.t].Inside? then c.threads[l.t].p else ""
  }

  lemma WorkFinalIff(par: Params, c: Config, l: Label, p: string, i: Input)
    requires Inv(par, false, c) && Works(c, l, p)
    ensures StatesFinal(c.store, Step(par, p, c.threads[l.t].cs, c.store, i).1)
       <==> !Ends(c, l, p, {Confirmed, Cancelled})
  {
    InsideGrounded(par, false, c, l);
    StepFinalIff(par, p, c.threads[l.t].cs, c.store, i);
  }

  /** A step changes the state of something that has ended if and only if it ends a Confirmed or
      a Cancelled reservation. */
  lemma NextFinalIff(par: Params, c: Config, l: Label)
    requires Inv(par, false, c) && Next(par, c, l).Some?
    ensures StatesFinal(c.store, Next(par, c, l).value.store)
       <==> !Ends(c, l, PlaceOf(c, l), {Confirmed, Cancelled})
  {
    if Works(c, l, PlaceOf(c, l)) {
      InsideMoves(par, c, l);
      WorkFinalIff(par, c, l, c.threads[l.t].p, InputOf(c, c.threads[l.t].cs, l));
    } else {
      OnlySectionsWrite(par, c, l);
    }
  }

  /** A schedule on which no step ends a Confirmed or a Cancelled reservation. */
  ghost predicate Harmless(par: Params, c0: Config, ls: seq<Label>) {
    forall p :: Endings(par, c0, ls, p, {Confirmed, Cancelled}) == 0
  }

  /** Once a reservation has ended, its state is the same ever after. */
  ghost predicate StatesAlwaysFinal(par: Params, c0: Config, ls: seq<Label>) {
    forall j, k | 0 <= j <= k <= |ls| && Exec(par, c0, ls[..j]).Some? && Exec(par, c0, ls[..k]).Some? ::
      StatesFinal(Exec(par, c0, ls[..j]).value.store, Exec(par, c0, ls[..k]).value.store)
  }

  lemma {:induction false} HarmlessPrefix(par: Params, c0: Config, ls: seq<Label>, k: nat)
    requires Harmless(par, c0, ls) && k <= |ls|
    ensures Harmless(par, c0, ls[..k])
    decreases |ls|
  {
    if k == |ls| {
      assert ls[..k] == ls;
    } else {
      var n := |ls| - 1;
      assert ls[..n][..k] == ls[..k];
      forall p ensures Endings(par, c0, ls[..n], p, {Confirmed, Cancelled}) == 0 {
        assert Endings(par, c0, ls, p, {Confirmed, Cancelled}) == 0;
      }
      HarmlessPrefix(par, c0, ls[..n], k);
    }
  }

  lemma {:induction false} HarmlessIsFinal(par: Params, c0: Config, ls: seq<Label>, j: nat)
    requires Initial(c0) && Exec(par, c0, ls).Some? && Harmless(par, c0, ls) && j <= |ls|
    ensures Exec(par, c0, ls[..j]).Some?
    ensures StatesFinal(Exec(par, c0, ls[..j]).value.store, Exec(par, c0, ls).value.store)
    decreases |ls|
  {
    if j == |ls| {
      assert ls[..j] == ls;
    } else {
      var n := |ls| - 1;
      var d := Exec(par, c0, ls[..n]).value;
      assert ls[..n][..j] == ls[..j];
      HarmlessPrefix(par, c0, ls, n);
      HarmlessIsFinal(par, c0, ls[..n], j);
      ReachedInv(par, false, c0, ls[..n], d);
      NextFinalIff(par, d, ls[n]);
      assert Endings(par, c0, ls, PlaceOf(d, ls[n]), {Confirmed, Cancelled}) == 0;
      StatesFinalTrans(Exec(par, c0, ls[..j]).value.store, d.store, Exec(par, c0, ls).value.store);
    }
  }

  lemma HarmAtLast(par: Params, c0: Config, ls: seq<Label>, p: string)
    requires Initial(c0) && ls != [] && Exec(par, c0, ls).Some?
    requires Ends(Exec(par, c0, ls[..|ls| - 1]).value, ls[|ls| - 1], p, {Confirmed, Cancelled})
    ensures !StatesFinal(Exec(par, c0, ls[..|ls| - 1]).value.store, Exec(par, c0, ls).value.store)
  {
    var n := |ls| - 1;
    ReachedInv(par, false, c0, ls[..n], Exec(par, c0, ls[..n]).value);
    NextFinalIff(par, Exec(par, c0, ls[..n]).value, ls[n]);
  }

  lemma {:induction false} HarmShows(par: Params, c0: Config, ls: seq<Label>, p: string) returns (k: nat)
    requires Initial(c0) && Exec(par, c0, ls).Some? && Endings(par, c0, ls, p, {Confirmed, Cancelled}) > 0
    ensures k < |ls| && Exec(par, c0, ls[..k]).Some? && Exec(par, c0, ls[..k + 1]).Some?
    ensures !StatesFinal(Exec(par, c0, ls[..k]).value.store, Exec(par, c0, ls[..k + 1]).value.store)
    decreases |ls|
  {
    var n := |ls| - 1;
    if Ends(Exec(par, c0, ls[..n]).value, ls[n], p, {Confirmed, Cancelled}) {
      HarmAtLast(par, c0, ls, p);
      assert ls[..n + 1] == ls;
      k := n;
    } else {
      k := HarmShows(par, c0, ls[..n], p);
      assert ls[..n][..k] == ls[..k] && ls[..n][..k + 1] == ls[..k + 1];
    }
  }

  /** The exact condition for terminal states to be final, for every schedule: no step ends a
      Confirmed or a Cancelled reservation. Expiring an Expired one puts its counter out but not
      its state. */
  lemma StatesFinalIffHarmless(par: Params, c0: Config, ls: seq<Label>)
    requires Initial(c0) && Exec(par, c0, ls).Some?
    ensures StatesAlwaysFinal(par, c0, ls) <==> Harmless(par, c0, ls)
  {
    if Harmless(par, c0, ls) {
      forall j, k | 0 <= j <= k <= |ls| && Exec(par, c0, ls[..j]).Some? && Exec(par, c0, ls[..k]).Some?
        ensures StatesFinal(Exec(par, c0, ls[..j]).value.store, Exec(par, c0, ls[..k]).value.store)
      {
        HarmlessPrefix(par, c0, ls, k);
        assert ls[..k][..j] == ls[..j];
        HarmlessIsFinal(par, c0, ls[..k], j);
      }
    } else {
      var p :| Endings(par, c0, ls, p, {Confirmed, Cancelled}) != 0;
      var k := HarmShows(par, c0, ls, p);
    }
  }

  lemma WorkIsFinal(par: Params, c: Config, l: Label, i: Input)
    requires Inv(par, false, c) && Sound(c, l) && Works(c, l, PlaceOf(c, l))
    ensures Final(c.store, Step(par, PlaceOf(c, l), c.threads[l.t].cs, c.store, i).1)
  {
    InsideGrounded(par, false, c, l);
    StepFinal(par, PlaceOf(c, l), c.threads[l.t].cs, c.store, i);
  }

  lemma NextIsFinal(par: Params, c: Config, l: Label)
    requires Inv(par, false, c) && Sound(c, l) && Next(par, c, l).Some?
    ensures Final(c.store, Next(par, c, l).value.store)
  {
    if Works(c, l, PlaceOf(c, l)) {
      InsideMoves(par, c, l);
      WorkIsFinal(par, c, l, InputOf(c, c.threads[l.t].cs, l));
    } else {
      OnlySectionsWrite(par, c, l);
    }
  }

  /** Every step from `c` on is sound. */
  lemma {:induction false} ExecIsFinal(par: Params, c: Config, ls: seq<Label>)
    requires Inv(par, false, c) && SoundRun(par, c, ls) && Exec(par, c, ls).Some?
    ensures Final(c.store, Exec(par, c, ls).value.store)
    decreases |ls|
  {
    if ls != [] {
      var n := |ls| - 1;
      ExecIsFinal(par, c, ls[..n]);
      ExecKeepsInv(par, false, c, ls[..n]);
      NextIsFinal(par, Exec(par, c, ls[..n]).value, ls[n]);
    }
  }

  /** Confirmed, Cancelled and Expired are absorbing: once a reservation has ended, its
      whole record, times included, is the same after every sound continuation, even of a
      schedule that was not sound so far. */
  lemma EndingsAreFinal(par: Params, c0: Config, before: seq<Label>, c: Config, after: seq<Label>, d: Config)
    requires Reached(par, c0, before, c) && Exec(par, c, after) == Some(d) && SoundRun(par, c, after)
    ensures forall id | id in c.store.reservations && !c.store.reservations[id].IsActive() ::
      id in d.store.reservations && d.store.reservations[id] == c.store.reservations[id]
  {
    ReachedInv(par, false, c0, before, c);
    ExecIsFinal(par, c, after);
  }

  // ----- What the log spells -----

  /** Some reservation of `v` is named by three events or more. */
  ghost predicate Overlogged(v: Store) {
    exists id :: id in v.reservations && |Word(v.events, id)| >= 3
  }

  /** A transition logs at most one event and loses none. */
  lemma TransitionLogs(p: string, cs: Cs, v: Store, w: Store, id: string)
    requires Transition(p, cs, v, w) && id in v.reservations
    ensures id in w.reservations && |Word(v.events, id)| <= |Word(w.events, id)|
    ensures cs.EndRecord? && cs.id == id && v.reservations[id].reservationId == id ==>
      |Word(w.events, id)| == |Word(v.events, id)| + 1
  {
    match cs
    case EndRecord(e, k, _, now, _) => WordAppend(v.events, EndingEvent(e, v.Lookup(k), now, ""));
    case ReserveSave(res) => WordAppend(v.events, ReservedEvent(res, ""));
    case RejectAppend(user, now, evt) => WordAppend(v.events, RejectedEvent(p, user, now, evt));
    case _ => RenamedLogs(v, w, id);
  }

  lemma RenamedLogs(v: Store, w: Store, id: string)
    requires Renamed(v, w)
    ensures w.reservations == v.reservations && Word(w.events, id) == Word(v.events, id)
  {
    if v != w {
      var u: Store, e: InventoryEvent, evt: string :|
        v == u.AppendEvent(e) && w == u.AppendEvent(e.(eventId := evt));
      SameWord(u.events, e, evt, id);
    }
  }

  /** Once there are three events of a reservation there always are, and a second ending logs the
      third. */
  lemma NextOverlogs(par: Params, c: Config, l: Label, p: string)
    requires Inv(par, false, c) && Next(par, c, l).Some?
    requires Overlogged(SettledAt(c, p)) || Ends(c, l, p, ENDED)
    ensures Overlogged(SettledAt(Next(par, c, l).value, p))
  {
    SettledStep(par, c, l, p);
    if Ends(c, l, p, ENDED) {
      SecondEndingLogs(par, c, l, p, SettledAt(Next(par, c, l).value, p));
    } else if Works(c, l, p) {
      var id :| id in SettledAt(c, p).reservations && |Word(SettledAt(c, p).events, id)| >= 3;
      TransitionLogs(p, c.threads[l.t].cs, SettledAt(c, p), SettledAt(Next(par, c, l).value, p), id);
    }
  }

  lemma TwoLetters(w: seq<EventType>, st: ReservationState)
    requires Spells(w, st) && st in ENDED
    ensures |w| >= 2
  {
  }

  /** What has ended has been named twice. */
  lemma EndedIsLogged(par: Params, c: Config, p: string, id: string)
    requires Inv(par, false, c) && Has(c.store, p, id) && !c.store.reservations[id].IsActive()
    ensures var v := SettledAt(c, p);
      id in v.reservations && v.reservations[id].reservationId == id && |Word(v.events, id)| >= 2
  {
    SettledRow(par, false, c, id);
    SettledWord(par, false, c, p, id);
    TwoLetters(Word(SettledAt(c, p).events, id), c.store.reservations[id].state);
  }

  lemma LogsThird(p: string, cs: Cs, v: Store, w: Store)
    requires cs.EndRecord? && Transition(p, cs, v, w)
    requires cs.id in v.reservations && v.reservations[cs.id].reservationId == cs.id
    requires |Word(v.events, cs.id)| >= 2
    ensures Overlogged(w)
  {
    TransitionLogs(p, cs, v, w, cs.id);
  }

  lemma SecondEndingLogs(par: Params, c: Config, l: Label, p: string, w: Store)
    requires Inv(par, false, c) && Ends(c, l, p, ENDED) && Transition(p, c.threads[l.t].cs, SettledAt(c, p), w)
    ensures Overlogged(w)
  {
    var id, v := c.threads[l.t].cs.id, SettledAt(c, p);
    EndsEnded(c, l, p);
    EndsLoaded(par, c, l, p);
    EndedIsLogged(par, c, p, id);
    LogsThird(p, c.threads[l.t].cs, v, w);
  }

  lemma {:induction false} SecondEndingsShow(par: Params, c0: Config, ls: seq<Label>, p: string)
    requires Initial(c0) && Exec(par, c0, ls).Some? && Endings(par, c0, ls, p, ENDED) > 0
    ensures Overlogged(SettledAt(Exec(par, c0, ls).value, p))
    decreases |ls|
  {
    var n := |ls| - 1;
    var c := Exec(par, c0, ls[..n]).value;
    ReachedInv(par, false, c0, ls[..n], c);
    if !Ends(c, ls[n], p, ENDED) { SecondEndingsShow(par, c0, ls[..n], p); }
    NextOverlogs(par, c, ls[n], p);
  }

  lemma RejectWords(v: Store, e: InventoryEvent)
    requires Worded(v) && e.reservationId == None
    ensures Worded(v.AppendEvent(e))
  {
    WordAppend(v.events, e);
    forall id ensures Word(v.AppendEvent(e).events, id) == WordFor(v.AppendEvent(e).Lookup(id).state) {
      assert Word(v.events, id) == WordFor(v.Lookup(id).state);
    }
  }

  lemma RenamedWords(v: Store, w: Store)
    requires Worded(v) && Renamed(v, w)
    ensures Worded(w)
  {
    forall id ensures Word(w.events, id) == WordFor(w.Lookup(id).state) {
      RenamedLogs(v, w, id);
      assert Word(v.events, id) == WordFor(v.Lookup(id).state);
    }
  }

  /** Any other transition makes of one-word histories one-word histories. */
  lemma TransitionWords(par: Params, p: string, cs: Cs, raw: Store, v: Store, w: Store)
    requires Transition(p, cs, v, w) && Local(par, p, cs, raw) && WellKeyed(par.holdFor, p, raw)
    requires cs.EndRecord? || cs.ReserveSave? ==> v == raw
    requires Worded(v) && Promise(cs)
    ensures Worded(w)
  {
    match cs
    case EndRecord(e, id, _, now, _) => EndWords(v, id, e, now, "");
    case ReserveSave(res) => AddWords(v, res, "");
    case RejectAppend(user, now, evt) => RejectWords(v, RejectedEvent(p, user, now, evt));
    case _ => RenamedWords(v, w);
  }

  lemma NextWords(par: Params, c: Config, l: Label, p: string)
    requires Inv(par, false, c) && Next(par, c, l).Some?
    requires Worded(SettledAt(c, p)) && !Ends(c, l, p, ENDED)
    ensures Worded(SettledAt(Next(par, c, l).value, p))
  {
    SettledStep(par, c, l, p);
    if Works(c, l, p) { WorkWords(par, c, l, p, SettledAt(Next(par, c, l).value, p)); }
  }

  lemma WorkWords(par: Params, c: Config, l: Label, p: string, w: Store)
    requires Inv(par, false, c) && Works(c, l, p) && Transition(p, c.threads[l.t].cs, SettledAt(c, p), w)
    requires Worded(SettledAt(c, p)) && !Ends(c, l, p, ENDED)
    ensures Worded(w)
  {
    assert Promise(c.threads[l.t].cs) by {
      if c.threads[l.t].cs.EndRecord? {
        EndsLoaded(par, c, l, p);
        EndsEnded(c, l, p);
      }
    }
    assert SliceOk(par, false, c, l.t);
    SettledInside(c, l.t, p);
    TransitionWords(par, p, c.threads[l.t].cs, Restrict(c.store, p), SettledAt(c, p), w);
  }

  lemma {:induction false} EndedOnceIsWorded(par: Params, c0: Config, ls: seq<Label>, p: string)
    requires Initial(c0) && Exec(par, c0, ls).Some? && Endings(par, c0, ls, p, ENDED) == 0
    ensures Worded(SettledAt(Exec(par, c0, ls).value, p))
    decreases |ls|
  {
    if ls == [] {
      assert Free(c0, p);
    } else {
      var n := |ls| - 1;
      EndedOnceIsWorded(par, c0, ls[..n], p);
      ReachedInv(par, false, c0, ls[..n], Exec(par, c0, ls[..n]).value);
      NextWords(par, Exec(par, c0, ls[..n]).value, ls[n], p);
    }
  }

  /** The events of each reservation of `p` are the one word of its state. */
  ghost predicate SpelledExactly(s: Store, p: string) {
    forall id | id in s.reservations && s.reservations[id].productId == p ::
      Word(LogOf(s.events, p), id) == WordFor(s.reservations[id].state)
  }

  lemma WordedIsSpelled(c: Config, p: string)
    requires Free(c, p) && Worded(SettledAt(c, p))
    ensures SpelledExactly(c.store, p)
  {
    var v := Restrict(c.store, p);
    forall id | id in c.store.reservations && c.store.reservations[id].productId == p
      ensures Word(LogOf(c.store.events, p), id) == WordFor(c.store.reservations[id].state)
    {
      assert v.Lookup(id) == c.store.reservations[id];
      assert Word(v.events, id) == WordFor(v.Lookup(id).state);
    }
  }

  lemma OverloggedIsMisspelled(c: Config, p: string)
    requires Free(c, p) && Overlogged(SettledAt(c, p))
    ensures !SpelledExactly(c.store, p)
  {
    var id :| id in SettledAt(c, p).reservations && |Word(SettledAt(c, p).events, id)| >= 3;
    assert Restrict(c.store, p).reservations[id] == c.store.reservations[id];
    assert |WordFor(c.store.reservations[id].state)| <= 2;
  }

  /** The exact condition for every hold to be ended once in the log, product by product: when
      nobody is inside, p's log has for each reservation Reserved and at most the one ending its
      state names, if and only if no step ended a reservation of p that had ended. */
  lemma LogIsExactIffEndedOnce(par: Params, c0: Config, ls: seq<Label>, c: Config, p: string)
    requires Reached(par, c0, ls, c) && Free(c, p)
    ensures SpelledExactly(c.store, p) <==> Endings(par, c0, ls, p, ENDED) == 0
  {
    if Endings(par, c0, ls, p, ENDED) == 0 {
      EndedOnceIsWorded(par, c0, ls, p);
      WordedIsSpelled(c, p);
    } else {
      SecondEndingsShow(par, c0, ls, p);
      OverloggedIsMisspelled(c, p);
    }
  }
}
