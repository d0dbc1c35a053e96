/** What a product's slice amounts to while somebody is inside the product's section: the
    slice with the pending calls of the transition under way carried out. Seen this way a
    schedule is a sequence of whole transitions. */
module Settling {
  import opened Domain
  import opened Stores
  import opened Accounts
  import opened Section
  import opened SectionInvariant
  import opened Interleaving
  import opened Safety

  ghost function SettledAt(c: Config, p: string): Store {
    var v := Restrict(c.store, p);
    if Free(c, p) then v
    else
      var t: nat :| t < |c.threads| && InsideOf(c, t, p);
      Settled(p, c.threads[t].cs, v)
  }

  lemma SettledInside(c: Config, t: nat, p: string)
    requires HoldersOk(c) && InsideOf(c, t, p)
    ensures SettledAt(c, p) == Settled(p, c.threads[t].cs, Restrict(c.store, p))
  {
    forall u: nat | u < |c.threads| && InsideOf(c, u, p) ensures u == t {
      MutualExclusion(c, p, t, u);
    }
  }

  /** In this sense every slice is at rest at every instant. */
  lemma SettledIsRest(par: Params, exact: bool, c: Config, p: string)
    requires Inv(par, exact, c)
    ensures Rest(par.holdFor, exact, p, SettledAt(c, p))
    ensures SettledAt(c, p).reservations == Restrict(c.store, p).reservations
  {
    if !Free(c, p) {
      var t: nat :| t < |c.threads| && InsideOf(c, t, p);
      SettledInside(c, t, p);
      assert SliceOk(par, exact, c, t);
      SettledShape(p, c.threads[t].cs, Restrict(c.store, p));
    }
  }

  lemma SettledRow(par: Params, exact: bool, c: Config, id: string)
    requires Inv(par, exact, c) && id in c.store.reservations
    ensures var r := c.store.reservations[id]; var w := SettledAt(c, r.productId);
      && id in w.reservations && w.reservations[id] == r
      && r.reservationId == id && r.productId in c.store.products
      && RowKept(par.holdFor, r) && (exact ==> OneEnd(r))
  {
    var p := c.store.reservations[id].productId;
    SliceIsKeyed(par, exact, c, p);
    SettledIsRest(par, exact, c, p);
    assert Restrict(c.store, p).reservations[id] == c.store.reservations[id];
  }

  // ----- The log -----

  /** The event the transition under way has still to log, if any. */
  function PendingEvent(p: string, cs: Cs): InventoryEvent {
    match cs
    case EndCount(e, _, cur, now, _) => EndingEvent(e, cur, now, "")
    case EndDraw(e, _, cur, now, _) => EndingEvent(e, cur, now, "")
    case EndAppend(e, _, cur, now, evt, _) => EndingEvent(e, cur, now, evt)
    case ReserveCount(res) => ReservedEvent(res, "")
    case ReservedDraw(res) => ReservedEvent(res, "")
    case ReservedAppend(res, evt) => ReservedEvent(res, evt)
    case _ => RejectedEvent(p, "", 0, "")
  }

  lemma SettledShape(p: string, cs: Cs, v: Store)
    ensures var w := Settled(p, cs, v);
      w.reservations == v.reservations && (w == v || w.events == v.events + [PendingEvent(p, cs)])
  {
  }

  /** `w` is `v` with at most one more letter. */
  ghost predicate OneMore(v: seq<EventType>, w: seq<EventType>) {
    w == v || exists k :: w == v + [k]
  }

  /** What is in the log is there but for the event of the transition under way. */
  lemma SettledLog(c: Config, p: string, id: string)
    requires HoldersOk(c)
    ensures Restrict(c.store, p).events <= SettledAt(c, p).events
    ensures OneMore(Word(Restrict(c.store, p).events, id), Word(SettledAt(c, p).events, id))
  {
    if !Free(c, p) {
      var t: nat :| t < |c.threads| && InsideOf(c, t, p);
      SettledInside(c, t, p);
      var v, cs := Restrict(c.store, p), c.threads[t].cs;
      SettledShape(p, cs, v);
      WordAppend(v.events, PendingEvent(p, cs));
    }
  }

  lemma {:induction false} LogOfMember(events: seq<InventoryEvent>, e: InventoryEvent)
    requires e in events
    ensures e in LogOf(events, e.productId)
    decreases |events|
  {
    var n := |events| - 1;
    if events[n] != e {
      assert e in events[..n];
      LogOfMember(events[..n], e);
    }
  }

  lemma PrefixMember(a: seq<InventoryEvent>, b: seq<InventoryEvent>, e: InventoryEvent)
    requires a <= b && e in a
    ensures e in b
  {
    assert a == b[..|a|];
  }

  /** A logged event is in the settled log of its product. */
  lemma SettledMember(c: Config, e: InventoryEvent)
    requires HoldersOk(c) && e in c.store.events
    ensures e in SettledAt(c, e.productId).events
  {
    SettledLog(c, e.productId, "");
    LogOfMember(c.store.events, e);
    PrefixMember(LogOf(c.store.events, e.productId), SettledAt(c, e.productId).events, e);
  }

  // ----- Steps -----

  /** `l` makes a call in the section of `p`. */
  predicate Works(c: Config, l: Label, p: string) {
    InsideOf(c, l.t, p) && !c.threads[l.t].cs.Finished?
  }

  /** Every step is a whole transition of the slice it works on, and leaves the others as they
      were. */
  lemma SettledStep(par: Params, c: Config, l: Label, p: string)
    requires Inv(par, false, c) && Next(par, c, l).Some?
    ensures var c' := Next(par, c, l).value;
      if Works(c, l, p) then Transition(p, c.threads[l.t].cs, SettledAt(c, p), SettledAt(c', p))
      else SettledAt(c', p) == SettledAt(c, p)
  {
    if Works(c, l, p) {
      WorkStep(par, c, l, p);
    } else if c.threads[l.t].Inside? && !c.threads[l.t].cs.Finished? {
      ElsewhereStep(par, c, l, p);
    } else {
      IdleStep(par, c, l, p);
    }
  }

  lemma WorkStep(par: Params, c: Config, l: Label, p: string)
    requires Inv(par, false, c) && Next(par, c, l).Some? && Works(c, l, p)
    ensures Transition(p, c.threads[l.t].cs, SettledAt(c, p), SettledAt(Next(par, c, l).value, p))
  {
    var c', cs := Next(par, c, l).value, c.threads[l.t].cs;
    InsideEffect(par, false, c, l);
    InsideMoves(par, c, l);
    assert HoldersOk(c') by { NextKeepsLocks(par, c, l); }
    SettledInside(c, l.t, p);
    SettledInside(c', l.t, p);
    assert SliceOk(par, false, c, l.t);
    SettledMoves(par, p, cs, Restrict(c.store, p), InputOf(c, cs, l));
  }

  /** The thread inside `p`, if any, is not the one that moves, and the slice is as it was. */
  lemma SettledStays(c: Config, c': Config, t: nat, pc': Pc, p: string)
    requires HoldersOk(c) && HoldersOk(c') && Moves(c, c', t, pc')
    requires Restrict(c'.store, p) == Restrict(c.store, p)
    requires !InsideOf(c, t, p) && !InsideOf(c', t, p)
    ensures SettledAt(c', p) == SettledAt(c, p)
  {
    if Free(c, p) {
      forall u | 0 <= u < |c'.threads| ensures !InsideOf(c', u, p) {
        assert u != t ==> !InsideOf(c, u, p);
      }
    } else {
      var u: nat :| u < |c.threads| && InsideOf(c, u, p);
      SettledInside(c, u, p);
      SettledInside(c', u, p);
    }
  }

  lemma ElsewhereStep(par: Params, c: Config, l: Label, p: string)
    requires Inv(par, false, c) && Next(par, c, l).Some?
    requires c.threads[l.t].Inside? && !c.threads[l.t].cs.Finished? && c.threads[l.t].p != p
    ensures SettledAt(Next(par, c, l).value, p) == SettledAt(c, p)
  {
    var c' := Next(par, c, l).value;
    assert Restrict(c'.store, p) == Restrict(c.store, p) by { InsideEffect(par, false, c, l); }
    InsideMoves(par, c, l);
    assert HoldersOk(c') by { NextKeepsLocks(par, c, l); }
    SettledStays(c, c', l.t, c'.threads[l.t], p);
  }

  lemma IdleMoves(par: Params, c: Config, l: Label)
    requires Next(par, c, l).Some? && (!c.threads[l.t].Inside? || c.threads[l.t].cs.Finished?)
    ensures var c', pc := Next(par, c, l).value, c.threads[l.t]; var pc' := c'.threads[l.t];
      && Moves(c, c', l.t, pc') && c'.store == c.store
      && (pc'.Inside? <==> pc.NeedMutex?)
      && (pc.NeedMutex? ==> pc.m !in c.held && pc'.p == pc.p && pc'.cs == Begin(pc.job))
  {
    match c.threads[l.t]
    case Called(_) => CalledShape(par, c, l);
    case _ =>
  }

  /** Coming and going leaves the slice as it is. */
  lemma IdleStep(par: Params, c: Config, l: Label, p: string)
    requires Inv(par, false, c) && Next(par, c, l).Some?
    requires !c.threads[l.t].Inside? || c.threads[l.t].cs.Finished?
    ensures SettledAt(Next(par, c, l).value, p) == SettledAt(c, p)
  {
    var c', pc := Next(par, c, l).value, c.threads[l.t];
    IdleMoves(par, c, l);
    assert HoldersOk(c') by { NextKeepsLocks(par, c, l); }
    if InsideOf(c', l.t, p) {
      Arrives(c, c', l.t, p);
    } else if InsideOf(c, l.t, p) {
      Leaves(c, c', l.t, c'.threads[l.t], p);
    } else {
      SettledStays(c, c', l.t, c'.threads[l.t], p);
    }
  }

  lemma Arrives(c: Config, c': Config, t: nat, p: string)
    requires LocksOk(c) && HoldersOk(c) && HoldersOk(c') && c'.store == c.store
    requires t < |c.threads| && c.threads[t].NeedMutex? && c.threads[t].p == p && c.threads[t].m !in c.held
    requires InsideOf(c', t, p) && c'.threads[t].cs == Begin(c.threads[t].job)
    ensures SettledAt(c', p) == SettledAt(c, p)
  {
    NobodyHolds(c, t);
    SettledInside(c', t, p);
  }

  lemma Leaves(c: Config, c': Config, t: nat, pc': Pc, p: string)
    requires HoldersOk(c) && c'.store == c.store && InsideOf(c, t, p) && c.threads[t].cs.Finished?
    requires Moves(c, c', t, pc') && !pc'.Inside?
    ensures SettledAt(c', p) == SettledAt(c, p)
  {
    SettledInside(c, t, p);
    forall u | 0 <= u < |c'.threads| ensures !InsideOf(c', u, p) {
      if InsideOf(c', u, p) { MutualExclusion(c, p, t, u); }
    }
  }
}
