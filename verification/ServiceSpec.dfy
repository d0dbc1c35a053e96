/** The service's operations for a caller who is alone: each as a function of the store,
    the id counter and the time. */
module ServiceSpec {
  import opened Domain
  import opened Ids
  import opened Stores
  import opened Section
  import opened Meaning

  /** The next `k` event ids after `n`. */
  function EvtIds(n: nat, k: nat): (r: seq<string>)
    ensures |r| == k
  {
    seq(k, i requires 0 <= i < k => MakeId(EVT, n + 1 + i))
  }

  /** The decision of ReserveItem, once p's stale holds are gone. */
  function Decide(holdFor: int, p: string, user: string, now: int, s: Store, n: nat): (Store, nat, Outcome) {
    if p !in s.products then (s, n, Failed(ProductNotFound))
    else if s.products[p].AvailableStock() <= 0 then
      (s.AppendEvent(RejectedEvent(p, user, now, MakeId(EVT, n + 1))), n + 1, Failed(OutOfStock))
    else
      var r := NewHold(MakeId(RES, n + 1), p, user, now, holdFor);
      (s.AddHold(r, MakeId(EVT, n + 2)), n + 2, Got(r))
  }

  function ReserveSpec(holdFor: int, p: string, user: string, now: int, s: Store, n: nat,
      order: seq<string>): (Store, nat, Outcome) {
    Decide(holdFor, p, user, now, EndAll(s, order, now, EvtIds(n, |order|)), n + |order|)
  }

  lemma EvtIdsCons(n: nat, k: nat)
    requires k > 0
    ensures EvtIds(n, k) == [MakeId(EVT, n + 1)] + EvtIds(n + 1, k - 1)
  {
  }

  /** Expiring one more at the end of the list. */
  lemma {:induction false} EndAllSnoc(s: Store, ids: seq<string>, now: int, n: nat, id: string)
    ensures EndAll(s, ids + [id], now, EvtIds(n, |ids| + 1))
         == EndAll(s, ids, now, EvtIds(n, |ids|)).End(id, ToExpired, now, MakeId(EVT, n + |ids| + 1))
    decreases |ids|
  {
    EvtIdsCons(n, |ids| + 1);
    assert EvtIds(n, |ids| + 1)[1..] == EvtIds(n + 1, |ids|);
    if ids == [] {
      assert ids + [id] == [id] && [id][1..] == [];
    } else {
      EvtIdsCons(n, |ids|);
      assert EvtIds(n, |ids|)[1..] == EvtIds(n + 1, |ids| - 1);
      assert (ids + [id])[1..] == ids[1..] + [id];
      EndAllSnoc(s.End(ids[0], ToExpired, now, MakeId(EVT, n + 1)), ids[1..], now, n + 1, id);
    }
  }

  lemma EndAllOne(s: Store, id: string, now: int, n: nat)
    ensures EndAll(s, [id], now, EvtIds(n, 1)) == s.End(id, ToExpired, now, MakeId(EVT, n + 1))
  {
    assert [] + [id] == [id];
    EndAllSnoc(s, [], now, n, id);
    assert EndAll(s, [], now, EvtIds(n, 0)) == s;
  }

  /** Expiring one list and then another is expiring both. */
  lemma {:induction false} EndAllConcat(s: Store, a: seq<string>, b: seq<string>, now: int, n: nat)
    ensures EndAll(s, a + b, now, EvtIds(n, |a| + |b|))
         == EndAll(EndAll(s, a, now, EvtIds(n, |a|)), b, now, EvtIds(n + |a|, |b|))
    decreases |a|
  {
    if a == [] {
      assert a + b == b;
    } else {
      var t := s.End(a[0], ToExpired, now, MakeId(EVT, n + 1));
      assert (a + b)[1..] == a[1..] + b;
      assert EvtIds(n, |a| + |b|)[1..] == EvtIds(n + 1, |a| - 1 + |b|);
      assert EvtIds(n, |a|)[1..] == EvtIds(n + 1, |a| - 1);
      EndAllConcat(t, a[1..], b, now, n + 1);
    }
  }
}
