/** Identifiers: a prefix, a dash and the decimal rendering of a counter value. */
module Ids {

  const RES := "res"
  const EVT := "evt"

  function Digit(d: nat): char
    requires d < 10
  {
    "0123456789"[d]
  }

  function Decimal(n: nat): string {
    if n < 10 then [Digit(n)] else Decimal(n / 10) + [Digit(n % 10)]
  }

  function MakeId(prefix: string, n: nat): string {
    prefix + "-" + Decimal(n)
  }

  // ----- Reading ids back -----

  /** The number a string of decimal digits spells. */
  function Value(s: string): int {
    if s == "" then 0 else 10 * Value(s[..|s| - 1]) + (s[|s| - 1] as int - '0' as int)
  }

  /** `s` is the decimal numeral of `n`: digits, no leading zero, and their value. */
  predicate Numeral(s: string, n: nat) {
    && s != "" && (forall c | c in s :: '0' <= c <= '9')
    && (s[0] == '0' ==> s == "0")
    && Value(s) == n
  }

  lemma DigitReads(d: nat)
    requires d < 10
    ensures Digit(d) as int == '0' as int + d
  {
    var digits := "0123456789";
    assert forall i | 0 <= i < 10 :: digits[i] as int == '0' as int + i;
  }

  /** Rendering a counter value gives its numeral. */
  lemma {:induction false} DecimalReads(n: nat)
    ensures Numeral(Decimal(n), n) && (n > 0 ==> Decimal(n)[0] != '0')
  {
    DigitReads(n % 10);
    var s := Decimal(n);
    if n >= 10 {
      DecimalReads(n / 10);
      assert s[..|s| - 1] == Decimal(n / 10);
    } else {
      assert s[..0] == "";
    }
  }

  lemma {:induction false} LeadingDigit(s: string)
    requires s != "" && (forall c | c in s :: '0' <= c <= '9') && s[0] != '0'
    ensures Value(s) > 0
  {
    var front := s[..|s| - 1];
    assert s[|s| - 1] in s;
    if front != "" {
      assert forall c | c in front :: c in s;
      LeadingDigit(front);
    }
  }

  /** There is no other numeral. */
  lemma {:induction false} NumeralIsDecimal(s: string, n: nat)
    requires Numeral(s, n)
    ensures s == Decimal(n)
    decreases |s|
  {
    var front, d := s[..|s| - 1], s[|s| - 1] as int - '0' as int;
    assert s[|s| - 1] in s;
    assert n == 10 * Value(front) + d && 0 <= d < 10;
    DigitReads(d);
    if front != "" {
      assert forall c | c in front :: c in s;
      LeadingDigit(front);
      NumeralIsDecimal(front, n / 10);
    }
  }

  lemma {:induction false} PaddedValue(s: string)
    ensures Value("0" + s) == Value(s)
  {
    var z := "0" + s;
    if s == "" {
      assert z[..0] == "";
    } else {
      PaddedValue(s[..|s| - 1]);
      assert z[..|z| - 1] == "0" + s[..|s| - 1];
    }
  }

  /** `id` is `prefix` followed by the numeral of `n`. */
  predicate Reads(id: string, prefix: string, n: nat) {
    |id| >= |prefix| && id[..|prefix|] == prefix && Numeral(id[|prefix|..], n)
  }

  /** An id is its prefix, a dash and the counter value in decimal, and nothing else reads so. */
  lemma MakeIdReads(prefix: string, n: nat, id: string)
    ensures id == MakeId(prefix, n) <==> Reads(id, prefix + "-", n)
  {
    DecimalReads(n);
    var m := MakeId(prefix, n);
    assert m[..|prefix + "-"|] == prefix + "-" && m[|prefix + "-"|..] == Decimal(n);
    if Reads(id, prefix + "-", n) {
      NumeralIsDecimal(id[|prefix + "-"|..], n);
      assert id == id[..|prefix + "-"|] + id[|prefix + "-"|..];
    }
  }

  lemma DecimalInjective(m: nat, n: nat)
    requires Decimal(m) == Decimal(n)
    ensures m == n
  {
    DecimalReads(m);
    DecimalReads(n);
  }

  /** The two kinds of id the service draws. */
  lemma IdText(n: nat)
    ensures Reads(MakeId(RES, n), "res-", n) && Reads(MakeId(EVT, n), "evt-", n)
  {
    assert RES + "-" == "res-" && EVT + "-" == "evt-";
    MakeIdReads(RES, n, MakeId(RES, n));
    MakeIdReads(EVT, n, MakeId(EVT, n));
  }

  /** Two draws give the same identifier only when prefix and counter value agree. */
  lemma MakeIdInjective(p: string, m: nat, q: string, n: nat)
    requires p in {RES, EVT} && q in {RES, EVT}
    requires MakeId(p, m) == MakeId(q, n)
    ensures p == q && m == n
  {
    var x, y := MakeId(p, m), MakeId(q, n);
    assert x[0] == p[0] && y[0] == q[0];
    assert x[4..] == Decimal(m) && y[4..] == Decimal(n);
    DecimalInjective(m, n);
  }

  /** `id` was drawn with this prefix before the counter passed `n`. */
  ghost predicate Drawn(prefix: string, id: string, n: nat) {
    exists k: nat | 1 <= k <= n :: id == MakeId(prefix, k)
  }

  /** The next draw, with either prefix, is none of the ids drawn so far. */
  lemma CounterIsNew(prefix: string, id: string, n: nat, other: string)
    requires prefix in {RES, EVT} && other in {RES, EVT} && Drawn(prefix, id, n)
    ensures id != MakeId(other, n + 1)
  {
    var k: nat :| 1 <= k <= n && id == MakeId(prefix, k);
    if id == MakeId(other, n + 1) {
      MakeIdInjective(prefix, k, other, n + 1);
    }
  }

  /** So every id drawn reads as its prefix and a number the counter has passed. */
  lemma DrawnReads(id: string, n: nat)
    ensures Drawn(RES, id, n) ==> exists k: nat | 1 <= k <= n :: Reads(id, "res-", k)
    ensures Drawn(EVT, id, n) ==> exists k: nat | 1 <= k <= n :: Reads(id, "evt-", k)
  {
    if Drawn(RES, id, n) {
      var k: nat :| 1 <= k <= n && id == MakeId(RES, k);
      IdText(k);
    }
    if Drawn(EVT, id, n) {
      var k: nat :| 1 <= k <= n && id == MakeId(EVT, k);
      IdText(k);
    }
  }

  lemma DrawnLater(prefix: string, id: string, m: nat, n: nat)
    requires Drawn(prefix, id, m) && m <= n
    ensures Drawn(prefix, id, n)
  {
  }

  /** A reservation id and an event id never coincide. */
  lemma PrefixesDiffer(a: string, b: string, n: nat)
    requires Drawn(RES, a, n) && Drawn(EVT, b, n)
    ensures a != b
  {
    var j: nat :| 1 <= j <= n && a == MakeId(RES, j);
    var k: nat :| 1 <= k <= n && b == MakeId(EVT, k);
    if a == b { MakeIdInjective(RES, j, EVT, k); }
  }
}
